/** Traffic counters: bulk reports, point reads, and what a resetting read takes away. */
module StatsSpec {
  import opened StatNames
  import opened Sorting

  type Counters = map<string, int>

  datatype Traffic = Traffic(uplink: int, downlink: int)

  const NO_TRAFFIC := Traffic(0, 0)

  /** A missing counter reads as zero. */
  function Value(counters: Counters, name: string): int {
    if name in counters then counters[name] else 0
  }

  /** InboundStats and OutboundStats. */
  function PointStats(counters: Counters, prefix: string, tag: string): Traffic {
    Traffic(Value(counters, TrafficName(prefix, tag, UPLINK)), Value(counters, TrafficName(prefix, tag, DOWNLINK)))
  }

  /** The tags that some counter of this kind is for. */
  function Tags(counters: Counters, prefix: string): set<string> {
    set name | name in counters && ParseTraffic(name, prefix).Some? :: ParseTraffic(name, prefix).value.0
  }

  /** One entry for each tag, equal to the point read of that tag. */
  function Report(counters: Counters, prefix: string): map<string, Traffic> {
    map tag | tag in Tags(counters, prefix) :: PointStats(counters, prefix, tag)
  }

  /** UsersStats leaves out users without traffic. */
  function Shown(report: map<string, Traffic>, dropZero: bool): map<string, Traffic> {
    map tag | tag in report && !(dropZero && report[tag] == NO_TRAFFIC) :: report[tag]
  }

  /** Every counter of this kind set to zero. */
  function Zeroed(counters: Counters, prefix: string): Counters {
    map name | name in counters :: if ParseTraffic(name, prefix).Some? then 0 else counters[name]
  }

  function ZeroIfPresent(counters: Counters, name: string): Counters {
    if name in counters then counters[name := 0] else counters
  }

  /** A tag is listed exactly if it is readable and has a counter in one of the directions. */
  lemma ListedExactly(counters: Counters, prefix: string, tag: string)
    requires IsPrefix(prefix)
    ensures tag in Report(counters, prefix) <==>
      Readable(tag) && (TrafficName(prefix, tag, UPLINK) in counters || TrafficName(prefix, tag, DOWNLINK) in counters)
  {
    TrafficNamesExactly(TrafficName(prefix, tag, UPLINK), prefix, tag, UPLINK);
    TrafficNamesExactly(TrafficName(prefix, tag, DOWNLINK), prefix, tag, DOWNLINK);
    if tag in Report(counters, prefix) {
      var name :| name in counters && ParseTraffic(name, prefix).Some? && ParseTraffic(name, prefix).value.0 == tag;
      TrafficNamesExactly(name, prefix, tag, ParseTraffic(name, prefix).value.1);
    }
  }

  // ---- a bulk read, counter by counter ------------------------------------------------------

  function Item(byTag: map<string, Traffic>, tag: string): Traffic {
    if tag in byTag then byTag[tag] else NO_TRAFFIC
  }

  /** applyDirection */
  function Applied(item: Traffic, direction: string, value: int): Traffic {
    if direction == UPLINK then item.(uplink := item.uplink + value)
    else if direction == DOWNLINK then item.(downlink := item.downlink + value)
    else item
  }

  /** The report after visiting one more counter. */
  function Visited(report: map<string, Traffic>, prefix: string, name: string, value: int): map<string, Traffic> {
    match ParseTraffic(name, prefix)
    case None => report
    case Some((tag, direction)) => report[tag := Applied(Item(report, tag), direction, value)]
  }

  lemma VisitOne(seen: Counters, prefix: string, name: string, value: int)
    requires IsPrefix(prefix) && name !in seen
    ensures Report(seen[name := value], prefix) == Visited(Report(seen, prefix), prefix, name, value)
  {
    var left, right := Report(seen[name := value], prefix), Visited(Report(seen, prefix), prefix, name, value);
    forall tag ensures tag in left <==> tag in right
               ensures tag in left ==> left[tag] == right[tag]
    {
      VisitOneAt(seen, prefix, name, value, tag);
    }
    assert left.Keys == right.Keys;
  }

  /** `seen` has the values of `before` except those still to visit. */
  ghost predicate SeenBut(seen: Counters, before: Counters, names: set<string>) {
    && names <= before.Keys && seen.Keys == before.Keys - names
    && forall name | name in seen :: seen[name] == before[name]
  }

  lemma SeesOneMore(seen: Counters, before: Counters, names: set<string>, name: string)
    requires SeenBut(seen, before, names) && name in names
    ensures SeenBut(seen[name := before[name]], before, names - {name})
  {
  }

  /** The counters in the middle of a visit. */
  ghost function ResetBut(before: Counters, names: set<string>, prefix: string, reset: bool): Counters {
    map name | name in before :: if reset && name !in names && ParseTraffic(name, prefix).Some? then 0 else before[name]
  }

  lemma ResetsOneMore(before: Counters, names: set<string>, prefix: string, reset: bool, name: string)
    requires name in before && name in names
    ensures ResetBut(before, names, prefix, reset)[name] == before[name]
    ensures ResetBut(before, names - {name}, prefix, reset)
         == var middle := ResetBut(before, names, prefix, reset);
            if reset && ParseTraffic(name, prefix).Some? then middle[name := 0] else middle
  {
  }

  lemma VisitIsOver(seen: Counters, before: Counters, prefix: string, reset: bool)
    requires SeenBut(seen, before, {})
    ensures seen == before
    ensures ResetBut(before, {}, prefix, reset) == if reset then Zeroed(before, prefix) else before
  {
  }

  lemma VisitOneAt(seen: Counters, prefix: string, name: string, value: int, tag: string)
    requires IsPrefix(prefix) && name !in seen
    ensures var left, right := Report(seen[name := value], prefix), Visited(Report(seen, prefix), prefix, name, value);
      (tag in left <==> tag in right) && (tag in left ==> left[tag] == right[tag])
  {
    ListedExactly(seen, prefix, tag);
    ListedExactly(seen[name := value], prefix, tag);
    if Readable(tag) {
      VisitPoint(seen, prefix, name, value, tag);
    } else if ParseTraffic(name, prefix).Some? {
      ReadIsReadable(name, prefix);
    }
  }

  lemma ReadIsReadable(name: string, prefix: string)
    requires IsPrefix(prefix) && ParseTraffic(name, prefix).Some?
    ensures Readable(ParseTraffic(name, prefix).value.0)
  {
    var (tag, direction) := ParseTraffic(name, prefix).value;
    TrafficNamesExactly(name, prefix, tag, direction);
  }

  /** One more counter changes the point read of its own tag, in its own direction. */
  lemma VisitPoint(seen: Counters, prefix: string, name: string, value: int, tag: string)
    requires IsPrefix(prefix) && name !in seen && Readable(tag)
    ensures var parsed := ParseTraffic(name, prefix);
      PointStats(seen[name := value], prefix, tag)
        == if parsed.Some? && parsed.value.0 == tag then Applied(PointStats(seen, prefix, tag), parsed.value.1, value)
           else PointStats(seen, prefix, tag)
    ensures name == TrafficName(prefix, tag, UPLINK) || name == TrafficName(prefix, tag, DOWNLINK) <==>
      ParseTraffic(name, prefix).Some? && ParseTraffic(name, prefix).value.0 == tag
  {
    TrafficNamesExactly(name, prefix, tag, UPLINK);
    TrafficNamesExactly(name, prefix, tag, DOWNLINK);
  }

  /** A bulk report is strictly sorted, lists each readable tag with a counter once, and says of it
      what a point read says; the users' report is the same without the users who have no traffic. */
  lemma BulkAgreesWithPoint(counters: Counters, prefix: string, dropZero: bool)
    requires IsPrefix(prefix)
    ensures var rows := Listing(Shown(Report(counters, prefix), dropZero));
      && Sorted(rows)
      && forall tag, stats :: (tag, stats) in rows <==>
           && Readable(tag) && stats == PointStats(counters, prefix, tag)
           && (TrafficName(prefix, tag, UPLINK) in counters || TrafficName(prefix, tag, DOWNLINK) in counters)
           && !(dropZero && stats == NO_TRAFFIC)
  {
    var shown := Shown(Report(counters, prefix), dropZero);
    var rows := Listing(shown);
    ListingLists(shown);
    forall tag, stats
      ensures (tag, stats) in rows <==>
        tag in Report(counters, prefix) && stats == PointStats(counters, prefix, tag) && !(dropZero && stats == NO_TRAFFIC)
    {
      if tag in shown { assert (tag, shown[tag]) in rows; }
      if (tag, stats) in rows { assert (tag, stats).0 in shown; }
    }
    forall tag
      ensures tag in Report(counters, prefix) <==>
        Readable(tag) && (TrafficName(prefix, tag, UPLINK) in counters || TrafficName(prefix, tag, DOWNLINK) in counters)
    {
      ListedExactly(counters, prefix, tag);
    }
  }

  // ---- resets -------------------------------------------------------------------------------

  /** A resetting bulk read of one kind leaves every report of the other kinds as it was. */
  lemma {:induction false} ResetLeavesOtherKinds(counters: Counters, prefix: string, prefix': string)
    requires IsPrefix(prefix) && IsPrefix(prefix') && prefix != prefix'
    ensures forall name | ParseTraffic(name, prefix).None? :: Value(Zeroed(counters, prefix), name) == Value(counters, name)
    ensures Report(Zeroed(counters, prefix), prefix') == Report(counters, prefix')
  {
    var zeroed := Zeroed(counters, prefix);
    forall tag ensures PointStats(zeroed, prefix', tag) == PointStats(counters, prefix', tag) {
      TrafficRoundTrip(prefix', tag, UPLINK, prefix);
      TrafficRoundTrip(prefix', tag, DOWNLINK, prefix);
    }
    SamePointsSameReport(zeroed, counters, prefix');
  }

  lemma SamePointsSameReport(counters: Counters, counters': Counters, prefix: string)
    requires counters.Keys == counters'.Keys
    requires forall tag :: PointStats(counters, prefix, tag) == PointStats(counters', prefix, tag)
    ensures Report(counters, prefix) == Report(counters', prefix)
  {
    assert Tags(counters, prefix) == Tags(counters', prefix);
  }

  /** After a resetting bulk read the same tags are listed, all without traffic. */
  lemma ResetClearsItsKind(counters: Counters, prefix: string)
    requires IsPrefix(prefix)
    ensures Report(Zeroed(counters, prefix), prefix).Keys == Report(counters, prefix).Keys
    ensures forall tag | tag in Report(Zeroed(counters, prefix), prefix) ::
      Report(Zeroed(counters, prefix), prefix)[tag] == NO_TRAFFIC
  {
    var zeroed := Zeroed(counters, prefix);
    assert Tags(zeroed, prefix) == Tags(counters, prefix);
    forall tag | tag in Report(zeroed, prefix) ensures PointStats(zeroed, prefix, tag) == NO_TRAFFIC {
      ListedExactly(zeroed, prefix, tag);
      TrafficRoundTrip(prefix, tag, UPLINK, prefix);
      TrafficRoundTrip(prefix, tag, DOWNLINK, prefix);
    }
  }

  // ---- nothing is lost and nothing is counted twice -----------------------------------------

  /** Traffic is counted, or read at a point or in bulk, with or without a reset. */
  datatype Event =
    | Count(name: string, amount: int)
    | PointRead(prefix: string, tag: string, reset: bool)
    | BulkRead(prefix: string, reset: bool)

  predicate WellFormed(event: Event) {
    event.Count? || IsPrefix(event.prefix)
  }

  function After(counters: Counters, event: Event): Counters {
    match event
    case Count(name, amount) => counters[name := Value(counters, name) + amount]
    case PointRead(prefix, tag, reset) =>
      var uplinkRead := if reset then ZeroIfPresent(counters, TrafficName(prefix, tag, UPLINK)) else counters;
      if reset then ZeroIfPresent(uplinkRead, TrafficName(prefix, tag, DOWNLINK)) else uplinkRead
    case BulkRead(prefix, reset) => if reset then Zeroed(counters, prefix) else counters
  }

  function InDirection(item: Traffic, direction: string): int {
    if direction == UPLINK then item.uplink else item.downlink
  }

  /** What the answer of a resetting read says about a counter. */
  function Taken(counters: Counters, event: Event, name: string): int {
    match event
    case PointRead(prefix, tag, true) =>
      var stats := PointStats(counters, prefix, tag);
      if name == TrafficName(prefix, tag, UPLINK) then stats.uplink
      else if name == TrafficName(prefix, tag, DOWNLINK) then stats.downlink
      else 0
    case BulkRead(prefix, true) =>
      (match ParseTraffic(name, prefix)
       case None => 0
       case Some((tag, direction)) =>
         InDirection(Item(Shown(Report(counters, prefix), prefix == USER), tag), direction))
    case _ => 0
  }

  function Counted(event: Event, name: string): int {
    if event.Count? && event.name == name then event.amount else 0
  }

  lemma StepConserves(counters: Counters, event: Event, name: string)
    requires WellFormed(event)
    ensures Value(After(counters, event), name) + Taken(counters, event, name)
         == Value(counters, name) + Counted(event, name)
  {
    match event
    case BulkRead(prefix, true) =>
      var parsed := ParseTraffic(name, prefix);
      if parsed.Some? {
        TrafficNamesExactly(name, prefix, parsed.value.0, parsed.value.1);
        ListedExactly(counters, prefix, parsed.value.0);
      }
    case PointRead(prefix, tag, true) =>
      if TrafficName(prefix, tag, UPLINK) == TrafficName(prefix, tag, DOWNLINK) {
        TrafficNamesDiffer(prefix, tag, UPLINK, prefix, tag, DOWNLINK);
      }
    case _ =>
  }

  function AfterAll(counters: Counters, events: seq<Event>): Counters {
    if events == [] then counters else After(AfterAll(counters, events[..|events| - 1]), events[|events| - 1])
  }

  /** The total the resetting reads of a series reported for a counter. */
  function AllTaken(counters: Counters, events: seq<Event>, name: string): int {
    if events == [] then 0
    else
      var front := events[..|events| - 1];
      AllTaken(counters, front, name) + Taken(AfterAll(counters, front), events[|events| - 1], name)
  }

  function AllCounted(events: seq<Event>, name: string): int {
    if events == [] then 0 else AllCounted(events[..|events| - 1], name) + Counted(events[|events| - 1], name)
  }

  /** Over any series of counting and reading, what was counted is what the resetting reads
      reported plus what the counter still holds. */
  lemma {:induction false} TrafficIsConserved(counters: Counters, events: seq<Event>, name: string)
    requires forall event | event in events :: WellFormed(event)
    ensures AllTaken(counters, events, name) + Value(AfterAll(counters, events), name)
         == Value(counters, name) + AllCounted(events, name)
  {
    if events != [] {
      var front := events[..|events| - 1];
      TrafficIsConserved(counters, front, name);
      StepConserves(AfterAll(counters, front), events[|events| - 1], name);
    }
  }
}

/** The statistics client over a mutable counter table. */
module Stats {
  import opened Wrappers
  import opened StatNames
  import opened Sorting
  import opened StatsSpec

  type OnlineMap = map<string, int>

  /** GetOnlineMap; none if nobody by that name was ever online. */
  function OnlineMapOf(online: map<string, OnlineMap>, name: string): OnlineMap {
    if name in online then online[name] else map[]
  }

  /** The addresses of a user in order. */
  ghost function IPs(online: map<string, OnlineMap>, username: string): seq<(string, int)> {
    Listing(OnlineMapOf(online, OnlineName(username)))
  }

  /** The users that some of the raw names are for. */
  function UsersIn(raw: seq<string>): set<string> {
    set i | 0 <= i < |raw| && ParseOnline(raw[i]).Some? :: ParseOnline(raw[i]).value
  }

  lemma UsersExactly(raw: seq<string>, username: string)
    ensures username in UsersIn(raw) <==> Readable(username) && OnlineName(username) in raw
  {
    if username in UsersIn(raw) {
      var i :| 0 <= i < |raw| && ParseOnline(raw[i]) == Some(username);
      OnlineNamesExactly(raw[i], username);
    }
    OnlineNamesExactly(OnlineName(username), username);
  }

  /** Users with an address, each with the addresses the single-user query gives. */
  ghost function OnlineReport(online: map<string, OnlineMap>, raw: seq<string>): map<string, seq<(string, int)>> {
    map username | username in UsersIn(raw) && IPs(online, username) != [] :: IPs(online, username)
  }

  class StatsManager {
    var counters: Counters

    /** Per online name, the addresses seen and when each was last seen. */
    var online: map<string, OnlineMap>

    constructor ()
      ensures counters == map[] && online == map[]
    {
      counters, online := map[], map[];
    }

    /** embeddedCounterValue; reading and resetting happen in one step. */
    method CounterValue(name: string, reset: bool) returns (value: int)
      modifies this`counters
      ensures value == Value(old(counters), name)
      ensures counters == if reset then ZeroIfPresent(old(counters), name) else old(counters)
    {
      if name !in counters {
        return 0;
      }
      value := counters[name];
      if reset {
        counters := counters[name := 0];
      }
    }

    /** InboundStats, and OutboundStats for the other prefix. */
    method TagStats(prefix: string, tag: string, reset: bool) returns (stats: Traffic)
      requires IsPrefix(prefix)
      modifies this`counters
      ensures stats == PointStats(old(counters), prefix, tag)
      ensures counters == After(old(counters), PointRead(prefix, tag, reset))
    {
      if TrafficName(prefix, tag, UPLINK) == TrafficName(prefix, tag, DOWNLINK) {
        TrafficNamesDiffer(prefix, tag, UPLINK, prefix, tag, DOWNLINK);
      }
      var uplink := CounterValue(TrafficName(prefix, tag, UPLINK), reset);
      var downlink := CounterValue(TrafficName(prefix, tag, DOWNLINK), reset);
      stats := Traffic(uplink, downlink);
    }

    /** The visit of AllInboundStats, AllOutboundStats and UsersStats, counters in any order. */
    method VisitCounters(prefix: string, reset: bool) returns (byTag: map<string, Traffic>)
      requires IsPrefix(prefix)
      modifies this`counters
      ensures byTag == Report(old(counters), prefix)
      ensures counters == After(old(counters), BulkRead(prefix, reset))
    {
      byTag := map[];
      var names := counters.Keys;
      ghost var before, seen: Counters := counters, map[];
      while names != {}
        invariant SeenBut(seen, before, names)
        invariant byTag == Report(seen, prefix)
        invariant counters == ResetBut(before, names, prefix, reset)
        decreases names
      {
        var name :| name in names;
        SeesOneMore(seen, before, names, name);
        ResetsOneMore(before, names, prefix, reset, name);
        var value := counters[name];
        VisitOne(seen, prefix, name, value);
        var parsed := ParseTraffic(name, prefix);
        if parsed.Some? {
          var (tag, direction) := parsed.value;
          byTag := byTag[tag := Applied(Item(byTag, tag), direction, value)];
          if reset {
            counters := counters[name := 0];
          }
        }
        seen := seen[name := value];
        names := names - {name};
      }
      VisitIsOver(seen, before, prefix, reset);
    }

    /** AllInboundStats, and AllOutboundStats for the other prefix. */
    method AllTagStats(prefix: string, reset: bool) returns (rows: seq<(string, Traffic)>)
      requires IsPrefix(prefix)
      modifies this`counters
      ensures rows == Listing(Report(old(counters), prefix))
      ensures counters == After(old(counters), BulkRead(prefix, reset))
    {
      var byTag := VisitCounters(prefix, reset);
      rows := ListMap(byTag);
    }

    method UsersStats(reset: bool) returns (rows: seq<(string, Traffic)>)
      modifies this`counters
      ensures rows == Listing(Shown(Report(old(counters), USER), true))
      ensures counters == After(old(counters), BulkRead(USER, reset))
    {
      var byUser := VisitCounters(USER, reset);
      rows := ListMap(Shown(byUser, true));
    }

    /** onlineIPList */
    method OnlineIPList(username: string) returns (ips: seq<(string, int)>)
      ensures ips == IPs(online, username)
    {
      ips := ListMap(OnlineMapOf(online, OnlineName(username)));
    }

    /** onlineUsersIPList; `raw` is what the manager lists, in any order and with any repetition. */
    method OnlineUsersIPList(raw: seq<string>) returns (rows: seq<(string, seq<(string, int)>)>)
      ensures rows == Listing(OnlineReport(online, raw))
    {
      rows := [];
      var seen: set<string> := {};
      for i := 0 to |raw|
        invariant seen == UsersIn(raw[..i]) && Gathered(online, rows, seen)
      {
        UsersOneMore(raw, i);
        var parsed := ParseOnline(raw[i]);
        if parsed.Some? && parsed.value !in seen {
          OnlineNamesExactly(raw[i], parsed.value);
          GatherOne(online, rows, seen, parsed.value);
          seen := seen + {parsed.value};
          var ips := ListMap(OnlineMapOf(online, raw[i]));
          if |ips| != 0 {
            rows := rows + [(parsed.value, ips)];
          }
        }
      }
      assert raw[..|raw|] == raw;
      GatheredIsReport(online, rows, raw);
      rows := Sort(rows);
    }
  }

  /** One row for each user seen who has an address. */
  ghost predicate Gathered(online: map<string, OnlineMap>, rows: seq<(string, seq<(string, int)>)>, seen: set<string>) {
    && DistinctKeys(rows)
    && (forall x | x in rows :: x.0 in seen && x.1 == IPs(online, x.0) && x.1 != [])
    && (forall u | u in seen && IPs(online, u) != [] :: (u, IPs(online, u)) in rows)
  }

  lemma UsersOneMore(raw: seq<string>, i: nat)
    requires i < |raw|
    ensures UsersIn(raw[..i + 1])
         == UsersIn(raw[..i]) + if ParseOnline(raw[i]).Some? then {ParseOnline(raw[i]).value} else {}
  {
    assert raw[..i + 1] == raw[..i] + [raw[i]];
  }

  lemma GatherOne(online: map<string, OnlineMap>, rows: seq<(string, seq<(string, int)>)>, seen: set<string>, user: string)
    requires Gathered(online, rows, seen) && user !in seen
    ensures var ips := IPs(online, user);
      Gathered(online, if ips == [] then rows else rows + [(user, ips)], seen + {user})
  {
    assert forall j | 0 <= j < |rows| :: rows[j] in rows;
  }

  lemma GatheredIsReport(online: map<string, OnlineMap>, rows: seq<(string, seq<(string, int)>)>, raw: seq<string>)
    requires Gathered(online, rows, UsersIn(raw))
    ensures Sort(rows) == Listing(OnlineReport(online, raw))
  {
    var report := OnlineReport(online, raw);
    SortLists(rows, report);
    ListingLists(report);
    ListsIsUnique(Sort(rows), Listing(report), report);
  }
}
