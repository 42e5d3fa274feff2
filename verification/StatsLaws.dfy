/** What the traffic and online reports say, with every counter name written out. */
module StatsLaws {
  import opened Wrappers
  import opened Sorting
  import opened StatNames
  import opened StatsSpec
  import Stats

  predicate ArrowsAt(tag: string, i: nat) {
    i + 3 <= |tag| && tag[i..i + 3] == ">>>"
  }

  /** Not empty, no ">>>" inside and no '>' at the end. */
  predicate Plain(tag: string) {
    tag != "" && tag[|tag| - 1] != '>' && forall i: nat | i < |tag| :: !ArrowsAt(tag, i)
  }

  lemma PlainIsReadable(tag: string)
    ensures Plain(tag) <==> Readable(tag)
  {
    forall i: nat | i < |tag| ensures SepAt(tag, i) <==> ArrowsAt(tag, i) {
      if i + 3 <= |tag| { assert tag[i..i + 3] == [tag[i], tag[i + 1], tag[i + 2]]; }
    }
  }

  /** The name of a traffic counter. */
  function Named(kind: string, tag: string, direction: string): string {
    kind + ">>>" + tag + ">>>traffic>>>" + direction
  }

  lemma NameInFull(kind: string, tag: string, direction: string)
    ensures TrafficName(kind, tag, direction) == Named(kind, tag, direction)
  {
    assert ">>>traffic>>>" == ">>>" + "traffic" + ">>>";
    assert kind + ">>>" + tag + (">>>" + "traffic" + ">>>") + direction
        == kind + ">>>" + tag + ">>>" + "traffic" + ">>>" + direction;
  }

  function Read(counters: Counters, name: string): int {
    if name in counters then counters[name] else 0
  }

  predicate IsKind(kind: string) {
    kind in {"user", "inbound", "outbound"}
  }

  /** The parser accepts exactly these names, and tells tag and direction. */
  lemma ParsesInFull(name: string, kind: string, tag: string, direction: string)
    requires IsKind(kind)
    ensures ParseTraffic(name, kind) == Some((tag, direction)) <==>
      Plain(tag) && direction in {"uplink", "downlink"} && name == Named(kind, tag, direction)
  {
    TrafficNamesExactly(name, kind, tag, direction);
    PlainIsReadable(tag);
    NameInFull(kind, tag, direction);
  }

  /** A point read, readable tag or not. */
  lemma PointReadInFull(counters: Counters, kind: string, tag: string)
    ensures PointStats(counters, kind, tag)
         == Traffic(Read(counters, Named(kind, tag, "uplink")), Read(counters, Named(kind, tag, "downlink")))
  {
    NameInFull(kind, tag, "uplink");
    NameInFull(kind, tag, "downlink");
  }

  /** A bulk report has a row for a tag exactly if it is plain and has a counter in one direction; the
      row holds what the two counters hold. */
  lemma BulkReadInFull(counters: Counters, kind: string, dropZero: bool, tag: string, stats: Traffic)
    requires IsKind(kind)
    ensures (tag, stats) in Listing(StatsSpec.Shown(Report(counters, kind), dropZero)) <==>
      && Plain(tag) && (Named(kind, tag, "uplink") in counters || Named(kind, tag, "downlink") in counters)
      && stats.uplink == Read(counters, Named(kind, tag, "uplink"))
      && stats.downlink == Read(counters, Named(kind, tag, "downlink"))
      && !(dropZero && stats.uplink == 0 && stats.downlink == 0)
  {
    BulkAgreesWithPoint(counters, kind, dropZero);
    PlainIsReadable(tag);
    NameInFull(kind, tag, "uplink");
    NameInFull(kind, tag, "downlink");
  }

  /** A resetting bulk read sets exactly the counters of its kind to zero. */
  lemma BulkResetInFull(counters: Counters, kind: string, name: string)
    requires IsKind(kind) && name in counters
    ensures var after := After(counters, BulkRead(kind, true));
      && after.Keys == counters.Keys
      && after[name] == if exists tag, direction :: IsNamed(kind, name, tag, direction) then 0 else counters[name]
  {
    var parsed := ParseTraffic(name, kind);
    if parsed.Some? {
      ParsesInFull(name, kind, parsed.value.0, parsed.value.1);
      assert IsNamed(kind, name, parsed.value.0, parsed.value.1);
    } else {
      forall tag, direction ensures !IsNamed(kind, name, tag, direction) {
        ParsesInFull(name, kind, tag, direction);
      }
    }
  }

  predicate IsNamed(kind: string, name: string, tag: string, direction: string) {
    Plain(tag) && direction in {"uplink", "downlink"} && name == Named(kind, tag, direction)
  }

  function OnlineNamed(user: string): string {
    "user>>>" + user + ">>>online"
  }

  lemma OnlineNameInFull(user: string)
    ensures OnlineName(user) == OnlineNamed(user)
  {
    assert "user>>>" == "user" + ">>>" && ">>>online" == ">>>" + "online";
    assert "user" + ">>>" + user + (">>>" + "online") == "user" + ">>>" + user + ">>>" + "online";
  }

  /** A user's addresses: what the online map of that name holds, in order. */
  lemma AddressesInFull(online: map<string, Stats.OnlineMap>, user: string)
    ensures Lists(Stats.IPs(online, user), if OnlineNamed(user) in online then online[OnlineNamed(user)] else map[])
  {
    OnlineNameInFull(user);
    ListingLists(Stats.OnlineMapOf(online, OnlineName(user)));
  }

  /** The list of online users has a row exactly for the plain names listed that have an address. */
  lemma OnlineUsersInFull(online: map<string, Stats.OnlineMap>, raw: seq<string>, user: string, ips: seq<(string, int)>)
    ensures (user, ips) in Listing(Stats.OnlineReport(online, raw)) <==>
      Plain(user) && OnlineNamed(user) in raw && ips == Stats.IPs(online, user) && ips != []
  {
    var report := Stats.OnlineReport(online, raw);
    ListingLists(report);
    Stats.UsersExactly(raw, user);
    PlainIsReadable(user);
    OnlineNameInFull(user);
    if user in report { assert (user, report[user]) in Listing(report); }
    if (user, ips) in Listing(report) { assert (user, ips).0 in report; }
  }
}
