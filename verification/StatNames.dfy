/** Counter names: printed with ">>>" between the parts, parsed by a leftmost split. */
module StatNames {
  import opened Wrappers

  const SEP := ">>>"

  const USER := "user"
  const INBOUND := "inbound"
  const OUTBOUND := "outbound"
  const UPLINK := "uplink"
  const DOWNLINK := "downlink"

  predicate IsPrefix(prefix: string) {
    prefix == USER || prefix == INBOUND || prefix == OUTBOUND
  }

  predicate IsDirection(direction: string) {
    direction == UPLINK || direction == DOWNLINK
  }

  predicate SepAt(s: string, i: nat) {
    i + 3 <= |s| && s[i] == '>' && s[i + 1] == '>' && s[i + 2] == '>'
  }

  /** The first separator at or after `i`; |s| if there is none. */
  function Find(s: string, i: nat): (at: nat)
    requires i <= |s|
    ensures i <= at <= |s|
    ensures at < |s| ==> SepAt(s, at)
    ensures forall j: nat | i <= j < at :: !SepAt(s, j)
    decreases |s| - i
  {
    if i + 3 > |s| then |s|
    else if SepAt(s, i) then i
    else Find(s, i + 1)
  }

  /** strings.Split(s, ">>>") */
  function Split(s: string): (parts: seq<string>)
    ensures parts != []
    decreases |s|
  {
    var at := Find(s, 0);
    if at == |s| then [s] else [s[..at]] + Split(s[at + 3..])
  }

  function ParseTraffic(name: string, prefix: string): Option<(string, string)> {
    var parts := Split(name);
    if |parts| != 4 || parts[0] != prefix || parts[2] != "traffic" then None
    else if parts[1] == "" || !IsDirection(parts[3]) then None
    else Some((parts[1], parts[3]))
  }

  function ParseOnline(name: string): Option<string> {
    var parts := Split(name);
    if |parts| != 3 || parts[0] != USER || parts[1] == "" || parts[2] != "online" then None
    else Some(parts[1])
  }

  function TrafficName(prefix: string, tag: string, direction: string): string {
    prefix + SEP + tag + SEP + "traffic" + SEP + direction
  }

  function OnlineName(username: string): string {
    USER + SEP + username + SEP + "online"
  }

  // ---- splitting ----------------------------------------------------------------------------

  predicate HasSep(s: string) {
    exists i: nat | i < |s| :: SepAt(s, i)
  }

  /** A part that a separator may follow without being misread. */
  predicate Separable(s: string) {
    !HasSep(s) && (s == "" || s[|s| - 1] != '>')
  }

  lemma NoSepBefore(part: string, rest: string, i: nat)
    requires Separable(part) && i < |part|
    ensures !SepAt(part + SEP + rest, i)
  {
    var s := part + SEP + rest;
    assert !SepAt(part, i);
    assert s[|part| - 1] == part[|part| - 1] && s[i] == part[i];
    assert i + 1 < |part| ==> s[i + 1] == part[i + 1];
    assert i + 2 < |part| ==> s[i + 2] == part[i + 2];
  }

  /** The first separator of the text is the one after the part. */
  lemma FindsEnd(part: string, rest: string)
    requires Separable(part)
    ensures Find(part + SEP + rest, 0) == |part|
  {
    var at := Find(part + SEP + rest, 0);
    assert SepAt(part + SEP + rest, |part|);
    if at < |part| { NoSepBefore(part, rest, at); }
  }

  lemma SplitsOff(part: string, rest: string)
    requires Separable(part)
    ensures Split(part + SEP + rest) == [part] + Split(rest)
  {
    FindsEnd(part, rest);
    CutParts(part, rest);
  }

  lemma CutParts(part: string, rest: string)
    ensures (part + SEP + rest)[..|part|] == part && (part + SEP + rest)[|part| + 3..] == rest
  {
  }

  /** strings.Join(parts, ">>>") */
  function Join(parts: seq<string>): string
    requires parts != []
  {
    if |parts| == 1 then parts[0] else parts[0] + SEP + Join(parts[1..])
  }

  /** Parts that survive joining and splitting. */
  predicate Splittable(parts: seq<string>)
    requires parts != []
  {
    if |parts| == 1 then !HasSep(parts[0]) else Separable(parts[0]) && Splittable(parts[1..])
  }

  lemma {:induction false} SplitOfJoin(parts: seq<string>)
    requires parts != [] && Splittable(parts)
    ensures Split(Join(parts)) == parts
  {
    if |parts| > 1 {
      SplitsOff(parts[0], Join(parts[1..]));
      SplitOfJoin(parts[1..]);
    }
  }

  lemma {:induction false} JoinOfSplit(s: string)
    ensures Join(Split(s)) == s && Splittable(Split(s))
    decreases |s|
  {
    var at := Find(s, 0);
    if at < |s| {
      var part, rest := s[..at], s[at + 3..];
      FirstPart(s);
      CutAt(s, at);
      JoinOfSplit(rest);
      Prepended(part, Split(rest));
    }
  }

  lemma CutAt(s: string, at: nat)
    requires SepAt(s, at)
    ensures s == s[..at] + SEP + s[at + 3..]
  {
  }

  lemma Prepended(part: string, parts: seq<string>)
    requires parts != []
    ensures Join([part] + parts) == part + SEP + Join(parts)
    ensures Splittable([part] + parts) <==> Separable(part) && Splittable(parts)
  {
    assert ([part] + parts)[1..] == parts;
  }

  lemma FirstPart(s: string)
    requires Find(s, 0) < |s|
    ensures Separable(s[..Find(s, 0)])
  {
    var at := Find(s, 0);
    var part := s[..at];
    forall i: nat | i < |part| ensures !SepAt(part, i) {
      assert !SepAt(s, i);
    }
    if at > 0 {
      assert part[at - 1] == '>' ==> SepAt(s, at - 1);
    }
  }

  /** Splitting is the inverse of joining: a text splits into given parts exactly if it is their
      join and none of them would be misread. */
  lemma SplitExactly(s: string, parts: seq<string>)
    requires parts != []
    ensures Split(s) == parts <==> s == Join(parts) && Splittable(parts)
  {
    JoinOfSplit(s);
    if Splittable(parts) { SplitOfJoin(parts); }
  }

  // ---- parsing is the inverse of printing ---------------------------------------------------

  /** A name that its printed forms give back: not empty, no ">>>" inside, no '>' at the end. */
  predicate Readable(name: string) {
    name != "" && Separable(name)
  }

  lemma PlainIsSeparable(s: string)
    requires '>' !in s
    ensures Separable(s) && !HasSep(s)
  {
  }

  lemma JoinThree(a: string, b: string, c: string)
    ensures Join([a, b, c]) == a + SEP + b + SEP + c
    ensures Splittable([a, b, c]) <==> Separable(a) && Separable(b) && !HasSep(c)
  {
    assert [a, b, c][1..] == [b, c] && [b, c][1..] == [c];
    assert Join([b, c]) == b + SEP + Join([c]) && Join([a, b, c]) == a + SEP + Join([b, c]);
    assert Splittable([b, c]) <==> Separable(b) && Splittable([c]);
    assert a + SEP + (b + SEP + c) == a + SEP + b + SEP + c;
  }

  lemma JoinFour(a: string, b: string, c: string, d: string)
    ensures Join([a, b, c, d]) == a + SEP + b + SEP + c + SEP + d
    ensures Splittable([a, b, c, d]) <==> Separable(a) && Separable(b) && Separable(c) && !HasSep(d)
  {
    JoinThree(b, c, d);
    assert [a, b, c, d][1..] == [b, c, d];
    assert a + SEP + (b + SEP + c + SEP + d) == a + SEP + b + SEP + c + SEP + d;
  }

  /** Exactly the printed names of readable tags are accepted, each with its own tag and direction. */
  lemma TrafficNamesExactly(name: string, prefix: string, tag: string, direction: string)
    requires IsPrefix(prefix)
    ensures ParseTraffic(name, prefix) == Some((tag, direction)) <==>
      name == TrafficName(prefix, tag, direction) && Readable(tag) && IsDirection(direction)
  {
    PlainIsSeparable(prefix);
    PlainIsSeparable("traffic");
    if IsDirection(direction) { PlainIsSeparable(direction); }
    SplitExactly(name, [prefix, tag, "traffic", direction]);
    JoinFour(prefix, tag, "traffic", direction);
  }

  lemma OnlineNamesExactly(name: string, username: string)
    ensures ParseOnline(name) == Some(username) <==> name == OnlineName(username) && Readable(username)
  {
    PlainIsSeparable(USER);
    PlainIsSeparable("online");
    SplitExactly(name, [USER, username, "online"]);
    JoinThree(USER, username, "online");
  }

  /** Printing loses nothing: prefix, tag and direction can be told from the name, readable or not. */
  lemma TrafficNamesDiffer(prefix: string, tag: string, direction: string, prefix': string, tag': string, direction': string)
    requires IsPrefix(prefix) && IsPrefix(prefix') && IsDirection(direction) && IsDirection(direction')
    requires TrafficName(prefix, tag, direction) == TrafficName(prefix', tag', direction')
    ensures prefix == prefix' && tag == tag' && direction == direction'
  {
    var middle := SEP + "traffic" + SEP;
    Regrouped(prefix, SEP, tag, "traffic", direction);
    Regrouped(prefix', SEP, tag', "traffic", direction');
    SameEnd(prefix + SEP + tag + middle, direction, prefix' + SEP + tag' + middle, direction');
    SameStart(prefix, SEP + tag + middle + direction, prefix', SEP + tag' + middle + direction');
    SameMiddle(prefix + SEP, tag, tag', middle + direction);
  }

  lemma Regrouped(a: string, sep: string, b: string, c: string, d: string)
    ensures var middle, all := sep + c + sep, a + sep + b + sep + c + sep + d;
      all == (a + sep + b + middle) + d && all == a + (sep + b + middle + d) && all == (a + sep) + b + (middle + d)
  {
    var front, middle := a + sep + b, sep + c + sep;
    assert front + sep + c + sep == front + middle;
    assert a + (sep + b + middle + d) == front + middle + d;
    assert front + (middle + d) == front + middle + d;
  }

  lemma SameEnd(front: string, direction: string, front': string, direction': string)
    requires IsDirection(direction) && IsDirection(direction') && front + direction == front' + direction'
    ensures direction == direction'
  {
    var s := front + direction;
    assert s[|s| - 5] == direction[|direction| - 5] == direction'[|direction'| - 5];
  }

  lemma SameStart(prefix: string, rest: string, prefix': string, rest': string)
    requires IsPrefix(prefix) && IsPrefix(prefix') && prefix + rest == prefix' + rest'
    ensures prefix == prefix'
  {
    assert (prefix + rest)[0] == prefix[0] == prefix'[0];
  }

  lemma SameMiddle(front: string, a: string, b: string, end: string)
    requires front + a + end == front + b + end
    ensures a == b
  {
    assert |a| == |b|;
    assert (front + a + end)[|front|..|front| + |a|] == a;
    assert (front + b + end)[|front|..|front| + |b|] == b;
  }

  /** Reading back a printed name gives the tag exactly if it is readable and the prefix is the
      one asked for; otherwise the name is rejected, never misread. */
  lemma TrafficRoundTrip(prefix: string, tag: string, direction: string, asked: string)
    requires IsPrefix(prefix) && IsDirection(direction) && IsPrefix(asked)
    ensures ParseTraffic(TrafficName(prefix, tag, direction), asked)
         == if asked == prefix && Readable(tag) then Some((tag, direction)) else None
  {
    var name := TrafficName(prefix, tag, direction);
    var parsed := ParseTraffic(name, asked);
    TrafficNamesExactly(name, prefix, tag, direction);
    if parsed.Some? {
      TrafficNamesExactly(name, asked, parsed.value.0, parsed.value.1);
      TrafficNamesDiffer(prefix, tag, direction, asked, parsed.value.0, parsed.value.1);
    }
  }

  lemma OnlineRoundTrip(username: string)
    ensures ParseOnline(OnlineName(username)) == if Readable(username) then Some(username) else None
  {
    var name := OnlineName(username);
    var parsed := ParseOnline(name);
    OnlineNamesExactly(name, username);
    if parsed.Some? {
      OnlineNamesExactly(name, parsed.value);
      var front, end := USER + SEP, SEP + "online";
      assert name == front + username + end && name == front + parsed.value + end;
      SameMiddle(front, username, parsed.value, end);
    }
  }

  /** No name is read as two kinds of counter. */
  lemma KindsApart(name: string, prefix: string, prefix': string)
    requires ParseTraffic(name, prefix).Some?
    ensures ParseOnline(name).None?
    ensures ParseTraffic(name, prefix').Some? ==> prefix == prefix'
  {
  }
}
