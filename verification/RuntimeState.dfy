/** RuntimeState as an object: its lock regions as methods, and the heap objects it owns. */
module RuntimeState {
  import opened Wrappers
  import opened JsonTree
  import opened JsonHeap
  import opened StateSpec
  import opened Sorting
  import Restart

  /** The target of a *string. */
  class StringCell {
    var text: string

    constructor (text: string)
      ensures this.text == text
    {
      this.text := text;
    }
  }

  /** The struct Hashes; its inbounds are a slice. */
  datatype GoHashes = GoHashes(emptyConfig: string, inbounds: array<InboundHash>)

  function HashesOf(hashes: GoHashes): Hashes
    reads hashes.inbounds
  {
    Hashes(hashes.emptyConfig, hashes.inbounds[..])
  }

  function TextOf(cell: StringCell?): Option<string>
    reads cell
  {
    if cell == null then None else Some(cell.text)
  }

  ghost function CellSet(cell: StringCell?): set<object> {
    if cell == null then {} else {cell}
  }

  /** The objects behind a version, a configuration and hashes. */
  ghost function Behind(version: StringCell?, tree: Tree, hashes: GoHashes): set<object> {
    Refs(tree) + {hashes.inbounds} + CellSet(version)
  }

  /** `tree` unfolds a map that may be nil. */
  ghost predicate Unfolds(config: GoMap?, tree: Tree) {
    if config == null then tree == ScalarTree(Null) else tree.MapTree? && tree.m == config
  }

  ghost function FieldsOf(tree: Tree): Option<Fields> {
    if tree.MapTree? then Some(tree.fields) else None
  }

  datatype Snapshot = Snapshot(
    xrayRunning: bool,
    xrayInternalStatusCached: bool,
    xrayVersion: StringCell?,
    nodeVersion: string,
    currentConfig: GoMap?,
    lastHashes: GoHashes)

  /** The first loop of sameHashes. */
  method CountUp(xs: array<InboundHash>) returns (counts: map<InboundHash, int>)
    ensures Counts(counts, multiset(xs[..]))
  {
    counts := map[];
    for i := 0 to xs.Length
      invariant Counts(counts, multiset(xs[..i]))
    {
      assert xs[..i + 1] == xs[..i] + [xs[i]];
      counts := counts[xs[i] := Count(counts, xs[i]) + 1];
    }
    assert xs[..xs.Length] == xs[..];
  }

  /** sameHashes: count up over one list, down over the other. */
  method CompareHashes(a: GoHashes, b: GoHashes) returns (same: bool)
    ensures same == (a.emptyConfig == b.emptyConfig && multiset(a.inbounds[..]) == multiset(b.inbounds[..]))
  {
    if a.emptyConfig != b.emptyConfig || a.inbounds.Length != b.inbounds.Length {
      if multiset(a.inbounds[..]) == multiset(b.inbounds[..]) {
        assert |multiset(a.inbounds[..])| == a.inbounds.Length && |multiset(b.inbounds[..])| == b.inbounds.Length;
      }
      return false;
    }
    var counts := CountUp(a.inbounds);
    ghost var left := multiset(a.inbounds[..]);
    for i := 0 to b.inbounds.Length
      invariant Counts(counts, left) && left + multiset(b.inbounds[..i]) == multiset(a.inbounds[..])
    {
      var x := b.inbounds[i];
      assert b.inbounds[..i + 1] == b.inbounds[..i] + [x];
      counts := counts[x := Count(counts, x) - 1];
      if counts[x] < 0 {
        assert left[x] == 0;
        CountBelow(b.inbounds[..], i + 1, x);
        return false;
      }
      left := left - multiset{x};
    }
    assert b.inbounds[..b.inbounds.Length] == b.inbounds[..];
    Restart.EqualBySize(multiset(b.inbounds[..]), multiset(a.inbounds[..]));
    return true;
  }

  ghost predicate Counts(counts: map<InboundHash, int>, xs: multiset<InboundHash>) {
    forall x :: Count(counts, x) == xs[x]
  }

  /** Reading a missing key of a map of counters yields zero. */
  function Count(counts: map<InboundHash, int>, x: InboundHash): int {
    if x in counts then counts[x] else 0
  }

  lemma CountBelow(xs: seq<InboundHash>, n: nat, x: InboundHash)
    requires n <= |xs|
    ensures multiset(xs[..n])[x] <= multiset(xs)[x]
  {
    assert xs == xs[..n] + xs[n..];
  }

  method CloneStringPtr(input: StringCell?) returns (output: StringCell?)
    ensures TextOf(output) == TextOf(input) && fresh(CellSet(output))
  {
    output := null;
    if input != null {
      output := new StringCell(input.text);
    }
  }

  method CloneHashes(input: GoHashes) returns (output: GoHashes)
    ensures HashesOf(output) == HashesOf(input) && fresh(output.inbounds)
  {
    var inbounds := new InboundHash[input.inbounds.Length](_ => InboundHash(0, "", ""));
    for i := 0 to inbounds.Length
      invariant inbounds[..i] == input.inbounds[..i]
    {
      inbounds[i] := input.inbounds[i];
    }
    output := GoHashes(input.emptyConfig, inbounds);
  }

  /** cloneMap of this package: nil stays nil. */
  method CloneConfig(input: GoMap?, ghost tree: Tree) returns (output: GoMap?, ghost copy: Tree)
    requires Unfolds(input, tree) && InHeap(tree)
    ensures Unfolds(output, copy) && InHeap(copy) && FieldsOf(copy) == FieldsOf(tree)
    ensures fresh(Refs(copy))
  {
    if input == null {
      output, copy := null, tree;
    } else {
      output, copy := CloneMap(input, tree);
    }
  }

  /** The clones SetXrayStarted stores. */
  method CloneAll(version: StringCell?, config: GoMap?, hashes: GoHashes, ghost tree: Tree)
    returns (version': StringCell?, config': GoMap?, hashes': GoHashes, ghost tree': Tree)
    requires Unfolds(config, tree) && InHeap(tree)
    ensures TextOf(version') == TextOf(version) && HashesOf(hashes') == HashesOf(hashes)
    ensures Unfolds(config', tree') && InHeap(tree') && FieldsOf(tree') == FieldsOf(tree)
    ensures fresh(Behind(version', tree', hashes'))
  {
    version' := CloneStringPtr(version);
    hashes' := CloneHashes(hashes);
    config', tree' := CloneConfig(config, tree);
  }

  /** The two loops at the end of RestartDecision. */
  method ExplainRestart(stored: array<InboundHash>, incoming: array<InboundHash>) returns (decision: Restart.Decision)
    ensures decision == Restart.ExplainFrom(stored[..], incoming[..])
  {
    var incomingByTag: map<string, InboundHash> := map[];
    for i := 0 to incoming.Length
      invariant Restart.Indexes(incomingByTag, incoming[..i])
    {
      assert incoming[..i + 1] == incoming[..i] + [incoming[i]];
      incomingByTag := incomingByTag[incoming[i].tag := incoming[i]];
    }
    assert incoming[..incoming.Length] == incoming[..];
    for i := 0 to stored.Length
      invariant Restart.ExplainFrom(stored[..], incoming[..]) == Restart.ExplainFrom(stored[i..], incoming[..])
    {
      var previous := stored[i];
      assert stored[i..][0] == previous && stored[i..][1..] == stored[i + 1..];
      if previous.tag !in incomingByTag {
        return Restart.Decision(true, Restart.InboundRemoved, previous.tag, previous.hash, "");
      }
      var found := incomingByTag[previous.tag];
      if previous.hash != found.hash || previous.usersCount != found.usersCount {
        return Restart.Decision(true, Restart.InboundHashChanged, previous.tag, previous.hash, found.hash);
      }
    }
    return Restart.Because(Restart.InboundHashChanged);
  }

  function TextIn(value: Val): string {
    if value.ScalarVal? && value.scalar.Str? then value.scalar.s else ""
  }

  method TagAndProtocol(inbound: GoMap, ghost elem: Tree) returns (tag: string, protocol: string)
    requires elem.MapTree? && elem.m == inbound && InHeap(elem)
    ensures tag == Text(Field(elem.fields, "tag")) && protocol == Text(Field(elem.fields, "protocol"))
  {
    KidIsInHeap(elem, "tag");
    KidIsInHeap(elem, "protocol");
    tag, protocol := TextIn(Get(inbound, "tag")), TextIn(Get(inbound, "protocol"));
  }

  /** inboundProtocolsFromConfig. */
  method InboundProtocolsFromConfig(config: GoMap, ghost tree: Tree) returns (protocols: map<string, string>)
    requires tree.MapTree? && tree.m == config && InHeap(tree)
    ensures protocols == ConfigProtocols(tree.fields)
  {
    KidIsInHeap(tree, "inbounds");
    ghost var kid := Kid(tree, "inbounds");
    protocols := map[];
    var raw := Get(config, "inbounds");
    if !raw.SliceVal? {
      return;
    }
    protocols := ProtocolsInSlice(raw.a, kid);
  }

  /** Its loop. */
  method ProtocolsInSlice(inbounds: array<Val>, ghost tree: Tree) returns (protocols: map<string, string>)
    requires tree.SliceTree? && tree.a == inbounds && InHeap(tree)
    ensures |tree.items| == inbounds.Length && protocols == ProtocolsOf(tree.items, |tree.items|)
  {
    ElemsAreInHeap(tree);
    protocols := map[];
    for i := 0 to inbounds.Length
      invariant protocols == ProtocolsOf(tree.items, i)
    {
      protocols := AddProtocol(protocols, inbounds[i], tree.elems[i]);
    }
  }

  /** One turn of the loop. */
  method AddProtocol(protocols: map<string, string>, inbound: Val, ghost elem: Tree) returns (r: map<string, string>)
    requires Root(elem) == inbound && InHeap(elem)
    ensures r == WithProtocol(protocols, ToJson(elem))
  {
    r := protocols;
    if inbound.MapVal? {
      var tag, protocol := TagAndProtocol(inbound.m, elem);
      if tag != "" && protocol != "" {
        r := protocols[tag := protocol];
      }
    }
  }

  /** The members of a set in strictly increasing order. */
  ghost predicate ListsSet(tags: seq<string>, members: set<string>) {
    && (forall i, j | 0 <= i < j < |tags| :: Less(tags[i], tags[j]))
    && (forall t :: t in tags <==> t in members)
  }

  /** The only such list. */
  ghost function InOrder(members: set<string>): seq<string> {
    Keys(Listing(map t | t in members :: true))
  }

  lemma InOrderLists(members: set<string>)
    ensures ListsSet(InOrder(members), members)
    ensures InOrder(members) == [] <==> members == {}
  {
    var m := map t | t in members :: true;
    ListingLists(m);
    KeysList(Listing(m));
    forall t | t in members ensures t in InOrder(members) {
      assert (t, m[t]) in Listing(m);
    }
  }

  /** Collect the keys of a set held as a map, then sort.Strings. */
  method SortedMembers(members: set<string>) returns (tags: seq<string>)
    ensures tags == InOrder(members)
  {
    var rows := ListMap(map t | t in members :: true);
    tags := Keys(rows);
  }

  function Keys(rows: seq<(string, bool)>): seq<string> {
    if rows == [] then [] else [rows[0].0] + Keys(rows[1..])
  }

  lemma {:induction false} KeysList(rows: seq<(string, bool)>)
    ensures |Keys(rows)| == |rows| && forall i | 0 <= i < |rows| :: Keys(rows)[i] == rows[i].0
    ensures forall x | x in rows :: x.0 in Keys(rows)
    ensures forall t | t in Keys(rows) :: exists x | x in rows :: x.0 == t
  {
    if rows != [] { KeysList(rows[1..]); }
  }

  lemma ConfigProtocolsHaveTags(config: Fields)
    ensures "" !in ConfigProtocols(config)
  {
    var inbounds := Field(config, "inbounds");
    if inbounds.Arr? {
      ProtocolsHaveTags(inbounds.items, |inbounds.items|);
    }
  }

  class RuntimeState {
    var xrayRunning: bool
    var xrayInternalStatusCached: bool
    var xrayVersion: StringCell?
    const nodeVersion: string
    var currentConfig: GoMap?
    var lastHashes: GoHashes
    var hasLastHashes: bool
    var inboundUsers: map<string, set<string>>
    var knownInboundTag: set<string>
    var inboundProtocols: map<string, string>

    /** What hangs below currentConfig. */
    ghost var tree: Tree

    /** Every object a caller has passed in or been handed. */
    ghost var shared: set<object>

    ghost function Own(): set<object>
      reads this
    {
      Behind(xrayVersion, tree, lastHashes)
    }

    /** The state owns its objects: no caller has ever seen one of them. */
    ghost predicate Valid()
      reads this, Own()
    {
      && this !in Own() && this !in shared && Own() !! shared
      && Unfolds(currentConfig, tree) && InHeap(tree)
      && Tracked(View())
    }

    ghost function View(): Cache
      reads this, Own()
    {
      Cache(xrayRunning, xrayInternalStatusCached, TextOf(xrayVersion), FieldsOf(tree), HashesOf(lastHashes),
            hasLastHashes, inboundUsers, knownInboundTag, inboundProtocols)
    }

    /** NewRuntimeState. */
    constructor (nodeVersion: string)
      ensures Valid() && fresh(Own()) && View() == INITIAL && shared == {}
      ensures this.nodeVersion == nodeVersion
    {
      this.nodeVersion := nodeVersion;
      xrayRunning, xrayInternalStatusCached, xrayVersion := false, false, null;
      var config := new GoMap();
      currentConfig := config;
      tree := MapTree(config, map[], map[], {config});
      var inbounds := new InboundHash[0];
      lastHashes, hasLastHashes := GoHashes("", inbounds), false;
      inboundUsers, knownInboundTag, inboundProtocols := map[], {}, map[];
      shared := {};
    }

    method SetXrayRunning(running: bool)
      requires Valid()
      modifies this`xrayRunning, this`xrayInternalStatusCached
      ensures Valid() && View() == SetRunning(old(View()), running)
      ensures xrayRunning == running && xrayInternalStatusCached == (running && old(xrayInternalStatusCached))
    {
      xrayRunning := running;
      if !running {
        xrayInternalStatusCached := false;
      }
    }

    method SetXrayInternalStatusCached(cached: bool)
      requires Valid()
      modifies this`xrayRunning, this`xrayInternalStatusCached
      ensures Valid() && View() == SetStatusCached(old(View()), cached)
      ensures xrayInternalStatusCached == cached && xrayRunning == (cached && old(xrayRunning))
    {
      xrayInternalStatusCached := cached;
      if !cached {
        xrayRunning := false;
      }
    }

    /** Everything passed in is cloned; from now on it counts as the callers'. */
    method SetXrayStarted(version: StringCell?, config: GoMap?, hashes: GoHashes, ghost given: Tree)
      requires Valid() && Unfolds(config, given) && InHeap(given)
      requires this !in Refs(given)
      modifies this
      ensures Valid() && fresh(Own())
      ensures View() == SetStarted(old(View()), old(TextOf(version)), FieldsOf(given), old(HashesOf(hashes)))
      ensures shared == old(shared) + Behind(version, given, hashes)
    {
      var ownVersion, ownConfig, ownHashes, ownTree := CloneAll(version, config, hashes, given);
      Overwrite(ownVersion, ownConfig, ownHashes, ownTree, Behind(version, given, hashes));
    }

    /** The assignments of SetXrayStarted; what is stored belongs to nobody else. */
    method Overwrite(version: StringCell?, config: GoMap?, hashes: GoHashes, ghost stored: Tree, ghost given: set<object>)
      requires Valid() && Unfolds(config, stored) && InHeap(stored)
      requires this !in given
      requires var own := Behind(version, stored, hashes);
        this !in own && own !! given && own !! shared
      modifies this
      ensures Valid() && Own() == Behind(version, stored, hashes)
      ensures View() == SetStarted(old(View()), TextOf(version), FieldsOf(stored), HashesOf(hashes))
      ensures shared == old(shared) + given
    {
      Assign(version, config, hashes, stored);
      LearnTags();
      shared := shared + given;
      StaysInHeap(stored);
      assert View().known == TagsOf(hashes.inbounds[..]);
    }

    method Assign(version: StringCell?, config: GoMap?, hashes: GoHashes, ghost stored: Tree)
      modifies this
      ensures xrayRunning && xrayInternalStatusCached && hasLastHashes
      ensures xrayVersion == version && currentConfig == config && lastHashes == hashes
      ensures inboundUsers == map[] && knownInboundTag == {} && inboundProtocols == map[]
      ensures tree == stored && shared == old(shared)
    {
      xrayRunning, xrayInternalStatusCached := true, true;
      xrayVersion, currentConfig, tree := version, config, stored;
      lastHashes, hasLastHashes := hashes, true;
      inboundUsers, knownInboundTag, inboundProtocols := map[], {}, map[];
    }

    /** The loop of SetXrayStarted over the stored inbounds. */
    method LearnTags()
      modifies this`knownInboundTag
      ensures knownInboundTag == old(knownInboundTag) + TagsOf(lastHashes.inbounds[..])
    {
      for i := 0 to lastHashes.inbounds.Length
        invariant knownInboundTag == old(knownInboundTag) + TagsOf(lastHashes.inbounds[..i])
      {
        TagsOfNext(lastHashes.inbounds[..], i);
        if lastHashes.inbounds[i].tag != "" {
          knownInboundTag := knownInboundTag + {lastHashes.inbounds[i].tag};
        }
      }
      assert lastHashes.inbounds[..lastHashes.inbounds.Length] == lastHashes.inbounds[..];
    }

    static lemma TagsOfNext(inbounds: seq<InboundHash>, i: nat)
      requires i < |inbounds|
      ensures TagsOf(inbounds[..i + 1])
           == TagsOf(inbounds[..i]) + if inbounds[i].tag == "" then {} else {inbounds[i].tag}
    {
      assert inbounds[..i + 1] == inbounds[..i] + [inbounds[i]];
    }

    /** Everything handed out is a clone; from now on it counts as the callers'. */
    method TakeSnapshot() returns (snapshot: Snapshot, ghost copy: Tree)
      requires Valid()
      modifies this`shared
      ensures Valid() && View() == old(View())
      ensures Unfolds(snapshot.currentConfig, copy) && InHeap(copy)
      ensures fresh(Behind(snapshot.xrayVersion, copy, snapshot.lastHashes))
      ensures shared == old(shared) + Behind(snapshot.xrayVersion, copy, snapshot.lastHashes)
      ensures snapshot.xrayRunning == xrayRunning && snapshot.xrayInternalStatusCached == xrayInternalStatusCached
      ensures snapshot.nodeVersion == nodeVersion
      ensures TextOf(snapshot.xrayVersion) == View().version && HashesOf(snapshot.lastHashes) == View().hashes
      ensures FieldsOf(copy) == View().config
    {
      var version, config, hashes, configTree := CloneAll(xrayVersion, currentConfig, lastHashes, tree);
      copy := configTree;
      snapshot := Snapshot(xrayRunning, xrayInternalStatusCached, version, nodeVersion, config, hashes);
      shared := shared + Behind(version, copy, hashes);
    }

    /** More objects come into the callers' hands. */
    ghost method HandOut(objects: set<object>)
      requires Valid() && objects !! Own() && this !in objects
      modifies this`shared
      ensures Valid() && View() == old(View()) && shared == old(shared) + objects
    {
      shared := shared + objects;
    }

    /** Code that writes only objects the state does not own, and new ones, cannot change it. */
    twostate lemma CallersCannotChangeState(theirs: set<object>)
      requires old(Valid()) && unchanged(this) && theirs !! old(Own())
      requires forall o: object | old(allocated(o)) && o !in theirs :: unchanged(o)
      ensures Valid() && View() == old(View())
    {
      forall o | o in old(Own()) ensures unchanged(o) {}
      StaysInHeap(tree);
    }

    /** RestartDecision: an index of the request by tag, then the stored inbounds in order. */
    method DecideRestart(force: bool, hashes: GoHashes, coreRunning: bool) returns (decision: Restart.Decision)
      requires Valid()
      ensures decision == Restart.Decide(View(), force, HashesOf(hashes), coreRunning)
    {
      if force || !coreRunning {
        if force {
          return Restart.Because(Restart.ForceRestart);
        }
        return Restart.Because(Restart.CoreNotRunning);
      }
      if !hasLastHashes {
        return Restart.Because(Restart.NoPreviousHashes);
      }
      var same := CompareHashes(lastHashes, hashes);
      if same {
        return Restart.Decision(false, Restart.NothingChanged, "", "", "");
      }
      if lastHashes.emptyConfig != hashes.emptyConfig {
        return Restart.Decision(true, Restart.EmptyConfigHashChanged, "", lastHashes.emptyConfig, hashes.emptyConfig);
      }
      if lastHashes.inbounds.Length != hashes.inbounds.Length {
        return Restart.Because(Restart.InboundCountChanged);
      }
      decision := ExplainRestart(lastHashes.inbounds, hashes.inbounds);
    }

    method RecordInboundProtocols(config: GoMap, ghost given: Tree)
      requires Valid() && given.MapTree? && given.m == config && InHeap(given) && this !in Refs(given)
      modifies this`knownInboundTag, this`inboundProtocols
      ensures Valid() && View() == RecordProtocols(old(View()), ConfigProtocols(given.fields))
    {
      var protocols := InboundProtocolsFromConfig(config, given);
      ConfigProtocolsHaveTags(given.fields);
      LearnProtocols(protocols);
    }

    /** The loop of SetInboundProtocolsFromConfig, in any order of the keys. */
    method LearnProtocols(protocols: map<string, string>)
      modifies this`knownInboundTag, this`inboundProtocols
      ensures knownInboundTag == old(knownInboundTag) + protocols.Keys
      ensures inboundProtocols == old(inboundProtocols) + protocols
    {
      var tags := protocols.Keys;
      ghost var before := inboundProtocols;
      while tags != {}
        invariant tags <= protocols.Keys
        invariant knownInboundTag == old(knownInboundTag) + (protocols.Keys - tags)
        invariant inboundProtocols.Keys == before.Keys + (protocols.Keys - tags)
        invariant forall t | t in inboundProtocols ::
            inboundProtocols[t] == if t in protocols && t !in tags then protocols[t] else before[t]
        decreases tags
      {
        var tag :| tag in tags;
        knownInboundTag := knownInboundTag + {tag};
        inboundProtocols := inboundProtocols[tag := protocols[tag]];
        tags := tags - {tag};
      }
      assert inboundProtocols == before + protocols;
    }

    method AddKnownInboundTag(tag: string)
      requires Valid()
      modifies this`knownInboundTag
      ensures Valid() && View() == AddKnownTag(old(View()), tag)
      ensures knownInboundTag == old(knownInboundTag) + if tag == "" then {} else {tag}
    {
      if tag == "" {
        return;
      }
      knownInboundTag := knownInboundTag + {tag};
    }

    method AddKnownInboundTags(tags: seq<string>)
      requires Valid()
      modifies this`knownInboundTag
      ensures Valid() && View() == Learn(old(View()), NonEmpty(tags))
    {
      for i := 0 to |tags|
        invariant knownInboundTag == old(knownInboundTag) + NonEmpty(tags[..i])
      {
        assert tags[..i + 1] == tags[..i] + [tags[i]];
        assert NonEmpty(tags[..i + 1]) == NonEmpty(tags[..i]) + if tags[i] == "" then {} else {tags[i]};
        if tags[i] != "" {
          knownInboundTag := knownInboundTag + {tags[i]};
        }
      }
      assert tags[..|tags|] == tags;
    }

    method SetInboundProtocol(tag: string, protocol: string)
      requires Valid()
      modifies this`knownInboundTag, this`inboundProtocols
      ensures Valid() && View() == SetProtocol(old(View()), tag, protocol)
      ensures tag == "" || protocol == "" ==>
        inboundProtocols == old(inboundProtocols) && knownInboundTag == old(knownInboundTag)
      ensures tag != "" && protocol != "" ==>
        inboundProtocols == old(inboundProtocols)[tag := protocol] && knownInboundTag == old(knownInboundTag) + {tag}
    {
      if tag == "" || protocol == "" {
        return;
      }
      knownInboundTag := knownInboundTag + {tag};
      inboundProtocols := inboundProtocols[tag := protocol];
    }

    method AddUserToInbound(tag: string, userHash: string)
      requires Valid()
      modifies this`inboundUsers, this`knownInboundTag
      ensures Valid() && View() == AddUser(old(View()), tag, userHash)
    {
      if tag == "" || userHash == "" {
        return;
      }
      AddingKeepsTracked(View(), tag, userHash);
      if tag !in inboundUsers {
        inboundUsers := inboundUsers[tag := {}];
      }
      inboundUsers := inboundUsers[tag := inboundUsers[tag] + {userHash}];
      assert inboundUsers == AddUser(old(View()), tag, userHash).users;
      knownInboundTag := knownInboundTag + {tag};
    }

    method RemoveUserFromInbound(tag: string, userHash: string)
      requires Valid()
      modifies this`inboundUsers
      ensures Valid() && View() == RemoveUser(old(View()), tag, userHash)
    {
      if tag == "" || userHash == "" {
        return;
      }
      if tag !in inboundUsers {
        return;
      }
      inboundUsers := inboundUsers[tag := inboundUsers[tag] - {userHash}];
    }

    method KnownInboundTags() returns (tags: seq<string>)
      requires Valid()
      ensures tags == InOrder(View().known)
    {
      tags := SortedMembers(knownInboundTag);
    }

    method InboundUserHashes(tag: string) returns (hashes: seq<string>)
      requires Valid()
      ensures hashes == InOrder(UsersAt(View(), tag))
    {
      hashes := SortedMembers(if tag in inboundUsers then inboundUsers[tag] else {});
    }
  }
}
