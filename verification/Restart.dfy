/** When a start request restarts the core, and which inbound is named as the reason. */
module Restart {
  import opened Wrappers
  import opened JsonTree
  import opened StateSpec

  datatype Reason =
    | ForceRestart
    | CoreNotRunning
    | NoPreviousHashes
    | EmptyConfigHashChanged
    | InboundCountChanged
    | InboundRemoved
    | InboundHashChanged
    | NothingChanged

  datatype Decision = Decision(
    shouldRestart: bool,
    reason: Reason,
    inboundTag: string,
    previousHash: string,
    incomingHash: string)

  function Because(reason: Reason): Decision {
    Decision(true, reason, "", "", "")
  }

  /** The last inbound with this tag: what an index filled in order holds. */
  function LastWith(inbounds: seq<InboundHash>, tag: string): Option<InboundHash> {
    if inbounds == [] then None
    else if inbounds[|inbounds| - 1].tag == tag then Some(inbounds[|inbounds| - 1])
    else LastWith(inbounds[..|inbounds| - 1], tag)
  }

  /** A map filled from the list in order. */
  ghost predicate Indexes(byTag: map<string, InboundHash>, inbounds: seq<InboundHash>) {
    forall tag :: LastWith(inbounds, tag) == if tag in byTag then Some(byTag[tag]) else None
  }

  function Explain(previous: InboundHash, incoming: Option<InboundHash>): Option<Decision> {
    if incoming.None? then Some(Decision(true, InboundRemoved, previous.tag, previous.hash, ""))
    else if previous.hash != incoming.value.hash || previous.usersCount != incoming.value.usersCount then
      Some(Decision(true, InboundHashChanged, previous.tag, previous.hash, incoming.value.hash))
    else None
  }

  function ExplainFrom(stored: seq<InboundHash>, incoming: seq<InboundHash>): Decision {
    if stored == [] then Because(InboundHashChanged)
    else
      match Explain(stored[0], LastWith(incoming, stored[0].tag))
      case Some(d) => d
      case None => ExplainFrom(stored[1..], incoming)
  }

  ghost function Decide(cache: Cache, force: bool, hashes: Hashes, coreRunning: bool): Decision {
    if force then Because(ForceRestart)
    else if !coreRunning then Because(CoreNotRunning)
    else if !cache.hasHashes then Because(NoPreviousHashes)
    else if SameHashes(cache.hashes, hashes) then Decision(false, NothingChanged, "", "", "")
    else if cache.hashes.emptyConfig != hashes.emptyConfig then
      Decision(true, EmptyConfigHashChanged, "", cache.hashes.emptyConfig, hashes.emptyConfig)
    else if |cache.hashes.inbounds| != |hashes.inbounds| then Because(InboundCountChanged)
    else ExplainFrom(cache.hashes.inbounds, hashes.inbounds)
  }

  // ---- restart exactly when something changed -----------------------------------------------

  lemma {:induction false} ExplanationsRestart(stored: seq<InboundHash>, incoming: seq<InboundHash>)
    ensures ExplainFrom(stored, incoming).shouldRestart
  {
    if stored != [] { ExplanationsRestart(stored[1..], incoming); }
  }

  /** No restart exactly if none is forced, the core runs, there are previous hashes, and they are
      the incoming ones up to the order of the inbounds. */
  lemma NoRestartExactlyWhenUpToDate(cache: Cache, force: bool, hashes: Hashes, coreRunning: bool)
    ensures !Decide(cache, force, hashes, coreRunning).shouldRestart <==>
      !force && coreRunning && cache.hasHashes && cache.hashes.emptyConfig == hashes.emptyConfig
      && multiset(cache.hashes.inbounds) == multiset(hashes.inbounds)
  {
    ExplanationsRestart(cache.hashes.inbounds, hashes.inbounds);
  }

  /** After a successful start with `hashes`, exactly the reorderings of `hashes` are up to date. */
  lemma ReorderedRequestIsUpToDate(cache: Cache, version: Option<string>, config: Option<Fields>,
                                   hashes: Hashes, request: Hashes)
    ensures !Decide(SetStarted(cache, version, config, hashes), false, request, true).shouldRestart <==>
      request.emptyConfig == hashes.emptyConfig && multiset(request.inbounds) == multiset(hashes.inbounds)
  {
    NoRestartExactlyWhenUpToDate(SetStarted(cache, version, config, hashes), false, request, true);
  }

  // ---- which inbound is named ---------------------------------------------------------------

  /** Stored inbound `i` is missing from the request or differs from the last one with its tag. */
  predicate Differs(stored: seq<InboundHash>, incoming: seq<InboundHash>, i: nat)
    requires i < |stored|
  {
    LastWith(incoming, stored[i].tag) != Some(stored[i])
  }

  lemma {:induction false} LastWithHasTag(inbounds: seq<InboundHash>, tag: string)
    ensures LastWith(inbounds, tag).Some? ==>
      LastWith(inbounds, tag).value.tag == tag && LastWith(inbounds, tag).value in inbounds
    ensures LastWith(inbounds, tag).None? <==> forall x | x in inbounds :: x.tag != tag
  {
    if inbounds != [] {
      var last := |inbounds| - 1;
      LastWithHasTag(inbounds[..last], tag);
      assert inbounds == inbounds[..last] + [inbounds[last]];
    }
  }

  /** The inbound named is the first stored one that differs; none is named only if none does. */
  lemma {:induction false} NamesFirstDifference(stored: seq<InboundHash>, incoming: seq<InboundHash>, i: nat)
    requires i < |stored| && Differs(stored, incoming, i) && forall j: nat | j < i :: !Differs(stored, incoming, j)
    ensures var d := ExplainFrom(stored, incoming);
      var last := LastWith(incoming, stored[i].tag);
      && d.inboundTag == stored[i].tag && d.previousHash == stored[i].hash
      && d.reason == (if last.None? then InboundRemoved else InboundHashChanged)
      && d.incomingHash == (if last.None? then "" else last.value.hash)
  {
    LastWithHasTag(incoming, stored[i].tag);
    if i > 0 {
      assert !Differs(stored, incoming, 0);
      forall j: nat | j < i - 1 ensures !Differs(stored[1..], incoming, j) {
        assert !Differs(stored, incoming, j + 1);
      }
      NamesFirstDifference(stored[1..], incoming, i - 1);
    }
  }

  lemma {:induction false} NamesNobodyWithoutDifference(stored: seq<InboundHash>, incoming: seq<InboundHash>)
    requires forall i: nat | i < |stored| :: !Differs(stored, incoming, i)
    ensures ExplainFrom(stored, incoming) == Because(InboundHashChanged)
  {
    if stored != [] {
      assert !Differs(stored, incoming, 0);
      forall i: nat | i < |stored| - 1 ensures !Differs(stored[1..], incoming, i) {
        assert !Differs(stored, incoming, i + 1);
      }
      NamesNobodyWithoutDifference(stored[1..], incoming);
    }
  }

  // ---- when nobody can be named -------------------------------------------------------------

  /** The lists differ, yet every stored inbound agrees with the index of the request. */
  ghost predicate Unexplained(stored: seq<InboundHash>, incoming: seq<InboundHash>) {
    && |stored| == |incoming| && multiset(stored) != multiset(incoming)
    && forall i: nat | i < |stored| :: !Differs(stored, incoming, i)
  }

  predicate DistinctTags(inbounds: seq<InboundHash>) {
    forall i, j | 0 <= i < j < |inbounds| :: inbounds[i].tag != inbounds[j].tag
  }

  /** Two stored inbounds share a tag but not their contents. */
  predicate Contradictory(inbounds: seq<InboundHash>) {
    exists i, j | 0 <= i < j < |inbounds| :: inbounds[i].tag == inbounds[j].tag && inbounds[i] != inbounds[j]
  }

  lemma EqualBySize<T>(a: multiset<T>, b: multiset<T>)
    requires a <= b && |a| == |b|
    ensures a == b
  {
    assert b == a + (b - a);
    assert |b - a| == 0;
  }

  lemma {:induction false} DistinctCountsOnce(inbounds: seq<InboundHash>, x: InboundHash)
    requires DistinctTags(inbounds)
    ensures multiset(inbounds)[x] <= 1
  {
    if inbounds != [] {
      var rest := inbounds[1..];
      DistinctCountsOnce(rest, x);
      assert inbounds == [inbounds[0]] + rest;
      if inbounds[0] == x {
        forall j | 0 <= j < |rest| ensures rest[j] != x {
          assert rest[j] == inbounds[j + 1];
        }
        assert multiset(rest)[x] == 0;
      }
    }
  }

  /** Pigeonhole: with distinct stored tags some inbound is always named. */
  lemma DistinctTagsAreExplained(stored: seq<InboundHash>, incoming: seq<InboundHash>)
    requires DistinctTags(stored)
    ensures !Unexplained(stored, incoming)
  {
    if Unexplained(stored, incoming) {
      forall x ensures multiset(stored)[x] <= multiset(incoming)[x] {
        DistinctCountsOnce(stored, x);
        if x in stored {
          var i: nat :| i < |stored| && stored[i] == x;
          assert !Differs(stored, incoming, i);
          LastWithHasTag(incoming, x.tag);
        }
      }
      EqualBySize(multiset(stored), multiset(incoming));
    }
  }

  lemma ContradictoryIsExplained(stored: seq<InboundHash>, incoming: seq<InboundHash>)
    requires Contradictory(stored)
    ensures !Unexplained(stored, incoming)
  {
    var i, j :| 0 <= i < j < |stored| && stored[i].tag == stored[j].tag && stored[i] != stored[j];
    assert Differs(stored, incoming, i) || Differs(stored, incoming, j);
  }

  lemma {:induction false} LastWithAgrees(inbounds: seq<InboundHash>, k: nat, x: InboundHash)
    requires k < |inbounds| && inbounds[k] == x
    requires forall j | k <= j < |inbounds| :: inbounds[j].tag == x.tag ==> inbounds[j] == x
    ensures LastWith(inbounds, x.tag) == Some(x)
  {
    var last := |inbounds| - 1;
    if inbounds[last].tag != x.tag {
      LastWithAgrees(inbounds[..last], k, x);
    }
  }

  /** The list without entry `i`, and `z` in front of it. */
  function Exchanged(stored: seq<InboundHash>, i: nat, z: InboundHash): (r: seq<InboundHash>)
    requires i < |stored|
    ensures |r| == |stored|
  {
    [z] + (stored[..i] + stored[i + 1..])
  }

  lemma ExchangedAt(stored: seq<InboundHash>, i: nat, z: InboundHash, n: nat)
    requires i < |stored| && 0 < n < |stored|
    ensures Exchanged(stored, i, z)[n] == stored[if n - 1 < i then n - 1 else n]
  {
    assert Exchanged(stored, i, z)[n] == (stored[..i] + stored[i + 1..])[n - 1];
  }

  /** If entry `j` still stands for entry `i`, every stored entry agrees with the index. */
  lemma ExchangedAgrees(stored: seq<InboundHash>, i: nat, j: nat, z: InboundHash, k: nat)
    requires i < j < |stored| && stored[i] == stored[j] && k < |stored| && !Contradictory(stored)
    ensures !Differs(stored, Exchanged(stored, i, z), k)
  {
    var m := if k < i then k + 1 else if k == i then j else k;
    var incoming := Exchanged(stored, i, z);
    forall n | m <= n < |incoming| ensures incoming[n].tag == stored[k].tag ==> incoming[n] == stored[k] {
      ExchangedAt(stored, i, z, n);
      if incoming[n].tag == stored[k].tag { SameTagSame(stored, k, if n - 1 < i then n - 1 else n); }
    }
    ExchangedAt(stored, i, z, m);
    LastWithAgrees(incoming, m, stored[k]);
  }

  lemma SameTagSame(stored: seq<InboundHash>, a: nat, b: nat)
    requires a < |stored| && b < |stored| && !Contradictory(stored) && stored[a].tag == stored[b].tag
    ensures stored[a] == stored[b]
  {
  }

  /** A request that slips through: one of two equal entries is replaced by another with its tag. */
  lemma DuplicateSlipsThrough(stored: seq<InboundHash>, i: nat, j: nat) returns (incoming: seq<InboundHash>)
    requires i < j < |stored| && stored[i].tag == stored[j].tag && !Contradictory(stored)
    ensures Unexplained(stored, incoming)
  {
    SameTagSame(stored, i, j);
    var z := stored[i].(usersCount := stored[i].usersCount + 1);
    incoming := Exchanged(stored, i, z);
    forall k: nat | k < |stored| ensures !Differs(stored, incoming, k) {
      ExchangedAgrees(stored, i, j, z, k);
    }
    forall k | 0 <= k < |stored| ensures stored[k] != z {
      if stored[k] == z { SameTagSame(stored, i, k); }
    }
    assert incoming[0] == z;
    assert multiset(incoming)[z] > 0 && multiset(stored)[z] == 0;
  }

  /** The restart that names no inbound is possible exactly if two stored entries are equal in tag
      and no two with equal tags differ. */
  lemma UnexplainedExactly(stored: seq<InboundHash>)
    ensures (exists incoming :: Unexplained(stored, incoming)) <==> !DistinctTags(stored) && !Contradictory(stored)
  {
    if !DistinctTags(stored) && !Contradictory(stored) {
      var i, j :| 0 <= i < j < |stored| && stored[i].tag == stored[j].tag;
      var incoming := DuplicateSlipsThrough(stored, i, j);
    } else {
      forall incoming ensures !Unexplained(stored, incoming) {
        if DistinctTags(stored) {
          DistinctTagsAreExplained(stored, incoming);
        } else {
          ContradictoryIsExplained(stored, incoming);
        }
      }
    }
  }

  // ---- the decision in its own words --------------------------------------------------------

  /** The inbounds are looked at only if everything before them agrees. */
  ghost predicate InboundsDecide(cache: Cache, hashes: Hashes) {
    && cache.hasHashes && cache.hashes.emptyConfig == hashes.emptyConfig
    && |cache.hashes.inbounds| == |hashes.inbounds|
    && multiset(cache.hashes.inbounds) != multiset(hashes.inbounds)
  }

  /** Inbound `k` is the last with this tag. */
  predicate LastTagged(inbounds: seq<InboundHash>, k: nat, tag: string) {
    k < |inbounds| && inbounds[k].tag == tag && forall m | k < m < |inbounds| :: inbounds[m].tag != tag
  }

  /** The last inbound with the tag of `x` is `x`, with its hash and its number of users. */
  ghost predicate StillThere(inbounds: seq<InboundHash>, x: InboundHash) {
    exists k: nat :: LastTagged(inbounds, k, x.tag) && inbounds[k] == x
  }

  /** The reason, and the two base hashes, of every decision that looks at no inbound. */
  lemma DecideEarly(cache: Cache, force: bool, hashes: Hashes, coreRunning: bool)
    ensures var d := Decide(cache, force, hashes, coreRunning);
      if force then d == Decision(true, ForceRestart, "", "", "")
      else if !coreRunning then d == Decision(true, CoreNotRunning, "", "", "")
      else if !cache.hasHashes then d == Decision(true, NoPreviousHashes, "", "", "")
      else if cache.hashes.emptyConfig != hashes.emptyConfig then
        d == Decision(true, EmptyConfigHashChanged, "", cache.hashes.emptyConfig, hashes.emptyConfig)
      else if |cache.hashes.inbounds| != |hashes.inbounds| then d == Decision(true, InboundCountChanged, "", "", "")
      else
        multiset(cache.hashes.inbounds) == multiset(hashes.inbounds) ==> d == Decision(false, NothingChanged, "", "", "")
  {
    if multiset(cache.hashes.inbounds) == multiset(hashes.inbounds) {
      assert |multiset(cache.hashes.inbounds)| == |cache.hashes.inbounds|;
      assert |multiset(hashes.inbounds)| == |hashes.inbounds|;
    }
  }

  /** Otherwise the decision names the first stored inbound that is not still there, and says
      whether its tag is gone or what its last entry now hashes to. */
  lemma DecideNamesFirst(cache: Cache, hashes: Hashes, i: nat)
    requires InboundsDecide(cache, hashes) && i < |cache.hashes.inbounds|
    requires !StillThere(hashes.inbounds, cache.hashes.inbounds[i])
    requires forall j | 0 <= j < i :: StillThere(hashes.inbounds, cache.hashes.inbounds[j])
    ensures var d, x := Decide(cache, false, hashes, true), cache.hashes.inbounds[i];
      && d.shouldRestart && d.inboundTag == x.tag && d.previousHash == x.hash
      && ((forall k | 0 <= k < |hashes.inbounds| :: hashes.inbounds[k].tag != x.tag) ==>
            d.reason == InboundRemoved && d.incomingHash == "")
      && (forall k: nat | LastTagged(hashes.inbounds, k, x.tag) ::
            d.reason == InboundHashChanged && d.incomingHash == hashes.inbounds[k].hash)
  {
    var stored, incoming := cache.hashes.inbounds, hashes.inbounds;
    forall j: nat | j <= i ensures Differs(stored, incoming, j) <==> j == i {
      StillThereExactly(stored, incoming, j);
    }
    NamesFirstDifference(stored, incoming, i);
    ExplanationsRestart(stored, incoming);
    LastWithHasTag(incoming, stored[i].tag);
    forall k: nat | LastTagged(incoming, k, stored[i].tag)
      ensures LastWith(incoming, stored[i].tag) == Some(incoming[k])
    {
      LastTaggedIsLastWith(incoming, k, stored[i].tag);
    }
  }

  lemma {:induction false} LastTaggedIsLastWith(inbounds: seq<InboundHash>, k: nat, tag: string)
    requires LastTagged(inbounds, k, tag)
    ensures LastWith(inbounds, tag) == Some(inbounds[k])
  {
    var last := |inbounds| - 1;
    if k < last { LastTaggedIsLastWith(inbounds[..last], k, tag); }
  }

  lemma {:induction false} LastWithIsLastTagged(inbounds: seq<InboundHash>, tag: string) returns (k: nat)
    requires LastWith(inbounds, tag).Some?
    ensures LastTagged(inbounds, k, tag) && LastWith(inbounds, tag) == Some(inbounds[k])
  {
    k := |inbounds| - 1;
    if inbounds[k].tag != tag {
      k := LastWithIsLastTagged(inbounds[..k], tag);
    }
  }

  lemma StillThereExactly(stored: seq<InboundHash>, incoming: seq<InboundHash>, i: nat)
    requires i < |stored|
    ensures Differs(stored, incoming, i) <==> !StillThere(incoming, stored[i])
  {
    if StillThere(incoming, stored[i]) {
      var k: nat :| LastTagged(incoming, k, stored[i].tag) && incoming[k] == stored[i];
      LastTaggedIsLastWith(incoming, k, stored[i].tag);
    }
    if !Differs(stored, incoming, i) {
      var k := LastWithIsLastTagged(incoming, stored[i].tag);
    }
  }

  /** If all stored inbounds are still there none is named, and then two of them have one tag. */
  lemma DecideNamesNobody(cache: Cache, hashes: Hashes)
    requires InboundsDecide(cache, hashes)
    requires forall j | 0 <= j < |cache.hashes.inbounds| :: StillThere(hashes.inbounds, cache.hashes.inbounds[j])
    ensures Decide(cache, false, hashes, true) == Decision(true, InboundHashChanged, "", "", "")
    ensures exists i, j | 0 <= i < j < |cache.hashes.inbounds| ::
      cache.hashes.inbounds[i].tag == cache.hashes.inbounds[j].tag
  {
    var stored, incoming := cache.hashes.inbounds, hashes.inbounds;
    forall j: nat | j < |stored| ensures !Differs(stored, incoming, j) {
      StillThereExactly(stored, incoming, j);
    }
    NamesNobodyWithoutDifference(stored, incoming);
    if DistinctTags(stored) { DistinctTagsAreExplained(stored, incoming); }
  }

  /** With distinct stored tags some stored inbound is always named, the first that is not still there. */
  lemma DecideNamesSomebody(cache: Cache, hashes: Hashes) returns (i: nat)
    requires InboundsDecide(cache, hashes)
    requires forall i, j | 0 <= i < j < |cache.hashes.inbounds| ::
      cache.hashes.inbounds[i].tag != cache.hashes.inbounds[j].tag
    ensures i < |cache.hashes.inbounds| && !StillThere(hashes.inbounds, cache.hashes.inbounds[i])
    ensures forall j | 0 <= j < i :: StillThere(hashes.inbounds, cache.hashes.inbounds[j])
    ensures Decide(cache, false, hashes, true).inboundTag == cache.hashes.inbounds[i].tag
  {
    if forall j | 0 <= j < |cache.hashes.inbounds| :: StillThere(hashes.inbounds, cache.hashes.inbounds[j]) {
      DecideNamesNobody(cache, hashes);
    }
    i := FirstGone(cache.hashes.inbounds, hashes.inbounds);
    DecideNamesFirst(cache, hashes, i);
  }

  lemma {:induction false} FirstGone(stored: seq<InboundHash>, incoming: seq<InboundHash>) returns (i: nat)
    requires exists j | 0 <= j < |stored| :: !StillThere(incoming, stored[j])
    ensures i < |stored| && !StillThere(incoming, stored[i])
    ensures forall j | 0 <= j < i :: StillThere(incoming, stored[j])
  {
    i := 0;
    if StillThere(incoming, stored[0]) {
      var j :| 0 <= j < |stored| && !StillThere(incoming, stored[j]);
      assert stored[1..][j - 1] == stored[j];
      i := FirstGone(stored[1..], incoming);
      i := i + 1;
      assert forall k | 1 <= k < |stored| :: stored[1..][k - 1] == stored[k];
    }
  }
}
