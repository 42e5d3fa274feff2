/** Safety over whole runs of the lifecycle: ownership, overlap, leaks, and what the answers mean. */
module LifecycleSafety {
  import opened Wrappers
  import opened JsonTree
  import opened StateSpec
  import opened Lifecycle
  import opened LifecycleInvariant
  import opened LifecycleGuarded
  import ConfigSpec

  // ---- ownership --------------------------------------------------------------------------

  /** With or without the guard, xray-core sees at most one close of an instance, and none
      before its start call has returned. */
  lemma CloseDiscipline(guarded: bool, builder: ConfigSpec.Builder, es: seq<Event>, s: State, i: InstId)
    requires Reaches(guarded, builder, es, s) && i < |s.insts|
    ensures s.insts[i].closeCalls <= 1
    ensures s.insts[i].closeCalls > 0 ==> s.insts[i].starter.Returned?
    ensures s.insts[i].closed ==> s.insts[i].closeCalls == 1
    ensures forall h, h' | Holds(s, h, i) && Holds(s, h', i) :: h == h'
  {
    RunsKeepOwnership(guarded, builder, es, s);
  }

  /** Every instance ever constructed is with exactly one holder. */
  lemma ExactlyOneHolder(builder: ConfigSpec.Builder, es: seq<Event>, s: State, i: InstId)
    requires Reaches(true, builder, es, s) && i < |s.insts|
    ensures exists h :: Holds(s, h, i) && forall h' :: Holds(s, h', i) ==> h' == h
  {
    RunsKeepInvariant(builder, es, s);
    assert HasHolder(s, i);
  }

  predicate Quiescent(s: State) {
    && (forall t :: 0 <= t < |s.starts| ==> s.starts[t].pc.Done?)
    && (forall t :: 0 <= t < |s.stops| ==> s.stops[t].Stopped?)
    && (forall i :: 0 <= i < |s.insts| ==>
          !s.insts[i].starter.Spawned? && !s.insts[i].starter.InCall?
          && !s.insts[i].reaper.AwaitingStarter? && !s.insts[i].reaper.ClosingAbandoned?)
  }

  function ClosedSet(s: State): set<InstId> {
    set i | 0 <= i < |s.insts| && s.insts[i].closed
  }

  /** Nothing leaks: at rest, the instances created are those closed plus the one in the slot. */
  lemma NoLeak(builder: ConfigSpec.Builder, es: seq<Event>, s: State)
    requires Reaches(true, builder, es, s) && Quiescent(s)
    ensures |s.insts| == |ClosedSet(s)| + if s.slot.Some? then 1 else 0
    ensures s.slot.Some? ==> s.slot.value < |s.insts| && s.insts[s.slot.value].closeCalls == 0
    ensures !s.guardHeld
  {
    RunsKeepInvariant(builder, es, s);
    CountInstances(s);
  }

  lemma CountInstances(s: State)
    requires Ownership(s) && Covered(s) && Quiescent(s)
    ensures |s.insts| == |ClosedSet(s)| + if s.slot.Some? then 1 else 0
  {
    forall i | 0 <= i < |s.insts| ensures s.insts[i].closed || s.slot == Some(i) {
      ClosedOrInSlot(s, i);
    }
    CountClosed(s);
  }

  lemma CountClosed(s: State)
    requires s.slot.Some? ==> s.slot.value < |s.insts|
    requires forall i | 0 <= i < |s.insts| :: s.insts[i].closed <==> s.slot != Some(i)
    ensures |s.insts| == |ClosedSet(s)| + if s.slot.Some? then 1 else 0
  {
    var slotted := if s.slot.Some? then {s.slot.value} else {};
    assert ClosedSet(s) !! slotted;
    assert Below(|s.insts|) == ClosedSet(s) + slotted;
  }

  lemma ClosedOrInSlot(s: State, i: InstId)
    requires Covered(s) && Quiescent(s) && i < |s.insts|
    ensures s.insts[i].closed || s.slot == Some(i)
  {
    assert HasHolder(s, i);
    var h: Holder :| Holds(s, h, i);
  }

  function Below(n: nat): (r: set<nat>)
    ensures |r| == n
    ensures forall i: nat :: i in r <==> i < n
  {
    if n == 0 then {} else Below(n - 1) + {n - 1}
  }

  // ---- overlap ----------------------------------------------------------------------------

  /** The start call has begun and no close call has returned. */
  predicate Active(inst: Instance) {
    (inst.starter.InCall? || inst.starter.Returned?) && !inst.closed
  }

  function ActiveSet(s: State): set<InstId> {
    set i | 0 <= i < |s.insts| && Active(s.insts[i])
  }

  /** Given up by a timed-out Start and not yet closed by its reaper. */
  function AbandonedSet(s: State): set<InstId> {
    set i | 0 <= i < |s.insts| && (s.insts[i].reaper.AwaitingStarter? || s.insts[i].reaper.ClosingAbandoned?)
  }

  /** Stops between taking an instance from the slot and the return of its close call. */
  function StopsMidClose(s: State): set<ThreadId> {
    set t | 0 <= t < |s.stops| && s.stops[t].Holding?
  }

  function HeldByStops(s: State): set<InstId> {
    set t | t in StopsMidClose(s) :: s.stops[t].inst
  }

  function InService(s: State): set<InstId> {
    ActiveSet(s) - AbandonedSet(s) - HeldByStops(s)
  }

  lemma ServingHolder(s: State, i: InstId) returns (h: Holder)
    requires Invariant(s) && i in InService(s)
    ensures h == BySlot || (h.ByStart? && h.t < |s.starts| && InSection(s.starts[h.t].pc) && Emptied(s.starts[h.t].pc))
    ensures Holds(s, h, i)
  {
    assert HasHolder(s, i);
    h :| Holds(s, h, i);
  }

  lemma AtMostOneInService(s: State, i: InstId, j: InstId)
    requires Invariant(s) && i in InService(s) && j in InService(s)
    ensures i == j
  {
    var h := ServingHolder(s, i);
    var k := ServingHolder(s, j);
  }

  lemma {:induction false} ImageCardinality(s: State, ts: set<ThreadId>)
    requires ts <= StopsMidClose(s)
    ensures |set t | t in ts :: s.stops[t].inst| <= |ts|
  {
    if ts != {} {
      var u :| u in ts;
      var rest := set t | t in ts - {u} :: s.stops[t].inst;
      ImageCardinality(s, ts - {u});
      assert (set t | t in ts :: s.stops[t].inst) == rest + {s.stops[u].inst};
    }
  }

  lemma SmallSet(xs: set<InstId>)
    requires forall i, j :: i in xs && j in xs ==> i == j
    ensures |xs| <= 1
  {
    if xs != {} {
      var i :| i in xs;
      assert xs == {i};
    }
  }

  /** Overlap is bounded in every reachable state. */
  lemma BoundedOverlap(builder: ConfigSpec.Builder, es: seq<Event>, s: State)
    requires Reaches(true, builder, es, s)
    ensures |ActiveSet(s)| <= 1 + |AbandonedSet(s)| + |StopsMidClose(s)|
  {
    RunsKeepInvariant(builder, es, s);
    forall i, j | i in InService(s) && j in InService(s) ensures i == j {
      AtMostOneInService(s, i, j);
    }
    SmallSet(InService(s));
    ImageCardinality(s, StopsMidClose(s));
    UnionBound(ActiveSet(s), InService(s), AbandonedSet(s), HeldByStops(s));
  }

  lemma UnionBound(xs: set<InstId>, a: set<InstId>, b: set<InstId>, c: set<InstId>)
    requires xs <= a + b + c
    ensures |xs| <= |a| + |b| + |c|
  {
    SubsetCardinality(xs, a + b + c);
    assert |a + b| == |a| + |b| - |a * b|;
    assert |a + b + c| == |a + b| + |c| - |(a + b) * c|;
  }

  lemma {:induction false} SubsetCardinality(xs: set<InstId>, ys: set<InstId>)
    requires xs <= ys
    ensures |xs| <= |ys|
  {
    if xs != {} {
      var x :| x in xs;
      SubsetCardinality(xs - {x}, ys - {x});
    }
  }

  lemma SpawnedExcludesService(s: State, i: InstId, j: InstId)
    requires Invariant(s) && i < |s.insts| && s.insts[i].starter.Spawned? && i !in AbandonedSet(s)
    ensures j !in InService(s)
  {
    if j in InService(s) {
      var h := ServingHolder(s, j);
      var k := SpawnedHolder(s, i);
    }
  }

  lemma SpawnedHolder(s: State, i: InstId) returns (k: Holder)
    requires Invariant(s) && i < |s.insts| && s.insts[i].starter.Spawned? && i !in AbandonedSet(s)
    ensures Holds(s, k, i) && k.ByStart? && s.starts[k.t].pc.Selecting? && s.slot == None
  {
    assert HasHolder(s, i);
    k :| Holds(s, k, i);
  }

  /** When a start call begins, every active instance is abandoned or being stopped. */
  lemma StarterBeginsAlone(builder: ConfigSpec.Builder, es: seq<Event>, s: State, i: InstId)
    requires Reaches(true, builder, es, s) && Enabled(s, InGo(i, StarterBegins))
    requires i !in AbandonedSet(s)
    ensures ActiveSet(s) <= AbandonedSet(s) + HeldByStops(s)
  {
    RunsKeepInvariant(builder, es, s);
    forall j | j in ActiveSet(s) ensures j in AbandonedSet(s) + HeldByStops(s) {
      SpawnedExcludesService(s, i, j);
    }
  }

  predicate NoTimeout(es: seq<Event>) {
    forall k :: 0 <= k < |es| ==> !(es[k].InCore? && es[k].coreStep.SelectTimeout?)
  }

  lemma OnlyTimeoutsAbandon(s: State, e: Event)
    requires Enabled(s, e) && !(e.InCore? && e.coreStep.SelectTimeout?)
    ensures AbandonedSet(Apply(true, s, e)) <= AbandonedSet(s)
  {
    match e
    case InRequest(t, step) => RequestIsLocal(true, s, t, step);
    case InCore(t, step) => CoreIsLocal(s, t, step);
    case _ =>
  }

  lemma {:induction false} NoTimeoutNothingAbandoned(builder: ConfigSpec.Builder, es: seq<Event>, s: State)
    requires Reaches(true, builder, es, s) && NoTimeout(es)
    ensures AbandonedSet(s) == {}
  {
    if es != [] {
      var last := |es| - 1;
      var m := After(true, Init(builder), es[..last]).value;
      NoTimeoutNothingAbandoned(builder, es[..last], m);
      OnlyTimeoutsAbandon(m, es[last]);
    }
  }

  /** Without timeouts, and with no Stop in the middle of a close, the previous instance is
      fully closed before the next one begins to start. */
  lemma OldClosedBeforeNewStarts(builder: ConfigSpec.Builder, es: seq<Event>, s: State, i: InstId)
    requires Reaches(true, builder, es, s) && NoTimeout(es)
    requires Enabled(s, InGo(i, StarterBegins)) && StopsMidClose(s) == {}
    ensures ActiveSet(s) == {}
  {
    NoTimeoutNothingAbandoned(builder, es, s);
    StarterBeginsAlone(builder, es, s, i);
  }

  // ---- what the cache says ----------------------------------------------------------------

  /** A full slot is described by the cache unless a Start is between install and publish. */
  lemma CacheDescribesSlot(builder: ConfigSpec.Builder, es: seq<Event>, s: State)
    requires Reaches(true, builder, es, s) && s.slot.Some? && NobodyUnpublished(s)
    ensures s.slot.value < |s.insts| && s.insts[s.slot.value].starter == Returned(true)
    ensures Describes(s.cache, s.insts[s.slot.value])
  {
    RunsKeepInvariant(builder, es, s);
  }

  /** What a Start writes when it publishes its success. */
  datatype Publication = Publication(version: Option<string>, config: Fields, hashes: Hashes)

  predicate Publishes(s: State, e: Event) {
    e.InRequest? && e.requestStep.Publish? && e.t < |s.starts| && s.starts[e.t].pc.Publishing?
  }

  /** The latest publication of a run. */
  ghost function LatestPublication(builder: ConfigSpec.Builder, es: seq<Event>): Option<Publication> {
    if es == [] then None
    else
      var last := |es| - 1;
      var before := After(true, Init(builder), es[..last]);
      if before.Some? && Publishes(before.value, es[last]) then
        var start := before.value.starts[es[last].t];
        Some(Publication(start.pc.version, start.pc.config, start.request.hashes))
      else LatestPublication(builder, es[..last])
  }

  ghost predicate Remembers(cache: Cache, publication: Option<Publication>) {
    match publication
    case None => cache.version == None && cache.config == INITIAL.config && !cache.hasHashes
    case Some(p) =>
      cache.version == p.version && cache.config == Some(p.config) && cache.hashes == p.hashes && cache.hasHashes
  }

  lemma OnlyPublishingRewritesCache(s: State, e: Event)
    requires Enabled(s, e) && !Publishes(s, e)
    ensures SameRecord(s.cache, Apply(true, s, e).cache)
  {
    match e
    case InCore(t, step) => CoreIsLocal(s, t, step);
    case InRequest(t, step) => RequestRewritesCache(s, t, step);
    case _ =>
  }

  /** In every interleaving version, configuration and hashes are those of the Start that last
      published; neither a Stop nor a failure nor a handler touches them. */
  lemma {:induction false} CacheRemembersLatestStart(builder: ConfigSpec.Builder, es: seq<Event>, s: State)
    requires Reaches(true, builder, es, s)
    ensures Remembers(s.cache, LatestPublication(builder, es))
  {
    if es != [] {
      var last := |es| - 1;
      var m := After(true, Init(builder), es[..last]).value;
      CacheRemembersLatestStart(builder, es[..last], m);
      if !Publishes(m, es[last]) { OnlyPublishingRewritesCache(m, es[last]); }
    }
  }

  /** The slot holds a started instance whose hashes match, and the cache describes it. */
  ghost predicate SlotMatches(s: State, hashes: Hashes) {
    && s.slot.Some? && s.slot.value < |s.insts|
    && s.insts[s.slot.value].starter == Returned(true)
    && s.insts[s.slot.value].closeCalls == 0
    && SameHashes(s.insts[s.slot.value].hashes, hashes)
    && Describes(s.cache, s.insts[s.slot.value])
  }

  /** Event number `k` of the run is `e`, taken in a state where `P` of the slot holds. */
  ghost predicate MatchedAt(builder: ConfigSpec.Builder, es: seq<Event>, k: nat, t: ThreadId, hashes: Hashes) {
    && k < |es| && es[k] == InRequest(t, CheckHealth)
    && After(true, Init(builder), es[..k]).Some?
    && SlotMatches(After(true, Init(builder), es[..k]).value, hashes)
  }

  predicate SaysUpToDate(pc: StartPc) {
    pc.Confirming? || pc == Leaving(Answer.UpToDate) || pc == Done(Answer.UpToDate)
  }

  /** The only step that turns a Start towards "no restart required". */
  lemma TurnsUpToDate(s: State, e: Event, t: ThreadId)
    requires Invariant(s) && Enabled(s, e) && t < |s.starts|
    ensures t < |Apply(true, s, e).starts|
    ensures !SaysUpToDate(s.starts[t].pc) && SaysUpToDate(Apply(true, s, e).starts[t].pc) ==>
      && e == InRequest(t, CheckHealth)
      && !s.starts[t].request.force && SlotMatches(s, s.starts[t].request.hashes)
  {
    StepKeepsRequest(s, e, t);
    if !SaysUpToDate(s.starts[t].pc) && SaysUpToDate(Apply(true, s, e).starts[t].pc) {
      assert InSection(s.starts[t].pc) && !Unpublished(s.starts[t].pc);
      assert NobodyUnpublished(s);
    }
  }

  /** A Start that answers "no restart required" had seen, at its health check, a running
      instance built from hashes equal to the request's. */
  lemma {:induction false} UpToDateAnswerIsTrue(builder: ConfigSpec.Builder, es: seq<Event>, s: State, t: ThreadId)
    requires Reaches(true, builder, es, s) && t < |s.starts| && SaysUpToDate(s.starts[t].pc)
    ensures !s.starts[t].request.force
    ensures exists k: nat :: MatchedAt(builder, es, k, t, s.starts[t].request.hashes)
  {
    var last := |es| - 1;
    var m := After(true, Init(builder), es[..last]).value;
    StartsGrow(m, es[last]);
    StepKeepsRequest(m, es[last], t);
    if SaysUpToDate(m.starts[t].pc) {
      UpToDateAnswerIsTrue(builder, es[..last], m, t);
      var k: nat :| MatchedAt(builder, es[..last], k, t, s.starts[t].request.hashes);
      MatchedBefore(builder, es, k, t, s.starts[t].request.hashes);
    } else {
      assert es[last] == InRequest(t, CheckHealth) && !s.starts[t].request.force
             && SlotMatches(m, s.starts[t].request.hashes) by {
        RunsKeepInvariant(builder, es[..last], m);
        TurnsUpToDate(m, es[last], t);
      }
      assert MatchedAt(builder, es, last, t, s.starts[t].request.hashes);
    }
  }

  lemma MatchedBefore(builder: ConfigSpec.Builder, es: seq<Event>, k: nat, t: ThreadId, hashes: Hashes)
    requires es != [] && MatchedAt(builder, es[..|es| - 1], k, t, hashes)
    ensures MatchedAt(builder, es, k, t, hashes)
  {
    assert es[..|es| - 1][..k] == es[..k];
  }

  /** A Start that asks for what the cache describes, but finds at its health check that a Stop has
      taken it, lowers both flags and goes on to restart; nothing else has changed. */
  lemma GoneCoreIsRestarted(s: State, t: ThreadId)
    requires t < |s.starts| && s.starts[t].pc.CheckingHealth? && s.slot == None
    ensures Enabled(s, InRequest(t, CheckHealth))
    ensures var demoting := Apply(true, s, InRequest(t, CheckHealth));
      && Enabled(demoting, InRequest(t, Demote))
      && Apply(true, demoting, InRequest(t, Demote))
         == s.(starts := s.starts[t := s.starts[t].(pc := Building)],
               cache := s.cache.(running := false, statusCached := false))
  {
  }

  lemma StartsGrow(s: State, e: Event)
    requires Enabled(s, e)
    ensures var s' := Apply(true, s, e);
      |s'.starts| == |s.starts| || (|s'.starts| == |s.starts| + 1 && s'.starts[|s.starts|].pc.TryingBegin?)
  {
    match e
    case InRequest(u, step) => RequestIsLocal(true, s, u, step);
    case InCore(u, step) => CoreIsLocal(s, u, step);
    case _ =>
  }

  lemma StepKeepsRequest(s: State, e: Event, t: ThreadId)
    requires Enabled(s, e) && t < |s.starts|
    ensures var s' := Apply(true, s, e); t < |s'.starts| && s'.starts[t].request == s.starts[t].request
    ensures e.InCore? ==> !SaysUpToDate(Apply(true, s, e).starts[e.t].pc)
    ensures !(e.InRequest? && e.t == t) && !(e.InCore? && e.t == t) ==> Apply(true, s, e).starts[t] == s.starts[t]
  {
    match e
    case InRequest(u, step) => RequestIsLocal(true, s, u, step);
    case InCore(u, step) => CoreIsLocal(s, u, step);
    case _ =>
  }

  // ---- what "started" means ---------------------------------------------------------------

  predicate HasConfig(pc: StartPc) {
    pc.Loading? || Fresh(pc) || Unpublished(pc) || pc.Recording?
  }

  predicate ConfigIsBuilt(builder: ConfigSpec.Builder, start: Start) {
    HasConfig(start.pc) ==> ConfigSpec.Build(builder, start.request.panelConfig) == Ok(start.pc.config)
  }

  lemma StepKeepsConfig(s: State, e: Event, t: ThreadId)
    requires Enabled(s, e) && t < |s.starts| && ConfigIsBuilt(s.builder, s.starts[t])
    ensures ConfigIsBuilt(s.builder, Apply(true, s, e).starts[t])
  {
    StepKeepsRequest(s, e, t);
    match e
    case InRequest(u, step) => if u == t { RequestKeepsConfig(s, t, step); }
    case InCore(u, step) => if u == t { CoreKeepsConfig(s, t, step); }
    case _ =>
  }

  lemma RequestKeepsConfig(s: State, t: ThreadId, step: RequestStep)
    requires t < |s.starts| && RequestEnabled(s.starts[t].pc, step) && ConfigIsBuilt(s.builder, s.starts[t])
    ensures ConfigIsBuilt(s.builder, ApplyRequest(true, s, t, step).starts[t])
  {
    if !step.BuildConfig? && !step.ReadVersion? && !step.Publish? {
      OtherStepsCarryNoConfig(s, t, step);
    }
  }

  lemma OtherStepsCarryNoConfig(s: State, t: ThreadId, step: RequestStep)
    requires t < |s.starts| && RequestEnabled(s.starts[t].pc, step)
    requires !step.BuildConfig? && !step.ReadVersion? && !step.Publish?
    ensures !HasConfig(ApplyRequest(true, s, t, step).starts[t].pc)
  {
  }

  lemma CoreKeepsConfig(s: State, t: ThreadId, step: CoreStep)
    requires t < |s.starts| && CoreEnabled(s, s.starts[t].pc, step) && ConfigIsBuilt(s.builder, s.starts[t])
    ensures ConfigIsBuilt(s.builder, ApplyCore(s, t, step).starts[t])
  {
    CoreIsLocal(s, t, step);
    CoreCarriesConfig(s, t, step);
  }

  lemma CoreCarriesConfig(s: State, t: ThreadId, step: CoreStep)
    requires t < |s.starts| && CoreEnabled(s, s.starts[t].pc, step)
    ensures var pc, pc' := s.starts[t].pc, ApplyCore(s, t, step).starts[t].pc;
      HasConfig(pc') ==> HasConfig(pc) && pc'.config == pc.config
  {
  }

  lemma OnlyInstallSaysStarted(s: State, t: ThreadId, step: CoreStep)
    requires t < |s.starts| && CoreEnabled(s, s.starts[t].pc, step)
    ensures SaysStarted(ApplyCore(s, t, step).starts[t].pc) ==> step.Install?
  {
  }

  lemma {:induction false} RunsKeepConfig(builder: ConfigSpec.Builder, es: seq<Event>, s: State, t: ThreadId)
    requires Reaches(true, builder, es, s) && t < |s.starts|
    ensures s.builder == builder && ConfigIsBuilt(builder, s.starts[t])
    decreases |es|
  {
    var last := |es| - 1;
    var m := After(true, Init(builder), es[..last]).value;
    StartsGrow(m, es[last]);
    RunsKeepBuilder(builder, es[..last], m);
    if t < |m.starts| {
      RunsKeepConfig(builder, es[..last], m, t);
      StepKeepsConfig(m, es[last], t);
    }
    RunsKeepBuilder(builder, es, s);
  }

  lemma {:induction false} RunsKeepBuilder(builder: ConfigSpec.Builder, es: seq<Event>, s: State)
    requires Reaches(true, builder, es, s)
    ensures s.builder == builder
  {
    if es != [] {
      var last := |es| - 1;
      RunsKeepBuilder(builder, es[..last], After(true, Init(builder), es[..last]).value);
      KeepsBuilder(After(true, Init(builder), es[..last]).value, es[last]);
    }
  }

  lemma KeepsBuilder(s: State, e: Event)
    requires Enabled(s, e)
    ensures Apply(true, s, e).builder == s.builder
  {
    match e
    case InCore(u, step) => CoreIsLocal(s, u, step);
    case _ =>
  }

  predicate SaysStarted(pc: StartPc) {
    Unpublished(pc) || pc.Recording? || pc == Leaving(Started) || pc == Done(Started)
  }

  /** About to install an instance that started, built from this request and nothing else. */
  ghost predicate InstallsOwn(s: State, t: ThreadId, request: Request) {
    && t < |s.starts| && s.starts[t].pc.Installing?
    && var inst := s.starts[t].pc.inst;
    && inst < |s.insts|
    && s.insts[inst].starter == Returned(true) && s.insts[inst].closeCalls == 0
    && Ok(s.insts[inst].config) == ConfigSpec.Build(s.builder, request.panelConfig)
    && s.insts[inst].hashes == request.hashes
  }

  ghost predicate InstalledAt(builder: ConfigSpec.Builder, es: seq<Event>, k: nat, t: ThreadId, request: Request) {
    && k < |es| && es[k] == InCore(t, Install)
    && After(true, Init(builder), es[..k]).Some?
    && InstallsOwn(After(true, Init(builder), es[..k]).value, t, request)
  }

  lemma TurnedStarted(builder: ConfigSpec.Builder, es: seq<Event>, s: State, e: Event, t: ThreadId)
    requires Reaches(true, builder, es, s) && Enabled(s, e) && t < |s.starts| && !SaysStarted(s.starts[t].pc)
    requires t < |Apply(true, s, e).starts| && SaysStarted(Apply(true, s, e).starts[t].pc)
    ensures e == InCore(t, Install) && InstallsOwn(s, t, s.starts[t].request)
  {
    RunsKeepInvariant(builder, es, s);
    RunsKeepConfig(builder, es, s, t);
    TurnsStarted(s, e, t);
  }

  lemma InstalledBefore(builder: ConfigSpec.Builder, es: seq<Event>, k: nat, t: ThreadId, request: Request)
    requires es != [] && InstalledAt(builder, es[..|es| - 1], k, t, request)
    ensures InstalledAt(builder, es, k, t, request)
  {
    assert es[..|es| - 1][..k] == es[..k];
  }

  lemma TurnsStarted(s: State, e: Event, t: ThreadId)
    requires Invariant(s) && Enabled(s, e) && t < |s.starts| && ConfigIsBuilt(s.builder, s.starts[t])
    ensures t < |Apply(true, s, e).starts|
    ensures !SaysStarted(s.starts[t].pc) && SaysStarted(Apply(true, s, e).starts[t].pc) ==>
      e == InCore(t, Install) && InstallsOwn(s, t, s.starts[t].request)
  {
    StepKeepsRequest(s, e, t);
    if !SaysStarted(s.starts[t].pc) {
      match e
      case InRequest(u, step) => if u == t { RequestNeverInstalls(s, t, step); }
      case InCore(u, step) => if u == t { OnlyInstallSaysStarted(s, t, step); }
      case _ =>
    }
  }

  lemma RequestNeverInstalls(s: State, t: ThreadId, step: RequestStep)
    requires t < |s.starts| && RequestEnabled(s.starts[t].pc, step) && !SaysStarted(s.starts[t].pc)
    ensures !SaysStarted(ApplyRequest(true, s, t, step).starts[t].pc)
  {
  }

  /** A Start that answers "started" has put into the slot an instance whose own start call
      succeeded and which was built from the configuration and hashes of that very request. */
  lemma {:induction false} StartedAnswerIsTrue(builder: ConfigSpec.Builder, es: seq<Event>, s: State, t: ThreadId)
    requires Reaches(true, builder, es, s) && t < |s.starts| && SaysStarted(s.starts[t].pc)
    ensures exists k: nat :: InstalledAt(builder, es, k, t, s.starts[t].request)
  {
    var last := |es| - 1;
    var m := After(true, Init(builder), es[..last]).value;
    StartsGrow(m, es[last]);
    StepKeepsRequest(m, es[last], t);
    if SaysStarted(m.starts[t].pc) {
      StartedAnswerIsTrue(builder, es[..last], m, t);
      var k: nat :| InstalledAt(builder, es[..last], k, t, s.starts[t].request);
      InstalledBefore(builder, es, k, t, s.starts[t].request);
    } else {
      TurnedStarted(builder, es[..last], m, es[last], t);
      assert InstalledAt(builder, es, last, t, s.starts[t].request);
    }
  }
}
