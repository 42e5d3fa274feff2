/** What the single-flight guard adds: one Start at a time, no instance without a holder, and
    a cache that describes the installed instance. */
module LifecycleGuarded {
  import opened Wrappers
  import opened JsonTree
  import opened StateSpec
  import opened Lifecycle
  import opened LifecycleInvariant
  import ConfigSpec

  predicate InSection(pc: StartPc) {
    !pc.TryingBegin? && !pc.Done?
  }

  ghost predicate SingleFlight(s: State) {
    && (forall t, t' | 0 <= t < |s.starts| && 0 <= t' < |s.starts| ::
          InSection(s.starts[t].pc) && InSection(s.starts[t'].pc) ==> t == t')
    && (s.guardHeld <==> exists t :: 0 <= t < |s.starts| && InSection(s.starts[t].pc))
  }

  /** Between the swap and the install the slot stays empty. */
  predicate Emptied(pc: StartPc) {
    pc.Draining? || pc.Launching? || pc.Selecting? || pc.Discarding? || pc.Installing?
  }

  /** Between the install and SetXrayStarted the cache may lag behind the slot. */
  predicate Unpublished(pc: StartPc) {
    pc.ReadingVersion? || pc.Publishing?
  }

  predicate BuiltFor(inst: Instance, config: Fields, hashes: Hashes) {
    inst.config == config && inst.hashes == hashes
  }

  predicate Describes(cache: Cache, inst: Instance) {
    cache.hasHashes && cache.config == Some(inst.config) && cache.hashes == inst.hashes
  }

  predicate NobodyUnpublished(s: State) {
    forall t :: 0 <= t < |s.starts| ==> !Unpublished(s.starts[t].pc)
  }

  ghost predicate SectionFacts(s: State, start: Start) {
    && (Emptied(start.pc) ==> s.slot == None)
    && (Unpublished(start.pc) && s.slot.Some? && s.slot.value < |s.insts| ==>
          BuiltFor(s.insts[s.slot.value], start.pc.config, start.request.hashes))
    && (start.pc.CheckingHealth? ==>
          !start.request.force && s.cache.hasHashes && SameHashes(s.cache.hashes, start.request.hashes))
  }

  ghost predicate CacheAgrees(s: State) {
    && (forall t :: 0 <= t < |s.starts| ==> SectionFacts(s, s.starts[t]))
    && (NobodyUnpublished(s) && s.slot.Some? && s.slot.value < |s.insts| ==> Describes(s.cache, s.insts[s.slot.value]))
  }

  ghost predicate HasHolder(s: State, i: InstId) {
    exists h: Holder :: Holds(s, h, i)
  }

  ghost predicate Covered(s: State) {
    forall i :: 0 <= i < |s.insts| ==> HasHolder(s, i)
  }

  ghost predicate Invariant(s: State) {
    Ownership(s) && SingleFlight(s) && CacheAgrees(s) && Covered(s)
  }

  // ---- single flight -------------------------------------------------------------------

  lemma RequestKeepsSingleFlight(s: State, t: ThreadId, step: RequestStep)
    requires SingleFlight(s) && t < |s.starts| && RequestEnabled(s.starts[t].pc, step)
    ensures SingleFlight(ApplyRequest(true, s, t, step))
  {
    var s' := ApplyRequest(true, s, t, step);
    RequestIsLocal(true, s, t, step);
    assert step.TryBegin? || InSection(s.starts[t].pc);
    assert InSection(s'.starts[t].pc) || step.EndStart? || (step.TryBegin? && s.guardHeld);
    if step.TryBegin? && s.guardHeld {
      var u :| 0 <= u < |s.starts| && InSection(s.starts[u].pc);
      assert InSection(s'.starts[u].pc);
    }
  }

  lemma CoreKeepsSingleFlight(s: State, t: ThreadId, step: CoreStep)
    requires SingleFlight(s) && t < |s.starts| && CoreEnabled(s, s.starts[t].pc, step)
    ensures SingleFlight(ApplyCore(s, t, step))
  {
    var s' := ApplyCore(s, t, step);
    assert InSection(s.starts[t].pc) && InSection(s'.starts[t].pc);
  }

  // ---- the cache ------------------------------------------------------------------------

  /** What a Start publishes; only its publication rewrites it. */
  predicate SameRecord(c: Cache, c': Cache) {
    c'.version == c.version && c'.config == c.config && c'.hashes == c.hashes && c'.hasHashes == c.hasHashes
  }

  lemma RequestRewritesCache(s: State, t: ThreadId, step: RequestStep)
    requires t < |s.starts| && RequestEnabled(s.starts[t].pc, step) && !step.Publish?
    ensures SameRecord(s.cache, ApplyRequest(true, s, t, step).cache)
  {
  }

  /** The facts a controller step brings its own Start into. */
  ghost predicate Enters(s: State, s': State, t: ThreadId)
    requires t < |s.starts|
  {
    && t < |s'.starts| && SectionFacts(s', s'.starts[t])
    && (Unpublished(s.starts[t].pc) ==> Unpublished(s'.starts[t].pc))
  }

  lemma EarlyStepEnters(s: State, t: ThreadId, step: RequestStep)
    requires CacheAgrees(s) && t < |s.starts| && RequestEnabled(s.starts[t].pc, step) && IsEarly(step)
    ensures Enters(s, ApplyRequest(true, s, t, step), t)
  {
  }

  lemma MiddleStepEnters(s: State, t: ThreadId, step: RequestStep)
    requires CacheAgrees(s) && t < |s.starts| && RequestEnabled(s.starts[t].pc, step)
    requires IsMiddle(step) && !step.Publish?
    ensures Enters(s, ApplyRequest(true, s, t, step), t)
  {
    assert SectionFacts(s, s.starts[t]);
  }

  lemma LateStepEnters(s: State, t: ThreadId, step: RequestStep)
    requires t < |s.starts| && RequestEnabled(s.starts[t].pc, step) && !IsEarly(step) && !IsMiddle(step)
    ensures Enters(s, ApplyRequest(true, s, t, step), t)
  {
  }

  lemma QuietStepKeepsCache(s: State, s': State, t: ThreadId)
    requires CacheAgrees(s) && t < |s.starts| && Local(s, s', t)
    requires Enters(s, s', t) && SameRecord(s.cache, s'.cache)
    ensures CacheAgrees(s')
  {
    forall k | 0 <= k < |s'.starts| ensures SectionFacts(s', s'.starts[k]) {
      assert SectionFacts(s, s.starts[k]);
    }
  }

  /** The publication makes the cache describe the slot, and nobody else is inside to notice. */
  lemma PublishKeepsCache(s: State, t: ThreadId)
    requires SingleFlight(s) && CacheAgrees(s) && t < |s.starts| && s.starts[t].pc.Publishing?
    ensures CacheAgrees(ApplyRequest(true, s, t, Publish))
  {
    assert SectionFacts(s, s.starts[t]);
    var s' := ApplyRequest(true, s, t, Publish);
    forall k | 0 <= k < |s'.starts| ensures SectionFacts(s', s'.starts[k]) {
      assert InSection(s.starts[t].pc) && (k == t || !InSection(s.starts[k].pc));
    }
  }

  lemma RequestKeepsCache(s: State, t: ThreadId, step: RequestStep)
    requires SingleFlight(s) && CacheAgrees(s) && t < |s.starts| && RequestEnabled(s.starts[t].pc, step)
    ensures CacheAgrees(ApplyRequest(true, s, t, step))
  {
    if step.Publish? {
      PublishKeepsCache(s, t);
    } else {
      var s' := ApplyRequest(true, s, t, step);
      RequestIsLocal(true, s, t, step);
      RequestRewritesCache(s, t, step);
      if IsEarly(step) {
        EarlyStepEnters(s, t, step);
      } else if IsMiddle(step) {
        MiddleStepEnters(s, t, step);
      } else {
        LateStepEnters(s, t, step);
      }
      QuietStepKeepsCache(s, s', t);
    }
  }

  lemma CoreKeepsCache(s: State, t: ThreadId, step: CoreStep)
    requires Ownership(s) && SingleFlight(s) && CacheAgrees(s)
    requires t < |s.starts| && CoreEnabled(s, s.starts[t].pc, step)
    ensures CacheAgrees(ApplyCore(s, t, step))
  {
    var s' := ApplyCore(s, t, step);
    assert InSection(s.starts[t].pc);
    CoreIsLocal(s, t, step);
    CoreEnters(s, t, step);
    AloneKeepsCache(s, s', t);
  }

  lemma CoreEnters(s: State, t: ThreadId, step: CoreStep)
    requires Ownership(s) && CacheAgrees(s) && t < |s.starts| && CoreEnabled(s, s.starts[t].pc, step)
    ensures var s' := ApplyCore(s, t, step);
      && SectionFacts(s', s'.starts[t])
      && (s'.slot == None || Unpublished(s'.starts[t].pc) || (s'.slot == s.slot && (s'.slot.value < |s.insts| ==>
           s'.insts[s'.slot.value].config == s.insts[s.slot.value].config
           && s'.insts[s'.slot.value].hashes == s.insts[s.slot.value].hashes)))
  {
    assert SectionFacts(s, s.starts[t]);
    assert StartFacts(s, s.starts[t]);
  }

  /** A step of the only Start inside, which does not touch the cache. */
  lemma AloneKeepsCache(s: State, s': State, t: ThreadId)
    requires Ownership(s) && SingleFlight(s) && CacheAgrees(s)
    requires t < |s.starts| == |s'.starts| && InSection(s.starts[t].pc) && !Unpublished(s.starts[t].pc)
    requires forall k :: 0 <= k < |s.starts| && k != t ==> s'.starts[k] == s.starts[k]
    requires s'.cache == s.cache && SectionFacts(s', s'.starts[t])
    requires s'.slot == None || Unpublished(s'.starts[t].pc) || (s'.slot == s.slot && (s'.slot.value < |s.insts| ==>
      |s.insts| <= |s'.insts|
      && s'.insts[s'.slot.value].config == s.insts[s.slot.value].config
      && s'.insts[s'.slot.value].hashes == s.insts[s.slot.value].hashes))
    ensures CacheAgrees(s')
  {
    forall k | 0 <= k < |s'.starts| ensures SectionFacts(s', s'.starts[k]) {
      assert k == t || !InSection(s.starts[k].pc);
    }
    assert NobodyUnpublished(s);
  }

  // ---- nothing is lost ------------------------------------------------------------------

  lemma RequestKeepsCovered(s: State, t: ThreadId, step: RequestStep)
    requires Covered(s) && t < |s.starts| && RequestEnabled(s.starts[t].pc, step)
    ensures Covered(ApplyRequest(true, s, t, step))
  {
    RequestIsLocal(true, s, t, step);
    assert !Fresh(s.starts[t].pc) && !s.starts[t].pc.Discarding?;
    LocalKeepsCovered(s, ApplyRequest(true, s, t, step), t);
  }

  lemma LocalKeepsCovered(s: State, s': State, t: ThreadId)
    requires Covered(s) && t < |s.starts| && Local(s, s', t)
    requires !Fresh(s.starts[t].pc) && !s.starts[t].pc.Discarding?
    ensures Covered(s')
  {
    forall i | 0 <= i < |s'.insts| ensures HasHolder(s', i) {
      assert HasHolder(s, i);
      var h: Holder :| Holds(s, h, i);
      assert Holds(s', h, i);
    }
  }

  lemma CoreKeepsCovered(s: State, t: ThreadId, step: CoreStep)
    requires Ownership(s) && SingleFlight(s) && CacheAgrees(s) && Covered(s)
    requires t < |s.starts| && CoreEnabled(s, s.starts[t].pc, step)
    ensures Covered(ApplyCore(s, t, step))
  {
    var s' := ApplyCore(s, t, step);
    forall i | 0 <= i < |s'.insts| ensures HasHolder(s', i) {
      assert i < |s.insts| ==> HasHolder(s, i);
      if i == |s.insts| {
        assert Holds(s', ByStart(t), i);
      } else {
        var h: Holder :| Holds(s, h, i);
        CoreHandsOn(s, t, step, h, i);
      }
    }
  }

  /** Kept by its holder, or handed to the Start at work, the slot, a reaper or the closed ones. */
  ghost predicate HandedOn(s: State, t: ThreadId, h: Holder, i: InstId) {
    Holds(s, h, i) || Holds(s, ByStart(t), i) || Holds(s, BySlot, i) || Holds(s, ByReaper, i) || Holds(s, ByClosed, i)
  }

  lemma CoreHandsOn(s: State, t: ThreadId, step: CoreStep, h: Holder, i: InstId)
    requires Ownership(s) && CacheAgrees(s) && Holds(s, h, i) && i < |s.insts|
    requires t < |s.starts| && CoreEnabled(s, s.starts[t].pc, step)
    ensures HandedOn(ApplyCore(s, t, step), t, h, i)
  {
    assert SectionFacts(s, s.starts[t]);
    if step.Load? || step.Swap? || step.BeginDrain? || step.EndDrain? || step.Launch? {
      FirstStepsHandOn(s, t, step, h, i);
    } else {
      LastStepsHandOn(s, t, step, h, i);
    }
  }

  lemma FirstStepsHandOn(s: State, t: ThreadId, step: CoreStep, h: Holder, i: InstId)
    requires Holds(s, h, i) && i < |s.insts| && t < |s.starts| && CoreEnabled(s, s.starts[t].pc, step)
    requires step.Load? || step.Swap? || step.BeginDrain? || step.EndDrain? || step.Launch?
    ensures HandedOn(ApplyCore(s, t, step), t, h, i)
  {
  }

  lemma LastStepsHandOn(s: State, t: ThreadId, step: CoreStep, h: Holder, i: InstId)
    requires Holds(s, h, i) && i < |s.insts| && t < |s.starts| && CoreEnabled(s, s.starts[t].pc, step)
    requires !step.Load? && !step.Swap? && !step.BeginDrain? && !step.EndDrain? && !step.Launch?
    requires Emptied(s.starts[t].pc) ==> s.slot == None
    ensures HandedOn(ApplyCore(s, t, step), t, h, i)
  {
  }

  lemma GoKeepsCovered(s: State, i: InstId, step: GoStep)
    requires Ownership(s) && Covered(s) && i < |s.insts| && GoEnabled(s.insts[i], step)
    ensures Covered(WithInst(s, i, ApplyGo(s.insts[i], step)))
  {
    var s' := WithInst(s, i, ApplyGo(s.insts[i], step));
    forall k | 0 <= k < |s'.insts| ensures HasHolder(s', k) {
      assert HasHolder(s, k);
      var h: Holder :| Holds(s, h, k);
      assert Holds(s', h, k) || Holds(s', ByClosed, k);
    }
  }

  lemma StopKeepsCovered(s: State, t: ThreadId, step: StopStep)
    requires Ownership(s) && Covered(s) && t < |s.stops| && StopEnabled(s, s.stops[t], step)
    ensures Covered(ApplyStop(s, t, step))
  {
    var s' := ApplyStop(s, t, step);
    forall i | 0 <= i < |s'.insts| ensures HasHolder(s', i) {
      assert i < |s.insts| ==> HasHolder(s, i);
      var h: Holder :| Holds(s, h, i);
      assert Holds(s', h, i) || Holds(s', ByStop(t), i) || Holds(s', ByClosed, i);
    }
  }

  // ---- every event -----------------------------------------------------------------------

  lemma EventKeepsOwnership(guarded: bool, s: State, e: Event)
    requires Ownership(s) && Enabled(s, e)
    ensures Ownership(Apply(guarded, s, e))
  {
    var s' := Apply(guarded, s, e);
    match e
    case InRequest(t, step) => RequestKeepsOwnership(guarded, s, t, step);
    case InCore(t, step) => CoreKeepsOwnership(s, t, step);
    case InGo(i, step) => GoKeepsOwnership(s, i, step);
    case InStop(t, step) => StopKeepsOwnership(s, t, step);
    case _ => assert Stay(s, s');
  }

  lemma RequestKeepsRest(s: State, t: ThreadId, step: RequestStep)
    requires Invariant(s) && t < |s.starts| && RequestEnabled(s.starts[t].pc, step)
    ensures var s' := ApplyRequest(true, s, t, step); SingleFlight(s') && CacheAgrees(s') && Covered(s')
  {
    RequestKeepsSingleFlight(s, t, step);
    RequestKeepsCache(s, t, step);
    RequestKeepsCovered(s, t, step);
  }

  lemma CoreKeepsRest(s: State, t: ThreadId, step: CoreStep)
    requires Invariant(s) && t < |s.starts| && CoreEnabled(s, s.starts[t].pc, step)
    ensures var s' := ApplyCore(s, t, step); SingleFlight(s') && CacheAgrees(s') && Covered(s')
  {
    CoreKeepsSingleFlight(s, t, step);
    CoreKeepsCache(s, t, step);
    CoreKeepsCovered(s, t, step);
  }

  lemma GoKeepsRest(s: State, i: InstId, step: GoStep)
    requires Invariant(s) && i < |s.insts| && GoEnabled(s.insts[i], step)
    ensures var s' := WithInst(s, i, ApplyGo(s.insts[i], step)); SingleFlight(s') && CacheAgrees(s') && Covered(s')
  {
    GoKeepsCovered(s, i, step);
  }

  lemma StopKeepsRest(s: State, t: ThreadId, step: StopStep)
    requires Invariant(s) && t < |s.stops| && StopEnabled(s, s.stops[t], step)
    ensures var s' := ApplyStop(s, t, step); SingleFlight(s') && CacheAgrees(s') && Covered(s')
  {
    StopKeepsCovered(s, t, step);
  }

  lemma EventKeepsInvariant(s: State, e: Event)
    requires Invariant(s) && Enabled(s, e)
    ensures Invariant(Apply(true, s, e))
  {
    EventKeepsOwnership(true, s, e);
    match e
    case InRequest(t, step) => RequestKeepsRest(s, t, step);
    case InCore(t, step) => CoreKeepsRest(s, t, step);
    case InGo(i, step) => GoKeepsRest(s, i, step);
    case InStop(t, step) => StopKeepsRest(s, t, step);
    case _ => EnvironmentKeepsInvariant(s, e);
  }

  lemma EnvironmentKeepsInvariant(s: State, e: Event)
    requires Invariant(s) && IsEnvironment(e)
    ensures var s' := Apply(true, s, e); SingleFlight(s') && CacheAgrees(s') && Covered(s')
  {
    var s' := Apply(true, s, e);
    if e.StartArrives? {
      StartArrivalKeepsRest(s, e.request);
    } else {
      ArrivalsKeepCovered(s, s');
    }
  }

  lemma StartArrivalKeepsRest(s: State, request: Request)
    requires Invariant(s)
    ensures var s' := s.(starts := s.starts + [Start(request, TryingBegin)]);
      SingleFlight(s') && CacheAgrees(s') && Covered(s')
  {
    var s' := s.(starts := s.starts + [Start(request, TryingBegin)]);
    assert forall t :: 0 <= t < |s.starts| ==> s'.starts[t] == s.starts[t];
    ArrivalsKeepCovered(s, s');
  }

  lemma ArrivalsKeepCovered(s: State, s': State)
    requires Covered(s) && s'.insts == s.insts && s'.slot == s.slot
    requires |s.starts| <= |s'.starts| && forall t :: 0 <= t < |s.starts| ==> s'.starts[t] == s.starts[t]
    requires |s.stops| <= |s'.stops| && forall t :: 0 <= t < |s.stops| ==> s'.stops[t] == s.stops[t]
    ensures Covered(s')
  {
    forall i | 0 <= i < |s'.insts| ensures HasHolder(s', i) {
      assert HasHolder(s, i);
      var h: Holder :| Holds(s, h, i);
      assert Holds(s', h, i);
    }
  }

  lemma {:induction false} RunsKeepOwnership(guarded: bool, builder: ConfigSpec.Builder, es: seq<Event>, s: State)
    requires Reaches(guarded, builder, es, s)
    ensures Ownership(s)
  {
    if es != [] {
      var last := |es| - 1;
      var m := After(guarded, Init(builder), es[..last]).value;
      RunsKeepOwnership(guarded, builder, es[..last], m);
      EventKeepsOwnership(guarded, m, es[last]);
    }
  }

  lemma {:induction false} RunsKeepInvariant(builder: ConfigSpec.Builder, es: seq<Event>, s: State)
    requires Reaches(true, builder, es, s)
    ensures Invariant(s)
  {
    if es != [] {
      var last := |es| - 1;
      var m := After(true, Init(builder), es[..last]).value;
      RunsKeepInvariant(builder, es[..last], m);
      EventKeepsInvariant(m, es[last]);
    }
  }
}
