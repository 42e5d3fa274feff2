/** Who holds each instance, and what every step of every interleaving keeps. */
module LifecycleInvariant {
  import opened Wrappers
  import opened Lifecycle

  /** The party that is responsible for closing an instance, or has closed it. */
  datatype Holder =
    | ByStart(t: ThreadId)
    | BySlot
    | ByStop(t: ThreadId)
    | ByReaper
    | ByClosed

  predicate Fresh(pc: StartPc) {
    pc.Swapping? || pc.Draining? || pc.Launching? || pc.Selecting? || pc.Installing?
  }

  predicate StartHolds(pc: StartPc, i: InstId) {
    || ((Fresh(pc) || pc.Discarding?) && pc.inst == i)
    || (pc.Draining? && pc.prev == i)
  }

  predicate Holds(s: State, h: Holder, i: InstId) {
    match h
    case ByStart(t) => t < |s.starts| && StartHolds(s.starts[t].pc, i)
    case BySlot => s.slot == Some(i)
    case ByStop(t) => t < |s.stops| && s.stops[t].Holding? && s.stops[t].inst == i
    case ByReaper => i < |s.insts| && (s.insts[i].reaper.AwaitingStarter? || s.insts[i].reaper.ClosingAbandoned?)
    case ByClosed => i < |s.insts| && s.insts[i].closed
  }

  /** Not yet handed to a reaper, with a close call in flight exactly if `closing`. */
  predicate Held(inst: Instance, closing: bool) {
    inst.reaper.NoReaper? && !inst.closed && inst.closeCalls == if closing then 1 else 0
  }

  predicate HeldAt(s: State, i: InstId, closing: bool) {
    i < |s.insts| && Held(s.insts[i], closing)
  }

  /** Facts about the instances a Start holds. */
  predicate StartFacts(s: State, start: Start) {
    var pc := start.pc;
    && (Fresh(pc) ==>
          && HeldAt(s, pc.inst, false)
          && s.insts[pc.inst].config == pc.config
          && s.insts[pc.inst].hashes == start.request.hashes)
    && (pc.Swapping? || pc.Draining? || pc.Launching? ==> s.insts[pc.inst].starter == Unspawned)
    && (pc.Draining? ==> HeldAt(s, pc.prev, pc.closing) && s.insts[pc.prev].starter == Returned(true))
    && (pc.Selecting? ==> s.insts[pc.inst].starter != Unspawned)
    && (pc.Discarding? ==> HeldAt(s, pc.inst, pc.closing) && s.insts[pc.inst].starter == Returned(false))
    && (pc.Installing? ==> s.insts[pc.inst].starter == Returned(true))
  }

  predicate StopFacts(s: State, pc: StopPc) {
    pc.Holding? ==> HeldAt(s, pc.inst, pc.closing) && s.insts[pc.inst].starter == Returned(true)
  }

  predicate SlotFacts(s: State, slot: Option<InstId>) {
    slot.Some? ==> HeldAt(s, slot.value, false) && s.insts[slot.value].starter == Returned(true)
  }

  predicate InstFacts(inst: Instance) {
    && inst.closeCalls <= 1
    && (inst.closed ==> inst.closeCalls == 1)
    && (inst.closeCalls > 0 ==> inst.starter.Returned?)
    && (inst.reaper.AwaitingStarter? ==> inst.closeCalls == 0 && inst.starter != Unspawned)
    && (inst.reaper.ClosingAbandoned? ==> inst.closeCalls == 1 && !inst.closed)
    && (inst.reaper.Reaped? ==> inst.closed)
  }

  ghost predicate AtMostOneHolder(s: State) {
    forall i: InstId, h: Holder, h': Holder :: Holds(s, h, i) && Holds(s, h', i) ==> h == h'
  }

  /** The part of the invariant that needs no guard. */
  ghost predicate Ownership(s: State) {
    && (forall t :: 0 <= t < |s.starts| ==> StartFacts(s, s.starts[t]))
    && (forall t :: 0 <= t < |s.stops| ==> StopFacts(s, s.stops[t]))
    && SlotFacts(s, s.slot)
    && (forall i :: 0 <= i < |s.insts| ==> InstFacts(s.insts[i]))
    && AtMostOneHolder(s)
  }

  /** From `s` to `s'` at most instance `j` changed hands, and it is now with `h`. */
  ghost predicate Moves(s: State, s': State, j: InstId, h: Holder) {
    forall k: Holder, i: InstId :: Holds(s', k, i) ==> if i == j then k == h else Holds(s, k, i)
  }

  ghost predicate Stay(s: State, s': State) {
    forall k: Holder, i: InstId :: Holds(s', k, i) ==> Holds(s, k, i)
  }

  /** A step that hands `j` from `h` to `h'`. */
  lemma Transfer(s: State, s': State, j: InstId, h: Holder, h': Holder)
    requires AtMostOneHolder(s) && Holds(s, h, j) && (h == h' || !Holds(s', h, j))
    requires forall k: Holder, i: InstId :: Holds(s', k, i) ==> Holds(s, k, i) || (k == h' && i == j)
    ensures Moves(s, s', j, h')
  {
  }

  lemma NobodyHoldsUnborn(s: State)
    requires Ownership(s)
    ensures forall k: Holder, i: InstId :: Holds(s, k, i) ==> i < |s.insts|
  {
  }

  /** Only instance `j` may differ, and new instances may follow. */
  ghost predicate OnlyInst(s: State, s': State, j: InstId) {
    |s.insts| <= |s'.insts| && forall i :: 0 <= i < |s.insts| && i != j ==> s'.insts[i] == s.insts[i]
  }

  /** When the holder of `j` changes it, nobody else's facts are disturbed. */
  lemma OthersKeepFacts(s: State, s': State, j: InstId, h: Holder)
    requires Ownership(s) && OnlyInst(s, s', j) && (Holds(s, h, j) || |s.insts| <= j)
    ensures forall t :: 0 <= t < |s.starts| && ByStart(t) != h ==> StartFacts(s', s.starts[t])
    ensures forall t :: 0 <= t < |s.stops| && ByStop(t) != h ==> StopFacts(s', s.stops[t])
    ensures BySlot != h ==> SlotFacts(s', s.slot)
  {
    forall t | 0 <= t < |s.starts| && ByStart(t) != h ensures StartFacts(s', s.starts[t]) {
      assert !Holds(s, ByStart(t), j);
    }
    forall t | 0 <= t < |s.stops| && ByStop(t) != h ensures StopFacts(s', s.stops[t]) {
      assert !Holds(s, ByStop(t), j);
    }
    if BySlot != h {
      assert !Holds(s, BySlot, j);
    }
  }

  lemma RequestKeepsOwnership(guarded: bool, s: State, t: ThreadId, step: RequestStep)
    requires Ownership(s) && t < |s.starts| && RequestEnabled(s.starts[t].pc, step)
    ensures Ownership(ApplyRequest(guarded, s, t, step))
  {
    var s' := ApplyRequest(guarded, s, t, step);
    RequestIsLocal(guarded, s, t, step);
    LocalKeepsOwnership(s, s', t);
  }

  lemma LocalKeepsOwnership(s: State, s': State, t: ThreadId)
    requires Ownership(s) && t < |s.starts| && Local(s, s', t)
    ensures Ownership(s')
  {
    assert Stay(s, s');
  }

  /** What a controller step leaves alone: all instances, the slot, the Stops, the other Starts. */
  ghost predicate Local(s: State, s': State, t: ThreadId)
    requires t < |s.starts|
  {
    && s'.insts == s.insts && s'.slot == s.slot && s'.stops == s.stops
    && |s'.starts| == |s.starts|
    && s'.starts[t].request == s.starts[t].request
    && !Fresh(s'.starts[t].pc) && !s'.starts[t].pc.Discarding?
    && (forall k :: 0 <= k < |s.starts| && k != t ==> s'.starts[k] == s.starts[k])
  }

  predicate IsEarly(step: RequestStep) {
    step.TryBegin? || step.Decode? || step.ReadRunning? || step.Decide? || step.CheckHealth?
  }

  predicate IsMiddle(step: RequestStep) {
    step.Confirm? || step.Demote? || step.BuildConfig? || step.ReadVersion? || step.Publish?
  }

  lemma EarlyStepIsLocal(guarded: bool, s: State, t: ThreadId, step: RequestStep)
    requires t < |s.starts| && RequestEnabled(s.starts[t].pc, step) && IsEarly(step)
    ensures Local(s, ApplyRequest(guarded, s, t, step), t)
  {
  }

  lemma MiddleStepIsLocal(guarded: bool, s: State, t: ThreadId, step: RequestStep)
    requires t < |s.starts| && RequestEnabled(s.starts[t].pc, step) && IsMiddle(step)
    ensures Local(s, ApplyRequest(guarded, s, t, step), t)
  {
  }

  lemma LateStepIsLocal(guarded: bool, s: State, t: ThreadId, step: RequestStep)
    requires t < |s.starts| && RequestEnabled(s.starts[t].pc, step) && !IsEarly(step) && !IsMiddle(step)
    ensures Local(s, ApplyRequest(guarded, s, t, step), t)
  {
  }

  lemma RequestIsLocal(guarded: bool, s: State, t: ThreadId, step: RequestStep)
    requires t < |s.starts| && RequestEnabled(s.starts[t].pc, step)
    ensures Local(s, ApplyRequest(guarded, s, t, step), t)
  {
    if IsEarly(step) {
      EarlyStepIsLocal(guarded, s, t, step);
    } else if IsMiddle(step) {
      MiddleStepIsLocal(guarded, s, t, step);
    } else {
      LateStepIsLocal(guarded, s, t, step);
    }
  }

  lemma CoreIsLocal(s: State, t: ThreadId, step: CoreStep)
    requires t < |s.starts| && CoreEnabled(s, s.starts[t].pc, step)
    ensures var s' := ApplyCore(s, t, step);
      && s'.cache == s.cache && s'.stops == s.stops && s'.guardHeld == s.guardHeld && s'.builder == s.builder
      && |s'.starts| == |s.starts|
      && s'.starts[t].request == s.starts[t].request
      && (|| s'.starts[t].pc.Syncing? || s'.starts[t].pc.ReadingVersion? || s'.starts[t].pc.Discarding?
          || Fresh(s'.starts[t].pc))
      && (forall k :: 0 <= k < |s.starts| && k != t ==> s'.starts[k] == s.starts[k])
      && |s.insts| <= |s'.insts|
      && (forall i :: |s.insts| <= i < |s'.insts| ==> s'.insts[i].reaper.NoReaper? && s'.insts[i].starter == Unspawned)
      && (!step.SelectTimeout? ==> forall i :: 0 <= i < |s.insts| ==> s'.insts[i].reaper == s.insts[i].reaper)
  {
  }

  lemma CoreKeepsOwnership(s: State, t: ThreadId, step: CoreStep)
    requires Ownership(s) && t < |s.starts| && CoreEnabled(s, s.starts[t].pc, step)
    ensures Ownership(ApplyCore(s, t, step))
  {
    var s' := ApplyCore(s, t, step);
    OthersKeepFacts(s, s', Touched(s, t, step), TouchedBy(s, t, step));
    CoreKeepsHolders(s, t, step);
    CoreKeepsOwnFacts(s, t, step);
  }

  /** The instance a core step works on; a fresh one if it creates it. */
  ghost function Touched(s: State, t: ThreadId, step: CoreStep): InstId
    requires t < |s.starts| && CoreEnabled(s, s.starts[t].pc, step)
  {
    var pc := s.starts[t].pc;
    match step
    case Load(_) => |s.insts|
    case Swap => if s.slot.Some? then s.slot.value else pc.inst
    case BeginDrain => pc.prev
    case EndDrain => pc.prev
    case _ => pc.inst
  }

  ghost function TouchedBy(s: State, t: ThreadId, step: CoreStep): Holder {
    if step.Swap? && s.slot.Some? then BySlot else ByStart(t)
  }

  lemma CoreKeepsHolders(s: State, t: ThreadId, step: CoreStep)
    requires Ownership(s) && t < |s.starts| && CoreEnabled(s, s.starts[t].pc, step)
    ensures AtMostOneHolder(ApplyCore(s, t, step))
  {
    var s' := ApplyCore(s, t, step);
    match step
    case Load(ok) =>
      NobodyHoldsUnborn(s);
      if ok { assert Moves(s, s', |s.insts|, ByStart(t)); } else { assert Stay(s, s'); }
    case Swap =>
      if s.slot.Some? {
        Transfer(s, s', s.slot.value, BySlot, ByStart(t));
      } else {
        assert Stay(s, s');
      }
    case _ => LaterStepsKeepHolders(s, t, step);
  }

  lemma LaterStepsKeepHolders(s: State, t: ThreadId, step: CoreStep)
    requires Ownership(s) && t < |s.starts| && CoreEnabled(s, s.starts[t].pc, step) && !step.Load? && !step.Swap?
    ensures AtMostOneHolder(ApplyCore(s, t, step))
  {
    var s' := ApplyCore(s, t, step);
    var j, h := Touched(s, t, step), ByStart(t);
    assert Holds(s, h, j);
    if step.EndDrain? || step.EndDiscard? {
      Transfer(s, s', j, h, ByClosed);
    } else if step.SelectTimeout? || step.Install? {
      Transfer(s, s', j, h, if step.Install? then BySlot else ByReaper);
    } else {
      CallsKeepHolders(s, t, step);
    }
  }

  lemma CallsKeepHolders(s: State, t: ThreadId, step: CoreStep)
    requires Ownership(s) && t < |s.starts| && CoreEnabled(s, s.starts[t].pc, step)
    requires step.BeginDrain? || step.Launch? || step.SelectDone? || step.BeginDiscard?
    ensures AtMostOneHolder(ApplyCore(s, t, step))
  {
    assert Stay(s, ApplyCore(s, t, step));
  }

  ghost predicate OwnFacts(s: State, s': State, t: ThreadId) {
    && t < |s'.starts| && StartFacts(s', s'.starts[t])
    && (s'.slot != s.slot ==> SlotFacts(s', s'.slot))
    && forall i :: 0 <= i < |s'.insts| ==> InstFacts(s'.insts[i])
  }

  lemma CoreKeepsOwnFacts(s: State, t: ThreadId, step: CoreStep)
    requires Ownership(s) && t < |s.starts| && CoreEnabled(s, s.starts[t].pc, step)
    ensures OwnFacts(s, ApplyCore(s, t, step), t)
  {
    if step.Load? || step.Swap? || step.Launch? {
      FirstStepsKeepOwnFacts(s, t, step);
    } else if step.BeginDrain? || step.EndDrain? {
      DrainStepsKeepOwnFacts(s, t, step);
    } else {
      LastStepsKeepOwnFacts(s, t, step);
    }
  }

  lemma FirstStepsKeepOwnFacts(s: State, t: ThreadId, step: CoreStep)
    requires Ownership(s) && t < |s.starts| && CoreEnabled(s, s.starts[t].pc, step)
    requires step.Load? || step.Swap? || step.Launch?
    ensures OwnFacts(s, ApplyCore(s, t, step), t)
  {
  }

  lemma DrainStepsKeepOwnFacts(s: State, t: ThreadId, step: CoreStep)
    requires Ownership(s) && t < |s.starts| && CoreEnabled(s, s.starts[t].pc, step)
    requires step.BeginDrain? || step.EndDrain?
    ensures OwnFacts(s, ApplyCore(s, t, step), t)
  {
    assert Holds(s, ByStart(t), s.starts[t].pc.prev) && Holds(s, ByStart(t), s.starts[t].pc.inst);
  }

  lemma LastStepsKeepOwnFacts(s: State, t: ThreadId, step: CoreStep)
    requires Ownership(s) && t < |s.starts| && CoreEnabled(s, s.starts[t].pc, step)
    requires !step.Load? && !step.Swap? && !step.BeginDrain? && !step.EndDrain? && !step.Launch?
    ensures OwnFacts(s, ApplyCore(s, t, step), t)
  {
  }

  lemma GoKeepsOwnership(s: State, i: InstId, step: GoStep)
    requires Ownership(s) && i < |s.insts| && GoEnabled(s.insts[i], step)
    ensures Ownership(WithInst(s, i, ApplyGo(s.insts[i], step)))
  {
    var s' := WithInst(s, i, ApplyGo(s.insts[i], step));
    GoKeepsFacts(s, i, step);
    if step.ReaperCloses? {
      assert Holds(s, ByReaper, i);
      assert Moves(s, s', i, ByClosed);
    } else {
      assert Stay(s, s');
    }
  }

  lemma GoKeepsFacts(s: State, i: InstId, step: GoStep)
    requires Ownership(s) && i < |s.insts| && GoEnabled(s.insts[i], step)
    ensures var s' := WithInst(s, i, ApplyGo(s.insts[i], step));
      && (forall t :: 0 <= t < |s.starts| ==> StartFacts(s', s.starts[t]))
      && (forall t :: 0 <= t < |s.stops| ==> StopFacts(s', s.stops[t]))
      && SlotFacts(s', s.slot)
      && (forall k :: 0 <= k < |s.insts| ==> InstFacts(s'.insts[k]))
  {
    assert InstFacts(s.insts[i]);
  }

  lemma StopKeepsOwnership(s: State, t: ThreadId, step: StopStep)
    requires Ownership(s) && t < |s.stops| && StopEnabled(s, s.stops[t], step)
    ensures Ownership(ApplyStop(s, t, step))
  {
    var s' := ApplyStop(s, t, step);
    if s.stops[t].Holding? {
      var j := s.stops[t].inst;
      assert Holds(s, ByStop(t), j);
      OthersKeepFacts(s, s', j, ByStop(t));
      StopClosesOnce(s, t, step);
    } else if step.TakeSlot? && s.slot.Some? {
      assert Holds(s, BySlot, s.slot.value);
      Transfer(s, s', s.slot.value, BySlot, ByStop(t));
    } else {
      assert Stay(s, s');
    }
  }

  /** A Stop's own close call. */
  lemma StopClosesOnce(s: State, t: ThreadId, step: StopStep)
    requires Ownership(s) && t < |s.stops| && StopEnabled(s, s.stops[t], step) && s.stops[t].Holding?
    ensures var s' := ApplyStop(s, t, step);
      && StopFacts(s', s'.stops[t])
      && (forall i :: 0 <= i < |s'.insts| ==> InstFacts(s'.insts[i]))
      && AtMostOneHolder(s')
  {
    var s', j := ApplyStop(s, t, step), s.stops[t].inst;
    assert Holds(s, ByStop(t), j);
    if step.EndStopClose? {
      Transfer(s, s', j, ByStop(t), ByClosed);
    } else {
      assert Stay(s, s');
    }
  }
}
