/** Runs in which no Start overlaps a Stop: there the flags of the cache tell the truth. */
module LifecycleSequential {
  import opened Wrappers
  import opened Lifecycle
  import opened LifecycleInvariant
  import opened LifecycleGuarded
  import ConfigSpec

  /** Every Start has been answered. */
  predicate StartsIdle(s: State) {
    forall t :: 0 <= t < |s.starts| ==> s.starts[t].pc.Done?
  }

  predicate StopsIdle(s: State) {
    forall t :: 0 <= t < |s.stops| ==> s.stops[t].Stopped?
  }

  predicate ArrivesUnmixed(s: State, e: Event) {
    && (e.StartArrives? ==> StopsIdle(s))
    && (e.StopArrives? ==> StartsIdle(s))
  }

  /** A Start arrives only when no Stop is in progress, and a Stop only when no Start is. Starts
      may overlap Starts, and Stops Stops. */
  ghost predicate NoMixedOverlap(s: State, es: seq<Event>) {
    forall k | 0 <= k < |es| ::
      After(true, s, es[..k]).Some? ==> ArrivesUnmixed(After(true, s, es[..k]).value, es[k])
  }

  predicate FlagsAgree(s: State) {
    s.cache.running == s.cache.statusCached == s.slot.Some?
  }

  /** What a lone Start knows at each point. */
  predicate StartFlags(s: State, pc: StartPc) {
    match pc
    case Deciding(coreRunning) => FlagsAgree(s) && coreRunning == s.slot.Some?
    case CheckingHealth => FlagsAgree(s) && s.slot.Some?
    case Confirming => FlagsAgree(s) && s.slot.Some?
    case Demoting => false
    case Syncing => s.slot.Some? ==> FlagsAgree(s)
    case SyncingUp => s.slot.Some?
    case SyncingCached => s.slot.Some? && s.cache.running
    case SyncingDown => s.slot.None?
    case ReadingVersion(_) => s.slot.Some?
    case Publishing(_, _) => s.slot.Some?
    case _ => if Emptied(pc) then s.slot.None? else FlagsAgree(s)
  }

  /** A Stop between taking the slot and lowering the flag. */
  predicate Lowering(pc: StopPc) {
    pc.Holding? || pc.LoweringFlag?
  }

  /** No Start is between tryBeginStart and endStart, and no Stop has begun without ending. */
  predicate Settled(s: State) {
    && (forall t :: 0 <= t < |s.starts| ==> !InSection(s.starts[t].pc))
    && (forall t :: 0 <= t < |s.stops| ==> !Lowering(s.stops[t]))
  }

  ghost predicate Truthful(s: State) {
    && (StartsIdle(s) || StopsIdle(s))
    && (Settled(s) ==> FlagsAgree(s))
    && (forall t | 0 <= t < |s.starts| :: InSection(s.starts[t].pc) ==> StartFlags(s, s.starts[t].pc))
    && (forall t | 0 <= t < |s.stops| :: Lowering(s.stops[t]) ==> s.slot.None?)
  }

  lemma RequestKeepsTruth(s: State, t: ThreadId, step: RequestStep)
    requires SingleFlight(s) && Truthful(s) && t < |s.starts| && RequestEnabled(s.starts[t].pc, step)
    ensures Truthful(ApplyRequest(true, s, t, step))
  {
    RequestIsLocal(true, s, t, step);
    if step.TryBegin? {
      BeginningKeepsTruth(s, t);
    } else {
      var s' := ApplyRequest(true, s, t, step);
      assert InSection(s.starts[t].pc);
      RequestKeepsStartFlags(s, t, step);
      assert InSection(s'.starts[t].pc) || (step.EndStart? && FlagsAgree(s'));
    }
  }

  lemma BeginningKeepsTruth(s: State, t: ThreadId)
    requires SingleFlight(s) && Truthful(s) && t < |s.starts| && s.starts[t].pc.TryingBegin?
    ensures Truthful(ApplyRequest(true, s, t, TryBegin))
  {
    var s' := ApplyRequest(true, s, t, TryBegin);
    assert StopsIdle(s);
    if s.guardHeld {
      var u :| 0 <= u < |s.starts| && InSection(s.starts[u].pc);
      assert s'.starts[u] == s.starts[u];
    } else {
      assert Settled(s);
    }
  }

  lemma RequestKeepsStartFlags(s: State, t: ThreadId, step: RequestStep)
    requires t < |s.starts| && RequestEnabled(s.starts[t].pc, step) && StartFlags(s, s.starts[t].pc)
    ensures var s' := ApplyRequest(true, s, t, step); StartFlags(s', s'.starts[t].pc)
  {
    if step.Decode? || step.ReadRunning? || step.Decide? || step.CheckHealth? || step.BuildConfig? || step.Sync? {
      ReadingKeepsStartFlags(s, t, step);
    }
  }

  /** The steps that only read shared state. */
  lemma ReadingKeepsStartFlags(s: State, t: ThreadId, step: RequestStep)
    requires t < |s.starts| && RequestEnabled(s.starts[t].pc, step) && StartFlags(s, s.starts[t].pc)
    requires step.Decode? || step.ReadRunning? || step.Decide? || step.CheckHealth? || step.BuildConfig? || step.Sync?
    ensures var s' := ApplyRequest(true, s, t, step); StartFlags(s', s'.starts[t].pc)
  {
  }

  lemma CoreKeepsTruth(s: State, t: ThreadId, step: CoreStep)
    requires SingleFlight(s) && Truthful(s) && t < |s.starts| && CoreEnabled(s, s.starts[t].pc, step)
    ensures Truthful(ApplyCore(s, t, step))
  {
    var s' := ApplyCore(s, t, step);
    CoreIsLocal(s, t, step);
    assert InSection(s.starts[t].pc) && InSection(s'.starts[t].pc);
    CoreKeepsStartFlags(s, t, step);
  }

  lemma CoreKeepsStartFlags(s: State, t: ThreadId, step: CoreStep)
    requires t < |s.starts| && CoreEnabled(s, s.starts[t].pc, step) && StartFlags(s, s.starts[t].pc)
    ensures var s' := ApplyCore(s, t, step); StartFlags(s', s'.starts[t].pc)
  {
  }

  lemma SameThreadsSameTruth(s: State, s': State)
    requires Truthful(s) && s'.starts == s.starts && s'.stops == s.stops && s'.slot == s.slot
    requires s'.cache.running == s.cache.running && s'.cache.statusCached == s.cache.statusCached
    ensures Truthful(s')
  {
  }

  lemma StopKeepsTruth(s: State, t: ThreadId, step: StopStep)
    requires Truthful(s) && t < |s.stops| && StopEnabled(s, s.stops[t], step)
    ensures Truthful(ApplyStop(s, t, step))
  {
    var s' := ApplyStop(s, t, step);
    assert !s.stops[t].Stopped?;
    assert StartsIdle(s);
    assert step.LowerFlag? || Lowering(s'.stops[t]);
  }

  lemma StartArrivalKeepsTruth(s: State, request: Request)
    requires Truthful(s) && StopsIdle(s)
    ensures Truthful(s.(starts := s.starts + [Start(request, TryingBegin)]))
  {
    var s' := s.(starts := s.starts + [Start(request, TryingBegin)]);
    assert forall t :: 0 <= t < |s.starts| ==> s'.starts[t] == s.starts[t];
  }

  lemma StopArrivalKeepsTruth(s: State)
    requires Truthful(s) && StartsIdle(s)
    ensures Truthful(s.(stops := s.stops + [TakingSlot]))
  {
    var s' := s.(stops := s.stops + [TakingSlot]);
    assert forall t :: 0 <= t < |s.stops| ==> s'.stops[t] == s.stops[t];
  }

  lemma EventKeepsTruth(s: State, e: Event)
    requires Invariant(s) && Truthful(s) && Enabled(s, e) && ArrivesUnmixed(s, e)
    ensures Truthful(Apply(true, s, e))
  {
    match e
    case InRequest(t, step) => RequestKeepsTruth(s, t, step);
    case InCore(t, step) => CoreKeepsTruth(s, t, step);
    case InGo(i, step) => SameThreadsSameTruth(s, WithInst(s, i, ApplyGo(s.insts[i], step)));
    case InStop(t, step) => StopKeepsTruth(s, t, step);
    case StartArrives(request) => StartArrivalKeepsTruth(s, request);
    case StopArrives => StopArrivalKeepsTruth(s);
    case HandlerWrites(_, _, _) => SameThreadsSameTruth(s, Apply(true, s, e));
  }

  lemma {:induction false} UnmixedRunsKeepTruth(s: State, es: seq<Event>, s': State)
    requires Invariant(s) && Truthful(s) && After(true, s, es) == Some(s') && NoMixedOverlap(s, es)
    ensures Invariant(s') && Truthful(s')
  {
    if es != [] {
      var last := |es| - 1;
      var m := After(true, s, es[..last]).value;
      assert NoMixedOverlap(s, es[..last]) by { PrefixIsUnmixed(s, es, last); }
      UnmixedRunsKeepTruth(s, es[..last], m);
      EventKeepsTruth(m, es[last]);
      EventKeepsInvariant(m, es[last]);
    }
  }

  lemma PrefixIsUnmixed(s: State, es: seq<Event>, n: nat)
    requires n <= |es| && NoMixedOverlap(s, es)
    ensures NoMixedOverlap(s, es[..n])
  {
    forall k | 0 <= k < n ensures es[..n][..k] == es[..k] && es[..n][k] == es[k] {}
  }

  lemma OneMoreUnmixed(s: State, es: seq<Event>)
    requires es != [] && NoMixedOverlap(s, es[..|es| - 1]) && After(true, s, es[..|es| - 1]).Some?
    requires ArrivesUnmixed(After(true, s, es[..|es| - 1]).value, es[|es| - 1])
    ensures NoMixedOverlap(s, es)
  {
    forall k | 0 <= k < |es| - 1 ensures es[..|es| - 1][..k] == es[..k] && es[..|es| - 1][k] == es[k] {}
  }

  lemma RunsWithoutMixedOverlapAreTruthful(builder: ConfigSpec.Builder, es: seq<Event>, s: State)
    requires Reaches(true, builder, es, s) && NoMixedOverlap(Init(builder), es)
    ensures Truthful(s)
  {
    RunsKeepInvariant(builder, [], Init(builder));
    UnmixedRunsKeepTruth(Init(builder), es, s);
  }

  /** If Starts never overlap Stops, then whenever no request is half done XrayRunning and the
      cached status say exactly whether the slot is full, and the cache describes what is in it. */
  lemma FlagsTellTheTruth(builder: ConfigSpec.Builder, es: seq<Event>, s: State)
    requires Reaches(true, builder, es, s) && NoMixedOverlap(Init(builder), es) && Settled(s)
    ensures s.cache.running == s.cache.statusCached == s.slot.Some?
    ensures s.slot.Some? ==> s.slot.value < |s.insts| && Describes(s.cache, s.insts[s.slot.value])
  {
    RunsWithoutMixedOverlapAreTruthful(builder, es, s);
    RunsKeepInvariant(builder, es, s);
  }
}
