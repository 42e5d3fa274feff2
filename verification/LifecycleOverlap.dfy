/** Exactly when requests that are sent without waiting for answers leave the flags right. */
module LifecycleOverlap {
  import opened Wrappers
  import opened StateSpec
  import opened Lifecycle
  import opened LifecycleInvariant
  import opened LifecycleGuarded
  import opened LifecycleSafety
  import opened LifecycleSequential
  import opened LifecycleRuns
  import opened LifecycleScenarios
  import ConfigSpec

  predicate AllArrivals(requests: seq<Event>) {
    forall e | e in requests :: IsArrival(e)
  }

  predicate HasStart(requests: seq<Event>) {
    exists e | e in requests :: e.StartArrives?
  }

  predicate HasStop(requests: seq<Event>) {
    StopArrives in requests
  }

  predicate Buildable(builder: ConfigSpec.Builder, request: Request) {
    ConfigSpec.Build(builder, request.panelConfig).Ok?
  }

  /** From `s`, with these requests arriving at any moments, the flags are right at rest. */
  ghost predicate AlwaysRight(s: State, requests: seq<Event>) {
    forall es, s' :: Completes(s, requests, es, s') ==> FlagsAgree(s')
  }

  ghost predicate Completes(s: State, requests: seq<Event>, es: seq<Event>, s': State) {
    After(true, s, es) == Some(s') && Arrivals(es) == requests && Quiescent(s')
  }

  /** Only Starts, on flags that were right; or only Stops; or both over an empty slot, with
      configurations that Build refuses. */
  predicate Harmless(s: State, requests: seq<Event>) {
    if !HasStop(requests) then FlagsAgree(s)
    else if !HasStart(requests) then true
    else s.slot.None? && NoneBuildable(s.builder, requests)
  }

  predicate NoneBuildable(builder: ConfigSpec.Builder, requests: seq<Event>) {
    forall e | e in requests && e.StartArrives? :: !Buildable(builder, e.request)
  }

  // ---- only Starts --------------------------------------------------------------------------

  lemma {:induction false} StartsAloneAreUnmixed(s: State, es: seq<Event>, s': State)
    requires After(true, s, es) == Some(s') && StopsIdle(s) && !HasStop(Arrivals(es))
    ensures StopsIdle(s') && NoMixedOverlap(s, es)
  {
    if es != [] {
      var last := |es| - 1;
      var m := After(true, s, es[..last]).value;
      FrontArrivals(es);
      StartsAloneAreUnmixed(s, es[..last], m);
      StopsStayIdle(m, es[last]);
      OneMoreUnmixed(s, es);
    }
  }

  lemma FrontArrivals(es: seq<Event>)
    requires es != []
    ensures var front, last := Arrivals(es[..|es| - 1]), es[|es| - 1];
      forall e :: e in Arrivals(es) <==> e in front || (IsArrival(last) && e == last)
  {
  }

  lemma StopsStayIdle(s: State, e: Event)
    requires StopsIdle(s) && Enabled(s, e) && !e.StopArrives?
    ensures StopsIdle(Apply(true, s, e))
  {
    match e
    case InRequest(t, step) => RequestIsLocal(true, s, t, step);
    case InCore(t, step) => CoreIsLocal(s, t, step);
    case _ =>
  }

  lemma RestIsTruthful(s: State)
    requires Quiescent(s) && FlagsAgree(s)
    ensures Truthful(s)
  {
  }

  lemma StartsAloneAreRight(s: State, es: seq<Event>, s': State)
    requires Invariant(s) && Quiescent(s) && FlagsAgree(s) && After(true, s, es) == Some(s')
    requires !HasStop(Arrivals(es)) && Quiescent(s')
    ensures FlagsAgree(s')
  {
    RestIsTruthful(s);
    StartsAloneAreUnmixed(s, es, s');
    UnmixedRunsKeepTruth(s, es, s');
  }

  // ---- nobody can fill the slot -------------------------------------------------------------

  /** A Start that will not touch the core. */
  predicate Fruitless(pc: StartPc) {
    || pc.TryingBegin? || pc.Decoding? || pc.ReadingRunning? || pc == Deciding(false) || pc.Building?
    || pc.Syncing? || pc.SyncingDown? || pc.Leaving? || pc.Done?
  }

  /** Stop `k` empties the slot for good: if Starts may come, the slot is empty and they are fruitless. */
  predicate Calm(s: State, k: ThreadId, starts: bool) {
    && (starts ==> s.slot.None?)
    && (forall t | 0 <= t < |s.starts| ::
          s.starts[t].pc.Done? || (starts && Fruitless(s.starts[t].pc) && !Buildable(s.builder, s.starts[t].request)))
    && (k < |s.stops| && !s.stops[k].TakingSlot? ==> s.slot.None?)
    && (k < |s.stops| && s.stops[k].Stopped? ==> !s.cache.running && !s.cache.statusCached)
  }

  lemma RequestKeepsCalm(s: State, k: ThreadId, starts: bool, t: ThreadId, step: RequestStep)
    requires Calm(s, k, starts) && t < |s.starts| && RequestEnabled(s.starts[t].pc, step)
    ensures Calm(ApplyRequest(true, s, t, step), k, starts)
  {
    RequestIsLocal(true, s, t, step);
    assert Fruitless(s.starts[t].pc) && s.slot.None?;
  }

  lemma StopKeepsCalm(s: State, k: ThreadId, starts: bool, t: ThreadId, step: StopStep)
    requires Calm(s, k, starts) && t < |s.stops| && StopEnabled(s, s.stops[t], step)
    ensures Calm(ApplyStop(s, t, step), k, starts)
  {
  }

  lemma EventKeepsCalm(s: State, k: ThreadId, starts: bool, e: Event)
    requires Calm(s, k, starts) && Enabled(s, e) && k <= |s.stops|
    requires e.StartArrives? ==> starts && !Buildable(s.builder, e.request)
    ensures Calm(Apply(true, s, e), k, starts)
    ensures |Apply(true, s, e).stops| == |s.stops| + if e.StopArrives? then 1 else 0
  {
    match e
    case InRequest(t, step) =>
      RequestIsLocal(true, s, t, step);
      RequestKeepsCalm(s, k, starts, t, step);
    case InCore(t, step) => assert false;
    case InStop(t, step) => StopKeepsCalm(s, k, starts, t, step);
    case _ =>
  }

  lemma {:induction false} CalmRuns(s: State, es: seq<Event>, s': State, starts: bool)
    requires Calm(s, |s.stops|, starts) && After(true, s, es) == Some(s')
    requires forall e | e in Arrivals(es) && e.StartArrives? :: starts && !Buildable(s.builder, e.request)
    ensures Calm(s', |s.stops|, starts) && s'.builder == s.builder && |s.stops| <= |s'.stops|
    ensures HasStop(Arrivals(es)) ==> |s.stops| < |s'.stops|
  {
    if es != [] {
      var last := |es| - 1;
      var m := After(true, s, es[..last]).value;
      FrontArrivals(es);
      CalmRuns(s, es[..last], m, starts);
      EventKeepsCalm(m, |s.stops|, starts, es[last]);
      KeepsBuilder(m, es[last]);
    }
  }

  lemma StopsWinOverFruitlessStarts(s: State, es: seq<Event>, s': State)
    requires Quiescent(s) && After(true, s, es) == Some(s') && HasStop(Arrivals(es)) && Harmless(s, Arrivals(es))
    requires Quiescent(s')
    ensures FlagsAgree(s')
  {
    var requests := Arrivals(es);
    CalmRuns(s, es, s', HasStart(requests));
    assert s'.stops[|s.stops|].Stopped?;
  }

  // ---- completions that go wrong ------------------------------------------------------------

  /** At rest, but for requests that have arrived and not begun. */
  predicate Waiting(s: State) {
    && !s.guardHeld && (s.slot.Some? ==> s.slot.value < |s.insts|)
    && (forall t | 0 <= t < |s.starts| :: s.starts[t].pc.Done? || s.starts[t].pc.TryingBegin?)
    && (forall u | 0 <= u < |s.stops| :: s.stops[u].Stopped? || s.stops[u].TakingSlot?)
    && QuietInsts(s)
  }

  predicate QuietInsts(s: State) {
    forall i | 0 <= i < |s.insts| ::
      && !s.insts[i].starter.Spawned? && !s.insts[i].starter.InCall?
      && !s.insts[i].reaper.AwaitingStarter? && !s.insts[i].reaper.ClosingAbandoned?
  }

  /** Same slot, instances, builder and cache. */
  predicate SameCore(s: State, s': State) {
    s'.slot == s.slot && s'.insts == s.insts && s'.builder == s.builder && s'.cache == s.cache
  }

  predicate Queued(s: State, t: ThreadId, request: Request) {
    t < |s.starts| && s.starts[t] == Start(request, TryingBegin)
  }

  predicate QueuedStop(s: State, u: ThreadId) {
    u < |s.stops| && s.stops[u].TakingSlot?
  }

  /** All requests arrive before any of them begins. */
  lemma {:induction false} ArriveAll(s: State, requests: seq<Event>) returns (s': State)
    requires Waiting(s) && AllArrivals(requests)
    ensures After(true, s, requests) == Some(s') && Arrivals(requests) == requests
    ensures Waiting(s') && SameCore(s, s')
    ensures forall e | e in requests && e.StartArrives? :: exists t :: Queued(s', t, e.request)
    ensures HasStop(requests) ==> exists u :: QueuedStop(s', u)
  {
    if requests == [] {
      s' := s;
    } else {
      var front, last := requests[..|requests| - 1], requests[|requests| - 1];
      assert requests == front + [last] && IsArrival(last);
      var m := ArriveAll(s, front);
      s' := OneMoreQueued(m, last);
    }
  }

  lemma OneMoreQueued(m: State, e: Event) returns (s': State)
    requires Waiting(m) && IsArrival(e)
    ensures Enabled(m, e) && s' == Apply(true, m, e) && Waiting(s') && SameCore(m, s')
    ensures e.StartArrives? ==> Queued(s', |m.starts|, e.request)
    ensures e.StopArrives? ==> QueuedStop(s', |m.stops|)
    ensures forall t, request :: Queued(m, t, request) ==> Queued(s', t, request)
    ensures forall u :: QueuedStop(m, u) ==> QueuedStop(s', u)
  {
    s' := Apply(true, m, e);
  }

  /** Start `t` is refused because its body does not decode. */
  lemma RefuseStart(s: State, t: ThreadId) returns (s': State)
    requires t < |s.starts| && s.starts[t].pc.TryingBegin? && !s.guardHeld
    ensures Leads(true, s, s') && OnlyStart(s, s', t) && SameCore(s, s') && !s'.guardHeld
    ensures s'.starts[t].pc.Done?
  {
    LeadsNowhere(true, s);
    s' := Step(true, s, s, InRequest(t, TryBegin));
    s' := Step(true, s, s', InRequest(t, Decode(false)));
    s' := Step(true, s, s', InRequest(t, EndStart));
  }

  /** The Starts before `n` other than `keep` are done, all others as they were. */
  predicate StartsDone(s: State, s': State, n: nat, keep: nat) {
    && |s'.starts| == |s.starts|
    && forall t | 0 <= t < |s.starts| ::
      if t < n && t != keep then s'.starts[t].pc.Done? else s'.starts[t] == s.starts[t]
  }

  lemma {:induction false} RefuseStarts(s: State, n: nat, keep: nat) returns (s': State)
    requires Waiting(s) && n <= |s.starts|
    ensures Leads(true, s, s') && Waiting(s') && SameCore(s, s') && s'.stops == s.stops
    ensures StartsDone(s, s', n, keep)
  {
    if n == 0 {
      LeadsNowhere(true, s);
      s' := s;
    } else {
      s' := RefuseStarts(s, n - 1, keep);
      var t := n - 1;
      if t != keep && s'.starts[t].pc.TryingBegin? {
        var m := s';
        s' := RefuseStart(m, t);
        LeadsOn(true, s, m, s');
      }
    }
  }

  predicate StopsDone(s: State, s': State, n: nat, keep: nat) {
    && |s'.stops| == |s.stops|
    && forall u | 0 <= u < |s.stops| ::
      if u < n && u != keep then s'.stops[u].Stopped? else s'.stops[u] == s.stops[u]
  }

  /** Over an empty slot the waiting Stops before `n` other than `keep` come and go. */
  lemma {:induction false} RunStops(s: State, n: nat, keep: nat) returns (s': State)
    requires s.slot.None? && n <= |s.stops|
    requires forall u | 0 <= u < n && u != keep :: s.stops[u].Stopped? || s.stops[u].TakingSlot?
    ensures Leads(true, s, s') && StopsDone(s, s', n, keep) && SameGoroutines(s, s') && s'.slot.None?
    ensures s'.starts == s.starts && s'.builder == s.builder && s'.guardHeld == s.guardHeld
  {
    if n == 0 {
      LeadsNowhere(true, s);
      s' := s;
    } else {
      s' := RunStops(s, n - 1, keep);
      var u := n - 1;
      if u != keep && s'.stops[u].TakingSlot? {
        var m := s';
        s' := DriveStop(m, u);
        LeadsOn(true, s, m, s');
      }
    }
  }

  /** A Start that has seen a full slot and is about to raise a flag. */
  predicate AboutToRaise(pc: StartPc) {
    pc.Confirming? || pc.SyncingUp?
  }

  lemma SeeFullSlot(s: State, t: ThreadId) returns (s': State)
    requires s.slot.Some? && !s.guardHeld && t < |s.starts| && s.starts[t].pc.TryingBegin?
    ensures Leads(true, s, s') && OnlyStart(s, s', t) && SameCore(s, s')
    ensures s'.starts[t].pc == Deciding(true)
  {
    LeadsNowhere(true, s);
    s' := Step(true, s, s, InRequest(t, TryBegin));
    s' := Step(true, s, s', InRequest(t, Decode(true)));
    s' := Step(true, s, s', InRequest(t, ReadRunning));
  }

  lemma DriveToRaise(s: State, t: ThreadId) returns (s': State)
    requires s.slot.Some? && t < |s.starts| && s.starts[t].pc == Deciding(true)
    ensures Leads(true, s, s') && OnlyStart(s, s', t) && SameCore(s, s') && AboutToRaise(s'.starts[t].pc)
  {
    LeadsNowhere(true, s);
    s' := Step(true, s, s, InRequest(t, Decide));
    if s'.starts[t].pc.CheckingHealth? {
      s' := Step(true, s, s', InRequest(t, CheckHealth));
    } else {
      var m := s';
      s' := FailToRaise(m, t);
      LeadsOn(true, s, m, s');
    }
  }

  lemma FailToRaise(s: State, t: ThreadId) returns (s': State)
    requires s.slot.Some? && t < |s.starts| && s.starts[t].pc.Building?
    ensures Leads(true, s, s') && OnlyStart(s, s', t) && SameCore(s, s') && s'.starts[t].pc.SyncingUp?
  {
    LeadsNowhere(true, s);
    s' := Step(true, s, s, InRequest(t, BuildConfig(false)));
    s' := Step(true, s, s', InRequest(t, Sync));
  }

  lemma Raise(s: State, t: ThreadId) returns (s': State)
    requires t < |s.starts| && AboutToRaise(s.starts[t].pc)
    ensures Leads(true, s, s') && OnlyStart(s, s', t) && s'.slot == s.slot && s'.insts == s.insts && !s'.guardHeld
    ensures s'.starts[t].pc.Done? && s'.cache.statusCached
  {
    LeadsNowhere(true, s);
    if s.starts[t].pc.Confirming? {
      s' := Step(true, s, s, InRequest(t, Confirm));
    } else {
      s' := RaiseBoth(s, t);
    }
    s' := Step(true, s, s', InRequest(t, EndStart));
  }

  lemma RaiseBoth(s: State, t: ThreadId) returns (s': State)
    requires t < |s.starts| && s.starts[t].pc.SyncingUp?
    ensures Leads(true, s, s') && OnlyStart(s, s', t) && s'.slot == s.slot && s'.insts == s.insts
    ensures s'.starts[t].pc.Leaving? && s'.cache.statusCached
  {
    LeadsNowhere(true, s);
    s' := Step(true, s, s, InRequest(t, SyncUp));
    s' := Step(true, s, s', InRequest(t, SyncCached));
  }

  /** Start `t` and Stop `u` are all that is waiting. */
  predicate OnlyWaiting(s: State, t: ThreadId, u: ThreadId) {
    && Waiting(s) && t < |s.starts| && s.starts[t].pc.TryingBegin? && QueuedStop(s, u)
    && (forall k | 0 <= k < |s.starts| && k != t :: s.starts[k].pc.Done?)
  }

  /** Stop `u` empties the slot, and the Stops that wait come and go. */
  lemma EmptySlot(s: State, u: ThreadId) returns (s': State)
    requires QueuedStop(s, u) && (s.slot.Some? ==> s.slot.value < |s.insts|)
    requires forall k | 0 <= k < |s.stops| :: s.stops[k].Stopped? || s.stops[k].TakingSlot?
    ensures Leads(true, s, s') && StopsIdle(s') && SameGoroutines(s, s') && s'.slot.None? && s'.starts == s.starts
  {
    var emptied := DriveStop(s, u);
    s' := RunStops(emptied, |emptied.stops|, |emptied.stops|);
    LeadsOn(true, s, emptied, s');
  }

  /** Over a full slot: the Start sees it, the Stops empty it, and then the Start raises the flag. */
  lemma FullSlotGoesWrong(s: State, t: ThreadId, u: ThreadId) returns (s': State)
    requires OnlyWaiting(s, t, u) && s.slot.Some?
    ensures Leads(true, s, s') && Quiescent(s') && s'.slot.None? && s'.cache.statusCached
  {
    var seen := SeeFullSlot(s, t);
    var raising := DriveToRaise(seen, t);
    LeadsOn(true, s, seen, raising);
    var stopped := EmptySlot(raising, u);
    LeadsOn(true, s, raising, stopped);
    s' := Raise(stopped, t);
    LeadsOn(true, s, stopped, s');
    assert QuietInsts(s');
  }

  /** All Stops but `u` come and go, and `u` finds the slot empty. */
  lemma FindEmpty(s: State, u: ThreadId) returns (s': State)
    requires Waiting(s) && s.slot.None? && QueuedStop(s, u)
    ensures Leads(true, s, s') && SameGoroutines(s, s') && s'.slot.None?
    ensures s'.starts == s.starts && s'.builder == s.builder && !s'.guardHeld && |s'.stops| == |s.stops|
    ensures forall k | 0 <= k < |s.stops| :: if k == u then s'.stops[k].LoweringFlag? else s'.stops[k].Stopped?
  {
    var others := RunStops(s, |s.stops|, u);
    s' := Step(true, s, others, InStop(u, TakeSlot));
  }

  lemma OneMoreQuiet(s: State, s': State)
    requires QuietInsts(s) && OneMoreInst(s, s')
    requires s'.insts[|s.insts|].starter.Returned? && s'.insts[|s.insts|].reaper.NoReaper?
    ensures QuietInsts(s')
  {
  }

  lemma FillAndFinish(s: State, t: ThreadId) returns (s': State)
    requires CanBegin(true, s, t) && QuietInsts(s)
    ensures Leads(true, s, s') && OnlyStart(s, s', t) && QuietInsts(s') && s'.starts[t].pc.Done? && s'.slot.Some?
  {
    s' := DriveThrough(true, s, t);
    OneMoreQuiet(s, s');
  }

  lemma Lower(s: State, u: ThreadId) returns (s': State)
    requires u < |s.stops| && s.stops[u].LoweringFlag?
    ensures Leads(true, s, s') && s' == s.(cache := SetRunning(s.cache, false), stops := s.stops[u := Stopped])
  {
    LeadsNowhere(true, s);
    s' := Step(true, s, s, InStop(u, LowerFlag));
  }

  /** Over an empty slot: a Stop finds it empty, the Start fills it, and then the Stop denies it. */
  lemma EmptySlotIsDenied(s: State, t: ThreadId, u: ThreadId) returns (s': State)
    requires OnlyWaiting(s, t, u) && s.slot.None? && Buildable(s.builder, s.starts[t].request)
    ensures Leads(true, s, s') && Quiescent(s') && s'.slot.Some? && !s'.cache.running && !s'.cache.statusCached
  {
    var taken := FindEmpty(s, u);
    assert QuietInsts(taken);
    var started := FillAndFinish(taken, t);
    LeadsOn(true, s, taken, started);
    s' := Lower(started, u);
    LeadsOn(true, s, started, s');
  }

  lemma FillSlot(s: State, t: ThreadId) returns (s': State)
    requires CanBegin(true, s, t) && QuietInsts(s)
    ensures Leads(true, s, s') && OnlyStart(s, s', t) && QuietInsts(s') && s'.starts[t].pc.Publishing?
    ensures s'.slot == Some(|s.insts|) && |s.insts| < |s'.insts|
  {
    var ready := DriveToInstall(true, s, t);
    OneMoreQuiet(s, ready);
    s' := DriveToPublish(true, ready, t, |s.insts|);
    LeadsOn(true, s, ready, s');
  }

  /** Or the Start fills the slot, the Stops empty it before the success is published, and then
      the flags claim a running instance. */
  lemma EmptySlotIsClaimed(s: State, t: ThreadId, u: ThreadId) returns (s': State)
    requires OnlyWaiting(s, t, u) && s.slot.None? && Buildable(s.builder, s.starts[t].request)
    ensures Leads(true, s, s') && Quiescent(s') && s'.slot.None? && s'.cache.running && s'.cache.statusCached
  {
    var publishing := FillSlot(s, t);
    var stopped := EmptySlot(publishing, u);
    LeadsOn(true, s, publishing, stopped);
    s' := DriveToDone(true, stopped, t);
    LeadsOn(true, s, stopped, s');
    assert QuietInsts(s');
  }

  lemma RestIsWaiting(s: State)
    requires Invariant(s) && Quiescent(s)
    ensures Waiting(s)
  {
  }

  /** A run and what its end leads to. */
  lemma Complete(s: State, requests: seq<Event>, m: State, s': State, first: seq<Event>) returns (es: seq<Event>)
    requires After(true, s, first) == Some(m) && Arrivals(first) == requests
    requires Leads(true, m, s') && Quiescent(s')
    ensures Completes(s, requests, es, s')
  {
    var more := LeadsIsRun(true, m, s');
    es := first + more;
    RunsJoin(true, s, first, m, more, s');
    ArrivalsJoin(first, more);
  }

  /** With only Starts on flags that are wrong: all are refused, and the flags stay wrong. */
  lemma RefusedStartsLeaveFlags(s: State, requests: seq<Event>) returns (es: seq<Event>, s': State)
    requires Invariant(s) && Quiescent(s) && AllArrivals(requests) && !HasStop(requests)
    ensures Completes(s, requests, es, s') && s'.cache == s.cache && s'.slot == s.slot
  {
    RestIsWaiting(s);
    var arrived := ArriveAll(s, requests);
    StartsAloneAreUnmixed(s, requests, arrived);
    s' := RefuseStarts(arrived, |arrived.starts|, |arrived.starts|);
    assert QuietInsts(s') && StopsIdle(s');
    es := Complete(s, requests, arrived, s', requests);
  }

  /** A Start and a Stop among the requests, all others out of the way. */
  lemma Isolate(s: State, requests: seq<Event>, request: Request)
    returns (m: State, t: ThreadId, u: ThreadId, es: seq<Event>)
    requires Invariant(s) && Quiescent(s) && AllArrivals(requests)
    requires StartArrives(request) in requests && HasStop(requests)
    ensures OnlyWaiting(m, t, u) && SameCore(s, m) && m.starts[t].request == request
    ensures After(true, s, es) == Some(m) && Arrivals(es) == requests
  {
    RestIsWaiting(s);
    var arrived := ArriveAll(s, requests);
    var e := StartArrives(request);
    t :| Queued(arrived, t, e.request);
    u :| QueuedStop(arrived, u);
    m := RefuseStarts(arrived, |arrived.starts|, t);
    var more := LeadsIsRun(true, arrived, m);
    es := requests + more;
    RunsJoin(true, s, requests, arrived, more, m);
    ArrivalsJoin(requests, more);
  }

  /** A Start that can succeed and a Stop, sent to an empty slot without waiting, can leave the
      flags wrong in either direction. */
  lemma EitherDirection(s: State, requests: seq<Event>, request: Request)
    requires Invariant(s) && Quiescent(s) && AllArrivals(requests) && s.slot.None?
    requires StartArrives(request) in requests && HasStop(requests) && Buildable(s.builder, request)
    ensures exists es, s' :: Completes(s, requests, es, s') && s'.slot.Some? && !s'.cache.running && !s'.cache.statusCached
    ensures exists es, s' :: Completes(s, requests, es, s') && s'.slot.None? && s'.cache.running && s'.cache.statusCached
  {
    var m, t, u, first := Isolate(s, requests, request);
    var denied := EmptySlotIsDenied(m, t, u);
    var es := Complete(s, requests, m, denied, first);
    var claimed := EmptySlotIsClaimed(m, t, u);
    var es' := Complete(s, requests, m, claimed, first);
  }

  lemma HarmfulGoesWrong(s: State, requests: seq<Event>)
    requires Invariant(s) && Quiescent(s) && AllArrivals(requests) && !Harmless(s, requests)
    ensures !AlwaysRight(s, requests)
  {
    if !HasStop(requests) {
      var es, s' := RefusedStartsLeaveFlags(s, requests);
      assert Completes(s, requests, es, s') && !FlagsAgree(s');
    } else if s.slot.Some? {
      var e :| e in requests && e.StartArrives?;
      var m, t, u, first := Isolate(s, requests, e.request);
      var s' := FullSlotGoesWrong(m, t, u);
      var es := Complete(s, requests, m, s', first);
      assert Completes(s, requests, es, s') && !FlagsAgree(s');
    } else {
      var e :| e in requests && e.StartArrives? && Buildable(s.builder, e.request);
      EitherDirection(s, requests, e.request);
      var es, s' :| Completes(s, requests, es, s') && s'.slot.Some? && !s'.cache.running && !s'.cache.statusCached;
      assert !FlagsAgree(s');
    }
  }

  /** From any reachable state at rest, requests sent without waiting for answers leave the flags
      right in every completion exactly if they are all Starts and the flags were right, or all
      Stops, or the slot is empty and no Start among them has a configuration that can be built. */
  lemma FlagsSurviveExactly(builder: ConfigSpec.Builder, es0: seq<Event>, s: State, requests: seq<Event>)
    requires Reaches(true, builder, es0, s) && Quiescent(s) && AllArrivals(requests)
    ensures AlwaysRight(s, requests) <==> Harmless(s, requests)
  {
    RunsKeepInvariant(builder, es0, s);
    if Harmless(s, requests) {
      forall es, s' | Completes(s, requests, es, s') ensures FlagsAgree(s') {
        if HasStop(requests) {
          StopsWinOverFruitlessStarts(s, es, s');
        } else {
          StartsAloneAreRight(s, es, s');
        }
      }
    } else {
      HarmfulGoesWrong(s, requests);
    }
  }

  /** Two requests, on flags that are right: they may be sent without waiting exactly if they are
      of one kind, or the Start is one that Build refuses and the slot is empty. */
  lemma TwoRequestsExactly(builder: ConfigSpec.Builder, es0: seq<Event>, s: State, a: Event, b: Event)
    requires Reaches(true, builder, es0, s) && Quiescent(s) && FlagsAgree(s) && IsArrival(a) && IsArrival(b)
    ensures AlwaysRight(s, [a, b]) <==>
      || a.StartArrives? == b.StartArrives?
      || (s.slot.None? && !Buildable(s.builder, if a.StartArrives? then a.request else b.request))
  {
    FlagsSurviveExactly(builder, es0, s, [a, b]);
    assert a in [a, b] && b in [a, b];
  }
}
