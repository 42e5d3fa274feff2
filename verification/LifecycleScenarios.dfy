/** Runs that lead somewhere: without the guard an instance leaks; with it, a Stop that overlaps a
    Start can leave the flags wrong in either direction. */
module LifecycleScenarios {
  import opened Wrappers
  import opened StateSpec
  import opened Lifecycle
  import opened LifecycleInvariant
  import opened LifecycleSafety
  import opened LifecycleRuns
  import ConfigSpec

  /** Nothing but Start `t`, the instances, the slot, the guard and the cache may differ. */
  predicate OnlyStart(s: State, s': State, t: ThreadId) {
    && |s'.starts| == |s.starts| && s'.stops == s.stops && s'.builder == s.builder
    && (t < |s.starts| ==> s'.starts[t].request == s.starts[t].request)
    && (forall k :: 0 <= k < |s.starts| && k != t ==> s'.starts[k] == s.starts[k])
  }

  predicate ReadyToInstall(s: State, t: ThreadId, i: InstId) {
    && t < |s.starts| && s.starts[t].pc.Installing? && s.starts[t].pc.inst == i
    && i < |s.insts| && s.insts[i].starter == Returned(true) && s.insts[i].reaper.NoReaper?
    && !s.insts[i].closed && s.insts[i].closeCalls == 0
  }

  /** Start `t` may pass the guard; its configuration can be built and the slot is empty. */
  predicate CanBegin(guarded: bool, s: State, t: ThreadId) {
    && s.slot == None && !(guarded && s.guardHeld)
    && t < |s.starts| && s.starts[t].pc.TryingBegin?
    && ConfigSpec.Build(s.builder, s.starts[t].request.panelConfig).Ok?
  }

  lemma DriveToDecide(guarded: bool, s: State, t: ThreadId) returns (s': State)
    requires CanBegin(guarded, s, t)
    ensures Leads(guarded, s, s') && OnlyStart(s, s', t) && s'.slot == None && s'.insts == s.insts
    ensures s'.starts[t].pc == Deciding(false)
  {
    LeadsNowhere(guarded, s);
    s' := Step(guarded, s, s, InRequest(t, TryBegin));
    s' := Step(guarded, s, s', InRequest(t, Decode(true)));
    s' := Step(guarded, s, s', InRequest(t, ReadRunning));
  }

  lemma DriveToLoad(guarded: bool, s: State, t: ThreadId) returns (s': State)
    requires CanBegin(guarded, s, t)
    ensures Leads(guarded, s, s') && OnlyStart(s, s', t) && s'.slot == None && s'.insts == s.insts
    ensures s'.starts[t].pc.Loading?
  {
    s' := DriveToDecide(guarded, s, t);
    s' := Step(guarded, s, s', InRequest(t, Decide));
    s' := Step(guarded, s, s', InRequest(t, BuildConfig(true)));
  }

  /** `s'` has the instances of `s` and one more. */
  predicate OneMoreInst(s: State, s': State) {
    |s'.insts| == |s.insts| + 1 && forall i | 0 <= i < |s.insts| :: s'.insts[i] == s.insts[i]
  }

  lemma DriveToLaunch(guarded: bool, s: State, t: ThreadId) returns (s': State)
    requires CanBegin(guarded, s, t)
    ensures Leads(guarded, s, s') && OnlyStart(s, s', t) && s'.slot == None && OneMoreInst(s, s')
    ensures s'.starts[t].pc.Launching? && s'.starts[t].pc.inst == |s.insts|
    ensures var inst := s'.insts[|s.insts|]; inst.reaper.NoReaper? && !inst.closed && inst.closeCalls == 0
  {
    s' := DriveToLoad(guarded, s, t);
    s' := Step(guarded, s, s', InCore(t, Load(true)));
    s' := Step(guarded, s, s', InCore(t, Swap));
  }

  lemma DriveToSelect(guarded: bool, s: State, t: ThreadId) returns (s': State)
    requires CanBegin(guarded, s, t)
    ensures Leads(guarded, s, s') && OnlyStart(s, s', t) && s'.slot == None && OneMoreInst(s, s')
    ensures s'.starts[t].pc.Selecting? && s'.starts[t].pc.inst == |s.insts|
    ensures var inst := s'.insts[|s.insts|];
      inst.starter == Returned(true) && inst.reaper.NoReaper? && !inst.closed && inst.closeCalls == 0
  {
    s' := DriveToLaunch(guarded, s, t);
    s' := Step(guarded, s, s', InCore(t, Launch));
    s' := Step(guarded, s, s', InGo(|s.insts|, StarterBegins));
    s' := Step(guarded, s, s', InGo(|s.insts|, StarterReturns(true)));
  }

  lemma DriveToInstall(guarded: bool, s: State, t: ThreadId) returns (s': State)
    requires CanBegin(guarded, s, t)
    ensures Leads(guarded, s, s') && OnlyStart(s, s', t) && s'.slot == None && OneMoreInst(s, s')
    ensures ReadyToInstall(s', t, |s.insts|)
  {
    s' := DriveToSelect(guarded, s, t);
    s' := Step(guarded, s, s', InCore(t, SelectDone));
  }

  lemma DriveToPublish(guarded: bool, s: State, t: ThreadId, i: InstId) returns (s': State)
    requires ReadyToInstall(s, t, i)
    ensures Leads(guarded, s, s') && OnlyStart(s, s', t) && s'.insts == s.insts
    ensures s'.starts[t].pc.Publishing? && s'.slot == Some(i)
  {
    LeadsNowhere(guarded, s);
    s' := Step(guarded, s, s, InCore(t, Install));
    s' := Step(guarded, s, s', InRequest(t, ReadVersion("")));
  }

  lemma DriveToDone(guarded: bool, s: State, t: ThreadId) returns (s': State)
    requires t < |s.starts| && s.starts[t].pc.Publishing?
    ensures Leads(guarded, s, s') && OnlyStart(s, s', t) && s'.insts == s.insts && s'.slot == s.slot
    ensures s'.starts[t].pc == Done(Started) && !s'.guardHeld && s'.cache.running && s'.cache.statusCached
  {
    LeadsNowhere(guarded, s);
    s' := Step(guarded, s, s, InRequest(t, Publish));
    s' := Step(guarded, s, s', InRequest(t, Record));
    s' := Step(guarded, s, s', InRequest(t, EndStart));
  }

  lemma DriveToEnd(guarded: bool, s: State, t: ThreadId, i: InstId) returns (s': State)
    requires ReadyToInstall(s, t, i)
    ensures Leads(guarded, s, s') && OnlyStart(s, s', t) && s'.insts == s.insts && s'.slot == Some(i)
    ensures s'.starts[t].pc == Done(Started) && !s'.guardHeld && s'.cache.running && s'.cache.statusCached
  {
    var publishing := DriveToPublish(guarded, s, t, i);
    s' := DriveToDone(guarded, publishing, t);
    LeadsOn(guarded, s, publishing, s');
  }

  /** Start `t` goes from the arrival to "started". */
  lemma DriveThrough(guarded: bool, s: State, t: ThreadId) returns (s': State)
    requires CanBegin(guarded, s, t)
    ensures Leads(guarded, s, s') && OnlyStart(s, s', t) && OneMoreInst(s, s') && s'.slot == Some(|s.insts|)
    ensures s'.starts[t].pc == Done(Started) && !s'.guardHeld && s'.cache.running && s'.cache.statusCached
    ensures s'.insts[|s.insts|].starter == Returned(true) && s'.insts[|s.insts|].reaper.NoReaper?
  {
    var ready := DriveToInstall(guarded, s, t);
    s' := DriveToEnd(guarded, ready, t, |s.insts|);
    LeadsOn(guarded, s, ready, s');
  }

  /** Stop `u` takes what is in the slot, closes it and lowers the flags. */
  lemma DriveStop(s: State, u: ThreadId) returns (s': State)
    requires u < |s.stops| && s.stops[u].TakingSlot? && (s.slot.Some? ==> s.slot.value < |s.insts|)
    ensures Leads(true, s, s') && s'.starts == s.starts && s'.builder == s.builder && s'.guardHeld == s.guardHeld
    ensures s'.stops == s.stops[u := Stopped] && s'.slot == None
    ensures s'.cache == SetRunning(s.cache, false) && SameGoroutines(s, s')
  {
    LeadsNowhere(true, s);
    s' := Step(true, s, s, InStop(u, TakeSlot));
    if s.slot.Some? {
      s' := Step(true, s, s', InStop(u, BeginStopClose));
      s' := Step(true, s, s', InStop(u, EndStopClose));
    }
    s' := Step(true, s, s', InStop(u, LowerFlag));
  }

  predicate SameGoroutines(s: State, s': State) {
    && |s'.insts| == |s.insts|
    && forall i | 0 <= i < |s.insts| ::
      s'.insts[i].starter == s.insts[i].starter && s'.insts[i].reaper == s.insts[i].reaper
  }

  // ---- without the guard --------------------------------------------------------------------

  const REQUEST := Request(true, Hashes("", []), map[])

  const TWO_STARTS := [StartArrives(REQUEST), StartArrives(REQUEST)]

  lemma TwoArrive(builder: ConfigSpec.Builder) returns (s: State)
    ensures Reaches(false, builder, TWO_STARTS, s) && Arrivals(TWO_STARTS) == TWO_STARTS
    ensures s == Init(builder).(starts := [Start(REQUEST, TryingBegin), Start(REQUEST, TryingBegin)])
  {
    assert TWO_STARTS[..1] == [StartArrives(REQUEST)] && TWO_STARTS[..1][..0] == [];
    assert After(false, Init(builder), TWO_STARTS[..1]).Some?;
    s := After(false, Init(builder), TWO_STARTS).value;
    assert Arrivals(TWO_STARTS[..1]) == TWO_STARTS[..1];
  }

  predicate BothDone(s: State) {
    && s.stops == [] && |s.starts| == 2 && s.starts[0].pc.Done? && s.starts[1].pc.Done?
    && s.slot == Some(1) && |s.insts| == 2
    && forall i | 0 <= i < 2 ::
      s.insts[i].starter == Returned(true) && s.insts[i].reaper.NoReaper? && !s.insts[i].closed
  }

  lemma FirstIsLost(s: State)
    requires BothDone(s)
    ensures Quiescent(s) && ClosedSet(s) == {} && Active(s.insts[0]) && forall h: Holder :: !Holds(s, h, 0)
  {
  }

  /** Two unguarded Starts have each started an instance and are about to install it. */
  lemma TwoReady(s: State) returns (s': State)
    requires |s.starts| == 2 && CanBegin(false, s, 0) && CanBegin(false, s, 1) && s.insts == [] && s.stops == []
    ensures Leads(false, s, s') && s'.stops == [] && |s'.starts| == 2 && |s'.insts| == 2
    ensures ReadyToInstall(s', 0, 0) && ReadyToInstall(s', 1, 1)
  {
    var first := DriveToInstall(false, s, 0);
    s' := DriveToInstall(false, first, 1);
    LeadsOn(false, s, first, s');
    assert s'.insts[0] == first.insts[0];
  }

  lemma BothFinish(s: State) returns (s': State)
    requires s.stops == [] && |s.starts| == 2 && |s.insts| == 2
    requires ReadyToInstall(s, 0, 0) && ReadyToInstall(s, 1, 1)
    ensures Leads(false, s, s') && BothDone(s')
  {
    var first := DriveToEnd(false, s, 0, 0);
    s' := DriveToEnd(false, first, 1, 1);
    LeadsOn(false, s, first, s');
  }

  lemma BothRun(s: State) returns (es: seq<Event>, s': State)
    requires |s.starts| == 2 && CanBegin(false, s, 0) && CanBegin(false, s, 1) && s.insts == [] && s.stops == []
    ensures After(false, s, es) == Some(s') && Arrivals(es) == [] && BothDone(s')
  {
    var ready := TwoReady(s);
    s' := BothFinish(ready);
    LeadsOn(false, s, ready, s');
    es := LeadsIsRun(false, s, s');
  }

  /** Two unguarded Starts from an empty slot: the system is at rest, the first instance runs,
      and nobody holds it. Both still keep the close discipline. */
  lemma WithoutGuardInstancesLeak(builder: ConfigSpec.Builder) returns (es: seq<Event>, s: State)
    ensures Reaches(false, builder, es, s) && Arrivals(es) == TWO_STARTS
    ensures Quiescent(s) && |s.insts| == 2 && s.slot == Some(1) && ClosedSet(s) == {}
    ensures Active(s.insts[0]) && forall h: Holder :: !Holds(s, h, 0)
  {
    var arrived := TwoArrive(builder);
    var more;
    more, s := BothRun(arrived);
    es := TWO_STARTS + more;
    RunsJoin(false, Init(builder), TWO_STARTS, arrived, more, s);
    ArrivalsJoin(TWO_STARTS, more);
    FirstIsLost(s);
  }
}
