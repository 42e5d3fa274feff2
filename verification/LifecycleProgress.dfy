/** Once requests stop arriving the system comes to rest, and at rest nothing has leaked. */
module LifecycleProgress {
  import opened Wrappers
  import opened Lifecycle
  import opened LifecycleInvariant
  import opened LifecycleGuarded
  import opened LifecycleSafety
  import ConfigSpec

  /** A bound on the steps a Start has left, counting those of the goroutines it will spawn. */
  function PcRank(pc: StartPc): nat {
    match pc
    case TryingBegin => 21
    case Decoding => 20
    case ReadingRunning => 19
    case Deciding(_) => 18
    case CheckingHealth => 17
    case Confirming => 2
    case Demoting => 16
    case Building => 15
    case Loading(_) => 14
    case Swapping(_, _) => 13
    case Draining(_, _, _, closing) => if closing then 11 else 12
    case Launching(_, _) => 10
    case Selecting(_, _) => 7
    case Discarding(_, closing) => if closing then 5 else 6
    case Installing(_, _) => 5
    case ReadingVersion(_) => 4
    case Publishing(_, _) => 3
    case Recording(_) => 2
    case Syncing => 4
    case SyncingUp => 3
    case SyncingCached => 2
    case SyncingDown => 2
    case Leaving(_) => 1
    case Done(_) => 0
  }

  function StopRank(pc: StopPc): nat {
    match pc
    case TakingSlot => 4
    case Holding(_, closing) => if closing then 2 else 3
    case LoweringFlag => 1
    case Stopped => 0
  }

  function InstRank(inst: Instance): nat {
    StarterRank(inst.starter) + ReaperRank(inst.reaper)
  }

  function StarterRank(starter: Starter): nat {
    if starter.Spawned? then 2 else if starter.InCall? then 1 else 0
  }

  function ReaperRank(reaper: Reaper): nat {
    if reaper.AwaitingStarter? then 2 else if reaper.ClosingAbandoned? then 1 else 0
  }

  function Sum(xs: seq<nat>): nat {
    if xs == [] then 0 else xs[0] + Sum(xs[1..])
  }

  lemma {:induction false} SumUpdate(xs: seq<nat>, i: nat, x: nat)
    requires i < |xs|
    ensures Sum(xs[i := x]) == Sum(xs) - xs[i] + x
  {
    if i == 0 {
      assert xs[i := x][1..] == xs[1..];
    } else {
      SumUpdate(xs[1..], i - 1, x);
      assert xs[i := x][1..] == xs[1..][i - 1 := x];
    }
  }

  lemma {:induction false} SumAppend(xs: seq<nat>, x: nat)
    ensures Sum(xs + [x]) == Sum(xs) + x
  {
    if xs == [] {
      assert [x][1..] == [];
      assert xs + [x] == [x];
    } else {
      SumAppend(xs[1..], x);
      assert (xs + [x])[1..] == xs[1..] + [x];
    }
  }

  function StartRanks(s: State): seq<nat> {
    seq(|s.starts|, t requires 0 <= t < |s.starts| => PcRank(s.starts[t].pc))
  }

  function StopRanks(s: State): seq<nat> {
    seq(|s.stops|, t requires 0 <= t < |s.stops| => StopRank(s.stops[t]))
  }

  function InstRanks(s: State): seq<nat> {
    seq(|s.insts|, i requires 0 <= i < |s.insts| => InstRank(s.insts[i]))
  }

  function Rank(s: State): nat {
    Sum(StartRanks(s)) + Sum(StopRanks(s)) + Sum(InstRanks(s))
  }

  lemma StartRankMoves(s: State, s': State, t: ThreadId)
    requires t < |s.starts| == |s'.starts|
    requires forall k :: 0 <= k < |s.starts| && k != t ==> s'.starts[k] == s.starts[k]
    ensures Sum(StartRanks(s')) == Sum(StartRanks(s)) - PcRank(s.starts[t].pc) + PcRank(s'.starts[t].pc)
  {
    SumUpdate(StartRanks(s), t, PcRank(s'.starts[t].pc));
    assert StartRanks(s') == StartRanks(s)[t := PcRank(s'.starts[t].pc)];
  }

  lemma InstRankMoves(s: State, s': State, i: InstId)
    requires i < |s.insts| == |s'.insts|
    requires forall k :: 0 <= k < |s.insts| && k != i ==> s'.insts[k] == s.insts[k]
    ensures Sum(InstRanks(s')) == Sum(InstRanks(s)) - InstRank(s.insts[i]) + InstRank(s'.insts[i])
  {
    SumUpdate(InstRanks(s), i, InstRank(s'.insts[i]));
    assert InstRanks(s') == InstRanks(s)[i := InstRank(s'.insts[i])];
  }

  lemma RequestLowersRank(s: State, t: ThreadId, step: RequestStep)
    requires t < |s.starts| && RequestEnabled(s.starts[t].pc, step)
    ensures Rank(ApplyRequest(true, s, t, step)) < Rank(s)
  {
    var s' := ApplyRequest(true, s, t, step);
    RequestIsLocal(true, s, t, step);
    StartRankMoves(s, s', t);
    assert StopRanks(s') == StopRanks(s) && InstRanks(s') == InstRanks(s);
    if IsEarly(step) {
      EarlyStepLowersPc(s, t, step);
    } else if IsMiddle(step) {
      MiddleStepLowersPc(s, t, step);
    } else {
      LateStepLowersPc(s, t, step);
    }
  }

  lemma EarlyStepLowersPc(s: State, t: ThreadId, step: RequestStep)
    requires t < |s.starts| && RequestEnabled(s.starts[t].pc, step) && IsEarly(step)
    ensures PcRank(ApplyRequest(true, s, t, step).starts[t].pc) < PcRank(s.starts[t].pc)
  {
  }

  lemma MiddleStepLowersPc(s: State, t: ThreadId, step: RequestStep)
    requires t < |s.starts| && RequestEnabled(s.starts[t].pc, step) && IsMiddle(step)
    ensures PcRank(ApplyRequest(true, s, t, step).starts[t].pc) < PcRank(s.starts[t].pc)
  {
  }

  lemma LateStepLowersPc(s: State, t: ThreadId, step: RequestStep)
    requires t < |s.starts| && RequestEnabled(s.starts[t].pc, step) && !IsEarly(step) && !IsMiddle(step)
    ensures PcRank(ApplyRequest(true, s, t, step).starts[t].pc) < PcRank(s.starts[t].pc)
  {
  }

  /** What a core step takes off the thread exceeds what it adds to the instance it touches. */
  ghost predicate RankDelta(s: State, s': State, t: ThreadId, j: InstId, created: nat)
    requires t < |s.starts|
  {
    && t < |s'.starts| && |s'.insts| == |s.insts| + created
    && (j < |s.insts| ==>
          PcRank(s'.starts[t].pc) + InstRank(s'.insts[j]) < PcRank(s.starts[t].pc) + InstRank(s.insts[j]))
    && (j >= |s.insts| ==> PcRank(s'.starts[t].pc) < PcRank(s.starts[t].pc))
    && (created == 1 ==> InstRank(s'.insts[|s.insts|]) == 0)
  }

  lemma CoreRankDelta(s: State, t: ThreadId, step: CoreStep)
    requires Ownership(s) && t < |s.starts| && CoreEnabled(s, s.starts[t].pc, step)
    ensures RankDelta(s, ApplyCore(s, t, step), t, Touched(s, t, step), if step == Load(true) then 1 else 0)
  {
    assert StartFacts(s, s.starts[t]);
    if step.Load? || step.Swap? || step.BeginDrain? || step.EndDrain? || step.Launch? {
      FirstStepsRankDelta(s, t, step);
    } else {
      LastStepsRankDelta(s, t, step);
    }
  }

  lemma FirstStepsRankDelta(s: State, t: ThreadId, step: CoreStep)
    requires t < |s.starts| && CoreEnabled(s, s.starts[t].pc, step) && StartFacts(s, s.starts[t])
    requires step.Load? || step.Swap? || step.BeginDrain? || step.EndDrain? || step.Launch?
    ensures RankDelta(s, ApplyCore(s, t, step), t, Touched(s, t, step), if step == Load(true) then 1 else 0)
  {
  }

  lemma LastStepsRankDelta(s: State, t: ThreadId, step: CoreStep)
    requires t < |s.starts| && CoreEnabled(s, s.starts[t].pc, step) && StartFacts(s, s.starts[t])
    requires !step.Load? && !step.Swap? && !step.BeginDrain? && !step.EndDrain? && !step.Launch?
    ensures RankDelta(s, ApplyCore(s, t, step), t, Touched(s, t, step), 0)
  {
  }

  lemma CoreTouchesOne(s: State, t: ThreadId, step: CoreStep)
    requires t < |s.starts| && CoreEnabled(s, s.starts[t].pc, step)
    ensures OnlyInst(s, ApplyCore(s, t, step), Touched(s, t, step))
  {
  }

  lemma CoreLowersRank(s: State, t: ThreadId, step: CoreStep)
    requires Ownership(s) && t < |s.starts| && CoreEnabled(s, s.starts[t].pc, step)
    ensures Rank(ApplyCore(s, t, step)) < Rank(s)
  {
    var s' := ApplyCore(s, t, step);
    CoreIsLocal(s, t, step);
    CoreRankDelta(s, t, step);
    CoreTouchesOne(s, t, step);
    CoreRankSums(s, s', t, Touched(s, t, step));
  }

  lemma CoreRankSums(s: State, s': State, t: ThreadId, j: InstId)
    requires t < |s.starts| == |s'.starts| && s'.stops == s.stops
    requires forall k :: 0 <= k < |s.starts| && k != t ==> s'.starts[k] == s.starts[k]
    requires OnlyInst(s, s', j) && |s'.insts| <= |s.insts| + 1 && (j < |s.insts| ==> |s'.insts| == |s.insts|)
    requires |s'.insts| > |s.insts| ==> InstRank(s'.insts[|s.insts|]) == 0
    requires j < |s.insts| ==>
      PcRank(s'.starts[t].pc) + InstRank(s'.insts[j]) < PcRank(s.starts[t].pc) + InstRank(s.insts[j])
    requires j >= |s.insts| ==> PcRank(s'.starts[t].pc) < PcRank(s.starts[t].pc)
    ensures Rank(s') < Rank(s)
  {
    StartRankMoves(s, s', t);
    assert StopRanks(s') == StopRanks(s);
    if |s'.insts| > |s.insts| {
      SumAppend(InstRanks(s), 0);
      assert InstRanks(s') == InstRanks(s) + [0];
    } else if j < |s.insts| {
      InstRankMoves(s, s', j);
    } else {
      assert InstRanks(s') == InstRanks(s);
    }
  }

  lemma StopLowersRank(s: State, t: ThreadId, step: StopStep)
    requires t < |s.stops| && StopEnabled(s, s.stops[t], step)
    ensures Rank(ApplyStop(s, t, step)) < Rank(s)
  {
    var s' := ApplyStop(s, t, step);
    SumUpdate(StopRanks(s), t, StopRank(s'.stops[t]));
    assert StopRanks(s') == StopRanks(s)[t := StopRank(s'.stops[t])];
    assert StartRanks(s') == StartRanks(s);
    assert InstRanks(s') == InstRanks(s);
  }

  lemma EventLowersRank(s: State, e: Event)
    requires Ownership(s) && Enabled(s, e) && !IsEnvironment(e)
    ensures Rank(Apply(true, s, e)) < Rank(s)
  {
    match e
    case InRequest(t, step) => RequestLowersRank(s, t, step);
    case InCore(t, step) => CoreLowersRank(s, t, step);
    case InGo(i, step) =>
      var s' := Apply(true, s, e);
      InstRankMoves(s, s', i);
      assert StartRanks(s') == StartRanks(s) && StopRanks(s') == StopRanks(s);
    case InStop(t, step) => StopLowersRank(s, t, step);
  }

  /** Once no request arrives any more, only finitely many steps are left: no request, starter
      or reaper can run for ever. */
  lemma {:induction false} RunsAreBounded(s: State, es: seq<Event>)
    requires Invariant(s) && After(true, s, es).Some?
    requires forall k :: 0 <= k < |es| ==> !IsEnvironment(es[k])
    ensures Invariant(After(true, s, es).value)
    ensures Rank(After(true, s, es).value) + |es| <= Rank(s)
  {
    if es != [] {
      var last := |es| - 1;
      RunsAreBounded(s, es[..last]);
      var m := After(true, s, es[..last]).value;
      EventKeepsInvariant(m, es[last]);
      EventLowersRank(m, es[last]);
    }
  }

  function NextRequestStep(pc: StartPc): Option<RequestStep> {
    match pc
    case TryingBegin => Some(TryBegin)
    case Decoding => Some(Decode(true))
    case ReadingRunning => Some(ReadRunning)
    case Deciding(_) => Some(Decide)
    case CheckingHealth => Some(CheckHealth)
    case Confirming => Some(Confirm)
    case Demoting => Some(Demote)
    case Building => Some(BuildConfig(true))
    case ReadingVersion(_) => Some(ReadVersion(""))
    case Publishing(_, _) => Some(Publish)
    case Recording(_) => Some(Record)
    case Syncing => Some(Sync)
    case SyncingUp => Some(SyncUp)
    case SyncingCached => Some(SyncCached)
    case SyncingDown => Some(SyncDown)
    case Leaving(_) => Some(EndStart)
    case _ => None
  }

  /** No deadlock: while anything is unfinished some step of the system is enabled. */
  lemma NoDeadlock(s: State) returns (e: Event)
    requires Invariant(s) && !Quiescent(s)
    ensures !IsEnvironment(e) && Enabled(s, e)
  {
    if t :| 0 <= t < |s.starts| && !s.starts[t].pc.Done? {
      e := StartCanStep(s, t);
    } else if t :| 0 <= t < |s.stops| && !s.stops[t].Stopped? {
      assert StopFacts(s, s.stops[t]);
      e := InStop(t, match s.stops[t]
                     case TakingSlot => TakeSlot
                     case Holding(_, closing) => if closing then EndStopClose else BeginStopClose
                     case _ => LowerFlag);
    } else {
      var i: InstId :| i < |s.insts| && InstRank(s.insts[i]) > 0;
      e := GoCanStep(s, i);
    }
  }

  lemma GoCanStep(s: State, i: InstId) returns (e: Event)
    requires Ownership(s) && i < |s.insts| && InstRank(s.insts[i]) > 0
    ensures !IsEnvironment(e) && Enabled(s, e)
  {
    var inst := s.insts[i];
    assert InstFacts(inst);
    if inst.starter.Spawned? {
      e := InGo(i, StarterBegins);
    } else if inst.starter.InCall? {
      e := InGo(i, StarterReturns(true));
    } else if inst.reaper.AwaitingStarter? {
      e := InGo(i, ReaperWakes);
    } else {
      e := InGo(i, ReaperCloses);
    }
  }

  lemma StartCanStep(s: State, t: ThreadId) returns (e: Event)
    requires Ownership(s) && t < |s.starts| && !s.starts[t].pc.Done?
    ensures !IsEnvironment(e) && Enabled(s, e)
  {
    var pc := s.starts[t].pc;
    if NextRequestStep(pc).Some? {
      e := InRequest(t, NextRequestStep(pc).value);
    } else {
      e := InCore(t, match pc
                     case Loading(_) => Load(true)
                     case Swapping(_, _) => Swap
                     case Draining(_, _, _, closing) => if closing then EndDrain else BeginDrain
                     case Launching(_, _) => Launch
                     case Selecting(_, _) => SelectTimeout
                     case Discarding(_, closing) => if closing then EndDiscard else BeginDiscard
                     case _ => Install);
    }
  }

  /** A run that can go no further has closed every instance but the one in the slot. */
  lemma ExhaustedRunsLeakNothing(builder: ConfigSpec.Builder, es: seq<Event>, s: State)
    requires Reaches(true, builder, es, s)
    requires forall e: Event :: Enabled(s, e) ==> IsEnvironment(e)
    ensures Quiescent(s)
    ensures |s.insts| == |ClosedSet(s)| + if s.slot.Some? then 1 else 0
  {
    RunsKeepInvariant(builder, es, s);
    if !Quiescent(s) {
      var e := NoDeadlock(s);
    }
    NoLeak(builder, es, s);
  }
}
