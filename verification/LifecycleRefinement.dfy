/** Requests one at a time: the interleaved model then does what the sequential one says. */
module LifecycleRefinement {
  import opened Wrappers
  import opened JsonTree
  import opened StateSpec
  import opened Lifecycle
  import opened LifecycleInvariant
  import opened LifecycleGuarded
  import opened LifecycleSafety
  import ConfigSpec
  import R = Restart
  import Seq = Sequential

  /** The cache, and the configuration of what is in the slot. */
  function Abs(s: State): Seq.System {
    Seq.System(s.builder, s.cache,
               if s.slot.Some? && s.slot.value < |s.insts| then Some(s.insts[s.slot.value].config) else None)
  }

  /** A step of Start `t` or of a goroutine. */
  predicate OfStart(e: Event, t: ThreadId) {
    (e.InRequest? && e.t == t) || (e.InCore? && e.t == t) || e.InGo?
  }

  predicate OfStop(e: Event, t: ThreadId) {
    (e.InStop? && e.t == t) || e.InGo?
  }

  ghost predicate MustRestart(sys: Seq.System, request: Request) {
    R.Decide(sys.cache, request.force, request.hashes, sys.slot.Some?).shouldRestart
  }

  predicate Built(sys: Seq.System, request: Request, config: Fields) {
    ConfigSpec.Build(sys.builder, request.panelConfig) == Ok(config)
  }

  /** Some outcome of the calls makes the request end this way. */
  ghost predicate Answers(sys: Seq.System, request: Request, after: Seq.System, answer: Answer) {
    exists outcome :: Seq.Start(sys, request, outcome) == (after, answer)
  }

  /** A restart has failed and `now` is what it left behind. */
  ghost predicate FailedTo(sys: Seq.System, request: Request, now: Seq.System) {
    && MustRestart(sys, request)
    && (now == sys
        || (now == sys.(slot := None) && ConfigSpec.Build(sys.builder, request.panelConfig).Ok?))
  }

  /** Where Start `t` is, `sys` being what it found. */
  ghost predicate Follows(sys: Seq.System, s: State, t: ThreadId) {
    t < |s.starts| &&
    var Start(request, pc) := s.starts[t];
    var now := Abs(s);
    && s.guardHeld == InSection(pc)
    && match pc
       case TryingBegin => now == sys
       case Decoding => now == sys
       case ReadingRunning => now == sys
       case Deciding(coreRunning) => now == sys && coreRunning == s.slot.Some?
       case CheckingHealth => now == sys && s.slot.Some? && !MustRestart(sys, request)
       case Confirming => now == sys && !MustRestart(sys, request)
       case Demoting => false
       case Building => now == sys && MustRestart(sys, request)
       case Loading(config) => now == sys && MustRestart(sys, request) && Built(sys, request, config)
       case Swapping(config, _) => now == sys && MustRestart(sys, request) && Built(sys, request, config)
       case Draining(config, _, _, _) => Emptying(sys, request, now) && Built(sys, request, config)
       case Launching(config, _) => Emptying(sys, request, now) && Built(sys, request, config)
       case Selecting(config, _) => Emptying(sys, request, now) && Built(sys, request, config)
       case Installing(config, _) => Emptying(sys, request, now) && Built(sys, request, config)
       case Discarding(_, _) => Emptying(sys, request, now)
       case ReadingVersion(config) => Installed(sys, request, config, now)
       case Publishing(config, version) =>
         Installed(sys, request, config, now) && (version.Some? ==> version.value != "")
       case Recording(config) =>
         MustRestart(sys, request) && Built(sys, request, config) && Published(sys, request, config, now)
       case Syncing => FailedTo(sys, request, now)
       case SyncingUp => FailedTo(sys, request, now) && now.slot.Some?
       case SyncingCached =>
         FailedTo(sys, request, sys) && sys.slot.Some? && now == sys.(cache := SetRunning(sys.cache, true))
       case SyncingDown => FailedTo(sys, request, now) && now.slot.None?
       case Leaving(answer) => Answers(sys, request, now, answer)
       case Done(answer) => Answers(sys, request, now, answer)
  }

  ghost predicate Emptying(sys: Seq.System, request: Request, now: Seq.System) {
    MustRestart(sys, request) && ConfigSpec.Build(sys.builder, request.panelConfig).Ok? && now == sys.(slot := None)
  }

  ghost predicate Installed(sys: Seq.System, request: Request, config: Fields, now: Seq.System) {
    MustRestart(sys, request) && Built(sys, request, config) && now == sys.(slot := Some(config))
  }

  function PublishedAs(sys: Seq.System, request: Request, config: Fields, version: string): Seq.System {
    sys.(cache := SetStarted(sys.cache, Seq.VersionOf(version), Some(config), request.hashes), slot := Some(config))
  }

  ghost predicate Published(sys: Seq.System, request: Request, config: Fields, now: Seq.System) {
    exists version :: now == PublishedAs(sys, request, config, version)
  }

  // ---- a Start ------------------------------------------------------------------------------

  lemma EarlyStepFollows(sys: Seq.System, s: State, t: ThreadId, step: RequestStep)
    requires Ownership(s) && Follows(sys, s, t) && RequestEnabled(s.starts[t].pc, step) && IsEarly(step)
    ensures Follows(sys, ApplyRequest(true, s, t, step), t)
  {
    var Start(request, pc) := s.starts[t];
    R.NoRestartExactlyWhenUpToDate(s.cache, request.force, request.hashes, s.slot.Some?);
    if step == Decode(false) {
      assert Seq.Start(sys, request, Seq.Malformed) == (sys, BadRequest);
    }
  }

  lemma MiddleStepFollows(sys: Seq.System, s: State, t: ThreadId, step: RequestStep)
    requires Ownership(s) && Follows(sys, s, t) && RequestEnabled(s.starts[t].pc, step) && IsMiddle(step)
    ensures Follows(sys, ApplyRequest(true, s, t, step), t)
  {
    match step
    case Confirm => ConfirmFollows(sys, s, t);
    case BuildConfig(encoded) => BuildFollows(sys, s, t, encoded);
    case ReadVersion(version) => ReadVersionFollows(sys, s, t, version);
    case Publish => PublishFollows(sys, s, t);
    case _ =>
  }

  lemma ConfirmFollows(sys: Seq.System, s: State, t: ThreadId)
    requires Follows(sys, s, t) && s.starts[t].pc.Confirming?
    ensures Follows(sys, ApplyRequest(true, s, t, Confirm), t)
  {
    var request, after := s.starts[t].request, sys.(cache := SetStatusCached(sys.cache, true));
    assert Seq.Start(sys, request, Seq.TimesOut) == (after, Answer.UpToDate);
  }

  lemma BuildFollows(sys: Seq.System, s: State, t: ThreadId, encoded: bool)
    requires Follows(sys, s, t) && s.starts[t].pc.Building?
    ensures Follows(sys, ApplyRequest(true, s, t, BuildConfig(encoded)), t)
  {
  }

  lemma ReadVersionFollows(sys: Seq.System, s: State, t: ThreadId, version: string)
    requires Follows(sys, s, t) && s.starts[t].pc.ReadingVersion?
    ensures Follows(sys, ApplyRequest(true, s, t, ReadVersion(version)), t)
  {
  }

  lemma PublishFollows(sys: Seq.System, s: State, t: ThreadId)
    requires Follows(sys, s, t) && s.starts[t].pc.Publishing?
    ensures Follows(sys, ApplyRequest(true, s, t, Publish), t)
  {
    var Start(request, pc) := s.starts[t];
    var version := if pc.version.Some? then pc.version.value else "";
    assert pc.version == Seq.VersionOf(version);
    assert Abs(ApplyRequest(true, s, t, Publish)) == PublishedAs(sys, request, pc.config, version);
  }

  lemma LateStepFollows(sys: Seq.System, s: State, t: ThreadId, step: RequestStep)
    requires Ownership(s) && Follows(sys, s, t) && RequestEnabled(s.starts[t].pc, step)
    requires !IsEarly(step) && !IsMiddle(step)
    ensures Follows(sys, ApplyRequest(true, s, t, step), t)
  {
    match step
    case Record => RecordFollows(sys, s, t);
    case Sync => SyncFollows(sys, s, t);
    case SyncUp => SyncUpFollows(sys, s, t);
    case SyncCached => SyncCachedFollows(sys, s, t);
    case SyncDown => SyncDownFollows(sys, s, t);
    case _ =>
  }

  lemma RecordFollows(sys: Seq.System, s: State, t: ThreadId)
    requires Follows(sys, s, t) && s.starts[t].pc.Recording?
    ensures Follows(sys, ApplyRequest(true, s, t, Record), t)
  {
    var Start(request, pc) := s.starts[t];
    RecordAnswers(sys, request, pc.config, Abs(s));
    LeavingFollows(sys, ApplyRequest(true, s, t, Record), t, Started);
  }

  lemma LeavingFollows(sys: Seq.System, s: State, t: ThreadId, answer: Answer)
    requires t < |s.starts| && s.starts[t].pc == Leaving(answer) && s.guardHeld
    requires Answers(sys, s.starts[t].request, Abs(s), answer)
    ensures Follows(sys, s, t)
  {
  }

  lemma RecordAnswers(sys: Seq.System, request: Request, config: Fields, now: Seq.System)
    requires MustRestart(sys, request) && Built(sys, request, config) && Published(sys, request, config, now)
    ensures Answers(sys, request, now.(cache := RecordProtocols(now.cache, ConfigProtocols(config))), Started)
  {
    var version :| now == PublishedAs(sys, request, config, version);
    var after := now.(cache := RecordProtocols(now.cache, ConfigProtocols(config)));
    assert Seq.Start(sys, request, Seq.Succeeds(version)) == (after, Started);
  }

  lemma SyncFollows(sys: Seq.System, s: State, t: ThreadId)
    requires Follows(sys, s, t) && s.starts[t].pc.Syncing? && (s.slot.Some? ==> s.slot.value < |s.insts|)
    ensures Follows(sys, ApplyRequest(true, s, t, Sync), t)
  {
  }

  lemma SyncUpFollows(sys: Seq.System, s: State, t: ThreadId)
    requires Follows(sys, s, t) && s.starts[t].pc.SyncingUp?
    ensures Follows(sys, ApplyRequest(true, s, t, SyncUp), t)
  {
  }

  lemma SyncCachedFollows(sys: Seq.System, s: State, t: ThreadId)
    requires Follows(sys, s, t) && s.starts[t].pc.SyncingCached?
    ensures Follows(sys, ApplyRequest(true, s, t, SyncCached), t)
  {
    FailureAnswers(sys, s.starts[t].request, sys);
    var s' := ApplyRequest(true, s, t, SyncCached);
    assert Abs(s') == Seq.SyncFailure(sys);
    LeavingFollows(sys, s', t, Failed);
  }

  lemma SyncDownFollows(sys: Seq.System, s: State, t: ThreadId)
    requires Follows(sys, s, t) && s.starts[t].pc.SyncingDown?
    ensures Follows(sys, ApplyRequest(true, s, t, SyncDown), t)
  {
    FailureAnswers(sys, s.starts[t].request, Abs(s));
    var s' := ApplyRequest(true, s, t, SyncDown);
    assert Abs(s') == Seq.SyncFailure(Abs(s));
    LeavingFollows(sys, s', t, Failed);
  }

  lemma FailureAnswers(sys: Seq.System, request: Request, now: Seq.System)
    requires FailedTo(sys, request, now)
    ensures Answers(sys, request, Seq.SyncFailure(now), Failed)
  {
    var outcome := if now == sys then Seq.LoadFails else Seq.StartFails;
    assert Seq.Start(sys, request, outcome) == (Seq.SyncFailure(now), Failed);
  }

  lemma CoreFollows(sys: Seq.System, s: State, t: ThreadId, step: CoreStep)
    requires Ownership(s) && Follows(sys, s, t) && CoreEnabled(s, s.starts[t].pc, step)
    ensures Follows(sys, ApplyCore(s, t, step), t)
  {
    match step
    case Load(ok) => LoadFollows(sys, s, t, ok);
    case Swap => SwapFollows(sys, s, t);
    case Install => InstallFollows(sys, s, t);
    case _ => EmptiedFollows(sys, s, t, step);
  }

  lemma LoadFollows(sys: Seq.System, s: State, t: ThreadId, ok: bool)
    requires Ownership(s) && Follows(sys, s, t) && s.starts[t].pc.Loading?
    ensures Follows(sys, ApplyCore(s, t, Load(ok)), t)
  {
    assert SlotFacts(s, s.slot);
    assert Abs(ApplyCore(s, t, Load(ok))) == sys;
  }

  lemma SwapFollows(sys: Seq.System, s: State, t: ThreadId)
    requires Ownership(s) && Follows(sys, s, t) && s.starts[t].pc.Swapping?
    ensures Follows(sys, ApplyCore(s, t, Swap), t)
  {
    assert SlotFacts(s, s.slot);
  }

  lemma InstallFollows(sys: Seq.System, s: State, t: ThreadId)
    requires Ownership(s) && Follows(sys, s, t) && s.starts[t].pc.Installing?
    ensures Follows(sys, ApplyCore(s, t, Install), t)
  {
    assert StartFacts(s, s.starts[t]);
  }

  /** Between the swap and the install the slot is empty, whatever is closed or started. */
  lemma EmptiedFollows(sys: Seq.System, s: State, t: ThreadId, step: CoreStep)
    requires Follows(sys, s, t) && CoreEnabled(s, s.starts[t].pc, step)
    requires !step.Load? && !step.Swap? && !step.Install?
    ensures Follows(sys, ApplyCore(s, t, step), t)
  {
    if step.BeginDrain? || step.EndDrain? || step.Launch? {
      LaunchingFollows(sys, s, t, step);
    } else if step.SelectDone? {
      SelectedFollows(sys, s, t);
    } else if step.SelectTimeout? {
      TimeoutFollows(sys, s, t);
    } else {
      DiscardingFollows(sys, s, t, step);
    }
  }

  lemma LaunchingFollows(sys: Seq.System, s: State, t: ThreadId, step: CoreStep)
    requires Follows(sys, s, t) && CoreEnabled(s, s.starts[t].pc, step)
    requires step.BeginDrain? || step.EndDrain? || step.Launch?
    ensures Follows(sys, ApplyCore(s, t, step), t)
  {
  }

  lemma SelectedFollows(sys: Seq.System, s: State, t: ThreadId)
    requires Follows(sys, s, t) && CoreEnabled(s, s.starts[t].pc, SelectDone)
    ensures Follows(sys, ApplyCore(s, t, SelectDone), t)
  {
  }

  lemma TimeoutFollows(sys: Seq.System, s: State, t: ThreadId)
    requires Follows(sys, s, t) && CoreEnabled(s, s.starts[t].pc, SelectTimeout)
    ensures Follows(sys, ApplyCore(s, t, SelectTimeout), t)
  {
    assert Abs(ApplyCore(s, t, SelectTimeout)) == Abs(s);
  }

  lemma DiscardingFollows(sys: Seq.System, s: State, t: ThreadId, step: CoreStep)
    requires Follows(sys, s, t) && CoreEnabled(s, s.starts[t].pc, step)
    requires step.BeginDiscard? || step.EndDiscard?
    ensures Follows(sys, ApplyCore(s, t, step), t)
  {
  }

  lemma GoKeepsAbs(s: State, i: InstId, step: GoStep)
    requires i < |s.insts| && GoEnabled(s.insts[i], step)
    ensures Abs(WithInst(s, i, ApplyGo(s.insts[i], step))) == Abs(s)
  {
  }

  lemma StepFollows(sys: Seq.System, s: State, t: ThreadId, e: Event)
    requires Ownership(s) && Follows(sys, s, t) && Enabled(s, e) && OfStart(e, t)
    ensures Follows(sys, Apply(true, s, e), t)
  {
    match e
    case InRequest(_, step) =>
      if IsEarly(step) {
        EarlyStepFollows(sys, s, t, step);
      } else if IsMiddle(step) {
        MiddleStepFollows(sys, s, t, step);
      } else {
        LateStepFollows(sys, s, t, step);
      }
    case InCore(_, step) => CoreFollows(sys, s, t, step);
    case InGo(i, step) => GoKeepsAbs(s, i, step);
  }

  /** Start number |s.starts| arrives and from then on is the only request that moves. */
  predicate LoneStart(s: State, request: Request, es: seq<Event>) {
    es != [] && es[0] == StartArrives(request) && forall k | 0 < k < |es| :: OfStart(es[k], |s.starts|)
  }

  lemma {:induction false} LoneStartFollows(s: State, request: Request, es: seq<Event>, s': State)
    requires Ownership(s) && !s.guardHeld && LoneStart(s, request, es) && After(true, s, es) == Some(s')
    ensures Ownership(s') && Follows(Abs(s), s', |s.starts|) && s'.starts[|s.starts|].request == request
  {
    var last, t := |es| - 1, |s.starts|;
    if last == 0 {
      assert After(true, s, es[..0]) == Some(s);
      EventKeepsOwnership(true, s, es[0]);
    } else {
      var m := After(true, s, es[..last]).value;
      LoneStartFollows(s, request, es[..last], m);
      EventKeepsOwnership(true, m, es[last]);
      StepFollows(Abs(s), m, t, es[last]);
      StepKeepsRequest(m, es[last], t);
    }
  }

  // ---- a Stop -------------------------------------------------------------------------------

  predicate LoneStop(s: State, es: seq<Event>) {
    es != [] && es[0] == StopArrives && forall k | 0 < k < |es| :: OfStop(es[k], |s.stops|)
  }

  predicate StopFollows(sys: Seq.System, s: State, t: ThreadId) {
    t < |s.stops| &&
    match s.stops[t]
    case TakingSlot => Abs(s) == sys
    case Holding(_, _) => Abs(s) == sys.(slot := None)
    case LoweringFlag => Abs(s) == sys.(slot := None)
    case Stopped => Abs(s) == Seq.Stop(sys)
  }

  lemma StopStepFollows(sys: Seq.System, s: State, t: ThreadId, e: Event)
    requires Ownership(s) && StopFollows(sys, s, t) && Enabled(s, e) && OfStop(e, t)
    ensures var s' := Apply(true, s, e); StopFollows(sys, s', t) && s'.guardHeld == s.guardHeld
  {
    if e.InGo? { GoKeepsAbs(s, e.i, e.goStep); }
  }

  lemma {:induction false} LoneStopFollows(s: State, es: seq<Event>, s': State)
    requires Ownership(s) && LoneStop(s, es) && After(true, s, es) == Some(s')
    ensures Ownership(s') && StopFollows(Abs(s), s', |s.stops|) && s'.guardHeld == s.guardHeld
  {
    var last, t := |es| - 1, |s.stops|;
    if last == 0 {
      assert After(true, s, es[..0]) == Some(s);
      EventKeepsOwnership(true, s, es[0]);
    } else {
      var m := After(true, s, es[..last]).value;
      LoneStopFollows(s, es[..last], m);
      EventKeepsOwnership(true, m, es[last]);
      StopStepFollows(Abs(s), m, t, es[last]);
    }
  }

  // ---- one request at a time ----------------------------------------------------------------

  /** From `s` one request arrives, alone moves, and is answered in `s'`. */
  ghost predicate Served(s: State, es: seq<Event>, s': State) {
    && After(true, s, es) == Some(s')
    && (|| (es != [] && es[0].StartArrives? && LoneStart(s, es[0].request, es)
            && |s.starts| < |s'.starts| && s'.starts[|s.starts|].pc.Done?)
        || (LoneStop(s, es) && |s.stops| < |s'.stops| && s'.stops[|s.stops|].Stopped?))
  }

  /** Served alone, a request acts on the cache and the slot as the sequential model's operation,
      and a Start's answer is that operation's answer. */
  lemma ServedIsDone(s: State, es: seq<Event>, s': State) returns (op: Seq.Op)
    requires Ownership(s) && !s.guardHeld && Served(s, es, s')
    ensures Ownership(s') && !s'.guardHeld && Abs(s') == Seq.Do(Abs(s), op)
    ensures op.StartOp? <==> es[0].StartArrives?
    ensures op.StartOp? ==>
      && op.request == es[0].request && |s.starts| < |s'.starts|
      && s'.starts[|s.starts|].pc == Done(Seq.Start(Abs(s), op.request, op.outcome).1)
  {
    if es[0].StartArrives? {
      LoneStartFollows(s, es[0].request, es, s');
      var outcome :| Seq.Start(Abs(s), es[0].request, outcome) == (Abs(s'), s'.starts[|s.starts|].pc.answer);
      op := Seq.StartOp(es[0].request, outcome);
    } else {
      LoneStopFollows(s, es, s');
      op := Seq.StopOp;
    }
  }

  /** Requests served one after the other, each by its own run, from one state to the next. */
  ghost predicate OneAtATime(runs: seq<seq<Event>>, states: seq<State>) {
    |states| == |runs| + 1 && forall i {:trigger runs[i]} | 0 <= i < |runs| :: Served(states[i], runs[i], states[i + 1])
  }

  /** Any number of requests served one at a time amount to a series of operations. */
  lemma {:induction false} OneAtATimeIsSeries(builder: ConfigSpec.Builder, runs: seq<seq<Event>>, states: seq<State>)
    returns (ops: seq<Seq.Op>)
    requires OneAtATime(runs, states) && states[0] == Init(builder)
    ensures Ownership(states[|runs|]) && !states[|runs|].guardHeld
    ensures |ops| == |runs| && Abs(states[|runs|]) == Seq.DoAll(Seq.Initial(builder), ops)
    ensures forall i | 0 <= i < |runs| ::
      runs[i] != [] && (ops[i].StartOp? ==> runs[i][0] == StartArrives(ops[i].request))
  {
    if runs == [] {
      ops := [];
    } else {
      var n := |runs| - 1;
      FrontIsServed(runs, states);
      var before := OneAtATimeIsSeries(builder, runs[..n], states[..n + 1]);
      var op := OneMoreServed(runs, states);
      DoOneMore(Seq.Initial(builder), before, op);
      ops := before + [op];
    }
  }

  lemma DoOneMore(sys: Seq.System, ops: seq<Seq.Op>, op: Seq.Op)
    ensures Seq.DoAll(sys, ops + [op]) == Seq.Do(Seq.DoAll(sys, ops), op)
  {
    assert (ops + [op])[..|ops|] == ops;
  }

  lemma FrontIsServed(runs: seq<seq<Event>>, states: seq<State>)
    requires OneAtATime(runs, states) && runs != []
    ensures OneAtATime(runs[..|runs| - 1], states[..|runs|])
  {
    var front := runs[..|runs| - 1];
    forall i | 0 <= i < |front| ensures Served(states[..|runs|][i], front[i], states[..|runs|][i + 1]) {
      assert front[i] == runs[i];
    }
  }

  lemma OneMoreServed(runs: seq<seq<Event>>, states: seq<State>) returns (op: Seq.Op)
    requires OneAtATime(runs, states) && runs != []
    requires Ownership(states[|runs| - 1]) && !states[|runs| - 1].guardHeld
    ensures Ownership(states[|runs|]) && !states[|runs|].guardHeld
    ensures Abs(states[|runs|]) == Seq.Do(Abs(states[|runs| - 1]), op)
    ensures var last := runs[|runs| - 1]; last != [] && (op.StartOp? ==> last[0] == StartArrives(op.request))
  {
    var n := |runs| - 1;
    op := ServedIsDone(states[n], runs[n], states[n + 1]);
  }
}
