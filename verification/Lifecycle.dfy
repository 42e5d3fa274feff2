/** The embedded-Xray lifecycle as a state machine. Any number of Start and Stop requests,
    starter goroutines and reaper goroutines interleave; each lock region and each call into
    xray-core (its beginning and its return) is one step. Calls into xray-core end in any way
    at all: the outcome is part of the event. */
module Lifecycle {
  import opened Wrappers
  import opened JsonTree
  import opened StateSpec
  import ConfigSpec

  type ThreadId = nat
  type InstId = nat

  datatype Request = Request(force: bool, hashes: Hashes, panelConfig: Fields)

  datatype Answer = UpToDate | Started | Failed | BadRequest | InProgress

  /** Where a Start request is; the name says what it does next. */
  datatype StartPc =
    | TryingBegin
    | Decoding
    | ReadingRunning
    | Deciding(coreRunning: bool)
    | CheckingHealth
    | Confirming
    | Demoting
    | Building
    | Loading(config: Fields)
    | Swapping(config: Fields, inst: InstId)
    | Draining(config: Fields, inst: InstId, prev: InstId, closing: bool)
    | Launching(config: Fields, inst: InstId)
    | Selecting(config: Fields, inst: InstId)
    | Discarding(inst: InstId, closing: bool)
    | Installing(config: Fields, inst: InstId)
    | ReadingVersion(config: Fields)
    | Publishing(config: Fields, version: Option<string>)
    | Recording(config: Fields)
    | Syncing
    | SyncingUp
    | SyncingCached
    | SyncingDown
    | Leaving(answer: Answer)
    | Done(answer: Answer)

  datatype Start = Start(request: Request, pc: StartPc)

  datatype StopPc =
    | TakingSlot
    | Holding(inst: InstId, closing: bool)
    | LoweringFlag
    | Stopped

  /** The goroutine that runs the blocking start call of one instance. */
  datatype Starter = Unspawned | Spawned | InCall | Returned(ok: bool)

  /** The goroutine that closes an instance whose start timed out. */
  datatype Reaper = NoReaper | AwaitingStarter | ClosingAbandoned | Reaped

  datatype Instance = Instance(
    config: Fields,
    hashes: Hashes,
    starter: Starter,
    reaper: Reaper,
    closeCalls: nat,
    closed: bool)

  datatype State = State(
    builder: ConfigSpec.Builder,
    guardHeld: bool,
    starts: seq<Start>,
    stops: seq<StopPc>,
    slot: Option<InstId>,
    insts: seq<Instance>,
    cache: Cache)

  /** Steps of XrayController.Start outside core.Start. */
  datatype RequestStep =
    | TryBegin
    | Decode(ok: bool)
    | ReadRunning
    | Decide
    | CheckHealth
    | Confirm
    | Demote
    | BuildConfig(encoded: bool)
    | ReadVersion(version: string)
    | Publish
    | Record
    | Sync
    | SyncUp
    | SyncCached
    | SyncDown
    | EndStart

  /** Steps of EmbeddedCore.Start, made by the same thread. */
  datatype CoreStep =
    | Load(ok: bool)
    | Swap
    | BeginDrain
    | EndDrain
    | Launch
    | SelectDone
    | SelectTimeout
    | BeginDiscard
    | EndDiscard
    | Install

  /** Steps of the starter and reaper goroutines of an instance. */
  datatype GoStep = StarterBegins | StarterReturns(ok: bool) | ReaperWakes | ReaperCloses

  /** Steps of XrayController.Stop, which calls EmbeddedCore.Stop. */
  datatype StopStep = TakeSlot | BeginStopClose | EndStopClose | LowerFlag

  datatype Event =
    | StartArrives(request: Request)
    | StopArrives
    | HandlerWrites(users: map<string, set<string>>, known: set<string>, protocols: map<string, string>)
    | InRequest(t: ThreadId, requestStep: RequestStep)
    | InCore(t: ThreadId, coreStep: CoreStep)
    | InGo(i: InstId, goStep: GoStep)
    | InStop(t: ThreadId, stopStep: StopStep)

  function Init(builder: ConfigSpec.Builder): State {
    State(builder, false, [], [], None, [], INITIAL)
  }

  /** Requests arriving and the user-tracking handlers are the environment; every other
      event is a step of the system. */
  predicate IsEnvironment(e: Event) {
    e.StartArrives? || e.StopArrives? || e.HandlerWrites?
  }

  predicate Enabled(s: State, e: Event) {
    match e
    case StartArrives(_) => true
    case StopArrives => true
    case HandlerWrites(_, _, _) => true
    case InRequest(t, step) => t < |s.starts| && RequestEnabled(s.starts[t].pc, step)
    case InCore(t, step) => t < |s.starts| && CoreEnabled(s, s.starts[t].pc, step)
    case InGo(i, step) => i < |s.insts| && GoEnabled(s.insts[i], step)
    case InStop(t, step) => t < |s.stops| && StopEnabled(s, s.stops[t], step)
  }

  predicate RequestEnabled(pc: StartPc, step: RequestStep) {
    match step
    case TryBegin => pc.TryingBegin?
    case Decode(_) => pc.Decoding?
    case ReadRunning => pc.ReadingRunning?
    case Decide => pc.Deciding?
    case CheckHealth => pc.CheckingHealth?
    case Confirm => pc.Confirming?
    case Demote => pc.Demoting?
    case BuildConfig(_) => pc.Building?
    case ReadVersion(_) => pc.ReadingVersion?
    case Publish => pc.Publishing?
    case Record => pc.Recording?
    case Sync => pc.Syncing?
    case SyncUp => pc.SyncingUp?
    case SyncCached => pc.SyncingCached?
    case SyncDown => pc.SyncingDown?
    case EndStart => pc.Leaving?
  }

  predicate CoreEnabled(s: State, pc: StartPc, step: CoreStep) {
    match step
    case Load(_) => pc.Loading?
    case Swap => pc.Swapping?
    case BeginDrain => pc.Draining? && !pc.closing && pc.prev < |s.insts|
    case EndDrain => pc.Draining? && pc.closing && pc.prev < |s.insts|
    case Launch => pc.Launching? && pc.inst < |s.insts|
    case SelectDone => pc.Selecting? && pc.inst < |s.insts| && s.insts[pc.inst].starter.Returned?
    case SelectTimeout => pc.Selecting? && pc.inst < |s.insts|
    case BeginDiscard => pc.Discarding? && !pc.closing && pc.inst < |s.insts|
    case EndDiscard => pc.Discarding? && pc.closing && pc.inst < |s.insts|
    case Install => pc.Installing?
  }

  predicate GoEnabled(inst: Instance, step: GoStep) {
    match step
    case StarterBegins => inst.starter.Spawned?
    case StarterReturns(_) => inst.starter.InCall?
    case ReaperWakes => inst.reaper.AwaitingStarter? && inst.starter.Returned?
    case ReaperCloses => inst.reaper.ClosingAbandoned?
  }

  predicate StopEnabled(s: State, pc: StopPc, step: StopStep) {
    match step
    case TakeSlot => pc.TakingSlot?
    case BeginStopClose => pc.Holding? && !pc.closing && pc.inst < |s.insts|
    case EndStopClose => pc.Holding? && pc.closing && pc.inst < |s.insts|
    case LowerFlag => pc.LoweringFlag?
  }

  function Goto(s: State, t: ThreadId, pc: StartPc): State
    requires t < |s.starts|
  {
    s.(starts := s.starts[t := s.starts[t].(pc := pc)])
  }

  function StopGoto(s: State, t: ThreadId, pc: StopPc): State
    requires t < |s.stops|
  {
    s.(stops := s.stops[t := pc])
  }

  function WithInst(s: State, i: InstId, inst: Instance): State
    requires i < |s.insts|
  {
    s.(insts := s.insts[i := inst])
  }

  function BeginClose(inst: Instance): Instance {
    inst.(closeCalls := inst.closeCalls + 1)
  }

  function EndClose(inst: Instance): Instance {
    inst.(closed := true)
  }

  /** The state after event `e`. With `guarded` false the single-flight test is skipped; that
      variant exists only to show what the guard is needed for. */
  ghost function Apply(guarded: bool, s: State, e: Event): State
    requires Enabled(s, e)
  {
    match e
    case StartArrives(request) => s.(starts := s.starts + [Start(request, TryingBegin)])
    case StopArrives => s.(stops := s.stops + [TakingSlot])
    case HandlerWrites(users, known, protocols) =>
      s.(cache := s.cache.(users := users, known := known, protocols := protocols))
    case InRequest(t, step) => ApplyRequest(guarded, s, t, step)
    case InCore(t, step) => ApplyCore(s, t, step)
    case InGo(i, step) => WithInst(s, i, ApplyGo(s.insts[i], step))
    case InStop(t, step) => ApplyStop(s, t, step)
  }

  ghost function ApplyRequest(guarded: bool, s: State, t: ThreadId, step: RequestStep): State
    requires t < |s.starts| && RequestEnabled(s.starts[t].pc, step)
  {
    var Start(request, pc) := s.starts[t];
    match step
    case TryBegin =>
      if guarded && s.guardHeld then Goto(s, t, Done(InProgress)) else Goto(s.(guardHeld := true), t, Decoding)
    case Decode(ok) => Goto(s, t, if ok then ReadingRunning else Leaving(BadRequest))
    case ReadRunning => Goto(s, t, Deciding(s.slot.Some?))
    case Decide =>
      var upToDate := StateSpec.UpToDate(s.cache, request.force, request.hashes, pc.coreRunning);
      Goto(s, t, if upToDate then CheckingHealth else Building)
    case CheckHealth => Goto(s, t, if s.slot.Some? then Confirming else Demoting)
    case Confirm => Goto(s.(cache := SetStatusCached(s.cache, true)), t, Leaving(UpToDate))
    case Demote => Goto(s.(cache := SetStatusCached(s.cache, false)), t, Building)
    case BuildConfig(encoded) =>
      var built := ConfigSpec.Build(s.builder, request.panelConfig);
      Goto(s, t, if built.Ok? && encoded then Loading(built.value) else Syncing)
    case ReadVersion(version) =>
      Goto(s, t, Publishing(pc.config, if version != "" then Some(version) else None))
    case Publish =>
      Goto(s.(cache := SetStarted(s.cache, pc.version, Some(pc.config), request.hashes)), t, Recording(pc.config))
    case Record => Goto(s.(cache := RecordProtocols(s.cache, ConfigProtocols(pc.config))), t, Leaving(Started))
    case Sync => Goto(s, t, if s.slot.Some? then SyncingUp else SyncingDown)
    case SyncUp => Goto(s.(cache := SetRunning(s.cache, true)), t, SyncingCached)
    case SyncCached => Goto(s.(cache := SetStatusCached(s.cache, true)), t, Leaving(Failed))
    case SyncDown => Goto(s.(cache := SetRunning(s.cache, false)), t, Leaving(Failed))
    case EndStart => Goto(s.(guardHeld := false), t, Done(pc.answer))
  }

  function ApplyCore(s: State, t: ThreadId, step: CoreStep): State
    requires t < |s.starts| && CoreEnabled(s, s.starts[t].pc, step)
  {
    var pc := s.starts[t].pc;
    match step
    case Load(ok) =>
      if !ok then Goto(s, t, Syncing)
      else
        var created := Instance(pc.config, s.starts[t].request.hashes, Unspawned, NoReaper, 0, false);
        Goto(s.(insts := s.insts + [created]), t, Swapping(pc.config, |s.insts|))
    case Swap =>
      Goto(s.(slot := None), t,
           if s.slot.Some? then Draining(pc.config, pc.inst, s.slot.value, false) else Launching(pc.config, pc.inst))
    case BeginDrain =>
      Goto(WithInst(s, pc.prev, BeginClose(s.insts[pc.prev])), t, Draining(pc.config, pc.inst, pc.prev, true))
    case EndDrain => Goto(WithInst(s, pc.prev, EndClose(s.insts[pc.prev])), t, Launching(pc.config, pc.inst))
    case Launch => Goto(WithInst(s, pc.inst, s.insts[pc.inst].(starter := Spawned)), t, Selecting(pc.config, pc.inst))
    case SelectDone =>
      Goto(s, t, if s.insts[pc.inst].starter.ok then Installing(pc.config, pc.inst) else Discarding(pc.inst, false))
    case SelectTimeout => Goto(WithInst(s, pc.inst, s.insts[pc.inst].(reaper := AwaitingStarter)), t, Syncing)
    case BeginDiscard => Goto(WithInst(s, pc.inst, BeginClose(s.insts[pc.inst])), t, Discarding(pc.inst, true))
    case EndDiscard => Goto(WithInst(s, pc.inst, EndClose(s.insts[pc.inst])), t, Syncing)
    case Install => Goto(s.(slot := Some(pc.inst)), t, ReadingVersion(pc.config))
  }

  function ApplyGo(inst: Instance, step: GoStep): Instance
    requires GoEnabled(inst, step)
  {
    match step
    case StarterBegins => inst.(starter := InCall)
    case StarterReturns(ok) => inst.(starter := Returned(ok))
    case ReaperWakes => BeginClose(inst).(reaper := ClosingAbandoned)
    case ReaperCloses => EndClose(inst).(reaper := Reaped)
  }

  function ApplyStop(s: State, t: ThreadId, step: StopStep): State
    requires t < |s.stops| && StopEnabled(s, s.stops[t], step)
  {
    var pc := s.stops[t];
    match step
    case TakeSlot =>
      StopGoto(s.(slot := None), t, if s.slot.Some? then Holding(s.slot.value, false) else LoweringFlag)
    case BeginStopClose => StopGoto(WithInst(s, pc.inst, BeginClose(s.insts[pc.inst])), t, Holding(pc.inst, true))
    case EndStopClose => StopGoto(WithInst(s, pc.inst, EndClose(s.insts[pc.inst])), t, LoweringFlag)
    case LowerFlag => StopGoto(s.(cache := SetRunning(s.cache, false)), t, Stopped)
  }

  /** The state after running `es` from `s`, if every event was enabled when its turn came. */
  ghost function After(guarded: bool, s: State, es: seq<Event>): Option<State>
  {
    if es == [] then Some(s)
    else
      match After(guarded, s, es[..|es| - 1])
      case None => None
      case Some(m) => if Enabled(m, es[|es| - 1]) then Some(Apply(guarded, m, es[|es| - 1])) else None
  }

  ghost predicate Reaches(guarded: bool, builder: ConfigSpec.Builder, es: seq<Event>, s: State) {
    After(guarded, Init(builder), es) == Some(s)
  }
}
