/** One Start or Stop at a time: what a completed request does to the cache and the slot, and
    what holds after any series of them. */
module Sequential {
  import opened Wrappers
  import opened JsonTree
  import opened StateSpec
  import opened Lifecycle
  import ConfigSpec
  import R = Restart

  /** What the calls a Start makes into other code do. A close error changes nothing. */
  datatype Outcome =
    | Malformed
    | EncodeFails
    | LoadFails
    | StartFails
    | TimesOut
    | Succeeds(version: string)

  datatype Op = StartOp(request: Request, outcome: Outcome) | StopOp

  /** `slot` is the configuration the installed instance was built from. */
  datatype System = System(builder: ConfigSpec.Builder, cache: Cache, slot: Option<Fields>)

  function Initial(builder: ConfigSpec.Builder): System {
    System(builder, INITIAL, None)
  }

  /** syncStartFailureState. */
  function SyncFailure(sys: System): System {
    sys.(cache := if sys.slot.Some? then SetStatusCached(SetRunning(sys.cache, true), true)
                  else SetRunning(sys.cache, false))
  }

  function VersionOf(version: string): Option<string> {
    if version != "" then Some(version) else None
  }

  function Install(sys: System, config: Fields, hashes: Hashes, version: string): System {
    var cache := SetStarted(sys.cache, VersionOf(version), Some(config), hashes);
    sys.(cache := RecordProtocols(cache, ConfigProtocols(config)), slot := Some(config))
  }

  ghost function Start(sys: System, request: Request, outcome: Outcome): (System, Answer) {
    if outcome.Malformed? then (sys, BadRequest)
    else if !R.Decide(sys.cache, request.force, request.hashes, sys.slot.Some?).shouldRestart then
      (sys.(cache := SetStatusCached(sys.cache, true)), Answer.UpToDate)
    else Restart(sys, request.panelConfig, request.hashes, outcome)
  }

  /** Encode, load, start. Only a start that was tried and failed empties the slot. */
  function Launch(sys: System, config: Fields, hashes: Hashes, outcome: Outcome): (System, Answer) {
    match outcome
    case Succeeds(version) => (Install(sys, config, hashes, version), Started)
    case StartFails => (SyncFailure(sys.(slot := None)), Failed)
    case TimesOut => (SyncFailure(sys.(slot := None)), Failed)
    case _ => (SyncFailure(sys), Failed)
  }

  function Restart(sys: System, panel: Fields, hashes: Hashes, outcome: Outcome): (System, Answer) {
    match ConfigSpec.Build(sys.builder, panel)
    case Err(_) => (SyncFailure(sys), Failed)
    case Ok(config) => Launch(sys, config, hashes, outcome)
  }

  function Stop(sys: System): System {
    sys.(cache := SetRunning(sys.cache, false), slot := None)
  }

  ghost function Do(sys: System, op: Op): System {
    match op
    case StartOp(request, outcome) => Start(sys, request, outcome).0
    case StopOp => Stop(sys)
  }

  ghost function DoAll(sys: System, ops: seq<Op>): System {
    if ops == [] then sys else Do(DoAll(sys, ops[..|ops| - 1]), ops[|ops| - 1])
  }

  /** The flags tell the truth about the slot, and the cache describes what is installed. */
  predicate Agrees(sys: System) {
    && sys.cache.running == sys.cache.statusCached == sys.slot.Some?
    && (sys.slot.Some? ==> sys.cache.hasHashes && sys.cache.config == sys.slot)
  }

  lemma OpKeepsAgreement(sys: System, op: Op)
    requires Agrees(sys)
    ensures Agrees(Do(sys, op))
  {
    match op
    case StopOp =>
    case StartOp(request, outcome) =>
      R.NoRestartExactlyWhenUpToDate(sys.cache, request.force, request.hashes, sys.slot.Some?);
      RestartKeepsAgreement(sys, request, outcome);
  }

  lemma RestartKeepsAgreement(sys: System, request: Request, outcome: Outcome)
    requires Agrees(sys)
    ensures Agrees(Restart(sys, request.panelConfig, request.hashes, outcome).0)
  {
    match ConfigSpec.Build(sys.builder, request.panelConfig)
    case Err(_) => FailureKeepsAgreement(sys);
    case Ok(config) => LaunchKeepsAgreement(sys, config, request.hashes, outcome);
  }

  lemma FailureKeepsAgreement(sys: System)
    requires sys.slot.Some? ==> Agrees(sys)
    ensures Agrees(SyncFailure(sys))
  {
  }

  lemma LaunchKeepsAgreement(sys: System, config: Fields, hashes: Hashes, outcome: Outcome)
    requires Agrees(sys)
    ensures Agrees(Launch(sys, config, hashes, outcome).0)
  {
    FailureKeepsAgreement(sys);
    FailureKeepsAgreement(sys.(slot := None));
  }

  /** What the last successful Start of a series left: version, configuration, hashes. */
  datatype Success = Success(version: Option<string>, config: Fields, hashes: Hashes)

  ghost function LastSuccess(sys: System, ops: seq<Op>): Option<Success> {
    if ops == [] then None
    else
      var last := |ops| - 1;
      var before := DoAll(sys, ops[..last]);
      var op := ops[last];
      if op.StartOp? && Start(before, op.request, op.outcome).1 == Started then
        var config := ConfigSpec.Build(sys.builder, op.request.panelConfig).value;
        Some(Success(VersionOf(op.outcome.version), config, op.request.hashes))
      else LastSuccess(sys, ops[..last])
  }

  ghost predicate Remembers(sys: System, success: Option<Success>) {
    match success
    case None => sys.cache.version == None && sys.cache.config == INITIAL.config && !sys.cache.hasHashes && sys.slot == None
    case Some(s) => sys.cache.version == s.version && sys.cache.config == Some(s.config)
                    && sys.cache.hashes == s.hashes && sys.cache.hasHashes
  }

  lemma {:induction false} SeriesKeepBuilder(sys: System, ops: seq<Op>)
    ensures DoAll(sys, ops).builder == sys.builder
  {
    if ops != [] { SeriesKeepBuilder(sys, ops[..|ops| - 1]); }
  }

  /** After any series of requests with any failures the flags agree with the slot, and version,
      configuration and hashes are those of the latest Start that succeeded. */
  lemma {:induction false} SeriesAgree(builder: ConfigSpec.Builder, ops: seq<Op>)
    ensures Agrees(DoAll(Initial(builder), ops))
    ensures Remembers(DoAll(Initial(builder), ops), LastSuccess(Initial(builder), ops))
  {
    if ops != [] {
      var last := |ops| - 1;
      var before := DoAll(Initial(builder), ops[..last]);
      SeriesAgree(builder, ops[..last]);
      SeriesKeepBuilder(Initial(builder), ops[..last]);
      OpKeepsAgreement(before, ops[last]);
      OpRemembers(before, ops[last], LastSuccess(Initial(builder), ops[..last]));
    }
  }

  lemma OpRemembers(sys: System, op: Op, success: Option<Success>)
    requires Agrees(sys) && Remembers(sys, success)
    ensures op.StartOp? && Start(sys, op.request, op.outcome).1 == Started ==>
      op.outcome.Succeeds? && ConfigSpec.Build(sys.builder, op.request.panelConfig).Ok?
      && Remembers(Do(sys, op), Some(Success(VersionOf(op.outcome.version),
           ConfigSpec.Build(sys.builder, op.request.panelConfig).value, op.request.hashes)))
    ensures !(op.StartOp? && Start(sys, op.request, op.outcome).1 == Started) ==> Remembers(Do(sys, op), success)
  {
    if op.StartOp? { RestartRemembers(sys, op.request, op.outcome, success); }
  }

  lemma RestartRemembers(sys: System, request: Request, outcome: Outcome, success: Option<Success>)
    requires Agrees(sys) && Remembers(sys, success)
    ensures var (after, answer) := Restart(sys, request.panelConfig, request.hashes, outcome);
      if answer == Started then
        && outcome.Succeeds? && ConfigSpec.Build(sys.builder, request.panelConfig).Ok?
        && var config := ConfigSpec.Build(sys.builder, request.panelConfig).value;
        Remembers(after, Some(Success(VersionOf(outcome.version), config, request.hashes)))
      else Remembers(after, success)
  {
    match ConfigSpec.Build(sys.builder, request.panelConfig)
    case Err(_) =>
    case Ok(config) => LaunchRemembers(sys, config, request.hashes, outcome, success);
  }

  lemma LaunchRemembers(sys: System, config: Fields, hashes: Hashes, outcome: Outcome, success: Option<Success>)
    requires Agrees(sys) && Remembers(sys, success)
    ensures var (after, answer) := Launch(sys, config, hashes, outcome);
      if answer == Started then
        outcome.Succeeds? && Remembers(after, Some(Success(VersionOf(outcome.version), config, hashes)))
      else Remembers(after, success)
  {
  }
}
