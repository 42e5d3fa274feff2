/** What a Start or a Stop that runs alone answers and leaves, said without the functions that
    compute it. */
module SequentialLaws {
  import opened Wrappers
  import opened JsonTree
  import opened StateSpec
  import L = Lifecycle
  import ConfigSpec
  import R = Restart
  import opened Sequential

  /** The request asks for what is running. */
  ghost predicate Matches(sys: System, request: L.Request) {
    && !request.force && sys.slot.Some? && sys.cache.hasHashes
    && sys.cache.hashes.emptyConfig == request.hashes.emptyConfig
    && multiset(sys.cache.hashes.inbounds) == multiset(request.hashes.inbounds)
  }

  function Built(sys: System, request: L.Request): Result<Fields, ConfigSpec.BuildError> {
    ConfigSpec.Build(sys.builder, request.panelConfig)
  }

  lemma StartAnswersExactly(sys: System, request: L.Request, outcome: Outcome)
    ensures Start(sys, request, outcome).1
         == if outcome.Malformed? then L.BadRequest
            else if Matches(sys, request) then L.UpToDate
            else if Built(sys, request).Ok? && outcome.Succeeds? then L.Started
            else L.Failed
  {
    R.NoRestartExactlyWhenUpToDate(sys.cache, request.force, request.hashes, sys.slot.Some?);
  }

  /** A request that cannot be read changes nothing; one that asks for what is running renews the
      cached status and nothing else. */
  lemma UnneededStartLeaves(sys: System, request: L.Request, outcome: Outcome)
    ensures outcome.Malformed? ==> Start(sys, request, outcome).0 == sys
    ensures !outcome.Malformed? && Matches(sys, request) ==>
      Start(sys, request, outcome).0 == sys.(cache := sys.cache.(statusCached := true))
  {
    R.NoRestartExactlyWhenUpToDate(sys.cache, request.force, request.hashes, sys.slot.Some?);
  }

  /** After a failure both flags say whether something is still installed, which is so unless the
      core got as far as starting the new instance. Nothing else is touched. */
  lemma FailedStartLeaves(sys: System, request: L.Request, outcome: Outcome)
    requires Start(sys, request, outcome).1 == L.Failed
    ensures var tried := Built(sys, request).Ok? && (outcome.StartFails? || outcome.TimesOut?);
      var full := sys.slot.Some? && !tried;
      Start(sys, request, outcome).0
      == sys.(cache := sys.cache.(running := full, statusCached := full), slot := if tried then None else sys.slot)
  {
    StartAnswersExactly(sys, request, outcome);
    R.NoRestartExactlyWhenUpToDate(sys.cache, request.force, request.hashes, sys.slot.Some?);
  }

  /** After a success the slot and the cache hold the configuration that was built and the hashes of
      the request; no user is tracked any more. */
  lemma SuccessfulStartLeaves(sys: System, request: L.Request, outcome: Outcome)
    requires Start(sys, request, outcome).1 == L.Started
    ensures outcome.Succeeds? && Built(sys, request).Ok?
    ensures var after, config := Start(sys, request, outcome).0, Built(sys, request).value;
      && after.builder == sys.builder && after.slot == Some(config)
      && after.cache.running && after.cache.statusCached
      && after.cache.config == Some(config) && after.cache.hasHashes && after.cache.hashes == request.hashes
      && after.cache.version == (if outcome.version == "" then None else Some(outcome.version))
      && after.cache.users == map[]
  {
    Installs(sys, request, outcome);
  }

  lemma Installs(sys: System, request: L.Request, outcome: Outcome)
    requires Start(sys, request, outcome).1 == L.Started
    ensures outcome.Succeeds? && Built(sys, request).Ok?
    ensures Start(sys, request, outcome).0 == Install(sys, Built(sys, request).value, request.hashes, outcome.version)
  {
    StartAnswersExactly(sys, request, outcome);
    R.NoRestartExactlyWhenUpToDate(sys.cache, request.force, request.hashes, sys.slot.Some?);
  }

  /** After a success exactly the inbounds are known that the hashes of the request name, or that
      have a protocol in the configuration that was built. */
  lemma SuccessfulStartLearns(sys: System, request: L.Request, outcome: Outcome, tag: string)
    requires Start(sys, request, outcome).1 == L.Started && Built(sys, request).Ok?
    ensures tag in Start(sys, request, outcome).0.cache.known <==>
      && tag != ""
      && (|| (exists i | 0 <= i < |request.hashes.inbounds| :: request.hashes.inbounds[i].tag == tag)
          || exists i: nat, protocol: string | protocol != "" ::
               NamesProtocol(Field(Built(sys, request).value, "inbounds"), i, tag, protocol))
  {
    Installs(sys, request, outcome);
    ConfigProtocolsKnow(Built(sys, request).value, tag);
  }

  /** And the protocol of an inbound is that of the last item of the built configuration that has
      its tag and a protocol. */
  lemma SuccessfulStartRecords(sys: System, request: L.Request, outcome: Outcome, tag: string, protocol: string)
    requires Start(sys, request, outcome).1 == L.Started && Built(sys, request).Ok?
    ensures var protocols := Start(sys, request, outcome).0.cache.protocols;
      tag in protocols && protocols[tag] == protocol <==>
        tag != "" && protocol != ""
        && exists i: nat :: LastOfAllNames(Field(Built(sys, request).value, "inbounds"), i, tag, protocol)
  {
    Installs(sys, request, outcome);
    ConfigProtocolsExactly(Built(sys, request).value, tag, protocol);
  }

  lemma StopLeaves(sys: System)
    ensures Stop(sys) == sys.(cache := sys.cache.(running := false, statusCached := false), slot := None)
  {
  }
}
