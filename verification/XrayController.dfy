/** The embedded core and the controller as objects, one request at a time. */
module XrayController {
  import opened Wrappers
  import opened JsonTree
  import opened JsonHeap
  import opened StateSpec
  import opened RuntimeState
  import L = Lifecycle
  import Seq = Sequential
  import ConfigSpec
  import ConfigBuilder
  import R = Restart

  /** An xray-core instance. Only the configuration it was built from is known of it. */
  class CoreInstance {
    ghost const config: Fields

    constructor (ghost config: Fields)
      ensures this.config == config
    {
      this.config := config;
    }
  }

  /** A call into xray-core. */
  datatype Call = StartCall(instance: CoreInstance) | CloseCall(instance: CoreInstance)

  ghost function ConfigOf(instance: CoreInstance?): Option<Fields> {
    if instance == null then None else Some(instance.config)
  }

  ghost function Closing(instance: CoreInstance?): seq<Call> {
    if instance == null then [] else [CloseCall(instance)]
  }

  class EmbeddedCore {
    var instance: CoreInstance?

    /** The calls made so far, oldest first. */
    ghost var calls: seq<Call>

    constructor ()
      ensures instance == null && calls == []
    {
      instance, calls := null, [];
    }

    predicate IsRunning()
      reads this
    {
      instance != null
    }

    /** EmbeddedCore.Start. Until the new instance exists the old one is left alone; then the old
        one is closed before the new one is started. A timed-out instance is closed later, by
        its reaper. */
    method Start(ghost config: Fields, outcome: Seq.Outcome) returns (ok: bool, ghost created: CoreInstance?)
      modifies this
      ensures ok == outcome.Succeeds?
      ensures outcome.LoadFails? || outcome.Malformed? || outcome.EncodeFails? ==>
        instance == old(instance) && calls == old(calls) && created == null
      ensures outcome.StartFails? || outcome.TimesOut? || outcome.Succeeds? ==>
        && created != null && fresh(created) && created.config == config
        && instance == (if ok then created else null)
        && calls == old(calls) + Closing(old(instance)) + [StartCall(created)]
                    + if outcome.StartFails? then [CloseCall(created)] else []
    {
      created := null;
      if outcome.LoadFails? || outcome.Malformed? || outcome.EncodeFails? {
        return false, null;
      }
      var built := new CoreInstance(config);
      created := built;
      var previous := instance;
      instance := null;
      calls := calls + Closing(previous);
      calls := calls + [StartCall(built)];
      if outcome.StartFails? {
        calls := calls + [CloseCall(built)];
        return false, built;
      }
      if outcome.TimesOut? {
        return false, built;
      }
      instance := built;
      return true, built;
    }

    /** EmbeddedCore.Stop; an error of the close call does not put the instance back. */
    method Stop()
      modifies this
      ensures instance == null && calls == old(calls) + Closing(old(instance))
    {
      var previous := instance;
      instance := null;
      calls := calls + Closing(previous);
    }
  }

  class XrayController {
    const state: RuntimeState
    const core: EmbeddedCore
    const builder: ConfigSpec.Builder
    var startProcessing: bool

    ghost predicate Valid()
      reads this, state, state.Own(), core
    {
      && state.Valid()
      && this !in state.Own() && core !in state.Own()
      && this !in state.shared && core !in state.shared
    }

    ghost function View(): Seq.System
      reads this, state, state.Own(), core
    {
      Seq.System(builder, state.View(), ConfigOf(core.instance))
    }

    constructor (nodeVersion: string, builder: ConfigSpec.Builder)
      ensures Valid() && View() == Seq.Initial(builder) && !startProcessing
    {
      state := new RuntimeState(nodeVersion);
      core := new EmbeddedCore();
      this.builder := builder;
      startProcessing := false;
    }

    /** syncStartFailureState. */
    method SyncStartFailureState()
      requires Valid()
      modifies state`xrayRunning, state`xrayInternalStatusCached
      ensures Valid() && View() == Seq.SyncFailure(old(View()))
    {
      if core.IsRunning() {
        state.SetXrayRunning(true);
        state.SetXrayInternalStatusCached(true);
        return;
      }
      state.SetXrayRunning(false);
    }

    /** XrayController.Stop. */
    method Stop()
      requires Valid()
      modifies core, state`xrayRunning, state`xrayInternalStatusCached
      ensures Valid() && View() == Seq.Stop(old(View()))
      ensures core.calls == old(core.calls) + Closing(old(core.instance))
    {
      core.Stop();
      assert state.Valid();
      state.SetXrayRunning(false);
    }

    /** The part of Start from core.Start on. */
    method Launch(config: GoMap, hashes: GoHashes, outcome: Seq.Outcome, ghost tree: Tree) returns (answer: L.Answer)
      requires Valid() && !outcome.Malformed?
      requires tree.MapTree? && tree.m == config && InHeap(tree) && Refs(tree) !! {this, state, core}
      modifies core, state
      ensures Valid()
      ensures (View(), answer) == Seq.Launch(old(View()), tree.fields, old(HashesOf(hashes)), outcome)
    {
      var ok, created := core.Start(tree.fields, outcome);
      if !ok {
        SyncStartFailureState();
        return L.Failed;
      }
      Publish(config, hashes, outcome.version, tree);
      return L.Started;
    }

    /** core.Version, SetXrayStarted, SetInboundProtocolsFromConfig. */
    method Publish(config: GoMap, hashes: GoHashes, version: string, ghost tree: Tree)
      requires Valid()
      requires tree.MapTree? && tree.m == config && InHeap(tree) && Refs(tree) !! {this, state, core}
      modifies state
      ensures Valid()
      ensures state.View() == RecordProtocols(
        SetStarted(old(state.View()), Seq.VersionOf(version), Some(tree.fields), old(HashesOf(hashes))),
        ConfigProtocols(tree.fields))
    {
      Record(config, hashes, version, tree);
    }

    /** The same, seen from the state alone. */
    method Record(config: GoMap, hashes: GoHashes, version: string, ghost tree: Tree)
      requires state.Valid()
      requires tree.MapTree? && tree.m == config && InHeap(tree) && state !in Refs(tree)
      modifies state
      ensures state.Valid() && fresh(state.Own())
      ensures fresh(state.shared - old(state.shared) - Refs(tree) - {hashes.inbounds})
      ensures state.View() == RecordProtocols(
        SetStarted(old(state.View()), Seq.VersionOf(version), Some(tree.fields), old(HashesOf(hashes))),
        ConfigProtocols(tree.fields))
    {
      var cell := NewCell(version);
      state.SetXrayStarted(cell, config, hashes, tree);
      StaysInHeap(tree);
      state.RecordInboundProtocols(config, tree);
    }

    /** The version of the core, nil if it tells none. */
    method NewCell(version: string) returns (cell: StringCell?)
      ensures TextOf(cell) == Seq.VersionOf(version) && fresh(CellSet(cell))
    {
      cell := null;
      if version != "" {
        cell := new StringCell(version);
      }
    }

    /** Building writes nothing that existed before. */
    method BuildConfig(panel: GoMap?, ghost given: Tree) returns (config: GoMap?, ghost built: Tree)
      requires Valid() && Unfolds(panel, given) && InHeap(given)
      ensures Valid() && View() == old(View())
      ensures ConfigSpec.Build(builder, PanelFields(given)).Ok? == (config != null)
      ensures config != null ==>
        && built.MapTree? && built.m == config && InHeap(built) && Refs(built) !! {this, state, core}
        && ConfigSpec.Build(builder, PanelFields(given)) == Ok(built.fields)
    {
      var result, tree := ConfigBuilder.Build(builder, panel, given);
      match result
      case Ok(made) => config, built := made, tree;
      case Err(_) => config, built := null, tree;
    }

    /** The part of Start after Build; `config` is null if Build failed. */
    method EncodeAndLaunch(config: GoMap?, hashes: GoHashes, outcome: Seq.Outcome, ghost tree: Tree)
      returns (answer: L.Answer)
      requires Valid() && !outcome.Malformed?
      requires config != null ==>
        tree.MapTree? && tree.m == config && InHeap(tree) && Refs(tree) !! {this, state, core}
      modifies core, state
      ensures Valid()
      ensures (View(), answer) ==
        if config == null then (Seq.SyncFailure(old(View())), L.Failed)
        else Seq.Launch(old(View()), tree.fields, old(HashesOf(hashes)), outcome)
    {
      if config == null || outcome.EncodeFails? {
        SyncStartFailureState();
        return L.Failed;
      }
      answer := Launch(config, hashes, outcome, tree);
    }

    /** Build the configuration, encode it, launch it. */
    method Restart(panel: GoMap?, hashes: GoHashes, outcome: Seq.Outcome, ghost given: Tree) returns (answer: L.Answer)
      requires Valid() && Unfolds(panel, given) && InHeap(given) && !outcome.Malformed?
      modifies core, state
      ensures Valid()
      ensures (View(), answer) == Seq.Restart(old(View()), PanelFields(given), old(HashesOf(hashes)), outcome)
    {
      var config, built := BuildConfig(panel, given);
      answer := EncodeAndLaunch(config, hashes, outcome, built);
    }

    /** Start between tryBeginStart and endStart. */
    method Guarded(force: bool, panel: GoMap?, hashes: GoHashes, outcome: Seq.Outcome, ghost given: Tree)
      returns (answer: L.Answer)
      requires Valid() && Unfolds(panel, given) && InHeap(given)
      modifies core, state
      ensures Valid()
      ensures (View(), answer)
           == Seq.Start(old(View()), L.Request(force, old(HashesOf(hashes)), PanelFields(given)), outcome)
    {
      if outcome.Malformed? {
        return L.BadRequest;
      }
      var running := core.IsRunning();
      var decision := state.DecideRestart(force, hashes, running);
      if decision.shouldRestart {
        answer := Restart(panel, hashes, outcome, given);
      } else {
        R.NoRestartExactlyWhenUpToDate(state.View(), force, HashesOf(hashes), running);
        answer := Confirm();
      }
    }

    /** The health check of a core that needs no restart. */
    method Confirm() returns (answer: L.Answer)
      requires Valid() && core.IsRunning()
      modifies state`xrayRunning, state`xrayInternalStatusCached
      ensures Valid() && answer == L.UpToDate
      ensures View() == old(View()).(cache := SetStatusCached(old(View()).cache, true))
    {
      if core.IsRunning() {
        state.SetXrayInternalStatusCached(true);
        return L.UpToDate;
      } else {
        assert false;
      }
    }

    /** XrayController.Start: one request at a time gets past the guard. */
    method Start(force: bool, panel: GoMap?, hashes: GoHashes, outcome: Seq.Outcome, ghost given: Tree)
      returns (answer: L.Answer)
      requires Valid() && Unfolds(panel, given) && InHeap(given) && this !in Refs(given)
      modifies this`startProcessing, core, state
      ensures Valid() && startProcessing == old(startProcessing)
      ensures (View(), answer) ==
        if old(startProcessing) then (old(View()), L.InProgress)
        else Seq.Start(old(View()), L.Request(force, old(HashesOf(hashes)), PanelFields(given)), outcome)
    {
      if startProcessing {
        return L.InProgress;
      }
      startProcessing := true;
      StaysInHeap(given);
      answer := Guarded(force, panel, hashes, outcome, given);
      startProcessing := false;
    }
  }

  /** A nil panel configuration counts as empty. */
  ghost function PanelFields(given: Tree): Fields {
    if given.MapTree? then given.fields else map[]
  }
}
