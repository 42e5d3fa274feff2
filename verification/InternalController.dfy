/** GetConfig, the reader that decorates a snapshot of the stored configuration. */
module InternalController {
  import opened Wrappers
  import opened JsonTree
  import opened JsonHeap
  import opened RuntimeState

  /** The answer is the stored configuration, empty if there is none, plus the derived name. Every object below it is new
      and in the callers' hands, and the stored state is as before. */
  method GetConfig(state: RuntimeState, panelSni: string) returns (config: GoMap, ghost out: Tree)
    requires state.Valid()
    modifies state`shared
    ensures state.Valid() && state.View() == old(state.View())
    ensures out.MapTree? && out.m == config && InHeap(out)
    ensures var stored := if state.View().config.Some? then state.View().config.value else map[];
      out.fields == if panelSni == "" then stored else stored["panelSni" := Leaf(Str(panelSni))]
    ensures fresh(Refs(out)) && Refs(out) <= state.shared
  {
    config, out := CurrentConfig(state);
    if panelSni != "" {
      config, out := HandOutWithSni(state, config, panelSni, out);
    }
  }

  method HandOutWithSni(state: RuntimeState, config: GoMap, panelSni: string, ghost tree: Tree)
    returns (sniConfig: GoMap, ghost out: Tree)
    requires state.Valid() && tree.MapTree? && tree.m == config && InHeap(tree) && Refs(tree) <= state.shared
    modifies state`shared
    ensures state.Valid() && state.View() == old(state.View())
    ensures out.MapTree? && out.m == sniConfig && InHeap(out)
    ensures out.fields == tree.fields["panelSni" := Leaf(Str(panelSni))]
    ensures fresh(Refs(out) - Refs(tree)) && Refs(out) <= state.shared
  {
    sniConfig, out := WithSni(config, panelSni, tree, state.Own());
    state.HandOut({sniConfig});
  }

  /** The configuration of a snapshot, or an empty one in place of nil. */
  method CurrentConfig(state: RuntimeState) returns (config: GoMap, ghost out: Tree)
    requires state.Valid()
    modifies state`shared
    ensures state.Valid() && state.View() == old(state.View())
    ensures out.MapTree? && out.m == config && InHeap(out)
    ensures out.fields == if state.View().config.Some? then state.View().config.value else map[]
    ensures fresh(Refs(out)) && Refs(out) <= state.shared
  {
    var snapshot, copy := state.TakeSnapshot();
    if snapshot.currentConfig == null {
      config := new GoMap();
      out := MapTree(config, map[], map[], {config});
      state.HandOut({config});
    } else {
      config, out := snapshot.currentConfig, copy;
    }
  }

  /** A new map with the same entries and one more; the values are not cloned. */
  method WithSni(config: GoMap, panelSni: string, ghost tree: Tree, ghost others: set<object>)
    returns (sniConfig: GoMap, ghost out: Tree)
    requires tree.MapTree? && tree.m == config && InHeap(tree)
    ensures fresh(sniConfig) && sniConfig !in others && out.MapTree? && out.m == sniConfig && InHeap(out)
    ensures out.fields == tree.fields["panelSni" := Leaf(Str(panelSni))]
    ensures Refs(out) == Refs(tree) + {sniConfig}
  {
    sniConfig := new GoMap();
    var keys := config.entries.Keys;
    while keys != {}
      invariant keys <= config.entries.Keys && sniConfig.entries.Keys == config.entries.Keys - keys
      invariant forall k | k in sniConfig.entries :: sniConfig.entries[k] == config.entries[k]
      decreases keys
    {
      var key :| key in keys;
      sniConfig.entries := sniConfig.entries[key := config.entries[key]];
      keys := keys - {key};
    }
    sniConfig.entries := sniConfig.entries["panelSni" := ScalarVal(Str(panelSni))];
    out := MapTree(sniConfig, tree.kids["panelSni" := ScalarTree(Str(panelSni))],
                   tree.fields["panelSni" := Leaf(Str(panelSni))], tree.refs + {sniConfig});
    forall k | k in out.kids ensures EntryInHeap(out, k) {
      assert k in tree.kids ==> EntryInHeap(tree, k);
    }
  }
}
