/** Who can reach what: the objects RuntimeState owns stay out of its callers' hands, whatever
    they link together out of the objects they hold. */
module Isolation {
  import opened JsonHeap
  import opened RuntimeState

  /** The object a value refers to, if it does. */
  function Target(value: Val): set<object> {
    match value
    case ScalarVal(_) => {}
    case MapVal(m) => {m}
    case SliceVal(a) => {a}
  }

  ghost function AtKey(m: GoMap, k: string): set<object>
    reads m
  {
    Target(Get(m, k))
  }

  ghost function AtIndex(a: array<Val>, i: nat): set<object>
    reads a
  {
    if i < a.Length then Target(a[i]) else {}
  }

  ghost function InMap(m: GoMap): set<object>
    reads m
  {
    set k, p | k in m.entries && p in AtKey(m, k) :: p
  }

  ghost function InSlice(a: array<Val>): set<object>
    reads a
  {
    set i, p | 0 <= i < a.Length && p in AtIndex(a, i) :: p
  }

  /** The objects that references stored in `o` lead to. */
  ghost function Targets(o: object): set<object>
    reads o
  {
    if o is GoMap then InMap(o as GoMap) else if o is array<Val> then InSlice(o as array<Val>) else {}
  }

  /** Whoever holds these objects can get hold of no others. */
  ghost predicate Closed(world: set<object>)
    reads world
  {
    forall o | o in world :: Targets(o) <= world
  }

  /** From an object of `roots` to `o` by stored references, one after the other. */
  ghost predicate Leads(path: seq<object>, roots: set<object>, o: object)
    reads set p | p in path
  {
    && path != [] && path[0] in roots && path[|path| - 1] == o
    && forall i | 0 <= i < |path| - 1 :: path[i + 1] in Targets(path[i])
  }

  lemma {:induction false} ClosedIsClosed(world: set<object>, path: seq<object>, roots: set<object>, o: object)
    requires Closed(world) && roots <= world && Leads(path, roots, o)
    ensures o in world
  {
    if |path| > 1 {
      var front := path[..|path| - 1];
      var p := front[|front| - 1];
      assert forall i | 0 <= i < |front| - 1 :: front[i + 1] in Targets(front[i]);
      ClosedIsClosed(world, front, roots, p);
    }
  }

  lemma UnionIsClosed(a: set<object>, b: set<object>)
    requires Closed(a) && Closed(b)
    ensures Closed(a + b)
  {
  }

  // ---- the objects of a tree ------------------------------------------------------------------

  /** The objects a tree is made of. */
  ghost function Nodes(tree: Tree): set<object> {
    match tree
    case ScalarTree(_) => {}
    case MapTree(m, kids, _, _) => {m} + Union(set k | k in kids :: Nodes(kids[k]))
    case SliceTree(a, elems, _, _) => {a} + Union(set i | 0 <= i < |elems| :: Nodes(elems[i]))
  }

  ghost function Union(sets: set<set<object>>): set<object> {
    set s, o | s in sets && o in s :: o
  }

  ghost predicate SelfContained(tree: Tree)
    reads Nodes(tree)
  {
    Closed(Nodes(tree)) && Target(Root(tree)) <= Nodes(tree) <= Refs(tree)
  }

  lemma MapIsSelfContained(tree: Tree)
    requires tree.MapTree? && InHeap(tree) && forall k | k in tree.kids :: SelfContained(tree.kids[k])
    ensures SelfContained(tree)
  {
    var nodes := Nodes(tree);
    forall k | k in tree.kids
      ensures Nodes(tree.kids[k]) <= nodes && AtKey(tree.m, k) <= nodes && Nodes(tree.kids[k]) <= tree.refs
    {
      assert Nodes(tree.kids[k]) in set k | k in tree.kids :: Nodes(tree.kids[k]);
      assert EntryInHeap(tree, k) && SelfContained(tree.kids[k]);
    }
    assert Targets(tree.m) <= nodes;
    forall o | o in nodes ensures Targets(o) <= nodes {
      if o != tree.m {
        var k :| k in tree.kids && o in Nodes(tree.kids[k]);
        assert SelfContained(tree.kids[k]);
      }
    }
  }

  lemma SliceIsSelfContained(tree: Tree)
    requires tree.SliceTree? && InHeap(tree) && forall i | 0 <= i < |tree.elems| :: SelfContained(tree.elems[i])
    ensures SelfContained(tree)
  {
    var nodes := Nodes(tree);
    forall i | 0 <= i < |tree.elems|
      ensures Nodes(tree.elems[i]) <= nodes && AtIndex(tree.a, i) <= nodes && Nodes(tree.elems[i]) <= tree.refs
    {
      assert Nodes(tree.elems[i]) in set i | 0 <= i < |tree.elems| :: Nodes(tree.elems[i]);
      assert ElemInHeap(tree, i) && SelfContained(tree.elems[i]);
    }
    assert Targets(tree.a) <= nodes;
    forall o | o in nodes ensures Targets(o) <= nodes {
      if o != tree.a {
        var i :| 0 <= i < |tree.elems| && o in Nodes(tree.elems[i]);
        assert SelfContained(tree.elems[i]);
      }
    }
  }

  lemma {:induction false} TreesAreSelfContained(tree: Tree)
    requires InHeap(tree)
    ensures SelfContained(tree)
  {
    match tree
    case ScalarTree(_) =>
    case MapTree(_, kids, _, _) =>
      forall k | k in kids ensures SelfContained(kids[k]) {
        assert EntryInHeap(tree, k);
        TreesAreSelfContained(kids[k]);
      }
      MapIsSelfContained(tree);
    case SliceTree(_, elems, _, _) =>
      forall i | 0 <= i < |elems| ensures SelfContained(elems[i]) {
        assert ElemInHeap(tree, i);
        TreesAreSelfContained(elems[i]);
      }
      SliceIsSelfContained(tree);
  }

  // ---- the state among its callers ------------------------------------------------------------

  /** `world` has all that the callers hold or can get at, and nothing the state owns. */
  ghost predicate Isolated(state: RuntimeState, world: set<object>)
    reads state, state.Own(), world
  {
    state.Valid() && Closed(world) && world !! state.Own() && state !in world
  }

  /** No stored references lead from what the callers hold to what the state owns. */
  lemma OwnIsOutOfReach(state: RuntimeState, world: set<object>, path: seq<object>, o: object)
    requires Isolated(state, world) && Leads(path, world, o)
    ensures o !in state.Own() && o != state
  {
    ClosedIsClosed(world, path, world, o);
  }

  /** Callers write objects of their world in any way at all and add new ones; as long as what
      they store is theirs, the state does not change and stays out of their reach. */
  twostate lemma CallersStayOutside(state: RuntimeState, world: set<object>, new world': set<object>)
    requires old(Isolated(state, world)) && unchanged(state)
    requires forall o: object | old(allocated(o)) && o !in world :: unchanged(o)
    requires world <= world' && fresh(world' - world) && Closed(world')
    ensures state.View() == old(state.View()) && Isolated(state, world')
  {
    state.CallersCannotChangeState(world);
  }

  /** A state that was just made is out of everybody's reach. */
  method NewState(nodeVersion: string, ghost world: set<object>) returns (state: RuntimeState)
    requires Closed(world)
    ensures fresh(state) && Isolated(state, world)
  {
    state := new RuntimeState(nodeVersion);
  }

  /** Handing objects to the state does not give them away: it keeps clones. */
  method PassIn(state: RuntimeState, version: StringCell?, config: GoMap?, hashes: GoHashes,
                ghost given: Tree, ghost world: set<object>)
    requires Isolated(state, world)
    requires Unfolds(config, given) && InHeap(given) && Nodes(given) + {hashes.inbounds} + CellSet(version) <= world
    requires state !in Refs(given)
    modifies state
    ensures Isolated(state, world)
  {
    state.SetXrayStarted(version, config, hashes, given);
  }

  /** The objects handed out with a snapshot, and they lead to no others. */
  lemma HandedOut(snapshot: Snapshot, copy: Tree) returns (added: set<object>)
    requires InHeap(copy)
    ensures Closed(added) && Nodes(copy) <= added && snapshot.lastHashes.inbounds in added
    ensures CellSet(snapshot.xrayVersion) <= added
    ensures added <= Behind(snapshot.xrayVersion, copy, snapshot.lastHashes)
  {
    TreesAreSelfContained(copy);
    ScalarsLeadNowhere(snapshot);
    added := {snapshot.lastHashes.inbounds} + CellSet(snapshot.xrayVersion);
    UnionIsClosed(Nodes(copy), added);
    added := Nodes(copy) + added;
  }

  lemma ScalarsLeadNowhere(snapshot: Snapshot)
    ensures Closed({snapshot.lastHashes.inbounds} + CellSet(snapshot.xrayVersion))
  {
    assert Targets(snapshot.lastHashes.inbounds) == {};
    assert snapshot.xrayVersion != null ==> Targets(snapshot.xrayVersion) == {};
  }

  /** Objects of nobody's that lead nowhere else may join the callers' world. */
  lemma WorldGrows(state: RuntimeState, world: set<object>, added: set<object>)
    requires Isolated(state, world) && Closed(added) && added !! state.Own() && state !in added
    ensures Isolated(state, world + added)
  {
    UnionIsClosed(world, added);
  }

  /** A snapshot's objects join the callers' world. */
  method HandOut(state: RuntimeState, ghost world: set<object>)
    returns (snapshot: Snapshot, ghost copy: Tree, ghost added: set<object>)
    requires Isolated(state, world)
    modifies state`shared
    ensures Unfolds(snapshot.currentConfig, copy) && Nodes(copy) <= added
    ensures snapshot.lastHashes.inbounds in added && CellSet(snapshot.xrayVersion) <= added
    ensures Isolated(state, world + added)
  {
    snapshot, copy := state.TakeSnapshot();
    added := HandedOut(snapshot, copy);
    WorldGrows(state, world, added);
  }
}
