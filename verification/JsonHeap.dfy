/** Decoded JSON as Go holds it: maps and slices are objects on the heap that may be shared
    and are written in place. */
module JsonHeap {
  import opened JsonTree

  /** A map[string]any. */
  class GoMap {
    var entries: map<string, Val>

    constructor ()
      ensures entries == map[]
    {
      entries := map[];
    }
  }

  /** A value of type any. */
  datatype Val =
    | ScalarVal(scalar: Scalar)
    | MapVal(m: GoMap)
    | SliceVal(a: array<Val>)

  /** What hangs below a value: the JSON it spells, the objects reachable from it, and the same
      for each child. An object that is shared occurs several times. */
  datatype Tree =
    | ScalarTree(scalar: Scalar)
    | MapTree(m: GoMap, kids: map<string, Tree>, fields: Fields, refs: set<object>)
    | SliceTree(a: array<Val>, elems: seq<Tree>, items: seq<Json>, refs: set<object>)

  function Root(tree: Tree): Val {
    match tree
    case ScalarTree(scalar) => ScalarVal(scalar)
    case MapTree(m, _, _, _) => MapVal(m)
    case SliceTree(a, _, _, _) => SliceVal(a)
  }

  function ToJson(tree: Tree): Json {
    match tree
    case ScalarTree(scalar) => Leaf(scalar)
    case MapTree(_, _, fields, _) => Obj(fields)
    case SliceTree(_, _, items, _) => Arr(items)
  }

  ghost function Refs(tree: Tree): set<object> {
    if tree.ScalarTree? then {} else tree.refs
  }

  /** The heap now contains exactly this tree. */
  ghost predicate InHeap(tree: Tree)
    reads Refs(tree)
    decreases tree, 1
  {
    match tree
    case ScalarTree(_) => true
    case MapTree(m, kids, fields, refs) =>
      && m in refs
      && m.entries.Keys == kids.Keys == fields.Keys
      && forall k | k in kids :: EntryInHeap(tree, k)
    case SliceTree(a, elems, items, refs) =>
      && a in refs
      && a.Length == |elems| == |items|
      && forall i | 0 <= i < |elems| :: ElemInHeap(tree, i)
  }

  ghost predicate EntryInHeap(tree: Tree, k: string)
    requires tree.MapTree? && k in tree.kids
    reads Refs(tree)
    decreases tree, 0
  {
    var kid := tree.kids[k];
    && tree.m in tree.refs && k in tree.m.entries && k in tree.fields
    && tree.m.entries[k] == Root(kid) && tree.fields[k] == ToJson(kid)
    && Refs(kid) <= tree.refs && InHeap(kid)
  }

  ghost predicate ElemInHeap(tree: Tree, i: nat)
    requires tree.SliceTree? && i < |tree.elems|
    reads Refs(tree)
    decreases tree, 0
  {
    var elem := tree.elems[i];
    && tree.a in tree.refs && i < tree.a.Length && i < |tree.items|
    && tree.a[i] == Root(elem) && tree.items[i] == ToJson(elem)
    && Refs(elem) <= tree.refs && InHeap(elem)
  }

  /** A tree is where it was if none of its objects was written. */
  twostate lemma StaysInHeap(tree: Tree)
    requires old(InHeap(tree)) && forall o | o in Refs(tree) :: unchanged(o)
    ensures InHeap(tree)
  {
  }

  /** No object occurs twice: a write to one node changes the tree at one place only. */
  ghost predicate Unshared(tree: Tree) {
    match tree
    case ScalarTree(_) => true
    case MapTree(m, kids, _, _) =>
      && (forall k | k in kids :: m !in Refs(kids[k]) && Unshared(kids[k]))
      && (forall k, k' | k in kids && k' in kids && k != k' :: Refs(kids[k]) !! Refs(kids[k']))
    case SliceTree(a, elems, _, _) =>
      && (forall i | 0 <= i < |elems| :: a !in Refs(elems[i]) && Unshared(elems[i]))
      && (forall i, j | 0 <= i < |elems| && 0 <= j < |elems| && i != j :: Refs(elems[i]) !! Refs(elems[j]))
  }

  /** m[key], nil if absent. */
  function Get(m: GoMap, key: string): Val
    reads m
  {
    if key in m.entries then m.entries[key] else ScalarVal(Null)
  }

  ghost function Kid(tree: Tree, key: string): Tree
    requires tree.MapTree?
  {
    if key in tree.kids then tree.kids[key] else ScalarTree(Null)
  }

  lemma KidIsInHeap(tree: Tree, key: string)
    requires tree.MapTree? && InHeap(tree)
    ensures Get(tree.m, key) == Root(Kid(tree, key)) && InHeap(Kid(tree, key))
    ensures ToJson(Kid(tree, key)) == Field(tree.fields, key)
    ensures Refs(Kid(tree, key)) <= Refs(tree)
  {
    assert key in tree.kids ==> EntryInHeap(tree, key);
  }

  lemma ElemsAreInHeap(tree: Tree)
    requires tree.SliceTree? && InHeap(tree)
    ensures tree.a.Length == |tree.elems| == |tree.items|
    ensures forall i | 0 <= i < |tree.elems| ::
      && tree.a[i] == Root(tree.elems[i]) && tree.items[i] == ToJson(tree.elems[i])
      && Refs(tree.elems[i]) <= Refs(tree) && InHeap(tree.elems[i])
  {
    forall i | 0 <= i < |tree.elems| ensures tree.a[i] == Root(tree.elems[i]) && tree.items[i] == ToJson(tree.elems[i])
      && Refs(tree.elems[i]) <= Refs(tree) && InHeap(tree.elems[i])
    {
      assert ElemInHeap(tree, i);
    }
  }

  ghost function WithKid(tree: Tree, key: string, kid: Tree): Tree
    requires tree.MapTree?
  {
    MapTree(tree.m, tree.kids[key := kid], tree.fields[key := ToJson(kid)], tree.refs + Refs(kid))
  }

  /** `kid` may be stored under `key` without any object occurring twice. */
  ghost predicate Storable(tree: Tree, key: string, kid: Tree)
    requires tree.MapTree?
  {
    && Unshared(kid) && tree.m !in Refs(kid)
    && forall k | k in tree.kids && k != key :: Refs(tree.kids[k]) !! Refs(kid)
  }

  lemma StoringKeepsUnshared(tree: Tree, key: string, kid: Tree)
    requires tree.MapTree? && Unshared(tree) && Storable(tree, key, kid)
    ensures Unshared(WithKid(tree, key, kid))
  {
  }

  lemma DisjointIsStorable(tree: Tree, key: string, kid: Tree)
    requires tree.MapTree? && InHeap(tree) && Unshared(kid) && Refs(tree) !! Refs(kid)
    ensures Storable(tree, key, kid)
  {
  }

  /** The assignment m[key] = value. */
  method Put(m: GoMap, key: string, value: Val, ghost tree: Tree, ghost kid: Tree)
    requires tree.MapTree? && tree.m == m && InHeap(tree) && Unshared(tree)
    requires Root(kid) == value && InHeap(kid) && Storable(tree, key, kid)
    modifies m
    ensures InHeap(WithKid(tree, key, kid)) && Unshared(WithKid(tree, key, kid))
    ensures m.entries == old(m.entries)[key := value]
  {
    StoringKeepsUnshared(tree, key, kid);
    m.entries := m.entries[key := value];
    ghost var stored := WithKid(tree, key, kid);
    forall k | k in stored.kids ensures EntryInHeap(stored, k) {
      assert k != key ==> old(EntryInHeap(tree, k)) && m !in Refs(tree.kids[k]);
    }
  }

  /** cloneMap of a non-nil map: fresh objects, the same JSON, the input untouched. */
  method CloneMap(input: GoMap, ghost tree: Tree) returns (output: GoMap, ghost copy: Tree)
    requires tree.MapTree? && tree.m == input && InHeap(tree)
    ensures copy.MapTree? && copy.m == output && InHeap(copy) && Unshared(copy)
    ensures ToJson(copy) == ToJson(tree)
    ensures fresh(Refs(copy))
    decreases tree, 1
  {
    output := new GoMap();
    assert output !in Refs(tree);
    copy := MapTree(output, map[], map[], {output});
    ghost var refs := copy.refs;
    var keys := input.entries.Keys;
    while keys != {}
      invariant keys <= tree.kids.Keys && InHeap(tree)
      invariant CopiedBut(tree, copy, keys) && copy.m == output && copy.refs == refs && fresh(refs)
      invariant InHeap(copy) && Unshared(copy)
      decreases keys
    {
      var key :| key in keys;
      ghost var added;
      copy, added := CloneEntry(input, key, output, tree, copy, keys);
      refs := refs + added;
      keys := keys - {key};
    }
    assert copy.fields == tree.fields;
  }

  /** `copy` has every entry of `tree` except those under `keys`. */
  ghost predicate CopiedBut(tree: Tree, copy: Tree, keys: set<string>) {
    && tree.MapTree? && copy.MapTree?
    && copy.fields.Keys == tree.fields.Keys - keys
    && forall k | k in copy.fields :: copy.fields[k] == tree.fields[k]
  }

  lemma CopiesOneMore(tree: Tree, copy: Tree, keys: set<string>, key: string, kid: Tree)
    requires CopiedBut(tree, copy, keys) && key in keys && key in tree.fields && ToJson(kid) == tree.fields[key]
    ensures CopiedBut(tree, WithKid(copy, key, kid), keys - {key})
  {
  }

  /** One turn of the loop: output[key] = cloneValue(input[key]). */
  method CloneEntry(input: GoMap, key: string, output: GoMap, ghost tree: Tree, ghost copy: Tree, ghost keys: set<string>)
    returns (ghost grown: Tree, ghost added: set<object>)
    requires tree.MapTree? && tree.m == input && InHeap(tree) && key in input.entries && key in keys
    requires CopiedBut(tree, copy, keys) && copy.m == output && InHeap(copy) && Unshared(copy)
    requires output !in Refs(tree)
    modifies output
    ensures CopiedBut(tree, grown, keys - {key}) && grown.m == output && InHeap(grown) && Unshared(grown)
    ensures grown.refs == copy.refs + added && fresh(added)
    ensures InHeap(tree)
    decreases tree, 0
  {
    assert EntryInHeap(tree, key);
    var value, kid := CloneValue(input.entries[key], tree.kids[key]);
    DisjointIsStorable(copy, key, kid);
    CopiesOneMore(tree, copy, keys, key, kid);
    Put(output, key, value, copy, kid);
    grown, added := WithKid(copy, key, kid), Refs(kid);
  }

  method CloneValue(value: Val, ghost tree: Tree) returns (output: Val, ghost copy: Tree)
    requires Root(tree) == value && InHeap(tree)
    ensures Root(copy) == output && InHeap(copy) && Unshared(copy)
    ensures ToJson(copy) == ToJson(tree)
    ensures fresh(Refs(copy))
    decreases tree, 2
  {
    match value
    case MapVal(m) =>
      var cloned;
      cloned, copy := CloneMap(m, tree);
      output := MapVal(cloned);
    case SliceVal(a) =>
      var cloned;
      cloned, copy := CloneSlice(a, tree);
      output := SliceVal(cloned);
    case ScalarVal(scalar) =>
      output, copy := value, tree;
  }

  /** Position `j` of `output` holds a copy of an element, apart from `output` itself. */
  ghost predicate CopiedAt(output: array<Val>, j: nat, elem: Tree, json: Json, refs: set<object>)
    reads output, Refs(elem)
  {
    && j < output.Length && output[j] == Root(elem) && ToJson(elem) == json
    && output !in Refs(elem) && Refs(elem) <= refs && InHeap(elem) && Unshared(elem)
  }

  ghost predicate Disjoint(elems: seq<Tree>) {
    forall j, k | 0 <= j < |elems| && 0 <= k < |elems| && j != k :: Refs(elems[j]) !! Refs(elems[k])
  }

  method CloneSlice(input: array<Val>, ghost tree: Tree) returns (output: array<Val>, ghost copy: Tree)
    requires tree.SliceTree? && tree.a == input && InHeap(tree)
    ensures copy.SliceTree? && copy.a == output && InHeap(copy) && Unshared(copy)
    ensures ToJson(copy) == ToJson(tree)
    ensures fresh(Refs(copy))
    decreases tree, 1
  {
    output := new Val[input.Length];
    assert output !in Refs(tree);
    ghost var elems: seq<Tree> := [];
    ghost var refs: set<object> := {output};
    for i := 0 to input.Length
      invariant |elems| == i && output in refs && fresh(refs) && InHeap(tree)
      invariant forall j | 0 <= j < i :: CopiedAt(output, j, elems[j], tree.items[j], refs)
      invariant Disjoint(elems)
    {
      assert ElemInHeap(tree, i);
      var value, elem := CloneValue(input[i], tree.elems[i]);
      assert forall j | 0 <= j < i :: CopiedAt(output, j, elems[j], tree.items[j], refs);
      output[i] := value;
      elems := elems + [elem];
      refs := refs + Refs(elem);
    }
    copy := SliceTree(output, elems, tree.items, refs);
    assert forall j | 0 <= j < |elems| :: CopiedAt(output, j, elems[j], tree.items[j], refs) && ElemInHeap(copy, j);
  }
}
