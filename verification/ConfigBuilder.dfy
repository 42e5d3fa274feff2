/** ConfigBuilder.Build on the heap: clones, a shallow copy that shares its elements, and
    assignments to map entries in place. */
module ConfigBuilder {
  import opened Wrappers
  import opened JsonTree
  import opened JsonHeap
  import opened ConfigSpec

  /** ensureMap: a clone of a map, or an empty map in place of anything else. */
  method EnsureMap(value: Val, ghost tree: Tree) returns (output: GoMap, ghost copy: Tree)
    requires Root(tree) == value && InHeap(tree)
    ensures copy.MapTree? && copy.m == output && InHeap(copy) && Unshared(copy)
    ensures copy.fields == EnsureObj(ToJson(tree))
    ensures fresh(Refs(copy))
  {
    if value.MapVal? {
      output, copy := CloneMap(value.m, tree);
    } else {
      output := new GoMap();
      copy := MapTree(output, map[], map[], {output});
    }
  }

  /** The elements below a value; none unless it is a slice. */
  ghost function Elems(tree: Tree): seq<Tree> {
    if tree.SliceTree? then tree.elems else []
  }

  ghost predicate SharesElems(a: array<Val>, tree: Tree)
    reads a
  {
    a.Length == |Elems(tree)| && forall i | 0 <= i < a.Length :: a[i] == Root(Elems(tree)[i])
  }

  /** ensureArray: a new slice with the same elements, which stay shared. */
  method EnsureArray(value: Val, ghost tree: Tree) returns (output: array<Val>)
    requires Root(tree) == value && InHeap(tree)
    ensures fresh(output) && SharesElems(output, tree)
  {
    if value.SliceVal? {
      var input := value.a;
      ElemsAreInHeap(tree);
      output := new Val[input.Length];
      for i := 0 to input.Length
        invariant forall j | 0 <= j < i :: output[j] == Root(tree.elems[j])
      {
        output[i] := input[i];
      }
    } else {
      output := new Val[0];
    }
  }

  method ItemHasTag(item: Val, tag: string, ghost elem: Tree) returns (found: bool)
    requires Root(elem) == item && InHeap(elem)
    ensures found == CarriesTag(ToJson(elem), tag)
  {
    if item.MapVal? {
      KidIsInHeap(elem, "tag");
      found := Get(item.m, "tag") == ScalarVal(Str(tag));
    } else {
      found := false;
    }
  }

  method HasTagIn(config: GoMap, section: string, tag: string, ghost tree: Tree) returns (found: bool)
    requires tree.MapTree? && tree.m == config && InHeap(tree)
    ensures found == SectionHasTag(Field(tree.fields, section), tag)
  {
    KidIsInHeap(tree, section);
    ghost var kid := Kid(tree, section);
    if kid.SliceTree? { ElemsAreInHeap(kid); }
    var items := EnsureArray(Get(config, section), kid);
    for i := 0 to items.Length
      invariant InHeap(kid) && SharesElems(items, kid)
      invariant forall j | 0 <= j < i :: !CarriesTag(ToJson(Elems(kid)[j]), tag)
    {
      var carries := ItemHasTag(items[i], tag, kid.elems[i]);
      if carries {
        return true;
      }
    }
    return false;
  }

  /** hasTag: some inbound, or some outbound, carries the tag. */
  method HasTag(config: GoMap, tag: string, ghost tree: Tree) returns (found: bool)
    requires tree.MapTree? && tree.m == config && InHeap(tree)
    ensures found == ConfigSpec.HasTag(tree.fields, tag)
  {
    found := HasTagIn(config, "inbounds", tag, tree);
    if !found {
      found := HasTagIn(config, "outbounds", tag, tree);
    }
  }

  /** The loop body of applyHysteriaListenPort: inbound["port"] = port, in place. */
  method WritePort(item: Val, port: int, ghost elem: Tree) returns (ghost after: Tree)
    requires Root(elem) == item && InHeap(elem) && Unshared(elem)
    modifies Refs(elem)
    ensures Root(after) == item && Refs(after) == Refs(elem) && InHeap(after) && Unshared(after)
    ensures ToJson(after) == WithPort(ToJson(elem), port)
  {
    after := elem;
    if item.MapVal? {
      KidIsInHeap(elem, "protocol");
      if Get(item.m, "protocol") == ScalarVal(Str("hysteria")) {
        Put(item.m, "port", ScalarVal(Int(port)), elem, ScalarTree(Int(port)));
        after := WithKid(elem, "port", ScalarTree(Int(port)));
      }
    }
  }

  /** The loop of applyHysteriaListenPort. `items` is the shallow copy: the maps it holds are
      those of `slice`, so the writes show through `slice`. */
  method WritePorts(items: array<Val>, port: int, ghost slice: Tree) returns (ghost after: Tree)
    requires slice.SliceTree? && InHeap(slice) && Unshared(slice)
    requires SharesElems(items, slice) && items !in Refs(slice)
    modifies Refs(slice)
    ensures after.SliceTree? && after.a == slice.a && Refs(after) == Refs(slice)
    ensures InHeap(after) && Unshared(after)
    ensures after.items == ConfigSpec.WithPorts(slice.items, port)
  {
    after := slice;
    for i := 0 to items.Length
      invariant SameSkeleton(slice, after) && SharesElems(items, slice)
      invariant InHeap(after) && Unshared(after)
      invariant forall j | 0 <= j < |slice.items| ::
          after.items[j] == if j < i then WithPort(slice.items[j], port) else slice.items[j]
    {
      after := WritePortAt(items[i], i, port, after);
    }
    assert after.items == ConfigSpec.WithPorts(slice.items, port);
  }

  /** The same slice object and elements rooted at the same objects. */
  ghost predicate SameSkeleton(slice: Tree, after: Tree) {
    && slice.SliceTree? && after.SliceTree? && after.a == slice.a && after.refs == slice.refs
    && |after.elems| == |slice.elems| && |after.items| == |slice.items|
    && forall j | 0 <= j < |slice.elems| :: Root(after.elems[j]) == Root(slice.elems[j])
  }

  method WritePortAt(item: Val, i: nat, port: int, ghost slice: Tree) returns (ghost after: Tree)
    requires slice.SliceTree? && InHeap(slice) && Unshared(slice)
    requires i < |slice.elems| && item == Root(slice.elems[i])
    modifies Refs(slice) - {slice.a}
    ensures SameSkeleton(slice, after) && InHeap(after) && Unshared(after)
    ensures after.items == slice.items[i := WithPort(slice.items[i], port)]
  {
    ElemsAreInHeap(slice);
    ghost var elem := WritePort(item, port, slice.elems[i]);
    after := SliceTree(slice.a, slice.elems[i := elem], slice.items[i := ToJson(elem)], slice.refs);
    forall j | 0 <= j < |slice.elems| ensures ElemInHeap(after, j) {
      assert j != i ==> InHeap(slice.elems[j]);
    }
  }

  /** applyHysteriaListenPort: every object of the configuration stays where it is. */
  method ApplyHysteriaListenPort(config: GoMap, port: int, ghost tree: Tree) returns (ghost after: Tree)
    requires tree.MapTree? && tree.m == config && InHeap(tree) && Unshared(tree)
    modifies Refs(tree) - {config}
    ensures after.MapTree? && after.m == config && Refs(after) == Refs(tree)
    ensures InHeap(after) && Unshared(after)
    ensures after.fields == ApplyListenPort(tree.fields, port)
  {
    after := tree;
    if port <= 0 {
      return;
    }
    KidIsInHeap(tree, "inbounds");
    ghost var kid := Kid(tree, "inbounds");
    var items := EnsureArray(Get(config, "inbounds"), kid);
    if Get(config, "inbounds").SliceVal? {
      ghost var slice := WritePorts(items, port, kid);
      after := MapTree(config, tree.kids["inbounds" := slice], tree.fields["inbounds" := Arr(slice.items)], tree.refs);
      KidReplaced(tree, "inbounds", after);
    }
  }

  /** Replacing the subtree under one key by one over the same objects. */
  lemma KidReplaced(tree: Tree, key: string, after: Tree)
    requires tree.MapTree? && Unshared(tree) && key in tree.kids
    requires after.MapTree? && after.m == tree.m && after.refs == tree.refs && after.kids.Keys == tree.kids.Keys
    requires forall k | k in tree.kids && k != key :: after.kids[k] == tree.kids[k]
    requires Refs(after.kids[key]) == Refs(tree.kids[key]) && Unshared(after.kids[key])
    ensures Unshared(after)
  {
  }

  /** `after` hangs off the same map and reaches old objects or new ones only. */
  twostate predicate Grown(tree: Tree, new after: Tree)
    reads Refs(after)
  {
    && tree.MapTree? && after.MapTree? && after.m == tree.m
    && InHeap(after) && Unshared(after)
    && forall r | r in Refs(after) :: r in Refs(tree) || fresh(r)
  }

  /** m[key] = flag */
  method PutFlag(m: GoMap, key: string, flag: bool, ghost tree: Tree) returns (ghost after: Tree)
    requires tree.MapTree? && tree.m == m && InHeap(tree) && Unshared(tree)
    modifies m
    ensures Grown(tree, after) && Refs(after) == Refs(tree)
    ensures after.fields == tree.fields[key := Leaf(Bool(flag))]
  {
    Put(m, key, ScalarVal(Bool(flag)), tree, ScalarTree(Bool(flag)));
    after := WithKid(tree, key, ScalarTree(Bool(flag)));
  }

  /** m[key] = sub, for a map `sub` that shares nothing with `m`. */
  method PutMap(m: GoMap, key: string, sub: GoMap, ghost tree: Tree, ghost kid: Tree) returns (ghost after: Tree)
    requires tree.MapTree? && tree.m == m && InHeap(tree) && Unshared(tree)
    requires kid.MapTree? && kid.m == sub && InHeap(kid) && Unshared(kid) && Refs(tree) !! Refs(kid)
    modifies m
    ensures after.MapTree? && after.m == m && InHeap(after) && Unshared(after)
    ensures Refs(after) == Refs(tree) + Refs(kid)
    ensures after.fields == tree.fields[key := Obj(kid.fields)]
  {
    DisjointIsStorable(tree, key, kid);
    Put(m, key, MapVal(sub), tree, kid);
    after := WithKid(tree, key, kid);
  }

  method ForceLevel0Flags(level0: GoMap, online: bool, ghost tree: Tree) returns (ghost after: Tree)
    requires tree.MapTree? && tree.m == level0 && InHeap(tree) && Unshared(tree)
    modifies level0
    ensures Grown(tree, after) && Refs(after) == Refs(tree)
    ensures after.fields == ForceLevel0(tree.fields, online)
  {
    after := PutFlag(level0, "statsUserUplink", true, tree);
    after := PutFlag(level0, "statsUserDownlink", true, after);
    after := PutFlag(level0, "statsUserOnline", online, after);
  }

  method ForceSystemFlags(system: GoMap, ghost tree: Tree) returns (ghost after: Tree)
    requires tree.MapTree? && tree.m == system && InHeap(tree) && Unshared(tree)
    modifies system
    ensures Grown(tree, after) && Refs(after) == Refs(tree)
    ensures after.fields == ForceSystem(tree.fields)
  {
    after := PutFlag(system, "statsInboundDownlink", true, tree);
    after := PutFlag(system, "statsInboundUplink", true, after);
    after := PutFlag(system, "statsOutboundDownlink", true, after);
    after := PutFlag(system, "statsOutboundUplink", true, after);
  }

  /** ensureMap(m[key]). */
  method EnsureSub(m: GoMap, key: string, ghost tree: Tree) returns (sub: GoMap, ghost subTree: Tree)
    requires tree.MapTree? && tree.m == m && InHeap(tree)
    ensures subTree.MapTree? && subTree.m == sub && InHeap(subTree) && Unshared(subTree)
    ensures fresh(Refs(subTree)) && Refs(tree) !! Refs(subTree) && InHeap(tree)
    ensures subTree.fields == EnsureObj(Field(tree.fields, key))
  {
    KidIsInHeap(tree, key);
    sub, subTree := EnsureMap(Get(m, key), Kid(tree, key));
  }

  /** level0 := ensureMap(levels["0"]), three flags, levels["0"] = level0. */
  method ForceLevel0In(levels: GoMap, online: bool, ghost tree: Tree) returns (ghost after: Tree)
    requires tree.MapTree? && tree.m == levels && InHeap(tree) && Unshared(tree)
    modifies levels
    ensures Grown(tree, after)
    ensures after.fields == tree.fields["0" := Obj(ForceLevel0(EnsureObj(Field(tree.fields, "0")), online))]
  {
    var level0, level0Tree := EnsureSub(levels, "0", tree);
    level0Tree := ForceLevel0Flags(level0, online, level0Tree);
    after := PutMap(levels, "0", level0, tree, level0Tree);
  }

  method ForceLevelsIn(policy: GoMap, online: bool, ghost tree: Tree) returns (ghost after: Tree)
    requires tree.MapTree? && tree.m == policy && InHeap(tree) && Unshared(tree)
    modifies policy
    ensures Grown(tree, after)
    ensures var levels := EnsureObj(Field(tree.fields, "levels"));
      after.fields == tree.fields["levels" := Obj(
        levels["0" := Obj(ForceLevel0(EnsureObj(Field(levels, "0")), online))])]
  {
    var levels, levelsTree := EnsureSub(policy, "levels", tree);
    ghost var grown := ForceLevel0In(levels, online, levelsTree);
    assert Refs(tree) !! Refs(grown);
    after := PutMap(policy, "levels", levels, tree, grown);
  }

  method ForceSystemIn(policy: GoMap, ghost tree: Tree) returns (ghost after: Tree)
    requires tree.MapTree? && tree.m == policy && InHeap(tree) && Unshared(tree)
    modifies policy
    ensures Grown(tree, after)
    ensures after.fields == tree.fields["system" := Obj(ForceSystem(EnsureObj(Field(tree.fields, "system"))))]
  {
    var system, systemTree := EnsureSub(policy, "system", tree);
    systemTree := ForceSystemFlags(system, systemTree);
    after := PutMap(policy, "system", system, tree, systemTree);
  }

  method ForceFlags(policy: GoMap, online: bool, ghost tree: Tree) returns (ghost after: Tree)
    requires tree.MapTree? && tree.m == policy && InHeap(tree) && Unshared(tree)
    modifies policy
    ensures Grown(tree, after)
    ensures after.fields == ForcePolicy(tree.fields, online)
  {
    ghost var levelled := ForceLevelsIn(policy, online, tree);
    after := ForceSystemIn(policy, levelled);
  }

  method ForcePolicyIn(config: GoMap, online: bool, ghost tree: Tree) returns (ghost after: Tree)
    requires tree.MapTree? && tree.m == config && InHeap(tree) && Unshared(tree)
    modifies config
    ensures Grown(tree, after)
    ensures after.fields == tree.fields["policy" := Obj(ForcePolicy(EnsureObj(Field(tree.fields, "policy")), online))]
  {
    var policy, policyTree := EnsureSub(config, "policy", tree);
    ghost var forced := ForceFlags(policy, online, policyTree);
    assert Refs(tree) !! Refs(forced);
    after := PutMap(config, "policy", policy, tree, forced);
  }

  method ForceStatsIn(config: GoMap, online: bool, ghost tree: Tree) returns (ghost after: Tree)
    requires tree.MapTree? && tree.m == config && InHeap(tree) && Unshared(tree)
    modifies config
    ensures Grown(tree, after)
    ensures after.fields == ForceStats(tree.fields, online)
  {
    var stats, statsTree := EnsureSub(config, "stats", tree);
    ghost var withStats := PutMap(config, "stats", stats, tree, statsTree);
    after := ForcePolicyIn(config, online, withStats);
  }

  /** A clone of the panel's configuration; an empty map for nil. */
  method CloneOrEmpty(panel: GoMap?, ghost tree: Tree) returns (config: GoMap, ghost copy: Tree)
    requires panel != null ==> tree.MapTree? && tree.m == panel && InHeap(tree)
    ensures copy.MapTree? && copy.m == config && InHeap(copy) && Unshared(copy) && fresh(Refs(copy))
    ensures copy.fields == if panel == null then map[] else tree.fields
  {
    if panel == null {
      config := new GoMap();
      copy := MapTree(config, map[], map[], {config});
    } else {
      config, copy := CloneMap(panel, tree);
    }
  }

  /** Build. Nothing that existed before is written, every object below the result is new, and
      the result spells what the specification says. A nil panel configuration counts as empty. */
  method Build(builder: Builder, panel: GoMap?, ghost tree: Tree) returns (r: Result<GoMap, BuildError>, ghost built: Tree)
    requires panel != null ==> tree.MapTree? && tree.m == panel && InHeap(tree)
    ensures r.Ok? ==> built.MapTree? && built.m == r.value && InHeap(built) && Unshared(built)
    ensures r.Ok? ==> forall o | o in Refs(built) :: fresh(o)
    ensures ConfigSpec.Build(builder, if panel == null then map[] else tree.fields)
         == if r.Ok? then Ok(built.fields) else Err(r.error)
  {
    var config;
    config, built := CloneOrEmpty(panel, tree);
    var api := HasTag(config, API_TAG, built);
    if api {
      return Err(ApiTagConflict), built;
    }
    var apiInbound := HasTag(config, API_INBOUND_TAG, built);
    if apiInbound {
      return Err(ApiInboundTagConflict), built;
    }
    built := ApplyHysteriaListenPort(config, builder.hysteriaListenPort, built);
    built := ForceStatsIn(config, builder.statsUserOnline, built);
    r := Ok(config);
  }
}
