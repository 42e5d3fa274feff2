/** What Build does to a configuration, seen through paths, and how two builds compose. */
module ConfigLaws {
  import opened Wrappers
  import opened JsonTree
  import opened ConfigSpec

  datatype Step = Key(key: string) | Index(index: nat)

  /** The value at a path, if there is one. */
  function At(json: Json, path: seq<Step>): Option<Json> {
    if path == [] then Some(json)
    else
      match path[0]
      case Key(k) => if json.Obj? && k in json.fields then At(json.fields[k], path[1..]) else None
      case Index(i) => if json.Arr? && i < |json.items| then At(json.items[i], path[1..]) else None
  }

  function Child(json: Json, step: Step): Option<Json> {
    match step
    case Key(k) => if json.Obj? && k in json.fields then Some(json.fields[k]) else None
    case Index(i) => if json.Arr? && i < |json.items| then Some(json.items[i]) else None
  }

  lemma AtCons(json: Json, step: Step, rest: seq<Step>)
    ensures At(json, [step] + rest) == match Child(json, step) case None => None case Some(child) => At(child, rest)
  {
    assert ([step] + rest)[1..] == rest;
  }

  lemma AtThree(json: Json, a: Step, b: Step, c: Step)
    ensures At(json, [a, b, c]) ==
      match Child(json, a)
      case None => None
      case Some(x) => match Child(x, b) case None => None case Some(y) => Child(y, c)
  {
    AtCons(json, a, [b, c]);
    assert [a] + [b, c] == [a, b, c];
    if Child(json, a).Some? {
      var x := Child(json, a).value;
      AtCons(x, b, [c]);
      assert [b] + [c] == [b, c];
      if Child(x, b).Some? {
        AtCons(Child(x, b).value, c, []);
        assert [c] + [] == [c];
      }
    }
  }

  // ---- failure ----------------------------------------------------------------------------

  /** Some inbound or outbound carries this tag, found by path. */
  ghost predicate TaggedAt(config: Fields, section: string, i: nat, tag: string) {
    At(Obj(config), [Key(section), Index(i), Key("tag")]) == Some(Leaf(Str(tag)))
  }

  ghost predicate CarriedSomewhere(config: Fields, tag: string) {
    exists i: nat :: TaggedAt(config, "inbounds", i, tag) || TaggedAt(config, "outbounds", i, tag)
  }

  lemma TaggedAtIsCarried(config: Fields, section: string, i: nat, tag: string)
    ensures TaggedAt(config, section, i, tag) <==>
      var s := Field(config, section); s.Arr? && i < |s.items| && CarriesTag(s.items[i], tag)
  {
    AtThree(Obj(config), Key(section), Index(i), Key("tag"));
  }

  lemma HasTagIsCarriedSomewhere(config: Fields, tag: string)
    ensures HasTag(config, tag) <==> CarriedSomewhere(config, tag)
  {
    forall i: nat, section: string
      ensures TaggedAt(config, section, i, tag) <==>
        var s := Field(config, section); s.Arr? && i < |s.items| && CarriesTag(s.items[i], tag)
    {
      TaggedAtIsCarried(config, section, i, tag);
    }
  }

  /** Build fails exactly on a reserved tag, and the API tag is the one reported if both occur. */
  lemma BuildFailsExactlyOnReservedTags(builder: Builder, config: Fields)
    ensures Build(builder, config) == Err(ApiTagConflict) <==> CarriedSomewhere(config, "REMNAWAVE_API")
    ensures Build(builder, config) == Err(ApiInboundTagConflict) <==>
      !CarriedSomewhere(config, "REMNAWAVE_API") && CarriedSomewhere(config, "REMNAWAVE_API_INBOUND")
    ensures Build(builder, config).Ok? <==>
      !CarriedSomewhere(config, "REMNAWAVE_API") && !CarriedSomewhere(config, "REMNAWAVE_API_INBOUND")
  {
    HasTagIsCarriedSomewhere(config, API_TAG);
    HasTagIsCarriedSomewhere(config, API_INBOUND_TAG);
  }

  // ---- frame ------------------------------------------------------------------------------

  const USER_FLAGS := {"statsUserUplink", "statsUserDownlink", "statsUserOnline"}
  const SYSTEM_FLAGS := {"statsInboundDownlink", "statsInboundUplink", "statsOutboundDownlink", "statsOutboundUplink"}

  /** A container itself, or anything at or below a key in `flags`. */
  predicate AtFlag(path: seq<Step>, flags: set<string>) {
    path == [] || (path[0].Key? && path[0].key in flags)
  }

  predicate Below(path: seq<Step>, key: string) {
    path != [] && path[0] == Key(key)
  }

  /** The paths, within the policy, that Build writes. */
  predicate WrittenInPolicy(path: seq<Step>) {
    || path == []
    || path == [Key("levels")]
    || (Below(path, "levels") && Below(path[1..], "0") && AtFlag(path[1..][1..], USER_FLAGS))
    || (Below(path, "system") && AtFlag(path[1..], SYSTEM_FLAGS))
  }

  predicate WrittenInInbounds(items: seq<Json>, path: seq<Step>) {
    || path == []
    || (path[0].Index? && path[0].index < |items| && IsHysteria(items[path[0].index]) && AtFlag(path[1..], {"port"}))
  }

  /** Every path whose value Build decides: containers, the seven flags, the hysteria ports. */
  predicate Written(builder: Builder, config: Fields, path: seq<Step>) {
    || path == []
    || path == [Key("stats")]
    || (Below(path, "policy") && WrittenInPolicy(path[1..]))
    || (Below(path, "inbounds") && builder.hysteriaListenPort > 0 && Field(config, "inbounds").Arr?
        && WrittenInInbounds(config["inbounds"].items, path[1..]))
  }

  /** Strictly below something that is not a map and that Build replaces by one. */
  predicate Gone(json: Json, path: seq<Step>) {
    !json.Obj? && path != []
  }

  predicate DisplacedInLevels(levels: Json, path: seq<Step>) {
    Gone(levels, path) || (levels.Obj? && Below(path, "0") && Gone(Field(levels.fields, "0"), path[1..]))
  }

  predicate DisplacedInPolicy(policy: Json, path: seq<Step>) {
    || Gone(policy, path)
    || (policy.Obj? && Below(path, "levels") && DisplacedInLevels(Field(policy.fields, "levels"), path[1..]))
    || (policy.Obj? && Below(path, "system") && Gone(Field(policy.fields, "system"), path[1..]))
  }

  predicate Displaced(config: Fields, path: seq<Step>) {
    || (Below(path, "stats") && Gone(Field(config, "stats"), path[1..]))
    || (Below(path, "policy") && DisplacedInPolicy(Field(config, "policy"), path[1..]))
  }

  function Kept(json: Json, path: seq<Step>, displaced: bool): Option<Json> {
    if displaced then None else At(json, path)
  }

  lemma EnsureObjFrame(json: Json, path: seq<Step>)
    requires path != []
    ensures At(Obj(EnsureObj(json)), path) == Kept(json, path, Gone(json, path))
  {
  }

  lemma Level0Frame(level0: Fields, online: bool, path: seq<Step>)
    requires !AtFlag(path, USER_FLAGS)
    ensures At(Obj(ForceLevel0(level0, online)), path) == At(Obj(level0), path)
  {
  }

  lemma SystemFrame(system: Fields, path: seq<Step>)
    requires !AtFlag(path, SYSTEM_FLAGS)
    ensures At(Obj(ForceSystem(system)), path) == At(Obj(system), path)
  {
  }

  lemma LevelsFrame(levels: Json, online: bool, path: seq<Step>)
    requires path != [] && (Below(path, "0") ==> !AtFlag(path[1..], USER_FLAGS))
    ensures var fields := EnsureObj(levels);
      At(Obj(fields["0" := Obj(ForceLevel0(EnsureObj(Field(fields, "0")), online))]), path)
      == Kept(levels, path, DisplacedInLevels(levels, path))
  {
    var fields := EnsureObj(levels);
    if Below(path, "0") {
      Level0Frame(EnsureObj(Field(fields, "0")), online, path[1..]);
      EnsureObjFrame(Field(fields, "0"), path[1..]);
    }
  }

  lemma PolicyFrame(policy: Json, online: bool, path: seq<Step>)
    requires !WrittenInPolicy(path)
    ensures At(Obj(ForcePolicy(EnsureObj(policy), online)), path) == Kept(policy, path, DisplacedInPolicy(policy, path))
  {
    var fields := EnsureObj(policy);
    if Below(path, "levels") {
      assert path == [Key("levels")] + path[1..];
      LevelsFrame(Field(fields, "levels"), online, path[1..]);
    } else if Below(path, "system") {
      SystemFrame(EnsureObj(Field(fields, "system")), path[1..]);
      EnsureObjFrame(Field(fields, "system"), path[1..]);
    }
  }

  lemma InboundsFrame(items: seq<Json>, port: int, path: seq<Step>)
    requires !WrittenInInbounds(items, path)
    ensures At(Arr(WithPorts(items, port)), path) == At(Arr(items), path)
  {
    if path[0].Index? && path[0].index < |items| {
      var item := items[path[0].index];
      assert IsHysteria(item) ==> At(WithPort(item, port), path[1..]) == At(item, path[1..]);
    }
  }

  /** Build is invisible at every path it does not write, except that what hung below a replaced
      non-map is gone. */
  lemma BuildFrame(builder: Builder, config: Fields, path: seq<Step>)
    requires Build(builder, config).Ok? && !Written(builder, config, path)
    ensures At(Obj(Build(builder, config).value), path) == Kept(Obj(config), path, Displaced(config, path))
  {
    var ported := ApplyListenPort(config, builder.hysteriaListenPort);
    if Below(path, "stats") {
      assert path == [Key("stats")] + path[1..];
      EnsureObjFrame(Field(ported, "stats"), path[1..]);
    } else if Below(path, "policy") {
      PolicyFrame(Field(ported, "policy"), builder.statsUserOnline, path[1..]);
      assert path[1..] != [];
    } else if Below(path, "inbounds") && builder.hysteriaListenPort > 0 && Field(config, "inbounds").Arr? {
      InboundsFrame(config["inbounds"].items, builder.hysteriaListenPort, path[1..]);
    }
  }

  /** The seven flags and the hysteria ports have the values Build promises. */
  lemma BuildForces(builder: Builder, config: Fields, flag: string)
    requires Build(builder, config).Ok?
    ensures flag in {"statsUserUplink", "statsUserDownlink", "statsUserOnline"} ==>
      At(Obj(Build(builder, config).value), [Key("policy"), Key("levels"), Key("0"), Key(flag)])
      == Some(Leaf(Bool(flag == "statsUserOnline" ==> builder.statsUserOnline)))
    ensures flag in {"statsInboundUplink", "statsInboundDownlink", "statsOutboundUplink", "statsOutboundDownlink"} ==>
      At(Obj(Build(builder, config).value), [Key("policy"), Key("system"), Key(flag)]) == Some(Leaf(Bool(true)))
    ensures forall i: nat | builder.hysteriaListenPort > 0 && Hysteria(config, i) ::
      At(Obj(Build(builder, config).value), [Key("inbounds"), Index(i), Key("port")])
      == Some(Leaf(Int(builder.hysteriaListenPort)))
  {
    var built := Obj(Build(builder, config).value);
    if flag in USER_FLAGS { UserFlagIsForced(builder, config, flag); }
    if flag in SYSTEM_FLAGS { SystemFlagIsForced(builder, config, flag); }
    forall i: nat | builder.hysteriaListenPort > 0 && Hysteria(config, i)
      ensures At(built, [Key("inbounds"), Index(i), Key("port")]) == Some(Leaf(Int(builder.hysteriaListenPort)))
    {
      PortIsForced(builder, config, i);
    }
  }

  lemma UserFlagIsForced(builder: Builder, config: Fields, flag: string)
    requires Build(builder, config).Ok? && flag in USER_FLAGS
    ensures At(Obj(Build(builder, config).value), [Key("policy"), Key("levels"), Key("0"), Key(flag)])
         == Some(Leaf(Bool(flag == "statsUserOnline" ==> builder.statsUserOnline)))
  {
    var built := Obj(Build(builder, config).value);
    var policy := Child(built, Key("policy")).value;
    AtThree(policy, Key("levels"), Key("0"), Key(flag));
    AtCons(built, Key("policy"), [Key("levels"), Key("0"), Key(flag)]);
    assert [Key("policy")] + [Key("levels"), Key("0"), Key(flag)] == [Key("policy"), Key("levels"), Key("0"), Key(flag)];
  }

  lemma SystemFlagIsForced(builder: Builder, config: Fields, flag: string)
    requires Build(builder, config).Ok? && flag in SYSTEM_FLAGS
    ensures At(Obj(Build(builder, config).value), [Key("policy"), Key("system"), Key(flag)]) == Some(Leaf(Bool(true)))
  {
    AtThree(Obj(Build(builder, config).value), Key("policy"), Key("system"), Key(flag));
  }

  lemma PortIsForced(builder: Builder, config: Fields, i: nat)
    requires Build(builder, config).Ok? && builder.hysteriaListenPort > 0 && Hysteria(config, i)
    ensures At(Obj(Build(builder, config).value), [Key("inbounds"), Index(i), Key("port")])
         == Some(Leaf(Int(builder.hysteriaListenPort)))
  {
    var built := Obj(Build(builder, config).value);
    AtThree(built, Key("inbounds"), Index(i), Key("port"));
    assert Child(built, Key("inbounds")) == Some(Arr(WithPorts(config["inbounds"].items, builder.hysteriaListenPort)));
  }

  /** Whatever is in the inbounds, Build gives the port to exactly those whose protocol is the
      string "hysteria", and only if the port is positive; every other inbound keeps its own. */
  lemma PortsExactly(builder: Builder, config: Fields, i: nat)
    requires Build(builder, config).Ok?
    ensures At(Obj(Build(builder, config).value), [Key("inbounds"), Index(i), Key("port")])
         == if builder.hysteriaListenPort > 0
               && At(Obj(config), [Key("inbounds"), Index(i), Key("protocol")]) == Some(Leaf(Str("hysteria")))
            then Some(Leaf(Int(builder.hysteriaListenPort)))
            else At(Obj(config), [Key("inbounds"), Index(i), Key("port")])
  {
    var built, port := Obj(Build(builder, config).value), builder.hysteriaListenPort;
    AtThree(built, Key("inbounds"), Index(i), Key("port"));
    AtThree(Obj(config), Key("inbounds"), Index(i), Key("port"));
    AtThree(Obj(config), Key("inbounds"), Index(i), Key("protocol"));
    BuiltInbounds(builder, config);
  }

  lemma BuiltInbounds(builder: Builder, config: Fields)
    requires Build(builder, config).Ok?
    ensures Child(Obj(Build(builder, config).value), Key("inbounds"))
         == if builder.hysteriaListenPort > 0 && Field(config, "inbounds").Arr?
            then Some(Arr(WithPorts(config["inbounds"].items, builder.hysteriaListenPort)))
            else Child(Obj(config), Key("inbounds"))
  {
  }

  predicate Hysteria(config: Fields, i: nat) {
    var inbounds := Field(config, "inbounds");
    inbounds.Arr? && i < |inbounds.items| && IsHysteria(inbounds.items[i])
  }

  // ---- two builds in a row ------------------------------------------------------------------

  /** Every hysteria inbound already listens on `port`. */
  ghost predicate AlreadyOn(config: Fields, port: int) {
    forall i: nat | Hysteria(config, i) :: Field(config["inbounds"].items[i].fields, "port") == Leaf(Int(port))
  }

  lemma ForcesOnce(config: Fields, online: bool, online': bool)
    ensures ForceStats(ForceStats(config, online), online') == ForceStats(config, online')
  {
    var once := ForceStats(config, online);
    var policy := EnsureObj(Field(config, "policy"));
    var forced := ForcePolicy(policy, online);
    assert once["policy"] == Obj(forced) && once["stats"].Obj?;
    PolicyForcesOnce(policy, online, online');
  }

  lemma PolicyForcesOnce(policy: Fields, online: bool, online': bool)
    ensures ForcePolicy(ForcePolicy(policy, online), online') == ForcePolicy(policy, online')
  {
    var once := ForcePolicy(policy, online);
    var levels := EnsureObj(Field(policy, "levels"));
    var level0 := EnsureObj(Field(levels, "0"));
    var level0' := ForceLevel0(level0, online);
    assert once["levels"] == Obj(levels["0" := Obj(level0')]);
    Level0ForcesOnce(level0, online, online');
    var forced := Obj(ForceLevel0(level0, online'));
    assert levels["0" := Obj(level0')]["0" := forced] == levels["0" := forced];
    var system := EnsureObj(Field(policy, "system"));
    assert once["system"] == Obj(ForceSystem(system));
    SystemForcesOnce(system);
  }

  lemma Level0ForcesOnce(level0: Fields, online: bool, online': bool)
    ensures ForceLevel0(ForceLevel0(level0, online), online') == ForceLevel0(level0, online')
  {
  }

  lemma SystemForcesOnce(system: Fields)
    ensures ForceSystem(ForceSystem(system)) == ForceSystem(system)
  {
  }

  lemma PortsCommute(config: Fields, online: bool, port: int)
    ensures ApplyListenPort(ForceStats(config, online), port) == ForceStats(ApplyListenPort(config, port), online)
  {
    var ported := ApplyListenPort(config, port);
    assert Field(ported, "stats") == Field(config, "stats") && Field(ported, "policy") == Field(config, "policy");
    assert Field(ForceStats(config, online), "inbounds") == Field(config, "inbounds");
  }

  lemma PortsOverwrite(config: Fields, port: int, port': int)
    requires port' > 0
    ensures ApplyListenPort(ApplyListenPort(config, port), port') == ApplyListenPort(config, port')
  {
    if port > 0 && Field(config, "inbounds").Arr? {
      var items := config["inbounds"].items;
      forall i | 0 <= i < |items| ensures WithPort(WithPort(items[i], port), port') == WithPort(items[i], port') {
        var fields := if items[i].Obj? then items[i].fields else map[];
        assert fields["port" := Leaf(Int(port))]["port" := Leaf(Int(port'))] == fields["port" := Leaf(Int(port'))];
      }
      assert WithPorts(WithPorts(items, port), port') == WithPorts(items, port');
    }
  }

  lemma PortsUnchangedExactly(config: Fields, port: int)
    ensures ApplyListenPort(config, port) == config <==> port <= 0 || AlreadyOn(config, port)
  {
    if port > 0 && Field(config, "inbounds").Arr? {
      var items := config["inbounds"].items;
      if AlreadyOn(config, port) {
        forall i: nat | i < |items| ensures WithPort(items[i], port) == items[i] {
          assert Hysteria(config, i) <==> IsHysteria(items[i]);
          if IsHysteria(items[i]) {
            assert Field(items[i].fields, "port") == Leaf(Int(port));
            assert items[i].fields["port" := Leaf(Int(port))] == items[i].fields;
          }
        }
        assert WithPorts(items, port) == items;
      } else {
        var i: nat :| Hysteria(config, i) && Field(items[i].fields, "port") != Leaf(Int(port));
        assert WithPorts(items, port)[i] == WithPort(items[i], port) != items[i];
      }
    }
  }

  lemma TagsSurvive(config: Fields, port: int, online: bool, tag: string)
    ensures HasTag(ForceStats(ApplyListenPort(config, port), online), tag) == HasTag(config, tag)
  {
    var built := ForceStats(ApplyListenPort(config, port), online);
    assert Field(built, "outbounds") == Field(config, "outbounds");
    if port > 0 && Field(config, "inbounds").Arr? {
      var items := config["inbounds"].items;
      assert Field(built, "inbounds") == Arr(WithPorts(items, port));
      assert forall i :: 0 <= i < |items| ==> WithPorts(items, port)[i] == WithPort(items[i], port);
      assert forall i :: 0 <= i < |items| ==> CarriesTag(WithPort(items[i], port), tag) == CarriesTag(items[i], tag);
    } else {
      assert Field(built, "inbounds") == Field(config, "inbounds");
    }
  }

  lemma StatsForgotten(config: Fields, config': Fields, online: bool)
    requires Field(config, "inbounds") != Field(config', "inbounds")
    ensures ForceStats(config, online) != ForceStats(config', online)
  {
    assert Field(ForceStats(config, online), "inbounds") == Field(config, "inbounds");
    assert Field(ForceStats(config', online), "inbounds") == Field(config', "inbounds");
  }

  /** A second build forgets the first one exactly if it sets the port itself, or the first did
      not set it, or setting it changed nothing. */
  lemma BuildAbsorbs(first: Builder, second: Builder, config: Fields)
    requires Build(first, config).Ok?
    ensures Build(second, Build(first, config).value) == Build(second, config) <==>
      second.hysteriaListenPort > 0 || first.hysteriaListenPort <= 0 || AlreadyOn(config, first.hysteriaListenPort)
  {
    var p1, p2 := first.hysteriaListenPort, second.hysteriaListenPort;
    var o1, o2 := first.statsUserOnline, second.statsUserOnline;
    TagsSurvive(config, p1, o1, API_TAG);
    TagsSurvive(config, p1, o1, API_INBOUND_TAG);
    var ported := ApplyListenPort(config, p1);
    PortsCommute(ported, o1, p2);
    ForcesOnce(ApplyListenPort(ported, p2), o1, o2);
    PortsUnchangedExactly(config, p1);
    if p2 > 0 {
      PortsOverwrite(config, p1, p2);
    } else if ported != config {
      assert ported == config["inbounds" := Field(ported, "inbounds")];
      assert config["inbounds" := Field(config, "inbounds")] == config;
      StatsForgotten(ported, config, o2);
    }
  }

  /** Building the same configuration again changes nothing. */
  lemma BuildIsIdempotent(builder: Builder, config: Fields)
    requires Build(builder, config).Ok?
    ensures Build(builder, Build(builder, config).value) == Build(builder, config)
  {
    BuildAbsorbs(builder, builder, config);
  }
}
