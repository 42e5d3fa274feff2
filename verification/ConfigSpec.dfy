/** What ConfigBuilder.Build computes, as a function from JSON trees to JSON trees. */
module ConfigSpec {
  import opened Wrappers
  import opened JsonTree

  const API_TAG := "REMNAWAVE_API"
  const API_INBOUND_TAG := "REMNAWAVE_API_INBOUND"

  datatype Builder = Builder(statsUserOnline: bool, hysteriaListenPort: int)

  datatype BuildError = ApiTagConflict | ApiInboundTagConflict

  function EnsureObj(json: Json): Fields {
    if json.Obj? then json.fields else map[]
  }

  predicate CarriesTag(item: Json, tag: string) {
    item.Obj? && IsStr(Field(item.fields, "tag"), tag)
  }

  predicate SectionHasTag(section: Json, tag: string) {
    section.Arr? && exists i :: 0 <= i < |section.items| && CarriesTag(section.items[i], tag)
  }

  predicate HasTag(config: Fields, tag: string) {
    SectionHasTag(Field(config, "inbounds"), tag) || SectionHasTag(Field(config, "outbounds"), tag)
  }

  predicate IsHysteria(item: Json) {
    item.Obj? && IsStr(Field(item.fields, "protocol"), "hysteria")
  }

  function WithPort(item: Json, port: int): Json {
    if IsHysteria(item) then Obj(item.fields["port" := Leaf(Int(port))]) else item
  }

  function WithPorts(items: seq<Json>, port: int): (r: seq<Json>)
    ensures |r| == |items|
  {
    seq(|items|, i requires 0 <= i < |items| => WithPort(items[i], port))
  }

  function ApplyListenPort(config: Fields, port: int): Fields {
    if port <= 0 || !Field(config, "inbounds").Arr? then config
    else config["inbounds" := Arr(WithPorts(config["inbounds"].items, port))]
  }

  function ForceLevel0(level0: Fields, online: bool): Fields {
    level0["statsUserUplink" := Leaf(Bool(true))]
          ["statsUserDownlink" := Leaf(Bool(true))]
          ["statsUserOnline" := Leaf(Bool(online))]
  }

  function ForceSystem(system: Fields): Fields {
    system["statsInboundDownlink" := Leaf(Bool(true))]
          ["statsInboundUplink" := Leaf(Bool(true))]
          ["statsOutboundDownlink" := Leaf(Bool(true))]
          ["statsOutboundUplink" := Leaf(Bool(true))]
  }

  function ForcePolicy(policy: Fields, online: bool): Fields {
    var levels := EnsureObj(Field(policy, "levels"));
    var level0 := ForceLevel0(EnsureObj(Field(levels, "0")), online);
    var withLevels := policy["levels" := Obj(levels["0" := Obj(level0)])];
    withLevels["system" := Obj(ForceSystem(EnsureObj(Field(withLevels, "system"))))]
  }

  function ForceStats(config: Fields, online: bool): Fields {
    var withStats := config["stats" := Obj(EnsureObj(Field(config, "stats")))];
    withStats["policy" := Obj(ForcePolicy(EnsureObj(Field(withStats, "policy")), online))]
  }

  function Build(builder: Builder, panel: Fields): Result<Fields, BuildError> {
    if HasTag(panel, API_TAG) then Err(ApiTagConflict)
    else if HasTag(panel, API_INBOUND_TAG) then Err(ApiInboundTagConflict)
    else Ok(ForceStats(ApplyListenPort(panel, builder.hysteriaListenPort), builder.statsUserOnline))
  }
}
