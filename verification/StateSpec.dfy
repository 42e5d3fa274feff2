/** The values RuntimeState holds and what each of its lock regions does to them. */
module StateSpec {
  import opened Wrappers
  import opened JsonTree

  datatype InboundHash = InboundHash(usersCount: int, hash: string, tag: string)

  datatype Hashes = Hashes(emptyConfig: string, inbounds: seq<InboundHash>)

  /** The contents of RuntimeState. `config` is None for a nil map. */
  datatype Cache = Cache(
    running: bool,
    statusCached: bool,
    version: Option<string>,
    config: Option<Fields>,
    hashes: Hashes,
    hasHashes: bool,
    users: map<string, set<string>>,
    known: set<string>,
    protocols: map<string, string>)

  const INITIAL := Cache(false, false, None, Some(map[]), Hashes("", []), false, map[], {}, map[])

  /** Equal base hash and equal inbound lists up to order. */
  ghost predicate SameHashes(a: Hashes, b: Hashes) {
    a.emptyConfig == b.emptyConfig && multiset(a.inbounds) == multiset(b.inbounds)
  }

  ghost predicate UpToDate(cache: Cache, force: bool, hashes: Hashes, coreRunning: bool) {
    !force && coreRunning && cache.hasHashes && SameHashes(cache.hashes, hashes)
  }

  function SetRunning(cache: Cache, running: bool): Cache {
    cache.(running := running, statusCached := running && cache.statusCached)
  }

  function SetStatusCached(cache: Cache, cached: bool): Cache {
    cache.(statusCached := cached, running := cached && cache.running)
  }

  function TagsOf(inbounds: seq<InboundHash>): set<string> {
    set i | 0 <= i < |inbounds| && inbounds[i].tag != "" :: inbounds[i].tag
  }

  function SetStarted(cache: Cache, version: Option<string>, config: Option<Fields>, hashes: Hashes): Cache {
    Cache(true, true, version, config, hashes, true, map[], TagsOf(hashes.inbounds), map[])
  }

  /** Tags with a non-empty protocol among the first `n` inbounds; a later inbound with the same tag wins. */
  function ProtocolsOf(inbounds: seq<Json>, n: nat): map<string, string>
    requires n <= |inbounds|
  {
    if n == 0 then map[] else WithProtocol(ProtocolsOf(inbounds, n - 1), inbounds[n - 1])
  }

  function WithProtocol(protocols: map<string, string>, inbound: Json): map<string, string> {
    if inbound.Obj? then
      var tag := Text(Field(inbound.fields, "tag"));
      var protocol := Text(Field(inbound.fields, "protocol"));
      if tag == "" || protocol == "" then protocols else protocols[tag := protocol]
    else protocols
  }

  /** A failed string assertion yields the empty string. */
  function Text(json: Json): string {
    if json.Leaf? && json.scalar.Str? then json.scalar.s else ""
  }

  function ConfigProtocols(config: Fields): map<string, string> {
    var inbounds := Field(config, "inbounds");
    if inbounds.Arr? then ProtocolsOf(inbounds.items, |inbounds.items|) else map[]
  }

  /** Item `i` of the list is an object with this tag and this protocol, both strings. */
  predicate NamesProtocol(inbounds: Json, i: nat, tag: string, protocol: string) {
    && inbounds.Arr? && i < |inbounds.items| && inbounds.items[i].Obj?
    && Field(inbounds.items[i].fields, "tag") == Leaf(Str(tag))
    && Field(inbounds.items[i].fields, "protocol") == Leaf(Str(protocol))
  }

  /** And no later item of the first `n` has that tag with a protocol. */
  ghost predicate LastNames(inbounds: Json, n: nat, i: nat, tag: string, protocol: string) {
    && i < n && NamesProtocol(inbounds, i, tag, protocol)
    && forall j: nat, other: string | i < j < n && other != "" :: !NamesProtocol(inbounds, j, tag, other)
  }

  lemma {:induction false} ProtocolsOfExactly(inbounds: Json, n: nat, tag: string, protocol: string)
    requires inbounds.Arr? && n <= |inbounds.items| && tag != "" && protocol != ""
    ensures tag in ProtocolsOf(inbounds.items, n) && ProtocolsOf(inbounds.items, n)[tag] == protocol <==>
      exists i: nat :: LastNames(inbounds, n, i, tag, protocol)
  {
    if n > 0 {
      var m := n - 1;
      ProtocolsOfExactly(inbounds, m, tag, protocol);
      var item := inbounds.items[m];
      var last := if item.Obj? then Text(Field(item.fields, "protocol")) else "";
      if last != "" && NamesProtocol(inbounds, m, tag, last) {
        assert last == protocol ==> LastNames(inbounds, n, m, tag, protocol);
      } else {
        NothingNamed(inbounds, m, n, tag, protocol);
      }
    }
  }

  lemma NothingNamed(inbounds: Json, m: nat, n: nat, tag: string, protocol: string)
    requires n == m + 1 && protocol != "" && forall other: string | other != "" :: !NamesProtocol(inbounds, m, tag, other)
    ensures (exists i: nat :: LastNames(inbounds, n, i, tag, protocol)) <==>
      (exists i: nat :: LastNames(inbounds, m, i, tag, protocol))
  {
    forall i: nat ensures LastNames(inbounds, n, i, tag, protocol) <==> LastNames(inbounds, m, i, tag, protocol) {}
  }

  /** Item `i` is the last of the list with this tag and a protocol, and this is the protocol. */
  ghost predicate LastOfAllNames(inbounds: Json, i: nat, tag: string, protocol: string) {
    && NamesProtocol(inbounds, i, tag, protocol)
    && forall j: nat, other: string | i < j && other != "" :: !NamesProtocol(inbounds, j, tag, other)
  }

  /** The protocol of a tag is that of the last item of `inbounds` that has the tag and a protocol;
      empty strings and anything malformed do not count. */
  lemma ConfigProtocolsExactly(config: Fields, tag: string, protocol: string)
    ensures tag in ConfigProtocols(config) && ConfigProtocols(config)[tag] == protocol <==>
      tag != "" && protocol != "" && exists i: nat :: LastOfAllNames(Field(config, "inbounds"), i, tag, protocol)
  {
    var inbounds := Field(config, "inbounds");
    if inbounds.Arr? {
      var n := |inbounds.items|;
      ProtocolsAreNamed(inbounds.items, n, tag);
      if tag != "" && protocol != "" {
        ProtocolsOfExactly(inbounds, n, tag, protocol);
        forall i: nat ensures LastNames(inbounds, n, i, tag, protocol) <==> LastOfAllNames(inbounds, i, tag, protocol) {}
      }
    }
  }

  lemma {:induction false} ProtocolsAreNamed(inbounds: seq<Json>, n: nat, tag: string)
    requires n <= |inbounds|
    ensures tag in ProtocolsOf(inbounds, n) ==> tag != "" && ProtocolsOf(inbounds, n)[tag] != ""
  {
    if n > 0 { ProtocolsAreNamed(inbounds, n - 1, tag); }
  }

  /** A tag has a protocol exactly if some item has it with one. */
  lemma ConfigProtocolsKnow(config: Fields, tag: string)
    ensures tag in ConfigProtocols(config) <==>
      && tag != ""
      && exists i: nat, protocol: string | protocol != "" ::
           NamesProtocol(Field(config, "inbounds"), i, tag, protocol)
  {
    var inbounds := Field(config, "inbounds");
    if inbounds.Arr? { ProtocolsOfKnow(inbounds, |inbounds.items|, tag); }
  }

  lemma {:induction false} ProtocolsOfKnow(inbounds: Json, n: nat, tag: string)
    requires inbounds.Arr? && n <= |inbounds.items|
    ensures tag in ProtocolsOf(inbounds.items, n) <==>
      tag != "" && exists i: nat, protocol: string | i < n && protocol != "" :: NamesProtocol(inbounds, i, tag, protocol)
  {
    if n > 0 {
      ProtocolsOfKnow(inbounds, n - 1, tag);
      var item := inbounds.items[n - 1];
      if item.Obj? && Text(Field(item.fields, "protocol")) != "" && Text(Field(item.fields, "tag")) == tag != "" {
        assert NamesProtocol(inbounds, n - 1, tag, Text(Field(item.fields, "protocol")));
      }
    }
  }

  function RecordProtocols(cache: Cache, protocols: map<string, string>): Cache {
    cache.(known := cache.known + protocols.Keys, protocols := cache.protocols + protocols)
  }

  // ---- inbound and user tracking ----------------------------------------------------------

  function AddKnownTag(cache: Cache, tag: string): Cache {
    if tag == "" then cache else cache.(known := cache.known + {tag})
  }

  function NonEmpty(tags: seq<string>): set<string> {
    set i | 0 <= i < |tags| && tags[i] != "" :: tags[i]
  }

  function Learn(cache: Cache, tags: set<string>): Cache {
    cache.(known := cache.known + tags)
  }

  lemma LearnTwice(cache: Cache, a: set<string>, b: set<string>)
    ensures Learn(Learn(cache, a), b) == Learn(cache, a + b)
  {
    assert cache.known + a + b == cache.known + (a + b);
  }

  function SetProtocol(cache: Cache, tag: string, protocol: string): Cache {
    if tag == "" || protocol == "" then cache
    else cache.(known := cache.known + {tag}, protocols := cache.protocols[tag := protocol])
  }

  /** The user hashes tracked for an inbound; none for an unknown one. */
  function UsersAt(cache: Cache, tag: string): set<string> {
    if tag in cache.users then cache.users[tag] else {}
  }

  function AddUser(cache: Cache, tag: string, hash: string): Cache {
    if tag == "" || hash == "" then cache
    else cache.(users := cache.users[tag := UsersAt(cache, tag) + {hash}], known := cache.known + {tag})
  }

  function RemoveUser(cache: Cache, tag: string, hash: string): Cache {
    if tag == "" || hash == "" || tag !in cache.users then cache
    else cache.(users := cache.users[tag := cache.users[tag] - {hash}])
  }

  /** What every reachable state satisfies: only known inbounds have users or a protocol, and
      neither an empty tag nor an empty hash is ever recorded. */
  ghost predicate Tracked(cache: Cache) {
    && cache.users.Keys <= cache.known
    && cache.protocols.Keys <= cache.known
    && "" !in cache.known
    && forall tag | tag in cache.users :: "" !in cache.users[tag]
  }

  /** Tracking a hash at one inbound makes it known and changes no other. */
  lemma AddUserExactly(cache: Cache, tag: string, hash: string, at: string)
    ensures var after := AddUser(cache, tag, hash);
      && UsersAt(after, at) == UsersAt(cache, at) + (if at == tag && tag != "" && hash != "" then {hash} else {})
      && after.known == cache.known + (if tag != "" && hash != "" then {tag} else {})
  {
  }

  lemma RemoveUserExactly(cache: Cache, tag: string, hash: string, at: string)
    ensures var after := RemoveUser(cache, tag, hash);
      && UsersAt(after, at) == UsersAt(cache, at) - (if at == tag && tag != "" && hash != "" then {hash} else {})
      && after.known == cache.known
  {
  }

  lemma AddingKeepsTracked(cache: Cache, tag: string, hash: string)
    requires Tracked(cache)
    ensures Tracked(AddUser(cache, tag, hash))
  {
  }

  lemma ProtocolsHaveTags(inbounds: seq<Json>, n: nat)
    requires n <= |inbounds|
    ensures "" !in ProtocolsOf(inbounds, n)
  {
  }
}
