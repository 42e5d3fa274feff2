/** Which user hash is tracked for which inbound, over any series of handler requests. */
module Users {
  import opened Wrappers
  import opened JsonTree
  import opened StateSpec
  import opened Survival

  datatype Item = Item(tag: string, kind: string, username: string)

  datatype Error = BadRequest | CoreDown | Refused(text: string) | OperationFailed

  /** The calls to the client that fail, by position, and how. */
  type Verdicts = map<nat, Error>

  /** The inbound loop drops a hash from each of the tags. */
  function ForgetAt(cache: Cache, tags: set<string>, hash: string): Cache {
    cache.(users := map tag | tag in cache.users :: if tag in tags then cache.users[tag] - {hash} else cache.users[tag])
  }

  function Admit(cache: Cache, tags: set<string>, hash: string): Cache {
    if hash == "" then cache
    else cache.(users := map tag | tag in cache.users.Keys + tags ::
                           UsersAt(cache, tag) + if tag in tags then {hash} else {},
                known := cache.known + tags)
  }

  function TagsIn(items: seq<Item>): set<string> {
    set i | 0 <= i < |items| && items[i].tag != "" :: items[i].tag
  }

  /** The inbounds at which the client accepted one of the first `n` items. */
  function Admitted(items: seq<Item>, n: nat, verdicts: Verdicts): (tags: set<string>)
    requires n <= |items|
    ensures tags <= TagsIn(items)
  {
    if n == 0 then {}
    else Admitted(items, n - 1, verdicts)
         + if n - 1 in verdicts || items[n - 1].tag == "" then {} else {items[n - 1].tag}
  }

  lemma {:induction false} AdmittedExactly(items: seq<Item>, n: nat, verdicts: Verdicts, tag: string)
    requires n <= |items|
    ensures tag in Admitted(items, n, verdicts) <==>
      tag != "" && exists i | 0 <= i < n :: i !in verdicts && items[i].tag == tag
  {
    if n > 0 { AdmittedExactly(items, n - 1, verdicts, tag); }
  }

  /** SetInboundProtocol for each item in turn. */
  function Kinds(protocols: map<string, string>, items: seq<Item>): map<string, string> {
    if items == [] then protocols
    else Recorded(Kinds(protocols, items[..|items| - 1]), items[|items| - 1])
  }

  function Recorded(protocols: map<string, string>, item: Item): map<string, string> {
    if item.tag == "" || item.kind == "" then protocols else protocols[item.tag := item.kind]
  }

  function Register(cache: Cache, items: seq<Item>): Cache {
    Learn(cache, TagsIn(items)).(protocols := Kinds(cache.protocols, items))
  }

  /** One removal loop over the known inbounds and the additions after it. */
  datatype Swap = Swap(removed: string, added: string, tags: set<string>)

  function DoSwap(cache: Cache, swap: Swap): Cache {
    Admit(ForgetAt(cache, cache.known, swap.removed), swap.tags, swap.added)
  }

  predicate WellFormed(swap: Swap) {
    "" !in swap.tags
  }

  /** One swap leaves each inbound with (old minus removed) plus the new hash where admitted. */
  lemma SwapAt(cache: Cache, swap: Swap, tag: string)
    requires Tracked(cache)
    ensures UsersAt(DoSwap(cache, swap), tag)
         == UsersAt(cache, tag) - {swap.removed} + if tag in swap.tags && swap.added != "" then {swap.added} else {}
  {
  }

  lemma SwapKeepsTracked(cache: Cache, swap: Swap)
    requires Tracked(cache) && WellFormed(swap)
    ensures Tracked(DoSwap(cache, swap))
  {
  }

  // ---- AddUser ------------------------------------------------------------------------------

  datatype AddUserRequest = AddUserRequest(data: seq<Item>, uuid: string, previous: Option<string>)

  /** A request with what the core does meanwhile. */
  datatype Call = Call(request: AddUserRequest, clientUp: bool, verdicts: Verdicts)

  /** The previous hash if there is one, else the hash itself. */
  function RemoveHash(request: AddUserRequest): string {
    if request.previous.Some? && request.previous.value != "" then request.previous.value else request.uuid
  }

  /** The request gets as far as its removal loop. */
  predicate Reached(call: Call) {
    call.request.data != [] && call.clientUp
  }

  function Accepted(call: Call): set<string> {
    Admitted(call.request.data, |call.request.data|, call.verdicts)
  }

  function ToSwap(call: Call): Swap {
    Swap(RemoveHash(call.request), call.request.uuid, Accepted(call))
  }

  /** The inbounds of a request are known from then on even if the core turns out to be down. */
  function AddUser(cache: Cache, call: Call): Cache {
    var registered := Register(cache, call.request.data);
    if Reached(call) then DoSwap(registered, ToSwap(call)) else registered
  }

  lemma {:induction false} KindsHaveTags(protocols: map<string, string>, items: seq<Item>)
    ensures Kinds(protocols, items).Keys <= protocols.Keys + TagsIn(items)
  {
    if items != [] { KindsHaveTags(protocols, items[..|items| - 1]); }
  }

  lemma AddUserKeepsTracked(cache: Cache, call: Call)
    requires Tracked(cache)
    ensures Tracked(AddUser(cache, call))
  {
    var data := call.request.data;
    KindsHaveTags(cache.protocols, data);
    SwapKeepsTracked(Register(cache, data), ToSwap(call));
  }

  /** Once the removal loop is reached, each inbound is left with (old minus the removed hash)
      plus the new hash exactly where the client accepted it. */
  lemma AddUserAt(cache: Cache, call: Call, tag: string)
    requires Tracked(cache)
    ensures UsersAt(AddUser(cache, call), tag)
         == if Reached(call) then
              UsersAt(cache, tag) - {RemoveHash(call.request)}
                + if tag in Accepted(call) && call.request.uuid != "" then {call.request.uuid} else {}
            else UsersAt(cache, tag)
  {
    var data := call.request.data;
    KindsHaveTags(cache.protocols, data);
    SwapAt(Register(cache, data), ToSwap(call), tag);
  }

  // ---- AddUsers -----------------------------------------------------------------------------

  datatype BulkUser = BulkUser(userId: string, hashUuid: string, vlessUuid: string, items: seq<Item>)

  datatype AddUsersRequest = AddUsersRequest(affected: seq<string>, users: seq<BulkUser>)

  /** The failing calls, user by user. */
  type BulkVerdicts = seq<Verdicts>

  function Row(verdicts: BulkVerdicts, u: nat): Verdicts {
    if u < |verdicts| then verdicts[u] else map[]
  }

  /** Every tag the first `n` users of a bulk request name. */
  function ItemTags(users: seq<BulkUser>, n: nat): (tags: set<string>)
    requires n <= |users|
    ensures "" !in tags && forall i | 0 <= i < n :: TagsIn(users[i].items) <= tags
  {
    if n == 0 then {} else ItemTags(users, n - 1) + TagsIn(users[n - 1].items)
  }

  function BulkTags(request: AddUsersRequest): set<string> {
    NonEmpty(request.affected) + ItemTags(request.users, |request.users|)
  }

  function BulkSwap(user: BulkUser, verdicts: Verdicts): Swap {
    Swap(user.hashUuid, user.vlessUuid, Admitted(user.items, |user.items|, verdicts))
  }

  /** One user of a bulk request: a swap, and the protocols of the items. */
  function AddBulkUser(cache: Cache, user: BulkUser, verdicts: Verdicts): Cache {
    DoSwap(cache, BulkSwap(user, verdicts)).(protocols := Kinds(cache.protocols, user.items))
  }

  function BulkStep(cache: Cache, users: seq<BulkUser>, n: nat, verdicts: BulkVerdicts): Cache
    requires n <= |users|
  {
    if n == 0 then cache
    else AddBulkUser(BulkStep(cache, users, n - 1, verdicts), users[n - 1], Row(verdicts, n - 1))
  }

  function AddUsers(cache: Cache, request: AddUsersRequest, clientUp: bool, verdicts: BulkVerdicts): Cache {
    var known := Learn(cache, BulkTags(request));
    if clientUp then BulkStep(known, request.users, |request.users|, verdicts) else known
  }

  /** One user of a bulk request may drop a hash, and then bring it to an inbound. */
  function UserMark(user: BulkUser, verdicts: Verdicts, tag: string, hash: string): Mark {
    Mark(user.vlessUuid == hash && tag in Admitted(user.items, |user.items|, verdicts), user.hashUuid == hash)
  }

  function UserMarks(users: seq<BulkUser>, n: nat, verdicts: BulkVerdicts, tag: string, hash: string): seq<Mark>
    requires n <= |users|
  {
    seq(n, u requires 0 <= u < n => UserMark(users[u], Row(verdicts, u), tag, hash))
  }

  lemma AddBulkUserAt(cache: Cache, user: BulkUser, verdicts: Verdicts, tag: string, hash: string)
    requires Tracked(cache) && hash != ""
    ensures var mark := UserMark(user, verdicts, tag, hash);
      hash in UsersAt(AddBulkUser(cache, user, verdicts), tag) <==>
        mark.brings || (hash in UsersAt(cache, tag) && !mark.drops)
  {
    SwapAt(cache, BulkSwap(user, verdicts), tag);
  }

  lemma AddBulkUserKeepsTracked(cache: Cache, user: BulkUser, verdicts: Verdicts)
    requires Tracked(cache) && TagsIn(user.items) <= cache.known
    ensures Tracked(AddBulkUser(cache, user, verdicts)) && cache.known <= AddBulkUser(cache, user, verdicts).known
  {
    SwapKeepsTracked(cache, BulkSwap(user, verdicts));
    KindsHaveTags(cache.protocols, user.items);
  }

  lemma {:induction false} BulkStepKeepsTracked(cache: Cache, users: seq<BulkUser>, n: nat, verdicts: BulkVerdicts)
    requires Tracked(cache) && n <= |users| && ItemTags(users, |users|) <= cache.known
    ensures var after := BulkStep(cache, users, n, verdicts); Tracked(after) && cache.known <= after.known
  {
    if n > 0 {
      BulkStepKeepsTracked(cache, users, n - 1, verdicts);
      AddBulkUserKeepsTracked(BulkStep(cache, users, n - 1, verdicts), users[n - 1], Row(verdicts, n - 1));
    }
  }

  lemma BulkStepTracks(cache: Cache, users: seq<BulkUser>, n: nat, verdicts: BulkVerdicts, tag: string, hash: string)
    requires Tracked(cache) && hash != "" && n <= |users| && ItemTags(users, |users|) <= cache.known
    ensures hash in UsersAt(BulkStep(cache, users, n, verdicts), tag) <==>
      Present(hash in UsersAt(cache, tag), UserMarks(users, n, verdicts, tag, hash))
  {
    var marks := UserMarks(users, n, verdicts, tag, hash);
    var there := seq(n + 1, i requires 0 <= i <= n => ThereAfter(cache, users, i, verdicts, tag, hash));
    forall u | 0 <= u < n ensures there[u + 1] == Survives(there[u], marks[u]) {
      OneMoreUserTracks(cache, users, u, verdicts, tag, hash);
    }
    PresentFollows(there, marks);
  }

  predicate ThereAfter(cache: Cache, users: seq<BulkUser>, n: nat, verdicts: BulkVerdicts, tag: string, hash: string)
    requires n <= |users|
  {
    hash in UsersAt(BulkStep(cache, users, n, verdicts), tag)
  }

  lemma OneMoreUserTracks(cache: Cache, users: seq<BulkUser>, u: nat, verdicts: BulkVerdicts, tag: string, hash: string)
    requires Tracked(cache) && hash != "" && u < |users| && ItemTags(users, |users|) <= cache.known
    ensures ThereAfter(cache, users, u + 1, verdicts, tag, hash) <==>
      Survives(ThereAfter(cache, users, u, verdicts, tag, hash), UserMark(users[u], Row(verdicts, u), tag, hash))
  {
    BulkStepKeepsTracked(cache, users, u, verdicts);
    AddBulkUserAt(BulkStep(cache, users, u, verdicts), users[u], Row(verdicts, u), tag, hash);
  }

  /** User `u` of a bulk request is the last to have brought `hash` to `tag`: no later one drops it. */
  ghost predicate BringsLast(users: seq<BulkUser>, verdicts: BulkVerdicts, u: nat, tag: string, hash: string) {
    && u < |users| && users[u].vlessUuid == hash && tag in Admitted(users[u].items, |users[u].items|, Row(verdicts, u))
    && forall v | u < v < |users| :: users[v].hashUuid != hash
  }

  /** After a bulk request a hash is tracked at an inbound exactly if one of the users brought it
      there and no later one drops it, or it was there and no user drops it. */
  lemma AddUsersTracksExactly(cache: Cache, request: AddUsersRequest, verdicts: BulkVerdicts, tag: string, hash: string)
    requires Tracked(cache) && hash != ""
    ensures Tracked(AddUsers(cache, request, true, verdicts))
    ensures hash in UsersAt(AddUsers(cache, request, true, verdicts), tag) <==>
      (exists u: nat :: BringsLast(request.users, verdicts, u, tag, hash))
      || (hash in UsersAt(cache, tag) && forall u | 0 <= u < |request.users| :: request.users[u].hashUuid != hash)
  {
    var users := request.users;
    var known := Learn(cache, BulkTags(request));
    BulkStepTracks(known, users, |users|, verdicts, tag, hash);
    BulkStepKeepsTracked(known, users, |users|, verdicts);
    UserMarksMean(users, verdicts, tag, hash, hash in UsersAt(cache, tag));
  }

  lemma UserMarksMean(users: seq<BulkUser>, verdicts: BulkVerdicts, tag: string, hash: string, initially: bool)
    ensures Present(initially, UserMarks(users, |users|, verdicts, tag, hash)) <==>
      (exists u: nat :: BringsLast(users, verdicts, u, tag, hash))
      || (initially && forall u | 0 <= u < |users| :: users[u].hashUuid != hash)
  {
    var marks := UserMarks(users, |users|, verdicts, tag, hash);
    PresentExactly(initially, marks);
    assert forall v | 0 <= v < |users| :: marks[v].drops <==> users[v].hashUuid == hash;
    forall u: nat ensures BringsLast(users, verdicts, u, tag, hash) <==> BroughtBy(marks, u) {}
  }

  // ---- RemoveUsers --------------------------------------------------------------------------

  datatype RemovedUser = RemovedUser(userId: string, hashUuid: string)

  /** The removal loops for the first `n` users. */
  function ForgetUsers(cache: Cache, users: seq<RemovedUser>, n: nat): Cache
    requires n <= |users|
  {
    if n == 0 then cache
    else
      var before := ForgetUsers(cache, users, n - 1);
      ForgetAt(before, before.known, users[n - 1].hashUuid)
  }

  /** Removed users are tracked nowhere, whatever the core answered, and nobody else is affected. */
  lemma {:induction false} ForgottenEverywhere(cache: Cache, users: seq<RemovedUser>, n: nat, tag: string)
    requires Tracked(cache) && n <= |users|
    ensures UsersAt(ForgetUsers(cache, users, n), tag) == UsersAt(cache, tag) - set u | 0 <= u < n :: users[u].hashUuid
    ensures Tracked(ForgetUsers(cache, users, n))
  {
    if n > 0 {
      ForgottenEverywhere(cache, users, n - 1, tag);
      var before := ForgetUsers(cache, users, n - 1);
      SwapAt(before, Swap(users[n - 1].hashUuid, "", {}), tag);
      SwapKeepsTracked(before, Swap(users[n - 1].hashUuid, "", {}));
    }
  }

  // ---- any series of requests ---------------------------------------------------------------

  /** A handler request with what the core does meanwhile, or a successful restart, which forgets
      all users. */
  datatype Request =
    | Add(call: Call)
    | AddMany(bulk: AddUsersRequest, clientUp: bool, verdicts: BulkVerdicts)
    | Remove(users: seq<RemovedUser>, clientUp: bool)
    | Restart(version: Option<string>, config: Fields, hashes: Hashes)

  function Handle(cache: Cache, request: Request): Cache {
    match request
    case Add(call) => AddUser(cache, call)
    case AddMany(bulk, clientUp, verdicts) => AddUsers(cache, bulk, clientUp, verdicts)
    case Remove(users, clientUp) => if clientUp && cache.known != {} then ForgetUsers(cache, users, |users|) else cache
    case Restart(version, config, hashes) =>
      RecordProtocols(SetStarted(cache, version, Some(config), hashes), ConfigProtocols(config))
  }

  function HandleAll(cache: Cache, requests: seq<Request>): Cache {
    if requests == [] then cache else Handle(HandleAll(cache, requests[..|requests| - 1]), requests[|requests| - 1])
  }

  /** The request leaves the hash tracked at the inbound, wherever it was before. */
  ghost predicate Brings(request: Request, tag: string, hash: string) {
    match request
    case Add(call) => Reached(call) && call.request.uuid == hash && tag in Accepted(call)
    case AddMany(bulk, clientUp, verdicts) => clientUp && exists u: nat :: BringsLast(bulk.users, verdicts, u, tag, hash)
    case _ => false
  }

  /** The request drops the hash from every inbound. */
  ghost predicate Drops(request: Request, hash: string) {
    match request
    case Add(call) => Reached(call) && RemoveHash(call.request) == hash
    case AddMany(bulk, clientUp, _) => clientUp && exists u | 0 <= u < |bulk.users| :: bulk.users[u].hashUuid == hash
    case Remove(users, clientUp) => clientUp && exists u | 0 <= u < |users| :: users[u].hashUuid == hash
    case Restart(_, _, _) => true
  }

  ghost function MarkOf(request: Request, tag: string, hash: string): Mark {
    Mark(Brings(request, tag, hash), Drops(request, hash))
  }

  ghost function Marks(requests: seq<Request>, tag: string, hash: string): (marks: seq<Mark>)
    ensures |marks| == |requests| && forall i | 0 <= i < |requests| :: marks[i] == MarkOf(requests[i], tag, hash)
  {
    if requests == [] then []
    else Marks(requests[..|requests| - 1], tag, hash) + [MarkOf(requests[|requests| - 1], tag, hash)]
  }

  lemma AddTracks(cache: Cache, call: Call, tag: string, hash: string)
    requires Tracked(cache) && hash != ""
    ensures var mark := MarkOf(Add(call), tag, hash);
      hash in UsersAt(AddUser(cache, call), tag) <==> mark.brings || (hash in UsersAt(cache, tag) && !mark.drops)
  {
    AddUserAt(cache, call, tag);
  }

  lemma RemoveTracks(cache: Cache, users: seq<RemovedUser>, clientUp: bool, tag: string, hash: string)
    requires Tracked(cache)
    ensures Tracked(Handle(cache, Remove(users, clientUp)))
    ensures hash in UsersAt(Handle(cache, Remove(users, clientUp)), tag) <==>
      hash in UsersAt(cache, tag) && !Drops(Remove(users, clientUp), hash)
  {
    ForgottenEverywhere(cache, users, |users|, tag);
  }

  lemma RestartTracks(cache: Cache, version: Option<string>, config: Fields, hashes: Hashes, tag: string)
    ensures var after := Handle(cache, Restart(version, config, hashes)); Tracked(after) && UsersAt(after, tag) == {}
  {
    var inbounds := Field(config, "inbounds");
    if inbounds.Arr? { ProtocolsHaveTags(inbounds.items, |inbounds.items|); }
  }

  lemma HandleTracks(cache: Cache, request: Request, tag: string, hash: string)
    requires Tracked(cache) && hash != ""
    ensures Tracked(Handle(cache, request))
    ensures hash in UsersAt(Handle(cache, request), tag) <==>
      Brings(request, tag, hash) || (hash in UsersAt(cache, tag) && !Drops(request, hash))
  {
    match request
    case Add(call) =>
      AddUserKeepsTracked(cache, call);
      AddTracks(cache, call, tag, hash);
    case AddMany(bulk, clientUp, verdicts) =>
      if clientUp { AddUsersTracksExactly(cache, bulk, verdicts, tag, hash); }
    case Remove(users, clientUp) => RemoveTracks(cache, users, clientUp, tag, hash);
    case Restart(version, config, hashes) => RestartTracks(cache, version, config, hashes, tag);
  }

  lemma {:induction false} SeriesTracks(cache: Cache, requests: seq<Request>, tag: string, hash: string)
    requires Tracked(cache) && hash != ""
    ensures Tracked(HandleAll(cache, requests))
    ensures hash in UsersAt(HandleAll(cache, requests), tag) <==>
      Present(hash in UsersAt(cache, tag), Marks(requests, tag, hash))
  {
    if requests != [] {
      var n := |requests| - 1;
      SeriesTracks(cache, requests[..n], tag, hash);
      HandleTracks(HandleAll(cache, requests[..n]), requests[n], tag, hash);
      assert Marks(requests, tag, hash)[..n] == Marks(requests[..n], tag, hash);
    }
  }

  ghost predicate NoneDrops(requests: seq<Request>, from: nat, hash: string) {
    forall j | from <= j < |requests| :: !Drops(requests[j], hash)
  }

  ghost predicate LastBrought(requests: seq<Request>, i: nat, tag: string, hash: string) {
    i < |requests| && Brings(requests[i], tag, hash) && NoneDrops(requests, i + 1, hash)
  }

  /** After any series of requests a hash is tracked at an inbound exactly if some request brought
      it there and no later one dropped it, or it was there at first and none dropped it at all. */
  lemma TrackedExactly(cache: Cache, requests: seq<Request>, tag: string, hash: string)
    requires Tracked(cache) && hash != ""
    ensures Tracked(HandleAll(cache, requests))
    ensures hash in UsersAt(HandleAll(cache, requests), tag) <==>
      (exists i: nat :: LastBrought(requests, i, tag, hash))
      || (hash in UsersAt(cache, tag) && NoneDrops(requests, 0, hash))
  {
    var marks := Marks(requests, tag, hash);
    SeriesTracks(cache, requests, tag, hash);
    PresentExactly(hash in UsersAt(cache, tag), marks);
    forall from: nat ensures NoneDrops(requests, from, hash) <==> KeptFrom(marks, from) {}
    forall i: nat ensures LastBrought(requests, i, tag, hash) <==> BroughtBy(marks, i) {}
  }

  // ---- rotation -----------------------------------------------------------------------------

  /** AddUser requests with distinct hashes, each naming the one before as its previous hash. */
  ghost predicate IsChain(chain: seq<Request>) {
    && (forall i | 0 <= i < |chain| :: chain[i].Add? && chain[i].call.request.uuid != "")
    && (forall i, j | 0 <= i < j < |chain| :: chain[i].call.request.uuid != chain[j].call.request.uuid)
    && (forall i | 0 < i < |chain| :: chain[i].call.request.previous == Some(chain[i - 1].call.request.uuid))
  }

  /** Which requests of a chain drop a hash, and which bring it. */
  lemma ChainMarks(chain: seq<Request>, k: nat, i: nat, tag: string)
    requires IsChain(chain) && k < |chain| && i < |chain|
    ensures var hash := chain[k].call.request.uuid;
      && (Brings(chain[i], tag, hash) <==> i == k && Reached(chain[k].call) && tag in Accepted(chain[k].call))
      && (i > 0 ==> (Drops(chain[i], hash) <==> i == k + 1 && Reached(chain[i].call)))
  {
    if i > 0 {
      assert RemoveHash(chain[i].call.request) == chain[i - 1].call.request.uuid;
    }
  }

  /** The k-th hash of a chain is tracked exactly where its request was accepted, or where it was
      tracked at first and not dropped by the first request, and exactly if the request after it,
      the one that would remove it, did not get as far as the removal loop. */
  lemma RotationLeaves(cache: Cache, chain: seq<Request>, k: nat, tag: string)
    requires Tracked(cache) && IsChain(chain) && k < |chain|
    ensures var hash := chain[k].call.request.uuid;
      hash in UsersAt(HandleAll(cache, chain), tag) <==>
        && (k + 1 < |chain| ==> !Reached(chain[k + 1].call))
        && (|| (Reached(chain[k].call) && tag in Accepted(chain[k].call))
            || (hash in UsersAt(cache, tag) && !Drops(chain[0], hash)))
  {
    var hash := chain[k].call.request.uuid;
    TrackedExactly(cache, chain, tag, hash);
    forall i: nat | i < |chain|
      ensures Brings(chain[i], tag, hash) <==> i == k && Reached(chain[k].call) && tag in Accepted(chain[k].call)
      ensures i > 0 ==> (Drops(chain[i], hash) <==> i == k + 1 && Reached(chain[i].call))
    {
      ChainMarks(chain, k, i, tag);
    }
    var kept := k + 1 < |chain| ==> !Reached(chain[k + 1].call);
    assert NoneDrops(chain, k + 1, hash) <==> kept;
    assert NoneDrops(chain, 0, hash) <==> kept && !Drops(chain[0], hash);
    assert LastBrought(chain, k, tag, hash) <==> kept && Reached(chain[k].call) && tag in Accepted(chain[k].call);
  }

  /** A hash that a chain never adds is lost only to the first request. */
  lemma RotationSkips(cache: Cache, chain: seq<Request>, hash: string, tag: string)
    requires Tracked(cache) && hash != "" && IsChain(chain) && chain != []
    requires forall i | 0 <= i < |chain| :: chain[i].call.request.uuid != hash
    ensures hash in UsersAt(HandleAll(cache, chain), tag) <==> hash in UsersAt(cache, tag) && !Drops(chain[0], hash)
  {
    TrackedExactly(cache, chain, tag, hash);
    forall i | 0 < i < |chain| ensures !Drops(chain[i], hash) {
      assert RemoveHash(chain[i].call.request) == chain[i - 1].call.request.uuid;
    }
  }

  /** The hashes a chain replaces: the one its first request drops, and all it adds but the last. */
  ghost function Replaced(chain: seq<Request>): set<string>
    requires IsChain(chain) && chain != []
  {
    {RemoveHash(chain[0].call.request)} + set i | 0 <= i < |chain| - 1 :: chain[i].call.request.uuid
  }

  /** If every request of a chain reaches its removal loop, then of each inbound's hashes exactly
      those that the chain replaces are gone, and its last hash is added where it was accepted. */
  lemma RotationLeavesNoResidue(cache: Cache, chain: seq<Request>, tag: string)
    requires Tracked(cache) && IsChain(chain) && chain != []
    requires forall i | 0 <= i < |chain| :: Reached(chain[i].call)
    ensures var last := chain[|chain| - 1].call;
      UsersAt(HandleAll(cache, chain), tag)
        == UsersAt(cache, tag) - Replaced(chain) + if tag in Accepted(last) then {last.request.uuid} else {}
  {
    forall hash ensures hash in UsersAt(HandleAll(cache, chain), tag) <==> hash in Residue(cache, chain, tag) {
      ResidueOf(cache, chain, tag, hash);
    }
    assert UsersAt(HandleAll(cache, chain), tag) == Residue(cache, chain, tag);
  }

  /** Tracked at first and replaced by nobody, or left by the last request. */
  ghost function Residue(cache: Cache, chain: seq<Request>, tag: string): set<string>
    requires IsChain(chain) && chain != []
  {
    var last := chain[|chain| - 1].call;
    UsersAt(cache, tag) - Replaced(chain) + if tag in Accepted(last) then {last.request.uuid} else {}
  }

  lemma ResidueOf(cache: Cache, chain: seq<Request>, tag: string, hash: string)
    requires Tracked(cache) && IsChain(chain) && chain != []
    requires forall i | 0 <= i < |chain| :: Reached(chain[i].call)
    ensures hash in UsersAt(HandleAll(cache, chain), tag) <==> hash in Residue(cache, chain, tag)
  {
    if hash == "" {
      EmptyIsNowhere(cache, chain, tag);
    } else if i :| 0 <= i < |chain| && chain[i].call.request.uuid == hash {
      ResidueOfAdded(cache, chain, i, tag);
    } else {
      ResidueOfOther(cache, chain, tag, hash);
    }
  }

  lemma ResidueOfAdded(cache: Cache, chain: seq<Request>, k: nat, tag: string)
    requires Tracked(cache) && IsChain(chain) && k < |chain|
    requires forall i | 0 <= i < |chain| :: Reached(chain[i].call)
    ensures var hash := chain[k].call.request.uuid;
      hash in UsersAt(HandleAll(cache, chain), tag) <==> hash in Residue(cache, chain, tag)
  {
    RotationLeaves(cache, chain, k, tag);
    AddedIsReplaced(chain, k);
    var last := |chain| - 1;
    assert chain[k].call.request.uuid == chain[last].call.request.uuid <==> k == last;
  }

  lemma ResidueOfOther(cache: Cache, chain: seq<Request>, tag: string, hash: string)
    requires Tracked(cache) && IsChain(chain) && chain != [] && hash != ""
    requires forall i | 0 <= i < |chain| :: Reached(chain[i].call) && chain[i].call.request.uuid != hash
    ensures hash in UsersAt(HandleAll(cache, chain), tag) <==> hash in Residue(cache, chain, tag)
  {
    RotationSkips(cache, chain, hash, tag);
    OtherIsReplaced(chain, hash);
  }

  /** All that a chain adds but the last is replaced; the last only if the first request drops it. */
  lemma AddedIsReplaced(chain: seq<Request>, k: nat)
    requires IsChain(chain) && k < |chain| && Reached(chain[0].call)
    ensures var hash := chain[k].call.request.uuid;
      hash in Replaced(chain) <==> k < |chain| - 1 || Drops(chain[0], hash)
  {
    var hash := chain[k].call.request.uuid;
    assert k < |chain| - 1 ==> hash in set i | 0 <= i < |chain| - 1 :: chain[i].call.request.uuid;
  }

  lemma OtherIsReplaced(chain: seq<Request>, hash: string)
    requires IsChain(chain) && chain != [] && Reached(chain[0].call)
    requires forall i | 0 <= i < |chain| :: chain[i].call.request.uuid != hash
    ensures hash in Replaced(chain) <==> Drops(chain[0], hash)
  {
  }

  lemma EmptyIsNowhere(cache: Cache, requests: seq<Request>, tag: string)
    requires Tracked(cache)
    ensures "" !in UsersAt(cache, tag) && "" !in UsersAt(HandleAll(cache, requests), tag)
  {
    SeriesTracks(cache, requests, tag, "x");
  }
}
