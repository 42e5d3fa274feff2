/** What the handler requests do outside the state and answer, and their loops step by step. */
module HandlerSpec {
  import opened Wrappers
  import opened StateSpec
  import opened RuntimeState
  import opened Users

  /** What a request does outside the state. */
  datatype Effect =
    | LookUpIPs(username: string)
    | RemoveCall(tag: string, username: string)
    | DropIP(ip: string)
    | AddCall(tag: string, kind: string, username: string)

  datatype Reply = Reply(success: bool, error: Option<Error>)

  /** The inbounds that refuse to remove a user, and how. */
  type Refusals = map<string, Error>

  type BulkRefusals = seq<Refusals>

  function ForUser(refusals: BulkRefusals, u: nat): Refusals {
    if u < |refusals| then refusals[u] else map[]
  }

  function Answer<K>(failures: map<K, Error>, call: K): Option<Error> {
    if call in failures then Some(failures[call]) else None
  }

  /** `log` and one removal call for each of the first `n` tags. */
  function RemoveCalls(log: seq<Effect>, tags: seq<string>, n: nat, username: string): seq<Effect>
    requires n <= |tags|
  {
    if n == 0 then log else RemoveCalls(log, tags, n - 1, username) + [RemoveCall(tags[n - 1], username)]
  }

  function DropCalls(log: seq<Effect>, ips: seq<string>, n: nat): seq<Effect>
    requires n <= |ips|
  {
    if n == 0 then log else DropCalls(log, ips, n - 1) + [DropIP(ips[n - 1])]
  }

  /** Items of AddUser name their user; those of AddUsers are for one user. */
  function AddCalls(log: seq<Effect>, items: seq<Item>, n: nat, username: Option<string>): seq<Effect>
    requires n <= |items|
  {
    if n == 0 then log else AddCalls(log, items, n - 1, username) + [AddCallOf(items[n - 1], username)]
  }

  function AddCallOf(item: Item, username: Option<string>): Effect {
    AddCall(item.tag, item.kind, if username.Some? then username.value else item.username)
  }

  /** The first error among the first `n` additions. */
  function FirstError(verdicts: Verdicts, n: nat): Option<Error> {
    if n == 0 then None
    else
      var first := FirstError(verdicts, n - 1);
      if first.Some? then first else Answer(verdicts, n - 1)
  }

  /** One of the first `n` additions succeeded. */
  predicate SomeSucceeds(verdicts: Verdicts, n: nat) {
    n > 0 && (SomeSucceeds(verdicts, n - 1) || n - 1 !in verdicts)
  }

  /** The first error among the removals from the first `n` tags. */
  function FirstRefusal(tags: seq<string>, refusals: Refusals, n: nat): Option<Error>
    requires n <= |tags|
  {
    if n == 0 then None
    else
      var first := FirstRefusal(tags, refusals, n - 1);
      if first.Some? then first else Answer(refusals, tags[n - 1])
  }

  /** One of the removals from the first `n` tags succeeded. */
  predicate SomeRemoved(tags: seq<string>, refusals: Refusals, n: nat)
    requires n <= |tags|
  {
    n > 0 && (SomeRemoved(tags, refusals, n - 1) || tags[n - 1] !in refusals)
  }

  /** errIf */
  function ErrIf(condition: bool, error: Option<Error>): Option<Error> {
    if !condition then None else if error.Some? then error else Some(OperationFailed)
  }

  /** Success if there was nothing to do or some item was accepted, else the first item's error. */
  function AddUserReply(call: Call): Reply {
    var data := call.request.data;
    if data == [] then Reply(true, None)
    else if !call.clientUp then Reply(false, Some(CoreDown))
    else if SomeSucceeds(call.verdicts, |data|) then Reply(true, None)
    else Reply(false, Answer(call.verdicts, 0))
  }

  predicate HasPrevious(request: AddUserRequest) {
    request.previous.Some? && request.previous.value != ""
  }

  function LookUps(request: AddUserRequest): seq<Effect>
    requires request.data != []
  {
    if HasPrevious(request) then [LookUpIPs(request.data[0].username)] else []
  }

  function Reconnects(request: AddUserRequest, ips: seq<string>): seq<string> {
    if HasPrevious(request) then ips else []
  }

  /** The addresses of a user who is replaced are looked up before the removals, and dropped
      after them and before the additions. */
  ghost function ReplaceCalls(log: seq<Effect>, request: AddUserRequest, known: set<string>, ips: seq<string>): seq<Effect>
    requires request.data != []
  {
    var tags, reconnects := InOrder(known), Reconnects(request, ips);
    DropCalls(RemoveCalls(log + LookUps(request), tags, |tags|, request.data[0].username), reconnects, |reconnects|)
  }

  ghost function SwapCalls(log: seq<Effect>, request: AddUserRequest, known: set<string>, ips: seq<string>): seq<Effect>
    requires request.data != []
  {
    AddCalls(ReplaceCalls(log, request, known, ips), request.data, |request.data|, None)
  }

  lemma {:induction false} FirstOfAll(verdicts: Verdicts, n: nat)
    ensures n > 0 && !SomeSucceeds(verdicts, n) ==> 0 in verdicts && FirstError(verdicts, n) == Some(verdicts[0])
  {
    if n > 1 { FirstOfAll(verdicts, n - 1); }
  }

  function BulkCalls(log: seq<Effect>, user: BulkUser, tags: seq<string>): seq<Effect> {
    AddCalls(RemoveCalls(log, tags, |tags|, user.userId), user.items, |user.items|, Some(user.userId))
  }

  /** User by user: the removals, then the additions. */
  function AllBulkCalls(log: seq<Effect>, users: seq<BulkUser>, tags: seq<string>, n: nat): seq<Effect>
    requires n <= |users|
  {
    if n == 0 then log else BulkCalls(AllBulkCalls(log, users, tags, n - 1), users[n - 1], tags)
  }

  /** Some item of the first `n` users was accepted. */
  predicate SomeAdded(users: seq<BulkUser>, verdicts: BulkVerdicts, n: nat)
    requires n <= |users|
  {
    n > 0 && (SomeAdded(users, verdicts, n - 1) || SomeSucceeds(Row(verdicts, n - 1), |users[n - 1].items|))
  }

  function FirstFailure(users: seq<BulkUser>, verdicts: BulkVerdicts, n: nat): Option<Error>
    requires n <= |users|
  {
    if n == 0 then None
    else
      var first := FirstFailure(users, verdicts, n - 1);
      if first.Some? then first else FirstError(Row(verdicts, n - 1), |users[n - 1].items|)
  }

  /** Success if there are no users or some item was accepted; else the first error, or a
      general one if no user has any item. */
  function AddUsersReply(users: seq<BulkUser>, clientUp: bool, verdicts: BulkVerdicts): Reply {
    if !clientUp then Reply(false, Some(CoreDown))
    else if users == [] || SomeAdded(users, verdicts, |users|) then Reply(true, None)
    else
      var first := FirstFailure(users, verdicts, |users|);
      Reply(false, if first.Some? then first else Some(OperationFailed))
  }

  /** Success if some inbound let go of the user; the first error is reported either way. */
  function RemoveReply(tags: seq<string>, refusals: Refusals): Reply {
    Reply(SomeRemoved(tags, refusals, |tags|), FirstRefusal(tags, refusals, |tags|))
  }

  function AllRemoveCalls(log: seq<Effect>, users: seq<RemovedUser>, tags: seq<string>, n: nat): seq<Effect>
    requires n <= |users|
  {
    if n == 0 then log
    else RemoveCalls(AllRemoveCalls(log, users, tags, n - 1), tags, |tags|, users[n - 1].userId)
  }

  /** Success if every user was let go by some inbound, else the first error of the first user
      who was not. */
  function RemoveAllReply(tags: seq<string>, refusals: BulkRefusals, n: nat): Reply {
    if n == 0 then Reply(true, None)
    else
      var before := RemoveAllReply(tags, refusals, n - 1);
      var reply := RemoveReply(tags, ForUser(refusals, n - 1));
      if reply.success then before
      else Reply(false, if before.error.Some? then before.error else reply.error)
  }

  /** What the answers mean: some addition succeeded, and which error comes first. */
  lemma {:induction false} AdditionsExactly(verdicts: Verdicts, n: nat)
    ensures SomeSucceeds(verdicts, n) <==> exists i: nat | i < n :: i !in verdicts
    ensures FirstError(verdicts, n).None? <==> forall i: nat | i < n :: i !in verdicts
    ensures FirstError(verdicts, n).Some? ==> exists i: nat | i < n && i in verdicts ::
        FirstError(verdicts, n) == Some(verdicts[i]) && forall j: nat | j < i :: j !in verdicts
  {
    if n > 0 { AdditionsExactly(verdicts, n - 1); }
  }

  /** A removal request succeeds exactly if some inbound let go, and reports an error exactly if some did not. */
  lemma {:induction false} RemovalsExactly(tags: seq<string>, refusals: Refusals, n: nat)
    requires n <= |tags|
    ensures SomeRemoved(tags, refusals, n) <==> exists i | 0 <= i < n :: tags[i] !in refusals
    ensures FirstRefusal(tags, refusals, n).Some? <==> exists i | 0 <= i < n :: tags[i] in refusals
  {
    if n > 0 { RemovalsExactly(tags, refusals, n - 1); }
  }

  /** Item `i` of user `u` is refused, and it is the first of all items that is. */
  predicate FirstRefused(users: seq<BulkUser>, verdicts: BulkVerdicts, u: nat, i: nat) {
    && u < |users| && i < |users[u].items| && i in Row(verdicts, u)
    && (forall j: nat | j < i :: j !in Row(verdicts, u))
    && (forall v: nat, j: nat | v < u && j < |users[v].items| :: j !in Row(verdicts, v))
  }

  predicate Accepts(users: seq<BulkUser>, verdicts: BulkVerdicts, u: nat, i: nat) {
    u < |users| && i < |users[u].items| && i !in Row(verdicts, u)
  }

  lemma {:induction false} BulkAdditionsExactly(users: seq<BulkUser>, verdicts: BulkVerdicts, n: nat)
    requires n <= |users|
    ensures SomeAdded(users, verdicts, n) <==> exists u: nat, i: nat :: u < n && Accepts(users, verdicts, u, i)
  {
    if n > 0 {
      BulkAdditionsExactly(users, verdicts, n - 1);
      AdditionsExactly(Row(verdicts, n - 1), |users[n - 1].items|);
      if SomeSucceeds(Row(verdicts, n - 1), |users[n - 1].items|) {
        var i: nat :| i < |users[n - 1].items| && i !in Row(verdicts, n - 1);
        assert Accepts(users, verdicts, n - 1, i);
      }
    }
  }

  lemma {:induction false} BulkFailureIsFirst(users: seq<BulkUser>, verdicts: BulkVerdicts, n: nat, u: nat, i: nat)
    requires n <= |users| && FirstRefused(users, verdicts, u, i)
    ensures FirstFailure(users, verdicts, n) == if u < n then Some(Row(verdicts, u)[i]) else None
  {
    if n > 0 {
      BulkFailureIsFirst(users, verdicts, n - 1, u, i);
      var row, items := Row(verdicts, n - 1), users[n - 1].items;
      AdditionsExactly(row, |items|);
      if n - 1 == u {
        var k: nat :| k < |items| && k in row && FirstError(row, |items|) == Some(row[k])
                      && forall j: nat | j < k :: j !in row;
        assert k == i;
      }
    }
  }

  /** A bulk request succeeds exactly if it has no users or some item is accepted. If not, the error
      is that of the first item of all, or a general one if there is none. */
  lemma AddUsersReplyExactly(users: seq<BulkUser>, verdicts: BulkVerdicts)
    ensures AddUsersReply(users, true, verdicts).success <==>
      users == [] || exists u: nat, i: nat :: Accepts(users, verdicts, u, i)
    ensures AddUsersReply(users, true, verdicts).success ==> AddUsersReply(users, true, verdicts).error == None
    ensures forall u: nat |
      !AddUsersReply(users, true, verdicts).success && u < |users| && users[u].items != []
      && (forall v: nat | v < u :: users[v].items == []) ::
      0 in Row(verdicts, u) && AddUsersReply(users, true, verdicts).error == Some(Row(verdicts, u)[0])
    ensures !AddUsersReply(users, true, verdicts).success && (forall u: nat | u < |users| :: users[u].items == []) ==>
      AddUsersReply(users, true, verdicts).error == Some(OperationFailed)
  {
    BulkAdditionsExactly(users, verdicts, |users|);
    forall u: nat |
      !AddUsersReply(users, true, verdicts).success && u < |users| && users[u].items != []
      && (forall v: nat | v < u :: users[v].items == [])
      ensures 0 in Row(verdicts, u) && AddUsersReply(users, true, verdicts).error == Some(Row(verdicts, u)[0])
    {
      assert !Accepts(users, verdicts, u, 0);
      assert FirstRefused(users, verdicts, u, 0);
      BulkFailureIsFirst(users, verdicts, |users|, u, 0);
    }
    if forall u: nat | u < |users| :: users[u].items == [] {
      NoItemsNoFailure(users, verdicts, |users|);
    }
  }

  lemma {:induction false} NoItemsNoFailure(users: seq<BulkUser>, verdicts: BulkVerdicts, n: nat)
    requires n <= |users| && forall u: nat | u < n :: users[u].items == []
    ensures FirstFailure(users, verdicts, n) == None
  {
    if n > 0 { NoItemsNoFailure(users, verdicts, n - 1); }
  }

  /** No inbound lets go of user `u`. */
  predicate RefusedEverywhere(tags: seq<string>, refusals: BulkRefusals, u: nat) {
    forall i | 0 <= i < |tags| :: tags[i] in ForUser(refusals, u)
  }

  predicate FirstRefusedEverywhere(tags: seq<string>, refusals: BulkRefusals, u: nat) {
    RefusedEverywhere(tags, refusals, u) && forall v: nat | v < u :: !RefusedEverywhere(tags, refusals, v)
  }

  lemma {:induction false} FirstOfRefusals(tags: seq<string>, refusals: Refusals, n: nat)
    requires 0 < n <= |tags| && tags[0] in refusals
    ensures FirstRefusal(tags, refusals, n) == Some(refusals[tags[0]])
  {
    if n > 1 { FirstOfRefusals(tags, refusals, n - 1); }
  }

  /** Several users are removed successfully exactly if every one of them is let go by some inbound;
      if not, the error is the first inbound's for the first user who is not. */
  lemma {:induction false} RemoveAllExactly(tags: seq<string>, refusals: BulkRefusals, n: nat)
    requires tags != []
    ensures RemoveAllReply(tags, refusals, n).success <==> forall u: nat | u < n :: !RefusedEverywhere(tags, refusals, u)
    ensures RemoveAllReply(tags, refusals, n).success <==> RemoveAllReply(tags, refusals, n).error == None
    ensures forall u: nat | u < n && FirstRefusedEverywhere(tags, refusals, u) ::
        RemoveAllReply(tags, refusals, n).error == Some(ForUser(refusals, u)[tags[0]])
  {
    if n > 0 {
      RemoveAllExactly(tags, refusals, n - 1);
      RemovalsExactly(tags, ForUser(refusals, n - 1), |tags|);
      if RefusedEverywhere(tags, refusals, n - 1) {
        FirstOfRefusals(tags, ForUser(refusals, n - 1), |tags|);
      }
    }
  }

  // ---- the loops, one call at a time --------------------------------------------------------

  function Elements(tags: seq<string>): set<string> {
    set t | t in tags
  }

  /** The hash is dropped from the first `n` tags, one at a time. */
  function ForgetEach(cache: Cache, tags: seq<string>, n: nat, hash: string): Cache
    requires n <= |tags|
  {
    if n == 0 then cache else RemoveUser(ForgetEach(cache, tags, n - 1, hash), tags[n - 1], hash)
  }

  lemma {:induction false} ForgetEachIsForgetAt(cache: Cache, tags: seq<string>, n: nat, hash: string)
    requires n <= |tags| && Tracked(cache) && "" !in tags
    ensures ForgetEach(cache, tags, n, hash) == ForgetAt(cache, Elements(tags[..n]), hash)
  {
    if n == 0 {
      ForgetNowhere(cache, hash);
      assert Elements(tags[..0]) == {};
    } else {
      ForgetEachIsForgetAt(cache, tags, n - 1, hash);
      ForgetOneMore(cache, Elements(tags[..n - 1]), tags[n - 1], hash);
      OneMoreElement(tags, n - 1);
      var before := ForgetAt(cache, Elements(tags[..n - 1]), hash);
      assert ForgetEach(cache, tags, n, hash) == RemoveUser(before, tags[n - 1], hash);
    }
  }

  lemma ForgetNowhere(cache: Cache, hash: string)
    ensures ForgetAt(cache, {}, hash) == cache
  {
    assert ForgetAt(cache, {}, hash).users == cache.users;
  }

  lemma OneMoreElement(tags: seq<string>, n: nat)
    requires n < |tags|
    ensures Elements(tags[..n + 1]) == Elements(tags[..n]) + {tags[n]}
  {
    assert tags[..n + 1] == tags[..n] + [tags[n]];
  }

  lemma ForgetOneMore(cache: Cache, tags: set<string>, tag: string, hash: string)
    requires Tracked(cache) && tag != ""
    ensures RemoveUser(ForgetAt(cache, tags, hash), tag, hash) == ForgetAt(cache, tags + {tag}, hash)
  {
    var left := RemoveUser(ForgetAt(cache, tags, hash), tag, hash).users;
    var right := ForgetAt(cache, tags + {tag}, hash).users;
    assert left.Keys == right.Keys;
    forall t | t in left ensures left[t] == right[t] {
      ForgetOneMoreAt(cache, tags, tag, hash, t);
    }
  }

  lemma ForgetOneMoreAt(cache: Cache, tags: set<string>, tag: string, hash: string, t: string)
    requires Tracked(cache) && tag != "" && t in cache.users
    ensures RemoveUser(ForgetAt(cache, tags, hash), tag, hash).users[t] == ForgetAt(cache, tags + {tag}, hash).users[t]
  {
    assert "" !in cache.users[t];
  }

  /** The hash is added where each of the first `n` items was accepted, one at a time. */
  function AdmitEach(cache: Cache, items: seq<Item>, n: nat, verdicts: Verdicts, hash: string): Cache
    requires n <= |items|
  {
    if n == 0 then cache
    else
      Granted(AdmitEach(cache, items, n - 1, verdicts, hash), n - 1 in verdicts, items[n - 1].tag, hash)
  }

  function Granted(cache: Cache, refused: bool, tag: string, hash: string): Cache {
    if refused then cache else StateSpec.AddUser(cache, tag, hash)
  }

  lemma {:induction false} AdmitEachIsAdmit(cache: Cache, items: seq<Item>, n: nat, verdicts: Verdicts, hash: string)
    requires n <= |items|
    ensures AdmitEach(cache, items, n, verdicts, hash) == Admit(cache, Admitted(items, n, verdicts), hash)
  {
    if n == 0 {
      AdmitNowhere(cache, hash);
    } else {
      AdmitEachIsAdmit(cache, items, n - 1, verdicts, hash);
      AdmitNext(cache, items, n - 1, verdicts, hash);
      var before := Admit(cache, Admitted(items, n - 1, verdicts), hash);
      assert AdmitEach(cache, items, n, verdicts, hash) == Granted(before, n - 1 in verdicts, items[n - 1].tag, hash);
    }
  }

  ghost function ForgetKnown(cache: Cache, hash: string): Cache {
    ForgetEach(cache, InOrder(cache.known), |InOrder(cache.known)|, hash)
  }

  lemma ForgetKnownIsForgetAt(cache: Cache, hash: string)
    requires Tracked(cache)
    ensures ForgetKnown(cache, hash) == ForgetAt(cache, cache.known, hash)
  {
    var tags := InOrder(cache.known);
    InOrderLists(cache.known);
    ForgetEachIsForgetAt(cache, tags, |tags|, hash);
    assert Elements(tags[..|tags|]) == cache.known;
  }

  lemma ForgetKnownLearnsNothing(cache: Cache, hash: string)
    requires Tracked(cache)
    ensures ForgetKnown(cache, hash).known == cache.known && ForgetKnown(cache, hash).protocols == cache.protocols
  {
    ForgetKnownIsForgetAt(cache, hash);
  }

  ghost function ForgetEachUser(cache: Cache, users: seq<RemovedUser>, n: nat): Cache
    requires n <= |users|
  {
    if n == 0 then cache else ForgetKnown(ForgetEachUser(cache, users, n - 1), users[n - 1].hashUuid)
  }

  lemma {:induction false} ForgetEachUserIsForgetUsers(cache: Cache, users: seq<RemovedUser>, n: nat)
    requires n <= |users| && Tracked(cache)
    ensures ForgetEachUser(cache, users, n) == ForgetUsers(cache, users, n)
  {
    if n > 0 {
      ForgetEachUserIsForgetUsers(cache, users, n - 1);
      ForgottenEverywhere(cache, users, n - 1, "");
      ForgetKnownIsForgetAt(ForgetUsers(cache, users, n - 1), users[n - 1].hashUuid);
    }
  }

  lemma ForgetOneUser(cache: Cache, user: RemovedUser)
    requires Tracked(cache)
    ensures ForgetKnown(cache, user.hashUuid) == ForgetUsers(cache, [user], 1)
  {
    ForgetEachUserIsForgetUsers(cache, [user], 1);
    assert ForgetEachUser(cache, [user], 0) == cache;
  }

  /** A removal loop over the known inbounds and an addition loop make a swap. */
  lemma SwapStepByStep(cache: Cache, removed: string, added: string, items: seq<Item>, verdicts: Verdicts)
    requires Tracked(cache)
    ensures AdmitEach(ForgetKnown(cache, removed), items, |items|, verdicts, added)
         == DoSwap(cache, Swap(removed, added, Admitted(items, |items|, verdicts)))
  {
    ForgetKnownIsForgetAt(cache, removed);
    AdmitEachIsAdmit(ForgetAt(cache, cache.known, removed), items, |items|, verdicts, added);
  }

  /** The same for AddUsers, which records each item's protocol on the way. */
  function BulkEach(cache: Cache, items: seq<Item>, n: nat, verdicts: Verdicts, hash: string): Cache
    requires n <= |items|
  {
    if n == 0 then cache
    else
      var item := items[n - 1];
      var before := SetProtocol(BulkEach(cache, items, n - 1, verdicts, hash), item.tag, item.kind);
      if n - 1 in verdicts then before else StateSpec.AddUser(before, item.tag, hash)
  }

  /** Recording the protocol of a known inbound changes the protocols only. */
  lemma ProtocolApart(cache: Cache, protocols: map<string, string>, item: Item, hash: string)
    requires item.tag == "" || item.tag in cache.known
    ensures SetProtocol(cache.(protocols := protocols), item.tag, item.kind)
         == cache.(protocols := Recorded(protocols, item))
    ensures StateSpec.AddUser(cache.(protocols := Recorded(protocols, item)), item.tag, hash)
         == StateSpec.AddUser(cache, item.tag, hash).(protocols := Recorded(protocols, item))
  {
    if item.tag != "" { assert cache.known + {item.tag} == cache.known; }
  }

  lemma {:induction false} AdmitEachLearns(cache: Cache, items: seq<Item>, n: nat, verdicts: Verdicts, hash: string)
    requires n <= |items|
    ensures cache.known <= AdmitEach(cache, items, n, verdicts, hash).known
  {
    if n > 0 { AdmitEachLearns(cache, items, n - 1, verdicts, hash); }
  }

  lemma {:induction false} BulkEachIsAdmitEach(cache: Cache, items: seq<Item>, n: nat, verdicts: Verdicts, hash: string)
    requires n <= |items| && forall i | 0 <= i < n :: items[i].tag == "" || items[i].tag in cache.known
    ensures BulkEach(cache, items, n, verdicts, hash)
         == AdmitEach(cache, items, n, verdicts, hash).(protocols := Kinds(cache.protocols, items[..n]))
  {
    if n == 0 {
      assert cache == cache.(protocols := Kinds(cache.protocols, []));
    } else {
      BulkEachIsAdmitEach(cache, items, n - 1, verdicts, hash);
      AdmitEachLearns(cache, items, n - 1, verdicts, hash);
      assert items[..n][..n - 1] == items[..n - 1];
      assert Kinds(cache.protocols, items[..n]) == Recorded(Kinds(cache.protocols, items[..n - 1]), items[n - 1]);
      var before := AdmitEach(cache, items, n - 1, verdicts, hash);
      ProtocolApart(before, Kinds(cache.protocols, items[..n - 1]), items[n - 1], hash);
    }
  }

  lemma BulkStepByStep(cache: Cache, user: BulkUser, verdicts: Verdicts)
    requires Tracked(cache) && TagsIn(user.items) <= cache.known
    ensures BulkEach(ForgetKnown(cache, user.hashUuid), user.items, |user.items|, verdicts, user.vlessUuid)
         == Users.AddBulkUser(cache, user, verdicts)
  {
    var items := user.items;
    SwapStepByStep(cache, user.hashUuid, user.vlessUuid, items, verdicts);
    ForgetKnownLearnsNothing(cache, user.hashUuid);
    forall i | 0 <= i < |items| ensures items[i].tag == "" || items[i].tag in cache.known {
      assert items[i].tag == "" || items[i].tag in TagsIn(items);
    }
    BulkEachIsAdmitEach(ForgetKnown(cache, user.hashUuid), items, |items|, verdicts, user.vlessUuid);
    assert items[..|items|] == items;
  }

  lemma BulkUserLearnsNothing(cache: Cache, user: BulkUser, verdicts: Verdicts)
    requires TagsIn(user.items) <= cache.known
    ensures Users.AddBulkUser(cache, user, verdicts).known == cache.known
  {
    var admitted := Admitted(user.items, |user.items|, verdicts);
    assert cache.known + admitted == cache.known;
  }

  lemma AdmitNowhere(cache: Cache, hash: string)
    ensures Admit(cache, {}, hash) == cache
  {
    if hash != "" {
      var after := Admit(cache, {}, hash).users;
      assert after.Keys == cache.users.Keys;
      forall t | t in after ensures after[t] == cache.users[t] {}
    }
  }

  lemma RegisterOneMore(cache: Cache, items: seq<Item>, i: nat)
    requires i < |items|
    ensures SetProtocol(AddKnownTag(Register(cache, items[..i]), items[i].tag), items[i].tag, items[i].kind)
         == Register(cache, items[..i + 1])
  {
    assert items[..i + 1][..i] == items[..i];
    OneMoreTag(items, i);
  }

  lemma OneMoreTag(items: seq<Item>, i: nat)
    requires i < |items|
    ensures TagsIn(items[..i + 1]) == TagsIn(items[..i]) + if items[i].tag == "" then {} else {items[i].tag}
  {
    assert items[..i + 1] == items[..i] + [items[i]];
  }

  lemma AdmitOneMore(cache: Cache, tags: set<string>, tag: string, hash: string)
    ensures StateSpec.AddUser(Admit(cache, tags, hash), tag, hash)
         == Admit(cache, tags + if tag == "" then {} else {tag}, hash)
  {
    if tag == "" {
      assert tags + {} == tags;
    } else if hash != "" {
      var left := StateSpec.AddUser(Admit(cache, tags, hash), tag, hash);
      var right := Admit(cache, tags + {tag}, hash);
      assert left.users.Keys == right.users.Keys;
      forall t | t in left.users ensures left.users[t] == right.users[t] {}
      assert left.users == right.users;
      assert left.known == right.known;
    }
  }

  lemma AdmitNext(cache: Cache, items: seq<Item>, i: nat, verdicts: Verdicts, hash: string)
    requires i < |items|
    ensures Admit(cache, Admitted(items, i + 1, verdicts), hash)
         == Granted(Admit(cache, Admitted(items, i, verdicts), hash), i in verdicts, items[i].tag, hash)
  {
    if i in verdicts {
      assert Admitted(items, i + 1, verdicts) == Admitted(items, i, verdicts);
    } else {
      AdmitOneMore(cache, Admitted(items, i, verdicts), items[i].tag, hash);
    }
  }
}
