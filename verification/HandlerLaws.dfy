/** What each handler request answers, does outside the state and leaves in it, said without the
    functions that compute it. */
module HandlerLaws {
  import opened Wrappers
  import opened StateSpec
  import opened RuntimeState
  import opened Users
  import opened HandlerSpec

  // ---- answers ------------------------------------------------------------------------------

  /** AddUser succeeds if there is nothing to add or some item is accepted; if none is, the error
      is that of the first. */
  lemma AddUserReplyExactly(call: Call)
    ensures var reply, data := AddUserReply(call), call.request.data;
      if data == [] then reply == Reply(true, None)
      else if !call.clientUp then reply == Reply(false, Some(CoreDown))
      else if exists i: nat | i < |data| :: i !in call.verdicts then reply == Reply(true, None)
      else 0 in call.verdicts && reply == Reply(false, Some(call.verdicts[0]))
  {
    AdditionsExactly(call.verdicts, |call.request.data|);
  }

  /** RemoveUser succeeds if some inbound lets go, and reports the first refusal either way. */
  lemma RemoveReplyExactly(tags: seq<string>, refusals: Refusals)
    ensures var reply := RemoveReply(tags, refusals);
      && (reply.success <==> exists i | 0 <= i < |tags| :: tags[i] !in refusals)
      && (reply.error.None? <==> forall i | 0 <= i < |tags| :: tags[i] !in refusals)
      && forall i: nat | i < |tags| && tags[i] in refusals && (forall j | 0 <= j < i :: tags[j] !in refusals) ::
           reply.error == Some(refusals[tags[i]])
  {
    RemovalsExactly(tags, refusals, |tags|);
    forall i: nat | i < |tags| && tags[i] in refusals && (forall j | 0 <= j < i :: tags[j] !in refusals)
      ensures FirstRefusal(tags, refusals, |tags|) == Some(refusals[tags[i]])
    {
      FirstRefusalIs(tags, refusals, |tags|, i);
    }
  }

  lemma {:induction false} FirstRefusalIs(tags: seq<string>, refusals: Refusals, n: nat, i: nat)
    requires n <= |tags| && i < n && tags[i] in refusals && forall j | 0 <= j < i :: tags[j] !in refusals
    ensures FirstRefusal(tags, refusals, n) == Some(refusals[tags[i]])
  {
    if i < n - 1 {
      FirstRefusalIs(tags, refusals, n - 1, i);
    } else {
      RemovalsExactly(tags, refusals, n - 1);
    }
  }

  // ---- calls outside the state --------------------------------------------------------------

  lemma {:induction false} RemoveCallsAre(log: seq<Effect>, tags: seq<string>, n: nat, username: string)
    requires n <= |tags|
    ensures RemoveCalls(log, tags, n, username) == log + seq(n, i requires 0 <= i < n => RemoveCall(tags[i], username))
  {
    if n > 0 { RemoveCallsAre(log, tags, n - 1, username); }
  }

  lemma {:induction false} DropCallsAre(log: seq<Effect>, ips: seq<string>, n: nat)
    requires n <= |ips|
    ensures DropCalls(log, ips, n) == log + seq(n, i requires 0 <= i < n => DropIP(ips[i]))
  {
    if n > 0 { DropCallsAre(log, ips, n - 1); }
  }

  lemma {:induction false} AddCallsAre(log: seq<Effect>, items: seq<Item>, n: nat, username: Option<string>)
    requires n <= |items|
    ensures AddCalls(log, items, n, username) == log + seq(n, i requires 0 <= i < n =>
      AddCall(items[i].tag, items[i].kind, if username.Some? then username.value else items[i].username))
  {
    if n > 0 { AddCallsAre(log, items, n - 1, username); }
  }

  /** The calls of AddUser in order: only for a user with a previous hash the addresses are looked
      up and, after the removals from every known inbound, dropped; then each item is added. */
  lemma AddUserCallsExactly(log: seq<Effect>, request: AddUserRequest, known: set<string>, ips: seq<string>)
    requires request.data != []
    ensures var tags, data, name := InOrder(known), request.data, request.data[0].username;
      var renews := request.previous.Some? && request.previous.value != "";
      SwapCalls(log, request, known, ips)
      == log
         + (if renews then [LookUpIPs(name)] else [])
         + seq(|tags|, i requires 0 <= i < |tags| => RemoveCall(tags[i], name))
         + (if renews then seq(|ips|, i requires 0 <= i < |ips| => DropIP(ips[i])) else [])
         + seq(|data|, i requires 0 <= i < |data| => AddCall(data[i].tag, data[i].kind, data[i].username))
  {
    var tags, name, dropped := InOrder(known), request.data[0].username, Reconnects(request, ips);
    RemoveCallsAre(log + LookUps(request), tags, |tags|, name);
    DropCallsAre(RemoveCalls(log + LookUps(request), tags, |tags|, name), dropped, |dropped|);
    AddCallsAre(ReplaceCalls(log, request, known, ips), request.data, |request.data|, None);
  }

  /** The calls of AddUsers, user by user: the removals, and then the additions in the user's name. */
  lemma AddUsersCallsExactly(log: seq<Effect>, users: seq<BulkUser>, tags: seq<string>, u: nat)
    requires u < |users|
    ensures AllBulkCalls(log, users, tags, 0) == log
    ensures var user := users[u];
      AllBulkCalls(log, users, tags, u + 1)
      == AllBulkCalls(log, users, tags, u)
         + seq(|tags|, i requires 0 <= i < |tags| => RemoveCall(tags[i], user.userId))
         + seq(|user.items|, i requires 0 <= i < |user.items| =>
             AddCall(user.items[i].tag, user.items[i].kind, user.userId))
  {
    var user, before := users[u], AllBulkCalls(log, users, tags, u);
    RemoveCallsAre(before, tags, |tags|, user.userId);
    AddCallsAre(RemoveCalls(before, tags, |tags|, user.userId), user.items, |user.items|, Some(user.userId));
  }

  /** RemoveUsers makes one removal call for each user at each known inbound, user by user. */
  lemma RemoveUsersCallsExactly(log: seq<Effect>, users: seq<RemovedUser>, tags: seq<string>, u: nat)
    requires u < |users|
    ensures AllRemoveCalls(log, users, tags, 0) == log
    ensures AllRemoveCalls(log, users, tags, u + 1)
         == AllRemoveCalls(log, users, tags, u)
            + seq(|tags|, i requires 0 <= i < |tags| => RemoveCall(tags[i], users[u].userId))
  {
    RemoveCallsAre(AllRemoveCalls(log, users, tags, u), tags, |tags|, users[u].userId);
  }

  // ---- the state: AddUser -------------------------------------------------------------------

  /** A hash is tracked after AddUser if an item for that inbound was accepted under it, or if it
      was tracked and is not the one the request removes: the previous hash, else its own. */
  lemma AddUserTracksExactly(cache: Cache, call: Call, tag: string, hash: string)
    requires Tracked(cache) && hash != ""
    ensures var request := call.request;
      var removed := if request.previous.Some? && request.previous.value != "" then request.previous.value else request.uuid;
      hash in UsersAt(Users.AddUser(cache, call), tag) <==>
      if request.data == [] || !call.clientUp then hash in UsersAt(cache, tag)
      else
        || (hash == request.uuid && tag != ""
            && exists i | 0 <= i < |request.data| :: i !in call.verdicts && request.data[i].tag == tag)
        || (hash in UsersAt(cache, tag) && hash != removed)
  {
    AddUserAt(cache, call, tag);
    AdmittedExactly(call.request.data, |call.request.data|, call.verdicts, tag);
  }

  /** Its items' inbounds are known from then on, whether or not the core is up or accepts them. */
  lemma AddUserLearnsExactly(cache: Cache, call: Call, tag: string)
    ensures tag in Users.AddUser(cache, call).known <==>
      tag in cache.known || (tag != "" && exists i | 0 <= i < |call.request.data| :: call.request.data[i].tag == tag)
  {
    var data := call.request.data;
    assert Admitted(data, |data|, call.verdicts) <= TagsIn(data);
  }

  /** Item `i` is the last with this tag and a protocol. */
  predicate LastKind(items: seq<Item>, i: nat, tag: string, kind: string) {
    && i < |items| && items[i].tag == tag && items[i].kind == kind && tag != "" && kind != ""
    && forall j | i < j < |items| :: items[j].tag != tag || items[j].kind == ""
  }

  predicate NoKind(items: seq<Item>, tag: string) {
    tag == "" || forall i | 0 <= i < |items| :: items[i].tag != tag || items[i].kind == ""
  }

  predicate Maps(protocols: map<string, string>, tag: string, kind: string) {
    tag in protocols && protocols[tag] == kind
  }

  lemma {:induction false} KindsExactly(protocols: map<string, string>, items: seq<Item>, tag: string, kind: string)
    ensures Maps(Kinds(protocols, items), tag, kind) <==>
      (exists i: nat :: LastKind(items, i, tag, kind)) || (NoKind(items, tag) && Maps(protocols, tag, kind))
  {
    if items != [] {
      var n := |items| - 1;
      var front := items[..n];
      KindsExactly(protocols, front, tag, kind);
      if items[n].tag == tag && tag != "" && items[n].kind != "" {
        assert items[n].kind == kind ==> LastKind(items, n, tag, kind);
      } else {
        LastDoesNotCount(items, front, tag, kind);
      }
    }
  }

  lemma LastDoesNotCount(items: seq<Item>, front: seq<Item>, tag: string, kind: string)
    requires items != [] && front == items[..|items| - 1]
    requires tag == "" || items[|items| - 1].tag != tag || items[|items| - 1].kind == ""
    ensures forall i: nat :: LastKind(items, i, tag, kind) <==> LastKind(front, i, tag, kind)
    ensures NoKind(items, tag) <==> NoKind(front, tag)
  {
    assert forall j | 0 <= j < |front| :: front[j] == items[j];
  }

  /** The protocol recorded for an inbound is that of the last item for it that has one. */
  lemma AddUserRecordsExactly(cache: Cache, call: Call, tag: string, kind: string)
    ensures Maps(Users.AddUser(cache, call).protocols, tag, kind) <==>
      || (exists i: nat :: LastKind(call.request.data, i, tag, kind))
      || (NoKind(call.request.data, tag) && Maps(cache.protocols, tag, kind))
  {
    KindsExactly(cache.protocols, call.request.data, tag, kind);
  }

  // ---- the state: AddUsers ------------------------------------------------------------------

  /** A bulk request makes known what it names, before the core is asked. */
  lemma AddUsersLearnsExactly(cache: Cache, request: AddUsersRequest, clientUp: bool, verdicts: BulkVerdicts, tag: string)
    ensures tag in Users.AddUsers(cache, request, clientUp, verdicts).known <==>
      tag in cache.known || (tag != "" && (tag in request.affected || NamedBy(request.users, |request.users|, tag)))
  {
    var known := Learn(cache, BulkTags(request));
    ItemTagsExactly(request.users, |request.users|, tag);
    if clientUp {
      forall u: nat | u < |request.users| ensures TagsIn(request.users[u].items) <= known.known {
        assert TagsIn(request.users[u].items) <= ItemTags(request.users, |request.users|);
      }
      BulkStepLearnsNothing(known, request.users, |request.users|, verdicts);
    }
  }

  /** Some item of the first `n` users is for this inbound. */
  predicate NamedBy(users: seq<BulkUser>, n: nat, tag: string) {
    exists u, i | 0 <= u < n && u < |users| && 0 <= i < |users[u].items| :: users[u].items[i].tag == tag
  }

  lemma {:induction false} ItemTagsExactly(users: seq<BulkUser>, n: nat, tag: string)
    requires n <= |users|
    ensures tag in ItemTags(users, n) <==> tag != "" && NamedBy(users, n, tag)
  {
    if n > 0 { ItemTagsExactly(users, n - 1, tag); }
  }

  lemma {:induction false} BulkStepLearnsNothing(cache: Cache, users: seq<BulkUser>, n: nat, verdicts: BulkVerdicts)
    requires n <= |users| && forall u: nat | u < |users| :: TagsIn(users[u].items) <= cache.known
    ensures BulkStep(cache, users, n, verdicts).known == cache.known
  {
    if n > 0 {
      BulkStepLearnsNothing(cache, users, n - 1, verdicts);
      var before := BulkStep(cache, users, n - 1, verdicts);
      BulkUserLearnsNothing(before, users[n - 1], Row(verdicts, n - 1));
      assert BulkStep(cache, users, n, verdicts) == Users.AddBulkUser(before, users[n - 1], Row(verdicts, n - 1));
    }
  }

  /** The items of the first `n` users, one after the other. */
  function AllItems(users: seq<BulkUser>, n: nat): seq<Item>
    requires n <= |users|
  {
    if n == 0 then [] else AllItems(users, n - 1) + users[n - 1].items
  }

  lemma {:induction false} KindsOfMore(protocols: map<string, string>, a: seq<Item>, b: seq<Item>)
    ensures Kinds(Kinds(protocols, a), b) == Kinds(protocols, a + b)
  {
    if b == [] {
      assert a + b == a;
    } else {
      KindsOfMore(protocols, a, b[..|b| - 1]);
      assert (a + b)[..|a + b| - 1] == a + b[..|b| - 1];
    }
  }

  lemma {:induction false} BulkStepRecords(cache: Cache, users: seq<BulkUser>, n: nat, verdicts: BulkVerdicts)
    requires n <= |users|
    ensures BulkStep(cache, users, n, verdicts).protocols == Kinds(cache.protocols, AllItems(users, n))
  {
    if n > 0 {
      BulkStepRecords(cache, users, n - 1, verdicts);
      BulkUserRecords(BulkStep(cache, users, n - 1, verdicts), users[n - 1], Row(verdicts, n - 1));
      KindsOfMore(cache.protocols, AllItems(users, n - 1), users[n - 1].items);
    }
  }

  lemma BulkUserRecords(cache: Cache, user: BulkUser, verdicts: Verdicts)
    ensures Users.AddBulkUser(cache, user, verdicts).protocols == Kinds(cache.protocols, user.items)
  {
  }

  /** A bulk request records the protocols of its items in the order of the users, accepted or not,
      but only if the core is up. */
  lemma AddUsersRecordsExactly(cache: Cache, request: AddUsersRequest, clientUp: bool, verdicts: BulkVerdicts,
                               tag: string, kind: string)
    ensures var items := if clientUp then AllItems(request.users, |request.users|) else [];
      Maps(Users.AddUsers(cache, request, clientUp, verdicts).protocols, tag, kind) <==>
      || (exists i: nat :: LastKind(items, i, tag, kind))
      || (NoKind(items, tag) && Maps(cache.protocols, tag, kind))
  {
    if clientUp {
      BulkStepRecords(Learn(cache, BulkTags(request)), request.users, |request.users|, verdicts);
      KindsExactly(cache.protocols, AllItems(request.users, |request.users|), tag, kind);
    }
  }

  // ---- the state: RemoveUser and RemoveUsers ------------------------------------------------

  /** Removed users are tracked nowhere if the core is up; nothing else changes. */
  lemma RemoveExactly(cache: Cache, users: seq<RemovedUser>, clientUp: bool, tag: string)
    requires Tracked(cache)
    ensures var after := Handle(cache, Remove(users, clientUp));
      && UsersAt(after, tag)
         == UsersAt(cache, tag) - (if clientUp then set u | 0 <= u < |users| :: users[u].hashUuid else {})
      && after == cache.(users := after.users)
  {
    ForgottenEverywhere(cache, users, |users|, tag);
    ForgetUsersKeepsRest(cache, users, |users|);
  }

  lemma {:induction false} ForgetUsersKeepsRest(cache: Cache, users: seq<RemovedUser>, n: nat)
    requires n <= |users|
    ensures var after := ForgetUsers(cache, users, n); after == cache.(users := after.users)
  {
    if n > 0 { ForgetUsersKeepsRest(cache, users, n - 1); }
  }

  /** The flags, the version, the configuration and the hashes are the same. */
  predicate SameRest(cache: Cache, after: Cache) {
    && after.running == cache.running && after.statusCached == cache.statusCached && after.version == cache.version
    && after.config == cache.config && after.hashes == cache.hashes && after.hasHashes == cache.hasHashes
  }

  /** Adding users touches nothing but users, known inbounds and protocols. */
  lemma AdditionsKeepRest(cache: Cache, request: Request)
    requires request.Add? || request.AddMany?
    ensures SameRest(cache, Handle(cache, request))
  {
    match request
    case Add(call) => AddUserKeepsRest(cache, call);
    case AddMany(bulk, clientUp, verdicts) => AddUsersKeepsRest(cache, bulk, clientUp, verdicts);
  }

  lemma AddUserKeepsRest(cache: Cache, call: Call)
    ensures SameRest(cache, Users.AddUser(cache, call))
  {
  }

  lemma AddUsersKeepsRest(cache: Cache, request: AddUsersRequest, clientUp: bool, verdicts: BulkVerdicts)
    ensures SameRest(cache, Users.AddUsers(cache, request, clientUp, verdicts))
  {
    if clientUp {
      BulkStepKeepsRest(Learn(cache, BulkTags(request)), request.users, |request.users|, verdicts);
    }
  }

  lemma {:induction false} BulkStepKeepsRest(cache: Cache, users: seq<BulkUser>, n: nat, verdicts: BulkVerdicts)
    requires n <= |users|
    ensures SameRest(cache, BulkStep(cache, users, n, verdicts))
  {
    if n > 0 { BulkStepKeepsRest(cache, users, n - 1, verdicts); }
  }
}
