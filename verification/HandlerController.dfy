/** HandlerController: requests that add and remove users while the core may refuse any call. */
module HandlerController {
  import opened Wrappers
  import opened StateSpec
  import opened RuntimeState
  import opened Users
  import opened HandlerSpec

  class HandlerController {
    const state: RuntimeState

    /** Everything done outside the state so far. */
    ghost var effects: seq<Effect>

    ghost predicate Valid()
      reads this, state, state.Own()
    {
      state.Valid() && this !in state.Own()
    }

    constructor (state: RuntimeState)
      requires state.Valid()
      ensures this.state == state && Valid() && effects == [] && state.View() == old(state.View())
    {
      this.state := state;
      effects := [];
    }

    method RemoveOne(tag: string, username: string, userHash: string, refusals: Refusals) returns (err: Option<Error>)
      requires Valid()
      modifies this, state`inboundUsers
      ensures Valid() && state.View() == StateSpec.RemoveUser(old(state.View()), tag, userHash)
      ensures effects == old(effects) + [RemoveCall(tag, username)] && err == Answer(refusals, tag)
    {
      effects := effects + [RemoveCall(tag, username)];
      state.RemoveUserFromInbound(tag, userHash);
      err := Answer(refusals, tag);
    }

    method AddOne(item: Item, username: Option<string>, userHash: string, verdict: Option<Error>)
      returns (err: Option<Error>)
      requires Valid()
      modifies this, state`inboundUsers, state`knownInboundTag
      ensures Valid() && effects == old(effects) + [AddCallOf(item, username)] && err == verdict
      ensures state.View() ==
        if verdict.Some? then old(state.View()) else StateSpec.AddUser(old(state.View()), item.tag, userHash)
    {
      effects := effects + [AddCallOf(item, username)];
      err := verdict;
      if err.None? {
        state.AddUserToInbound(item.tag, userHash);
      }
    }

    /** The removal loop over the known inbounds; the state forgets the hash whatever the core says. */
    method RemoveFromAllKnownInbounds(username: string, userHash: string, refusals: Refusals)
      returns (success: bool, firstErr: Option<Error>)
      requires Valid()
      modifies this, state`inboundUsers
      ensures Valid() && state.View() == ForgetKnown(old(state.View()), userHash)
      ensures var tags := InOrder(old(state.View()).known);
        && effects == RemoveCalls(old(effects), tags, |tags|, username)
        && Reply(success, firstErr) == RemoveReply(tags, refusals)
    {
      var tags := state.KnownInboundTags();
      success, firstErr := RemoveFrom(tags, username, userHash, refusals);
    }

    method RemoveFrom(tags: seq<string>, username: string, userHash: string, refusals: Refusals)
      returns (success: bool, firstErr: Option<Error>)
      requires Valid()
      modifies this, state`inboundUsers
      ensures Valid() && state.View() == ForgetEach(old(state.View()), tags, |tags|, userHash)
      ensures effects == RemoveCalls(old(effects), tags, |tags|, username)
      ensures Reply(success, firstErr) == RemoveReply(tags, refusals)
    {
      success, firstErr := false, None;
      ghost var before := state.View();
      for i := 0 to |tags|
        invariant Valid() && state.View() == ForgetEach(before, tags, i, userHash)
        invariant effects == RemoveCalls(old(effects), tags, i, username)
        invariant success == SomeRemoved(tags, refusals, i)
        invariant firstErr == FirstRefusal(tags, refusals, i)
      {
        var err := RemoveOne(tags[i], username, userHash, refusals);
        if err.Some? {
          if firstErr.None? {
            firstErr := err;
          }
        } else {
          success := true;
        }
      }
    }

    /** The loop over the items of AddUser that makes their inbounds known. */
    method RegisterItems(items: seq<Item>)
      requires Valid()
      modifies state`knownInboundTag, state`inboundProtocols
      ensures Valid() && state.View() == Register(old(state.View()), items)
    {
      for i := 0 to |items|
        invariant Valid() && state.View() == Register(old(state.View()), items[..i])
      {
        assert items[..i + 1] == items[..i] + [items[i]];
        RegisterOneMore(old(state.View()), items, i);
        state.AddKnownInboundTag(items[i].tag);
        state.SetInboundProtocol(items[i].tag, items[i].kind);
      }
      assert items[..|items|] == items;
    }

    /** Drop the connections the user had; a failure is only logged. */
    method DropConnections(ips: seq<string>)
      requires Valid()
      modifies this
      ensures Valid() && effects == DropCalls(old(effects), ips, |ips|)
    {
      for i := 0 to |ips|
        invariant effects == DropCalls(old(effects), ips, i)
      {
        effects := effects + [DropIP(ips[i])];
      }
    }

    /** The addition loop of AddUser. */
    method AddItems(items: seq<Item>, username: Option<string>, userHash: string, verdicts: Verdicts)
      returns (success: bool, firstErr: Option<Error>)
      requires Valid()
      modifies this, state`inboundUsers, state`knownInboundTag
      ensures Valid() && state.View() == AdmitEach(old(state.View()), items, |items|, verdicts, userHash)
      ensures effects == AddCalls(old(effects), items, |items|, username)
      ensures success == SomeSucceeds(verdicts, |items|) && firstErr == FirstError(verdicts, |items|)
    {
      success, firstErr := false, None;
      ghost var before := state.View();
      for i := 0 to |items|
        invariant Valid() && state.View() == AdmitEach(before, items, i, verdicts, userHash)
        invariant effects == AddCalls(old(effects), items, i, username)
        invariant success == SomeSucceeds(verdicts, i) && firstErr == FirstError(verdicts, i)
      {
        var err := AddOne(items[i], username, userHash, Answer(verdicts, i));
        if err.Some? {
          if firstErr.None? {
            firstErr := err;
          }
        } else {
          success := true;
        }
      }
    }

    /** AddUser; a request that does not decode is None. `ips` are the addresses the core reports
        for the user, none if it cannot tell. */
    method AddUser(request: Option<AddUserRequest>, clientUp: bool, ips: seq<string>, refusals: Refusals, verdicts: Verdicts)
      returns (reply: Reply)
      requires Valid()
      modifies this, state`inboundUsers, state`knownInboundTag, state`inboundProtocols
      ensures Valid()
      ensures request.None? ==> reply == Reply(false, Some(BadRequest)) && state.View() == old(state.View())
      ensures request.Some? ==>
        && reply == AddUserReply(Call(request.value, clientUp, verdicts))
        && state.View() == Handle(old(state.View()), Add(Call(request.value, clientUp, verdicts)))
      ensures request.None? || request.value.data == [] || !clientUp ==> effects == old(effects)
      ensures request.Some? && request.value.data != [] && clientUp ==>
        effects == SwapCalls(old(effects), request.value, old(state.View()).known + TagsIn(request.value.data), ips)
    {
      if request.None? {
        return Reply(false, Some(BadRequest));
      }
      if request.value.data == [] {
        assert Register(state.View(), []) == state.View();
        return Reply(true, None);
      }
      RegisterItems(request.value.data);
      if !clientUp {
        return Reply(false, Some(CoreDown));
      }
      ghost var before := state.View();
      reply := SwapUser(request.value, ips, refusals, verdicts);
      SwapStepByStep(before, RemoveHash(request.value), request.value.uuid, request.value.data, verdicts);
    }

    /** AddUser once the inbounds are registered and the client is there. */
    method SwapUser(request: AddUserRequest, ips: seq<string>, refusals: Refusals, verdicts: Verdicts)
      returns (reply: Reply)
      requires Valid() && request.data != []
      modifies this, state`inboundUsers, state`knownInboundTag
      ensures Valid() && reply == AddUserReply(Call(request, true, verdicts))
      ensures state.View() == AdmitEach(ForgetKnown(old(state.View()), RemoveHash(request)),
                                        request.data, |request.data|, verdicts, request.uuid)
      ensures effects == SwapCalls(old(effects), request, old(state.View()).known, ips)
    {
      ReplaceUser(request, ips, refusals);
      var success, firstErr := AddItems(request.data, None, request.uuid, verdicts);
      FirstOfAll(verdicts, |request.data|);
      reply := Reply(success, ErrIf(!success, firstErr));
    }

    /** The hash to remove, and the addresses to drop if it is the user's previous one. */
    method PreviousUser(request: AddUserRequest, ips: seq<string>) returns (removeHash: string, reconnectIPs: seq<string>)
      requires Valid() && request.data != []
      modifies this
      ensures Valid() && removeHash == RemoveHash(request)
      ensures effects == old(effects) + LookUps(request) && reconnectIPs == Reconnects(request, ips)
    {
      removeHash, reconnectIPs := request.uuid, [];
      if request.previous.Some? && request.previous.value != "" {
        removeHash := request.previous.value;
        effects := effects + [LookUpIPs(request.data[0].username)];
        reconnectIPs := ips;
      }
    }

    /** AddUser between the registration of the inbounds and the additions. */
    method ReplaceUser(request: AddUserRequest, ips: seq<string>, refusals: Refusals)
      requires Valid() && request.data != []
      modifies this, state`inboundUsers
      ensures Valid() && state.View() == ForgetKnown(old(state.View()), RemoveHash(request))
      ensures effects == ReplaceCalls(old(effects), request, old(state.View()).known, ips)
    {
      var removeHash, reconnectIPs := PreviousUser(request, ips);
      var tags := state.KnownInboundTags();
      var _, _ := RemoveFrom(tags, request.data[0].username, removeHash, refusals);
      DropConnections(reconnectIPs);
    }

    /** The item loop of AddUsers, for one user. */
    method AddBulkItems(items: seq<Item>, userId: string, userHash: string, verdicts: Verdicts)
      returns (success: bool, firstErr: Option<Error>)
      requires Valid()
      modifies this, state`inboundUsers, state`knownInboundTag, state`inboundProtocols
      ensures Valid() && state.View() == BulkEach(old(state.View()), items, |items|, verdicts, userHash)
      ensures effects == AddCalls(old(effects), items, |items|, Some(userId))
      ensures success == SomeSucceeds(verdicts, |items|) && firstErr == FirstError(verdicts, |items|)
    {
      success, firstErr := false, None;
      ghost var before := state.View();
      for i := 0 to |items|
        invariant Valid() && state.View() == BulkEach(before, items, i, verdicts, userHash)
        invariant effects == AddCalls(old(effects), items, i, Some(userId))
        invariant success == SomeSucceeds(verdicts, i) && firstErr == FirstError(verdicts, i)
      {
        var err := AddBulkItem(items[i], userId, userHash, Answer(verdicts, i));
        if err.Some? {
          if firstErr.None? {
            firstErr := err;
          }
        } else {
          success := true;
        }
      }
    }

    method AddBulkItem(item: Item, userId: string, userHash: string, verdict: Option<Error>) returns (err: Option<Error>)
      requires Valid()
      modifies this, state`inboundUsers, state`knownInboundTag, state`inboundProtocols
      ensures Valid() && effects == old(effects) + [AddCallOf(item, Some(userId))] && err == verdict
      ensures var registered := SetProtocol(old(state.View()), item.tag, item.kind);
        state.View() == if verdict.Some? then registered else StateSpec.AddUser(registered, item.tag, userHash)
    {
      state.SetInboundProtocol(item.tag, item.kind);
      err := AddOne(item, Some(userId), userHash, verdict);
    }

    method LearnItemTags(items: seq<Item>)
      requires Valid()
      modifies state`knownInboundTag
      ensures Valid() && state.View() == Learn(old(state.View()), TagsIn(items))
    {
      ghost var before := state.View();
      for i := 0 to |items|
        invariant Valid() && state.View() == Learn(before, TagsIn(items[..i]))
      {
        assert items[..i + 1] == items[..i] + [items[i]];
        assert TagsIn(items[..i + 1]) == TagsIn(items[..i]) + if items[i].tag == "" then {} else {items[i].tag};
        state.AddKnownInboundTag(items[i].tag);
      }
      assert items[..|items|] == items;
    }

    /** The first loops of AddUsers. */
    method LearnBulkTags(request: AddUsersRequest)
      requires Valid()
      modifies state`knownInboundTag
      ensures Valid() && state.View() == Learn(old(state.View()), BulkTags(request))
    {
      ghost var before := state.View();
      state.AddKnownInboundTags(request.affected);
      for u := 0 to |request.users|
        invariant Valid() && state.View() == Learn(before, NonEmpty(request.affected) + ItemTags(request.users, u))
      {
        LearnItemTags(request.users[u].items);
        LearnTwice(before, NonEmpty(request.affected) + ItemTags(request.users, u), TagsIn(request.users[u].items));
        assert NonEmpty(request.affected) + ItemTags(request.users, u) + TagsIn(request.users[u].items)
            == NonEmpty(request.affected) + ItemTags(request.users, u + 1);
      }
    }

    /** One turn of the user loop of AddUsers. */
    method AddBulkUser(user: BulkUser, refusals: Refusals, verdicts: Verdicts)
      returns (success: bool, firstErr: Option<Error>)
      requires Valid() && TagsIn(user.items) <= state.View().known
      modifies this, state`inboundUsers, state`knownInboundTag, state`inboundProtocols
      ensures Valid() && state.View() == Users.AddBulkUser(old(state.View()), user, verdicts)
      ensures effects == BulkCalls(old(effects), user, InOrder(old(state.View()).known))
      ensures success == SomeSucceeds(verdicts, |user.items|) && firstErr == FirstError(verdicts, |user.items|)
    {
      ghost var before := state.View();
      var tags := state.KnownInboundTags();
      var _, _ := RemoveFrom(tags, user.userId, user.hashUuid, refusals);
      success, firstErr := AddBulkItems(user.items, user.userId, user.vlessUuid, verdicts);
      BulkStepByStep(before, user, verdicts);
    }

    /** AddUsers: the removals go over the inbounds known once the request's own are registered. */
    method AddUsers(request: Option<AddUsersRequest>, clientUp: bool, refusals: BulkRefusals, verdicts: BulkVerdicts)
      returns (reply: Reply)
      requires Valid()
      modifies this, state`inboundUsers, state`knownInboundTag, state`inboundProtocols
      ensures Valid()
      ensures request.None? ==> reply == Reply(false, Some(BadRequest)) && state.View() == old(state.View())
      ensures request.Some? ==>
        && reply == AddUsersReply(request.value.users, clientUp, verdicts)
        && state.View() == Handle(old(state.View()), AddMany(request.value, clientUp, verdicts))
      ensures request.None? || !clientUp ==> effects == old(effects)
      ensures request.Some? && clientUp ==>
        effects == AllBulkCalls(old(effects), request.value.users,
                                InOrder(old(state.View()).known + BulkTags(request.value)), |request.value.users|)
    {
      if request.None? {
        return Reply(false, Some(BadRequest));
      }
      LearnBulkTags(request.value);
      if !clientUp {
        return Reply(false, Some(CoreDown));
      }
      reply := AddAllUsers(request.value.users, refusals, verdicts);
    }

    /** The user loop of AddUsers. */
    method AddAllUsers(users: seq<BulkUser>, refusals: BulkRefusals, verdicts: BulkVerdicts)
      returns (reply: Reply)
      requires Valid() && ItemTags(users, |users|) <= state.View().known
      modifies this, state`inboundUsers, state`knownInboundTag, state`inboundProtocols
      ensures Valid() && state.View() == BulkStep(old(state.View()), users, |users|, verdicts)
      ensures reply == AddUsersReply(users, true, verdicts)
      ensures effects == AllBulkCalls(old(effects), users, InOrder(old(state.View()).known), |users|)
    {
      var success, firstErr := false, None;
      ghost var before := state.View();
      for u := 0 to |users|
        invariant Valid() && state.View() == BulkStep(before, users, u, verdicts) && state.View().known == before.known
        invariant effects == AllBulkCalls(old(effects), users, InOrder(before.known), u)
        invariant success == SomeAdded(users, verdicts, u) && firstErr == FirstFailure(users, verdicts, u)
      {
        ghost var now := state.View();
        var added, err := AddBulkUser(users[u], ForUser(refusals, u), Row(verdicts, u));
        BulkUserLearnsNothing(now, users[u], Row(verdicts, u));
        success := success || added;
        firstErr := if firstErr.Some? then firstErr else err;
      }
      reply := Reply(success || users == [], ErrIf(!success && users != [], firstErr));
    }

    /** RemoveUser. With no known inbounds there is nothing to remove, and the core is not asked. */
    method RemoveUser(request: Option<RemovedUser>, clientUp: bool, refusals: Refusals) returns (reply: Reply)
      requires Valid()
      modifies this, state`inboundUsers
      ensures Valid() && state.View() ==
        if request.None? then old(state.View()) else Handle(old(state.View()), Remove([request.value], clientUp))
      ensures request.None? ==> reply == Reply(false, Some(BadRequest))
      ensures request.Some? && old(state.View()).known == {} ==> reply == Reply(true, None)
      ensures request.Some? && old(state.View()).known != {} && !clientUp ==> reply == Reply(false, Some(CoreDown))
      ensures request.None? || old(state.View()).known == {} || !clientUp ==> effects == old(effects)
      ensures request.Some? && old(state.View()).known != {} && clientUp ==>
        var tags := InOrder(old(state.View()).known);
        && effects == RemoveCalls(old(effects), tags, |tags|, request.value.userId)
        && reply == RemoveReply(tags, refusals)
    {
      if request.None? {
        return Reply(false, Some(BadRequest));
      }
      var tags := state.KnownInboundTags();
      InOrderLists(state.View().known);
      if |tags| == 0 {
        return Reply(true, None);
      }
      if !clientUp {
        return Reply(false, Some(CoreDown));
      }
      ForgetOneUser(state.View(), request.value);
      var success, firstErr := RemoveFromAllKnownInbounds(request.value.userId, request.value.hashUuid, refusals);
      reply := Reply(success, firstErr);
    }

    /** RemoveUsers. A user counts as removed if some inbound let go of it. */
    method RemoveUsers(request: Option<seq<RemovedUser>>, clientUp: bool, refusals: BulkRefusals) returns (reply: Reply)
      requires Valid()
      modifies this, state`inboundUsers
      ensures Valid() && state.View() ==
        if request.None? then old(state.View()) else Handle(old(state.View()), Remove(request.value, clientUp))
      ensures request.None? ==> reply == Reply(false, Some(BadRequest))
      ensures request.Some? && old(state.View()).known == {} ==> reply == Reply(true, None)
      ensures request.Some? && old(state.View()).known != {} && !clientUp ==> reply == Reply(false, Some(CoreDown))
      ensures request.None? || old(state.View()).known == {} || !clientUp ==> effects == old(effects)
      ensures request.Some? && old(state.View()).known != {} && clientUp ==>
        var tags, n := InOrder(old(state.View()).known), |request.value|;
        && effects == AllRemoveCalls(old(effects), request.value, tags, n)
        && reply == RemoveAllReply(tags, refusals, n)
    {
      if request.None? {
        return Reply(false, Some(BadRequest));
      }
      var tags := state.KnownInboundTags();
      InOrderLists(state.View().known);
      if |tags| == 0 {
        return Reply(true, None);
      }
      if !clientUp {
        return Reply(false, Some(CoreDown));
      }
      ForgetEachUserIsForgetUsers(state.View(), request.value, |request.value|);
      reply := RemoveAllUsers(request.value, refusals);
    }

    method RemoveAllUsers(users: seq<RemovedUser>, refusals: BulkRefusals) returns (reply: Reply)
      requires Valid()
      modifies this, state`inboundUsers
      ensures Valid() && state.View() == ForgetEachUser(old(state.View()), users, |users|)
      ensures var tags := InOrder(old(state.View()).known);
        && effects == AllRemoveCalls(old(effects), users, tags, |users|)
        && reply == RemoveAllReply(tags, refusals, |users|)
    {
      var success, firstErr := true, None;
      ghost var before := state.View();
      ghost var tags := InOrder(before.known);
      for u := 0 to |users|
        invariant Valid() && state.View() == ForgetEachUser(before, users, u) && state.View().known == before.known
        invariant effects == AllRemoveCalls(old(effects), users, tags, u)
        invariant Reply(success, firstErr) == RemoveAllReply(tags, refusals, u)
      {
        ForgetKnownLearnsNothing(state.View(), users[u].hashUuid);
        var userSuccess, err := RemoveFromAllKnownInbounds(users[u].userId, users[u].hashUuid, ForUser(refusals, u));
        if !userSuccess {
          success := false;
          if firstErr.None? {
            firstErr := err;
          }
        }
      }
      reply := Reply(success, firstErr);
    }
  }
}
