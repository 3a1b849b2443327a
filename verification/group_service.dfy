/** The group membership engine: creation with the creator as sole member,
    updates and deletion guarded by the actor's membership, the join-request
    queue, approval, promotion, demotion and removal. Authority comes from the
    numeric `level` of the actor's first member entry, with two exceptions:
    approval accepts any entry of the actor with a high enough level, and
    deletion asks for the role name "creator". There is no separate manager list:
    promotion and demotion rewrite the target's member entry in place. */
module GroupService {
  import opened Common
  import GroupRoles
  import opened GroupModel

  /** `censor && censor.level >= GroupRole.admin.level` on the actor's first entry:
      may update the group. */
  predicate CanAdminister(ms: seq<Member>, actor: UserId) {
    var c := FindMember(ms, actor);
    c.Some? && c.value.level >= GroupRoles.Admin().level
  }

  /** `members.some(m => m.user === actor && m.level >= admin.level)`: may
      approve join requests. Unlike `CanAdminister` any entry of the actor will do. */
  predicate SomeEntryAdministers(ms: seq<Member>, actor: UserId) {
    exists i :: 0 <= i < |ms| && ms[i].user == actor && ms[i].level >= GroupRoles.Admin().level
  }

  /** `censor && censor.level > user.level`: the actor's first entry ranks
      strictly above the target's first entry. */
  predicate Outranks(ms: seq<Member>, actor: UserId, target: UserId)
    requires IsMember(ms, target)
  {
    var c := FindMember(ms, actor);
    c.Some? && c.value.level > FindMember(ms, target).value.level
  }

  /** The level of a user's first member entry; the caller knows there is one. */
  function LevelOf(ms: seq<Member>, u: UserId): int
    requires IsMember(ms, u)
  {
    FindMember(ms, u).value.level
  }

  /** `createGroup`: the name and code must be free; the new group holds the
      creator as its only member, with role "creator" and level 3, and no
      requests. `newId` is the fresh id the store assigns. */
  function CreateGroup(db: Store, userId: UserId, fields: GroupFields, newId: GroupId): (r: Result<Store, GroupError>)
    requires newId !in db.groups
    ensures userId !in db.users ==> r == Err(UserNotFound)
    ensures userId in db.users && Taken(db.groups, fields, None) ==> r == Err(NameOrCodeTaken)
    ensures r.Ok? <==> userId in db.users && !Taken(db.groups, fields, None)
    ensures r.Ok? ==>
              && r.value.users == db.users
              && r.value.groups.Keys == db.groups.Keys + {newId}
              && (forall id :: id in db.groups ==> r.value.groups[id] == db.groups[id])
    ensures r.Ok? ==>
              var g := r.value.groups[newId];
              && g.name == fields.name && g.code == fields.code && g.description == fields.description
              && |g.members| == 1 && g.members[0].user == userId
              && g.members[0].role == GroupRoles.Creator().value && g.members[0].level == GroupRoles.Creator().level
              && g.requests == []
  {
    if userId !in db.users then Err(UserNotFound)
    else if Taken(db.groups, fields, None) then Err(NameOrCodeTaken)
    else
      var creator := GroupRoles.Creator();
      var g := Group(fields.name, fields.code, fields.description, [Member(userId, creator.value, creator.level)], []);
      Ok(Save(db, newId, g))
  }

  /** `updateGroup`: the actor's first entry needs level 2 or more, and no
      other group may use the new name or code; the group keeps its own. */
  function UpdateGroup(db: Store, actor: UserId, groupId: GroupId, fields: GroupFields): (r: Result<Store, GroupError>)
    ensures groupId !in db.groups ==> r == Err(GroupNotFound)
    ensures groupId in db.groups && actor !in db.users ==> r == Err(UserNotFound)
    ensures groupId in db.groups && actor in db.users && !CanAdminister(db.groups[groupId].members, actor)
            ==> r == Err(NoPermission)
    ensures r.Ok? <==> && groupId in db.groups && actor in db.users
                       && CanAdminister(db.groups[groupId].members, actor)
                       && !Taken(db.groups, fields, Some(groupId))
    ensures r.Err? ==> r.error in {GroupNotFound, UserNotFound, NoPermission, NameOrCodeTaken}
    ensures r.Ok? ==>
              && OnlyGroupChanged(db, r.value, groupId)
              && var (g, g') := (db.groups[groupId], r.value.groups[groupId]);
              && g'.name == fields.name && g'.code == fields.code && g'.description == fields.description
              && g'.members == g.members && g'.requests == g.requests
  {
    if groupId !in db.groups then Err(GroupNotFound)
    else if actor !in db.users then Err(UserNotFound)
    else
      var g := db.groups[groupId];
      if !CanAdminister(g.members, actor) then Err(NoPermission)
      else if Taken(db.groups, fields, Some(groupId)) then Err(NameOrCodeTaken)
      else Ok(Save(db, groupId, g.(name := fields.name, code := fields.code, description := fields.description)))
  }

  /** `deleteGroup`: only an actor whose first entry carries the role name
      "creator" may delete; the level is not consulted. */
  function DeleteGroup(db: Store, actor: UserId, groupId: GroupId): (r: Result<Store, GroupError>)
    ensures groupId !in db.groups ==> r == Err(GroupNotFound)
    ensures groupId in db.groups && actor !in db.users ==> r == Err(UserNotFound)
    ensures r.Ok? <==> && groupId in db.groups && actor in db.users
                       && IsMember(db.groups[groupId].members, actor)
                       && FindMember(db.groups[groupId].members, actor).value.role == GroupRoles.Creator().value
    ensures r.Err? ==> r.error in {GroupNotFound, UserNotFound, NoPermission}
    ensures r.Ok? ==> r.value.users == db.users && r.value.groups.Keys == db.groups.Keys - {groupId}
                      && forall id :: id in r.value.groups ==> r.value.groups[id] == db.groups[id]
  {
    if groupId !in db.groups then Err(GroupNotFound)
    else if actor !in db.users then Err(UserNotFound)
    else
      var c := FindMember(db.groups[groupId].members, actor);
      if c.None? || c.value.role != GroupRoles.Creator().value then Err(NoPermission)
      else Ok(db.(groups := db.groups - {groupId}))
  }

  /** `joinGroup`: refused when the user already has a pending request or is
      already a member; otherwise exactly one request is put at the head of the
      queue. */
  function JoinGroup(db: Store, userId: UserId, groupId: GroupId): (r: Result<Store, GroupError>)
    ensures groupId !in db.groups ==> r == Err(GroupNotFound)
    ensures groupId in db.groups && userId !in db.users ==> r == Err(UserNotFound)
    ensures groupId in db.groups && userId in db.users && Ref(userId) in db.groups[groupId].requests
            ==> r == Err(AlreadyRequested)
    ensures (groupId in db.groups && userId in db.users && Ref(userId) !in db.groups[groupId].requests
             && IsMember(db.groups[groupId].members, userId)) ==> r == Err(AlreadyMember)
    ensures r.Ok? <==> && groupId in db.groups && userId in db.users
                       && Ref(userId) !in db.groups[groupId].requests
                       && !IsMember(db.groups[groupId].members, userId)
    ensures r.Ok? ==>
              && OnlyGroupChanged(db, r.value, groupId)
              && var (g, g') := (db.groups[groupId], r.value.groups[groupId]);
              && g'.members == g.members
              && |g'.requests| == |g.requests| + 1
              && g'.requests[0] == Ref(userId) && g'.requests[1..] == g.requests
              && g' == g.(requests := g'.requests)
  {
    if groupId !in db.groups then Err(GroupNotFound)
    else if userId !in db.users then Err(UserNotFound)
    else
      var g := db.groups[groupId];
      if Ref(userId) in g.requests then Err(AlreadyRequested)
      else if IsMember(g.members, userId) then Err(AlreadyMember)
      else Ok(Save(db, groupId, g.(requests := [Ref(userId)] + g.requests)))
  }

  /** `approveJoinRequest`: the censor needs an entry of level 2 or more and
      the user a pending request; every request of the user is removed and one
      default member entry (role "member", level 0) is put at the head of the
      member list. */
  function ApproveJoinRequest(db: Store, censor: UserId, userId: UserId, groupId: GroupId): (r: Result<Store, GroupError>)
    ensures groupId !in db.groups ==> r == Err(GroupNotFound)
    ensures groupId in db.groups && (censor !in db.users || !SomeEntryAdministers(db.groups[groupId].members, censor))
            ==> r == Err(NoPermission)
    ensures r.Ok? <==> && groupId in db.groups && censor in db.users
                       && SomeEntryAdministers(db.groups[groupId].members, censor)
                       && userId in db.users && Ref(userId) in db.groups[groupId].requests
    ensures r.Err? ==> r.error in {GroupNotFound, NoPermission, UserNotFound, NoPendingRequest}
    ensures r.Ok? ==>
              && OnlyGroupChanged(db, r.value, groupId)
              && var (g, g') := (db.groups[groupId], r.value.groups[groupId]);
              && Ref(userId) !in g'.requests
              && (forall q :: q in g'.requests <==> q in g.requests && q != Ref(userId))
              && g'.requests == Without(g.requests, userId)
              && |g'.members| == |g.members| + 1
              && g'.members[0] == DefaultMember(userId) && g'.members[1..] == g.members
              && g'.name == g.name && g'.code == g.code && g'.description == g.description
  {
    if groupId !in db.groups then Err(GroupNotFound)
    else
      var g := db.groups[groupId];
      if censor !in db.users || !SomeEntryAdministers(g.members, censor) then Err(NoPermission)
      else if userId !in db.users then Err(UserNotFound)
      else if Ref(userId) !in g.requests then Err(NoPendingRequest)
      else Ok(Save(db, groupId, g.(requests := Without(g.requests, userId),
                                   members := [DefaultMember(userId)] + g.members)))
  }

  /** `addManager`, as written: the actor's first entry needs a level of at
      least the level of the requested role, and the target must be a member;
      every entry of the target is then set to that role and its level. The
      target's own rank is not compared with the actor's. */
  function AddManager(db: Store, actor: UserId, target: UserId, groupId: GroupId, role: string): (r: Result<Store, GroupError>)
    ensures groupId !in db.groups ==> r == Err(GroupNotFound)
    ensures groupId in db.groups && actor !in db.users ==> r == Err(UserNotFound)
    ensures r.Ok? <==> && groupId in db.groups && actor in db.users
                       && IsMember(db.groups[groupId].members, actor)
                       && LevelOf(db.groups[groupId].members, actor) >= GroupRoles.LevelFromString(role)
                       && IsMember(db.groups[groupId].members, target)
    ensures r.Err? ==> r.error in {GroupNotFound, UserNotFound, NoPermission, NotAMember}
    ensures r.Ok? ==>
              && OnlyGroupChanged(db, r.value, groupId)
              && var (g, g') := (db.groups[groupId], r.value.groups[groupId]);
              && |g'.members| == |g.members|
              && (forall i :: 0 <= i < |g.members| && g.members[i].user == target ==>
                    g'.members[i] == Member(target, role, GroupRoles.LevelFromString(role)))
              && (forall i :: 0 <= i < |g.members| && g.members[i].user != target ==> g'.members[i] == g.members[i])
              && g' == g.(members := g'.members)
  {
    if groupId !in db.groups then Err(GroupNotFound)
    else if actor !in db.users then Err(UserNotFound)
    else
      var g := db.groups[groupId];
      var c := FindMember(g.members, actor);
      if c.None? || c.value.level < GroupRoles.LevelFromString(role) then Err(NoPermission)
      else if !IsMember(g.members, target) then Err(NotAMember)
      else Ok(Save(db, groupId, g.(members := Retag(g.members, target, role, GroupRoles.LevelFromString(role)))))
  }

  /** `addManager` with the rank comparison the rest of the service uses for
      acting on another member: besides the checks of `AddManager`, the actor
      must outrank the target. */
  function AddManagerChecked(db: Store, actor: UserId, target: UserId, groupId: GroupId, role: string): (r: Result<Store, GroupError>)
    ensures r.Ok? <==> && AddManager(db, actor, target, groupId, role).Ok?
                       && Outranks(db.groups[groupId].members, actor, target)
    ensures r.Ok? ==> r == AddManager(db, actor, target, groupId, role)
    ensures r.Ok? ==> LevelOf(db.groups[groupId].members, target) < LevelOf(db.groups[groupId].members, actor)
  {
    if groupId !in db.groups then Err(GroupNotFound)
    else if actor !in db.users then Err(UserNotFound)
    else
      var g := db.groups[groupId];
      var c := FindMember(g.members, actor);
      if c.None? || c.value.level < GroupRoles.LevelFromString(role) then Err(NoPermission)
      else if !IsMember(g.members, target) then Err(NotAMember)
      else if !Outranks(g.members, actor, target) then Err(NoPermission)
      else Ok(Save(db, groupId, g.(members := Retag(g.members, target, role, GroupRoles.LevelFromString(role)))))
  }

  /** `deleteManager`: the target must be a member and the actor must outrank
      it; every entry of the target is reset to role "member", level 0. */
  function DeleteManager(db: Store, actor: UserId, target: UserId, groupId: GroupId): (r: Result<Store, GroupError>)
    ensures groupId !in db.groups ==> r == Err(GroupNotFound)
    ensures groupId in db.groups && actor !in db.users ==> r == Err(UserNotFound)
    ensures groupId in db.groups && actor in db.users && !IsMember(db.groups[groupId].members, target)
            ==> r == Err(NotAMember)
    ensures r.Ok? <==> && groupId in db.groups && actor in db.users
                       && IsMember(db.groups[groupId].members, target)
                       && Outranks(db.groups[groupId].members, actor, target)
    ensures r.Ok? ==> actor != target
    ensures r.Ok? ==>
              && OnlyGroupChanged(db, r.value, groupId)
              && var (g, g') := (db.groups[groupId], r.value.groups[groupId]);
              && |g'.members| == |g.members|
              && (forall i :: 0 <= i < |g.members| && g.members[i].user == target ==>
                    g'.members[i] == DefaultMember(target))
              && (forall i :: 0 <= i < |g.members| && g.members[i].user != target ==> g'.members[i] == g.members[i])
              && g' == g.(members := g'.members)
  {
    if groupId !in db.groups then Err(GroupNotFound)
    else if actor !in db.users then Err(UserNotFound)
    else
      var g := db.groups[groupId];
      if !IsMember(g.members, target) then Err(NotAMember)
      else if !Outranks(g.members, actor, target) then Err(NoPermission)
      else
        var m := GroupRoles.Member();
        Ok(Save(db, groupId, g.(members := Retag(g.members, target, m.value, m.level))))
  }

  /** `getMemberList`: the member list of an existing group. */
  function GetMemberList(db: Store, groupId: GroupId): (r: Result<seq<Member>, GroupError>)
    ensures r.Err? <==> groupId !in db.groups
    ensures r.Err? ==> r.error == GroupNotFound
    ensures r.Ok? ==> r.value == db.groups[groupId].members
  {
    if groupId !in db.groups then Err(GroupNotFound) else Ok(db.groups[groupId].members)
  }

  /** `deleteMember`: the same guard as `deleteManager`; every entry of the
      target is filtered out and the other entries keep their order. */
  function DeleteMember(db: Store, actor: UserId, target: UserId, groupId: GroupId): (r: Result<Store, GroupError>)
    ensures groupId !in db.groups ==> r == Err(GroupNotFound)
    ensures groupId in db.groups && actor !in db.users ==> r == Err(UserNotFound)
    ensures groupId in db.groups && actor in db.users && !IsMember(db.groups[groupId].members, target)
            ==> r == Err(NotAMember)
    ensures r.Ok? <==> && groupId in db.groups && actor in db.users
                       && IsMember(db.groups[groupId].members, target)
                       && Outranks(db.groups[groupId].members, actor, target)
    ensures r.Ok? ==> actor != target
    ensures r.Ok? ==>
              && OnlyGroupChanged(db, r.value, groupId)
              && var (g, g') := (db.groups[groupId], r.value.groups[groupId]);
              && !IsMember(g'.members, target)
              && (forall m :: m in g'.members <==> m in g.members && m.user != target)
              && g'.members == DropMember(g.members, target)
              && g' == g.(members := g'.members)
  {
    if groupId !in db.groups then Err(GroupNotFound)
    else if actor !in db.users then Err(UserNotFound)
    else
      var g := db.groups[groupId];
      if !IsMember(g.members, target) then Err(NotAMember)
      else if !Outranks(g.members, actor, target) then Err(NoPermission)
      else Ok(Save(db, groupId, g.(members := DropMember(g.members, target))))
  }
}
