/** The older group service: creation, update and deletion with name and
    code uniqueness, and no membership or permission checks at all. */
module LegacyGroupService {
  import opened Common
  import opened GroupModel

  /** `createGroup`: the name and code must be free; the group is built from
      the request fields alone, so it starts with no members and no requests.
      `newId` is the fresh id the store assigns. */
  function CreateGroup(db: Store, userId: UserId, fields: GroupFields, newId: GroupId): (r: Result<Store, GroupError>)
    requires newId !in db.groups
    ensures userId !in db.users ==> r == Err(UserNotFound)
    ensures r.Ok? <==> userId in db.users && !Taken(db.groups, fields, None)
    ensures r.Err? ==> r.error in {UserNotFound, NameOrCodeTaken}
    ensures r.Ok? ==>
              && r.value.users == db.users
              && r.value.groups.Keys == db.groups.Keys + {newId}
              && (forall id :: id in db.groups ==> r.value.groups[id] == db.groups[id])
              && var g := r.value.groups[newId];
              && g.name == fields.name && g.code == fields.code && g.description == fields.description
              && g.members == [] && g.requests == []
  {
    if userId !in db.users then Err(UserNotFound)
    else if Taken(db.groups, fields, None) then Err(NameOrCodeTaken)
    else Ok(Save(db, newId, Group(fields.name, fields.code, fields.description, [], [])))
  }

  /** `updateGroup`: the group must exist, and only groups with a different id
      count as collisions, so a group may keep its own name and code. */
  function UpdateGroup(db: Store, groupId: GroupId, fields: GroupFields): (r: Result<Store, GroupError>)
    ensures groupId !in db.groups ==> r == Err(GroupNotFound)
    ensures r.Ok? <==> groupId in db.groups && !Taken(db.groups, fields, Some(groupId))
    ensures r.Err? ==> r.error in {GroupNotFound, NameOrCodeTaken}
    ensures r.Ok? ==>
              && OnlyGroupChanged(db, r.value, groupId)
              && var (g, g') := (db.groups[groupId], r.value.groups[groupId]);
              && g'.name == fields.name && g'.code == fields.code && g'.description == fields.description
              && g'.members == g.members && g'.requests == g.requests
  {
    if groupId !in db.groups then Err(GroupNotFound)
    else if Taken(db.groups, fields, Some(groupId)) then Err(NameOrCodeTaken)
    else Ok(Save(db, groupId, db.groups[groupId].(name := fields.name, code := fields.code, description := fields.description)))
  }

  /** `deleteGroup`: no permission check; it fails only when no group has the id. */
  function DeleteGroup(db: Store, groupId: GroupId): (r: Result<Store, GroupError>)
    ensures r.Err? <==> groupId !in db.groups
    ensures r.Err? ==> r.error == DeleteFailed
    ensures r.Ok? ==> r.value.users == db.users && r.value.groups.Keys == db.groups.Keys - {groupId}
                      && forall id :: id in r.value.groups ==> r.value.groups[id] == db.groups[id]
  {
    if groupId !in db.groups then Err(DeleteFailed) else Ok(db.(groups := db.groups - {groupId}))
  }

  /** A group may always be renamed to its own name and code, whatever the
      other groups are called, provided names and codes are unique. */
  lemma KeepingOwnNameIsNoCollision(db: Store, groupId: GroupId)
    requires groupId in db.groups && UniqueNamesAndCodes(db.groups)
    ensures var g := db.groups[groupId];
            UpdateGroup(db, groupId, GroupFields(g.name, g.code, g.description)).Ok?
  {
  }

  /** Creating, updating and deleting keep names and codes unique across groups. */
  lemma LegacyCallsKeepNamesUnique(db: Store, userId: UserId, groupId: GroupId, fields: GroupFields, newId: GroupId)
    requires UniqueNamesAndCodes(db.groups) && newId !in db.groups
    ensures var r := CreateGroup(db, userId, fields, newId); r.Ok? ==> UniqueNamesAndCodes(r.value.groups)
    ensures var r := UpdateGroup(db, groupId, fields); r.Ok? ==> UniqueNamesAndCodes(r.value.groups)
    ensures var r := DeleteGroup(db, groupId); r.Ok? ==> UniqueNamesAndCodes(r.value.groups)
  {
    var c := CreateGroup(db, userId, fields, newId);
    if c.Ok? {
      forall a, b | a in c.value.groups && b in c.value.groups && a != b
        ensures c.value.groups[a].name != c.value.groups[b].name && c.value.groups[a].code != c.value.groups[b].code
      {
        if a == newId {
          assert !(db.groups[b].name == fields.name || db.groups[b].code == fields.code);
        } else if b == newId {
          assert !(db.groups[a].name == fields.name || db.groups[a].code == fields.code);
        }
      }
    }
    var u := UpdateGroup(db, groupId, fields);
    if u.Ok? {
      forall a, b | a in u.value.groups && b in u.value.groups && a != b
        ensures u.value.groups[a].name != u.value.groups[b].name && u.value.groups[a].code != u.value.groups[b].code
      {
        if a == groupId {
          assert Some(b) != Some(groupId);
          assert !(db.groups[b].name == fields.name || db.groups[b].code == fields.code);
        } else if b == groupId {
          assert Some(a) != Some(groupId);
          assert !(db.groups[a].name == fields.name || db.groups[a].code == fields.code);
        }
      }
    }
  }
}
