/** What the group operations preserve: unique names and codes, one entry per
    member, no member with a pending request, levels agreeing with role names,
    and (with the rank check `addManager` lacks) a creator in every group. */
module GroupProperties {
  import opened Common
  import GroupRoles
  import opened GroupModel
  import opened GroupService

  /** Every group still has a member holding the "creator" role. */
  ghost predicate CreatorsKept(db: Store) {
    forall id :: id in db.groups ==> HasCreator(db.groups[id])
  }

  /** A well-formed member list has level at most 3 everywhere, and a first
      entry of level 3 is the creator. */
  lemma LevelsBounded(ms: seq<Member>, u: UserId)
    requires LevelsMatchRoles(ms) && IsMember(ms, u)
    ensures LevelOf(ms, u) <= GroupRoles.Creator().level
    ensures LevelOf(ms, u) == 3 <==> FindMember(ms, u).value.role == "creator"
  {
  }

  /** With distinct members, an entry of `u` is the one `find` returns. */
  lemma FoundEntryIsTheEntry(ms: seq<Member>, u: UserId, i: nat)
    requires DistinctMembers(ms) && i < |ms| && ms[i].user == u
    ensures IndexOfMember(ms, u) == i
  {
  }

  lemma CreateGroupKeepsStoreWf(db: Store, userId: UserId, fields: GroupFields, newId: GroupId)
    requires newId !in db.groups && StoreWf(db) && CreatorsKept(db)
    ensures var r := CreateGroup(db, userId, fields, newId);
            r.Ok? ==> StoreWf(r.value) && CreatorsKept(r.value)
  {
    var r := CreateGroup(db, userId, fields, newId);
    if r.Ok? {
      var g := r.value.groups[newId];
      assert HasCreator(g) by { assert g.members[0].role == "creator"; }
      forall a, b | a in r.value.groups && b in r.value.groups && a != b
        ensures r.value.groups[a].name != r.value.groups[b].name && r.value.groups[a].code != r.value.groups[b].code
      {
        if a == newId {
          assert !(db.groups[b].name == fields.name || db.groups[b].code == fields.code);
        } else if b == newId {
          assert !(db.groups[a].name == fields.name || db.groups[a].code == fields.code);
        }
      }
    }
  }

  lemma UpdateGroupKeepsStoreWf(db: Store, actor: UserId, groupId: GroupId, fields: GroupFields)
    requires StoreWf(db) && CreatorsKept(db)
    ensures var r := UpdateGroup(db, actor, groupId, fields);
            r.Ok? ==> StoreWf(r.value) && CreatorsKept(r.value)
  {
    var r := UpdateGroup(db, actor, groupId, fields);
    if r.Ok? {
      forall a, b | a in r.value.groups && b in r.value.groups && a != b
        ensures r.value.groups[a].name != r.value.groups[b].name && r.value.groups[a].code != r.value.groups[b].code
      {
        if a == groupId {
          assert Some(b) != Some(groupId);
          assert !(db.groups[b].name == fields.name || db.groups[b].code == fields.code);
        } else if b == groupId {
          assert Some(a) != Some(groupId);
          assert !(db.groups[a].name == fields.name || db.groups[a].code == fields.code);
        }
      }
      assert HasCreator(r.value.groups[groupId]) by {
        assert r.value.groups[groupId].members == db.groups[groupId].members;
      }
    }
  }

  lemma DeleteGroupKeepsStoreWf(db: Store, actor: UserId, groupId: GroupId)
    requires StoreWf(db) && CreatorsKept(db)
    ensures var r := DeleteGroup(db, actor, groupId);
            r.Ok? ==> StoreWf(r.value) && CreatorsKept(r.value)
  {
  }

  /** Queueing a request of a user who is neither queued nor a member keeps a
      group well formed. */
  lemma EnqueueKeepsGroupWf(g: Group, u: UserId)
    requires GroupWf(g) && Ref(u) !in g.requests && !IsMember(g.members, u)
    ensures GroupWf(g.(requests := [Ref(u)] + g.requests))
  {
    var rs' := [Ref(u)] + g.requests;
    assert DistinctRequests(rs') by {
      forall i, j | 0 <= i < j < |rs'| ensures rs'[i] != rs'[j] {
        if i == 0 {
          assert rs'[j] == g.requests[j - 1];
        } else {
          assert rs'[i] == g.requests[i - 1] && rs'[j] == g.requests[j - 1];
        }
      }
    }
    assert forall i :: 0 <= i < |rs'| ==> !IsMember(g.members, rs'[i].user) by {
      forall i | 0 <= i < |rs'| ensures !IsMember(g.members, rs'[i].user) {
        if i > 0 { assert rs'[i] == g.requests[i - 1]; }
      }
    }
  }

  lemma JoinGroupKeepsStoreWf(db: Store, userId: UserId, groupId: GroupId)
    requires StoreWf(db) && CreatorsKept(db)
    ensures var r := JoinGroup(db, userId, groupId);
            r.Ok? ==> StoreWf(r.value) && CreatorsKept(r.value)
  {
    var r := JoinGroup(db, userId, groupId);
    if r.Ok? {
      var g := db.groups[groupId];
      var g' := g.(requests := [Ref(userId)] + g.requests);
      EnqueueKeepsGroupWf(g, userId);
      SaveKeepsStoreWf(db, groupId, g');
      assert r.value == Save(db, groupId, g');
    }
  }

  /** Turning a pending request into a default member entry keeps a group
      well formed and keeps its creator. */
  lemma AdmitKeepsGroupWf(g: Group, u: UserId)
    requires GroupWf(g) && Ref(u) in g.requests
    ensures var g' := g.(requests := Without(g.requests, u), members := [DefaultMember(u)] + g.members);
            GroupWf(g') && (HasCreator(g) ==> HasCreator(g'))
  {
    var ms' := [DefaultMember(u)] + g.members;
    var rs' := Without(g.requests, u);
    assert !IsMember(g.members, u) by {
      var k :| 0 <= k < |g.requests| && g.requests[k] == Ref(u);
      assert !IsMember(g.members, g.requests[k].user);
    }
    WithoutKeepsDistinct(g.requests, u);
    assert DistinctMembers(ms') by {
      forall i, j | 0 <= i < j < |ms'| ensures ms'[i].user != ms'[j].user {
        if i == 0 {
          assert ms'[j] == g.members[j - 1];
        } else {
          assert ms'[i] == g.members[i - 1] && ms'[j] == g.members[j - 1];
        }
      }
    }
    assert forall i :: 0 <= i < |rs'| ==> !IsMember(ms', rs'[i].user) by {
      forall i | 0 <= i < |rs'| ensures !IsMember(ms', rs'[i].user) {
        var q := rs'[i];
        assert q in g.requests && q.user != u;
        var k :| 0 <= k < |g.requests| && g.requests[k] == q;
        assert !IsMember(g.members, g.requests[k].user);
        assert forall m :: 0 <= m < |ms'| ==> ms'[m].user != q.user by {
          forall m | 0 <= m < |ms'| ensures ms'[m].user != q.user {
            if m > 0 { assert ms'[m] == g.members[m - 1]; }
          }
        }
      }
    }
    assert LevelsMatchRoles(ms') by {
      forall i | 0 <= i < |ms'| ensures ms'[i].level == GroupRoles.LevelFromString(ms'[i].role) {
        if i > 0 { assert ms'[i] == g.members[i - 1]; }
      }
    }
    if HasCreator(g) {
      var c :| 0 <= c < |g.members| && g.members[c].role == "creator";
      assert ms'[c + 1] == g.members[c];
    }
  }

  lemma ApproveJoinRequestKeepsStoreWf(db: Store, censor: UserId, userId: UserId, groupId: GroupId)
    requires StoreWf(db) && CreatorsKept(db)
    ensures var r := ApproveJoinRequest(db, censor, userId, groupId);
            r.Ok? ==> StoreWf(r.value) && CreatorsKept(r.value)
  {
    var r := ApproveJoinRequest(db, censor, userId, groupId);
    if r.Ok? {
      var g := db.groups[groupId];
      var g' := g.(requests := Without(g.requests, userId), members := [DefaultMember(userId)] + g.members);
      AdmitKeepsGroupWf(g, userId);
      SaveKeepsStoreWf(db, groupId, g');
      assert r.value == Save(db, groupId, g');
    }
  }

  /** Saving a well-formed group under its old name and code keeps the store
      well formed, and keeps every creator when the new group has one. */
  lemma SaveKeepsStoreWf(db: Store, id: GroupId, g': Group)
    requires StoreWf(db) && id in db.groups && GroupWf(g')
    requires g'.name == db.groups[id].name && g'.code == db.groups[id].code
    ensures StoreWf(Save(db, id, g'))
    ensures CreatorsKept(db) && HasCreator(g') ==> CreatorsKept(Save(db, id, g'))
  {
  }

  /** Rewriting one user's entries to a role and that role's level keeps a
      group well formed. */
  lemma RetagKeepsGroupWf(g: Group, u: UserId, role: string)
    requires GroupWf(g)
    ensures GroupWf(g.(members := Retag(g.members, u, role, GroupRoles.LevelFromString(role))))
  {
    var ms' := Retag(g.members, u, role, GroupRoles.LevelFromString(role));
    assert forall v :: IsMember(ms', v) <==> IsMember(g.members, v) by {
      forall v ensures IsMember(ms', v) <==> IsMember(g.members, v) {
        if IsMember(g.members, v) {
          var i :| 0 <= i < |g.members| && g.members[i].user == v;
          assert ms'[i].user == v;
        }
      }
    }
  }

  /** Filtering one user out of the member list keeps a group well formed. */
  lemma DropKeepsGroupWf(g: Group, u: UserId)
    requires GroupWf(g)
    ensures GroupWf(g.(members := DropMember(g.members, u)))
  {
    var ms' := DropMember(g.members, u);
    DropMemberKeepsDistinct(g.members, u);
    assert forall v :: IsMember(ms', v) ==> IsMember(g.members, v) by {
      forall v | IsMember(ms', v) ensures IsMember(g.members, v) {
        var i :| 0 <= i < |ms'| && ms'[i].user == v;
        assert ms'[i] in g.members;
      }
    }
    assert LevelsMatchRoles(ms') by {
      forall i | 0 <= i < |ms'| ensures ms'[i].level == GroupRoles.LevelFromString(ms'[i].role) {
        assert ms'[i] in g.members;
      }
    }
  }

  /** `addManager` as written keeps every group well formed (it can, however,
      take the creator role away: see `AddManagerCanDemoteCreator`). */
  lemma AddManagerKeepsStoreWf(db: Store, actor: UserId, target: UserId, groupId: GroupId, role: string)
    requires StoreWf(db)
    ensures var r := AddManager(db, actor, target, groupId, role);
            r.Ok? ==> StoreWf(r.value)
  {
    var r := AddManager(db, actor, target, groupId, role);
    if r.Ok? {
      var g := db.groups[groupId];
      var g' := g.(members := Retag(g.members, target, role, GroupRoles.LevelFromString(role)));
      RetagKeepsGroupWf(g, target, role);
      SaveKeepsStoreWf(db, groupId, g');
      assert r.value == Save(db, groupId, g');
    }
  }

  lemma DeleteManagerKeepsStoreWf(db: Store, actor: UserId, target: UserId, groupId: GroupId)
    requires StoreWf(db) && CreatorsKept(db)
    ensures var r := DeleteManager(db, actor, target, groupId);
            r.Ok? ==> StoreWf(r.value) && CreatorsKept(r.value)
  {
    var r := DeleteManager(db, actor, target, groupId);
    if r.Ok? {
      var g := db.groups[groupId];
      var g' := g.(members := Retag(g.members, target, "member", 0));
      RetagKeepsGroupWf(g, target, "member");
      RankedTargetIsNotCreator(g, actor, target);
      assert HasCreator(g') by {
        var c :| 0 <= c < |g.members| && g.members[c].role == "creator";
        assert g'.members[c] == g.members[c];
      }
      SaveKeepsStoreWf(db, groupId, g');
      assert r.value == Save(db, groupId, g');
    }
  }

  lemma DeleteMemberKeepsStoreWf(db: Store, actor: UserId, target: UserId, groupId: GroupId)
    requires StoreWf(db) && CreatorsKept(db)
    ensures var r := DeleteMember(db, actor, target, groupId);
            r.Ok? ==> StoreWf(r.value) && CreatorsKept(r.value)
  {
    var r := DeleteMember(db, actor, target, groupId);
    if r.Ok? {
      var g := db.groups[groupId];
      var g' := g.(members := DropMember(g.members, target));
      DropKeepsGroupWf(g, target);
      RankedTargetIsNotCreator(g, actor, target);
      assert HasCreator(g') by {
        var c :| 0 <= c < |g.members| && g.members[c].role == "creator";
        assert g.members[c] in g'.members;
      }
      SaveKeepsStoreWf(db, groupId, g');
      assert r.value == Save(db, groupId, g');
    }
  }

  /** An actor who outranks the target never targets a creator entry: the
      target's level is below the actor's, hence below 3. */
  lemma RankedTargetIsNotCreator(g: Group, actor: UserId, target: UserId)
    requires GroupWf(g) && IsMember(g.members, target) && Outranks(g.members, actor, target)
    ensures forall i :: 0 <= i < |g.members| && g.members[i].user == target ==> g.members[i].role != "creator"
  {
    LevelsBounded(g.members, actor);
    forall i | 0 <= i < |g.members| && g.members[i].user == target
      ensures g.members[i].role != "creator"
    {
      FoundEntryIsTheEntry(g.members, target, i);
    }
  }

  /** In a well-formed group nobody can demote or remove a creator, and
      nobody can demote or remove themselves. */
  lemma CreatorIsUntouchable(db: Store, actor: UserId, target: UserId, groupId: GroupId)
    requires groupId in db.groups && GroupWf(db.groups[groupId])
    requires IsMember(db.groups[groupId].members, target)
    requires FindMember(db.groups[groupId].members, target).value.role == "creator" || actor == target
    ensures DeleteManager(db, actor, target, groupId).Err?
    ensures DeleteMember(db, actor, target, groupId).Err?
  {
    var ms := db.groups[groupId].members;
    if actor != target && IsMember(ms, actor) {
      LevelsBounded(ms, actor);
      LevelsBounded(ms, target);
    }
  }

  /** The list `getMemberList` returns from a well-formed store names each
      user once, every level agrees with its role name, nobody on it has a
      pending request, and, while creators are kept, it holds a creator. */
  lemma MemberListIsWellFormed(db: Store, groupId: GroupId)
    requires StoreWf(db) && groupId in db.groups
    ensures GetMemberList(db, groupId).Ok?
    ensures var ms := GetMemberList(db, groupId).value;
            && DistinctMembers(ms) && LevelsMatchRoles(ms)
            && (forall r :: r in db.groups[groupId].requests ==> !IsMember(ms, r.user))
            && (CreatorsKept(db) ==> exists i :: 0 <= i < |ms| && ms[i].role == "creator")
  {
  }

  /** FINDING, as written: any member, even one of level 0, can use
      `addManager` with role "member" to demote the creator, leaving a
      well-formed group with no creator that nobody can ever delete. */
  lemma AddManagerCanDemoteCreator()
    ensures var g := Group("team", "T1", "", [Member("c", "creator", 3), Member("m", "member", 0)], []);
            var db := Store({"c", "m"}, map["g" := g]);
            && StoreWf(db) && CreatorsKept(db)
            && AddManager(db, "m", "c", "g", "member").Ok?
            && !HasCreator(AddManager(db, "m", "c", "g", "member").value.groups["g"])
  {
    var g := Group("team", "T1", "", [Member("c", "creator", 3), Member("m", "member", 0)], []);
    var db := Store({"c", "m"}, map["g" := g]);
    assert FindMember(g.members, "m") == Some(Member("m", "member", 0)) by {
      assert IndexOfMember(g.members, "m") == 1;
    }
    assert IsMember(g.members, "c") by { assert g.members[0].user == "c"; }
    var g' := AddManager(db, "m", "c", "g", "member").value.groups["g"];
    assert g'.members[0].role == "member" && g'.members[1].role == "member";
  }

  /** The corrected `addManager` is refused on a creator, as every other
      member-targeting operation is. */
  lemma AddManagerCheckedSparesCreator(db: Store, actor: UserId, target: UserId, groupId: GroupId, role: string)
    requires StoreWf(db) && CreatorsKept(db)
    ensures var r := AddManagerChecked(db, actor, target, groupId, role);
            r.Ok? ==> StoreWf(r.value) && CreatorsKept(r.value)
  {
    var r := AddManagerChecked(db, actor, target, groupId, role);
    if r.Ok? {
      var g := db.groups[groupId];
      var g' := g.(members := Retag(g.members, target, role, GroupRoles.LevelFromString(role)));
      RetagKeepsGroupWf(g, target, role);
      RankedTargetIsNotCreator(g, actor, target);
      assert HasCreator(g') by {
        var c :| 0 <= c < |g.members| && g.members[c].role == "creator";
        assert g'.members[c] == g.members[c];
      }
      SaveKeepsStoreWf(db, groupId, g');
      assert r.value == Save(db, groupId, g');
    }
  }

  /** One call of the group service on an existing store. */
  datatype GroupCall =
    | Update(actor: UserId, groupId: GroupId, fields: GroupFields)
    | Delete(actor: UserId, groupId: GroupId)
    | Join(userId: UserId, groupId: GroupId)
    | Approve(censor: UserId, userId: UserId, groupId: GroupId)
    | Promote(actor: UserId, target: UserId, groupId: GroupId, role: string)
    | Demote(actor: UserId, target: UserId, groupId: GroupId)
    | Remove(actor: UserId, target: UserId, groupId: GroupId)

  /** Dispatch a call, with promotion going through the corrected `addManager`. */
  function Apply(db: Store, call: GroupCall): Result<Store, GroupError> {
    match call
    case Update(a, id, f) => UpdateGroup(db, a, id, f)
    case Delete(a, id) => DeleteGroup(db, a, id)
    case Join(u, id) => JoinGroup(db, u, id)
    case Approve(c, u, id) => ApproveJoinRequest(db, c, u, id)
    case Promote(a, t, id, role) => AddManagerChecked(db, a, t, id, role)
    case Demote(a, t, id) => DeleteManager(db, a, t, id)
    case Remove(a, t, id) => DeleteMember(db, a, t, id)
  }

  /** Every successful call keeps the store well formed and every group with
      its creator, so along any sequence of calls the invariants hold. */
  lemma ApplyKeepsInvariants(db: Store, call: GroupCall)
    requires StoreWf(db) && CreatorsKept(db)
    ensures Apply(db, call).Ok? ==> StoreWf(Apply(db, call).value) && CreatorsKept(Apply(db, call).value)
  {
    match call
    case Update(a, id, f) => UpdateGroupKeepsStoreWf(db, a, id, f);
    case Delete(a, id) => DeleteGroupKeepsStoreWf(db, a, id);
    case Join(u, id) => JoinGroupKeepsStoreWf(db, u, id);
    case Approve(c, u, id) => ApproveJoinRequestKeepsStoreWf(db, c, u, id);
    case Promote(a, t, id, role) => AddManagerCheckedSparesCreator(db, a, t, id, role);
    case Demote(a, t, id) => DeleteManagerKeepsStoreWf(db, a, t, id);
    case Remove(a, t, id) => DeleteMemberKeepsStoreWf(db, a, t, id);
  }
}
