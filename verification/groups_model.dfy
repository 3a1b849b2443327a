/** The group document shared by both group services: name, code,
    description, the member list and the join-request queue, together with the
    list operations the services perform on them and the well-formedness
    conditions the services maintain. */
module GroupModel {
  import opened Common
  import GroupRoles

  type GroupId = string

  /** A member entry `{ user, role, level }`; the join date is not modelled. */
  datatype Member = Member(user: UserId, role: string, level: int)

  datatype Group = Group(name: string, code: string, description: string,
                         members: seq<Member>, requests: seq<Ref>)

  /** The fields a create or update request carries. */
  datatype GroupFields = GroupFields(name: string, code: string, description: string)

  /** The persisted state a group call sees: which user accounts exist, and the groups by id. */
  datatype Store = Store(users: set<UserId>, groups: map<GroupId, Group>)

  /** One constructor per distinct reason a group call throws. */
  datatype GroupError =
    | GroupNotFound        // "Group is not exist"
    | UserNotFound         // "User id is not exist", "User is not exist", "Your account don't exist"
    | NameOrCodeTaken      // "Name or code existed"
    | NoPermission         // "You don't have permission", "You do not have permission ..."
    | AlreadyRequested     // "You has already been requested to join this group"
    | AlreadyMember        // "You has already been be a member of this group"
    | NoPendingRequest     // "There is not any request of this user"
    | NotAMember           // "This user is not a member of the group."
    | DeleteFailed         // "Delete is not success"

  /** The store after saving `g` under `id`. */
  function Save(db: Store, id: GroupId, g: Group): Store {
    db.(groups := db.groups[id := g])
  }

  /** Only the group stored under `id` may differ; users and the set of ids stay. */
  ghost predicate OnlyGroupChanged(db: Store, db': Store, id: GroupId) {
    && db'.users == db.users
    && db'.groups.Keys == db.groups.Keys
    && forall other :: other in db.groups && other != id ==> db'.groups[other] == db.groups[other]
  }

  /** The entry an approved join request adds: the schema defaults, role
      "member" and level 0. */
  function DefaultMember(u: UserId): (m: Member)
    ensures m.user == u && m.role == GroupRoles.Member().value && m.level == GroupRoles.Member().level
  {
    Member(u, "member", 0)
  }

  /** `members.some(m => m.user === u)`. */
  predicate IsMember(ms: seq<Member>, u: UserId) {
    exists i :: 0 <= i < |ms| && ms[i].user == u
  }

  /** The position `members.find(m => m.user === u)` stops at, `|ms|` when there is none. */
  function IndexOfMember(ms: seq<Member>, u: UserId): (i: nat)
    ensures i <= |ms|
    ensures i < |ms| ==> ms[i].user == u
    ensures forall j :: 0 <= j < i ==> ms[j].user != u
    ensures i == |ms| <==> !IsMember(ms, u)
  {
    if |ms| == 0 then 0
    else if ms[0].user == u then 0
    else 1 + IndexOfMember(ms[1..], u)
  }

  /** `members.find(m => m.user === u)`. */
  function FindMember(ms: seq<Member>, u: UserId): (r: Option<Member>)
    ensures r.Some? <==> IsMember(ms, u)
    ensures r.Some? ==> r.value == ms[IndexOfMember(ms, u)]
  {
    var i := IndexOfMember(ms, u);
    if i < |ms| then Some(ms[i]) else None
  }

  /** The loop that rewrites every entry of `u` to the given role and level. */
  function Retag(ms: seq<Member>, u: UserId, role: string, level: int): (r: seq<Member>)
    ensures |r| == |ms|
    ensures forall i :: 0 <= i < |ms| ==> r[i].user == ms[i].user
    ensures forall i :: 0 <= i < |ms| && ms[i].user == u ==> r[i].role == role && r[i].level == level
    ensures forall i :: 0 <= i < |ms| && ms[i].user != u ==> r[i] == ms[i]
  {
    seq(|ms|, i requires 0 <= i < |ms| => if ms[i].user == u then Member(u, role, level) else ms[i])
  }

  /** `members.filter(({ user }) => user !== u)`. */
  function DropMember(ms: seq<Member>, u: UserId): (r: seq<Member>)
    ensures !IsMember(r, u)
    ensures forall m :: m in r <==> m in ms && m.user != u
  {
    if |ms| == 0 then []
    else
      assert ms == [ms[0]] + ms[1..];
      if ms[0].user == u then DropMember(ms[1..], u) else [ms[0]] + DropMember(ms[1..], u)
  }

  /** Dropping a user distributes over concatenation, so the rest keep their order. */
  lemma {:induction false} DropMemberAppend(a: seq<Member>, b: seq<Member>, u: UserId)
    ensures DropMember(a + b, u) == DropMember(a, u) + DropMember(b, u)
  {
    if |a| == 0 {
      assert a + b == b;
    } else {
      assert (a + b)[1..] == a[1..] + b;
      DropMemberAppend(a[1..], b, u);
    }
  }

  /** Dropping a user who is not a member changes nothing. */
  lemma {:induction false} DropMemberAbsent(ms: seq<Member>, u: UserId)
    requires !IsMember(ms, u)
    ensures DropMember(ms, u) == ms
  {
    if |ms| > 0 {
      assert !IsMember(ms[1..], u);
      DropMemberAbsent(ms[1..], u);
    }
  }

  /** The store query `find({ $or: [{ name }, { code }] })`, optionally with
      `_id: { $ne: except }`, finds at least one group. */
  predicate Taken(groups: map<GroupId, Group>, f: GroupFields, except: Option<GroupId>) {
    exists id :: id in groups && Some(id) != except
                 && (groups[id].name == f.name || groups[id].code == f.code)
  }

  /** No two groups share a name, and no two share a code. */
  ghost predicate UniqueNamesAndCodes(groups: map<GroupId, Group>) {
    forall a, b :: a in groups && b in groups && a != b ==>
      groups[a].name != groups[b].name && groups[a].code != groups[b].code
  }

  /** At most one entry per user in the member list. */
  ghost predicate DistinctMembers(ms: seq<Member>) {
    forall i, j :: 0 <= i < j < |ms| ==> ms[i].user != ms[j].user
  }

  /** At most one entry per user in the request queue. */
  ghost predicate DistinctRequests(rs: seq<Ref>) {
    forall i, j :: 0 <= i < j < |rs| ==> rs[i] != rs[j]
  }

  /** The level stored with each member is the level of its role name. */
  ghost predicate LevelsMatchRoles(ms: seq<Member>) {
    forall i :: 0 <= i < |ms| ==> ms[i].level == GroupRoles.LevelFromString(ms[i].role)
  }

  /** The conditions the group service keeps for each group: distinct members,
      distinct requests, no member with a pending request, and levels that
      agree with role names. */
  ghost predicate GroupWf(g: Group) {
    && DistinctMembers(g.members)
    && DistinctRequests(g.requests)
    && (forall i :: 0 <= i < |g.requests| ==> !IsMember(g.members, g.requests[i].user))
    && LevelsMatchRoles(g.members)
  }

  /** Some member still holds the "creator" role. */
  ghost predicate HasCreator(g: Group) {
    exists i :: 0 <= i < |g.members| && g.members[i].role == "creator"
  }

  /** Every group is well formed, and names and codes are unique across groups. */
  ghost predicate StoreWf(db: Store) {
    && UniqueNamesAndCodes(db.groups)
    && forall id :: id in db.groups ==> GroupWf(db.groups[id])
  }

  /** Filtering a request queue keeps it free of duplicates. */
  lemma {:induction false} WithoutKeepsDistinct(rs: seq<Ref>, u: UserId)
    requires DistinctRequests(rs)
    ensures DistinctRequests(Without(rs, u))
  {
    if |rs| > 0 {
      assert DistinctRequests(rs[1..]) by {
        forall i, j | 0 <= i < j < |rs[1..]| ensures rs[1..][i] != rs[1..][j] {
          assert rs[1..][i] == rs[i + 1] && rs[1..][j] == rs[j + 1];
        }
      }
      WithoutKeepsDistinct(rs[1..], u);
      if rs[0].user != u {
        var t := Without(rs[1..], u);
        assert rs[0] !in rs[1..];
        assert rs[0] !in t;
        assert Without(rs, u) == [rs[0]] + t;
      }
    }
  }

  /** Filtering a member list keeps it free of duplicate users. */
  lemma {:induction false} DropMemberKeepsDistinct(ms: seq<Member>, u: UserId)
    requires DistinctMembers(ms)
    ensures DistinctMembers(DropMember(ms, u))
  {
    if |ms| > 0 {
      assert DistinctMembers(ms[1..]) by {
        forall i, j | 0 <= i < j < |ms[1..]| ensures ms[1..][i].user != ms[1..][j].user {
          assert ms[1..][i] == ms[i + 1] && ms[1..][j] == ms[j + 1];
        }
      }
      DropMemberKeepsDistinct(ms[1..], u);
      if ms[0].user != u {
        var t := DropMember(ms[1..], u);
        assert !IsMember(ms[1..], ms[0].user);
        assert forall k :: 0 <= k < |t| ==> t[k].user != ms[0].user by {
          forall k | 0 <= k < |t| ensures t[k].user != ms[0].user {
            assert t[k] in ms[1..];
          }
        }
        assert DropMember(ms, u) == [ms[0]] + t;
      }
    }
  }
}
