/** What the relationship calls of the profile service keep and undo.

    Every relationship is stored twice: a follow edge in the follower's
    `followings` and the followee's `followers`, a friendship in both
    `friends` lists, a pending request in the sender's `friendRequestSent`
    and the receiver's `friendRequests`. `Mirrored` states that the two
    copies agree. Every call, as written and corrected, keeps the copies in
    agreement. The lemmas marked as findings show where the calls as written
    miss what the service evidently intends. */
module ProfileProperties {
  import opened Common
  import opened ProfileService

  /** The three relationships a profile stores. */
  datatype Relation = Follows | Friends | Requests

  /** The side of a relationship that lists the users this profile points at. */
  function Out(p: Profile, rel: Relation): seq<Ref> {
    match rel
    case Follows => p.followings
    case Friends => p.friends
    case Requests => p.friendRequestSent
  }

  /** The side of a relationship that lists the users pointing at this profile. */
  function In(p: Profile, rel: Relation): seq<Ref> {
    match rel
    case Follows => p.followers
    case Friends => p.friends
    case Requests => p.friendRequests
  }

  /** `a` lists `b` on the outgoing side exactly when `b` lists `a` on the incoming side. */
  ghost predicate Mirrored(ps: Profiles, rel: Relation) {
    forall a, b :: a in ps && b in ps ==> (Ref(b) in Out(ps[a], rel) <==> Ref(a) in In(ps[b], rel))
  }

  /** Every profile is stored under its owner's id. */
  ghost predicate Owned(ps: Profiles) {
    forall u :: u in ps ==> ps[u].user == u
  }

  /** Every profile is stored under its owner, and all three relationships are mirrored. */
  ghost predicate ProfilesWf(ps: Profiles) {
    && Owned(ps)
    && Mirrored(ps, Follows) && Mirrored(ps, Friends) && Mirrored(ps, Requests)
  }

  /** Membership of every user other than `except` on both sides of `rel` is
      the same in `p'` as in `p`. */
  ghost predicate SameExcept(p: Profile, p': Profile, rel: Relation, except: UserId) {
    forall z :: z != except ==>
      && (Ref(z) in Out(p', rel) <==> Ref(z) in Out(p, rel))
      && (Ref(z) in In(p', rel) <==> Ref(z) in In(p, rel))
  }

  /** Replacing the profiles of `x` and `y` keeps a relationship mirrored
      when each changes only its entries for the other, and those entries agree. */
  lemma PairUpdateKeepsMirrored(ps: Profiles, x: UserId, y: UserId, px: Profile, py: Profile, rel: Relation)
    requires x != y && x in ps && y in ps && Mirrored(ps, rel)
    requires SameExcept(ps[x], px, rel, y) && SameExcept(ps[y], py, rel, x)
    requires Ref(y) in Out(px, rel) <==> Ref(x) in In(py, rel)
    requires Ref(x) in Out(py, rel) <==> Ref(y) in In(px, rel)
    ensures Mirrored(ps[x := px][y := py], rel)
  {
    forall a, b | a in ps[x := px][y := py] && b in ps[x := px][y := py]
      ensures Ref(b) in Out(ps[x := px][y := py][a], rel) <==> Ref(a) in In(ps[x := px][y := py][b], rel)
    {
      PairUpdateMirroredAt(ps, x, y, px, py, rel, a, b);
    }
  }

  /** The step of `PairUpdateKeepsMirrored` for one pair of users `a`, `b`. */
  lemma PairUpdateMirroredAt(ps: Profiles, x: UserId, y: UserId, px: Profile, py: Profile, rel: Relation,
                             a: UserId, b: UserId)
    requires x != y && x in ps && y in ps && Mirrored(ps, rel)
    requires SameExcept(ps[x], px, rel, y) && SameExcept(ps[y], py, rel, x)
    requires Ref(y) in Out(px, rel) <==> Ref(x) in In(py, rel)
    requires Ref(x) in Out(py, rel) <==> Ref(y) in In(px, rel)
    requires a in ps[x := px][y := py] && b in ps[x := px][y := py]
    ensures Ref(b) in Out(ps[x := px][y := py][a], rel) <==> Ref(a) in In(ps[x := px][y := py][b], rel)
  {
    var pa := if a == y then py else if a == x then px else ps[a];
    var pb := if b == y then py else if b == x then px else ps[b];
    assert ps[x := px][y := py][a] == pa && ps[x := px][y := py][b] == pb;
    if !((a == x && b == y) || (a == y && b == x)) {
      if a == x {
        SameExceptAt(ps[x], px, rel, y, b);
      } else if a == y {
        SameExceptAt(ps[y], py, rel, x, b);
      }
      if b == x {
        SameExceptAt(ps[x], px, rel, y, a);
      } else if b == y {
        SameExceptAt(ps[y], py, rel, x, a);
      }
      MirroredAt(ps, rel, a, b);
    }
  }

  /** `SameExcept` read at one user. */
  lemma SameExceptAt(p: Profile, p': Profile, rel: Relation, except: UserId, z: UserId)
    requires SameExcept(p, p', rel, except) && z != except
    ensures Ref(z) in Out(p', rel) <==> Ref(z) in Out(p, rel)
    ensures Ref(z) in In(p', rel) <==> Ref(z) in In(p, rel)
  {
  }

  /** Replacing two profiles by profiles of the same owners keeps every
      profile stored under its owner. */
  lemma PairUpdateKeepsOwners(ps: Profiles, x: UserId, y: UserId, px: Profile, py: Profile)
    requires Owned(ps) && px.user == x && py.user == y
    ensures Owned(ps[x := px][y := py])
  {
  }

  /** The mirror read at one pair of users. */
  lemma MirroredAt(ps: Profiles, rel: Relation, a: UserId, b: UserId)
    requires Mirrored(ps, rel) && a in ps && b in ps
    ensures Ref(b) in Out(ps[a], rel) <==> Ref(a) in In(ps[b], rel)
  {
  }

  /** A profile whose relationship lists are untouched changes nothing for the mirror. */
  lemma UntouchedIsSame(p: Profile, p': Profile, rel: Relation, except: UserId)
    requires Out(p', rel) == Out(p, rel) && In(p', rel) == In(p, rel)
    ensures SameExcept(p, p', rel, except)
  {
  }

  /** Prepending `except` to a list, or filtering it out, leaves everyone
      else's membership alone. */
  lemma PrependOrFilterIsSameExcept(s: seq<Ref>, except: UserId)
    ensures forall z :: z != except ==> (Ref(z) in [Ref(except)] + s <==> Ref(z) in s)
    ensures forall z :: z != except ==> (Ref(z) in Without(s, except) <==> Ref(z) in s)
    ensures forall z :: z != except ==> (Ref(z) in [Ref(except)] + Without(s, except) <==> Ref(z) in s)
  {
  }

  // ---------------------------------------------------------- follow

  lemma FollowKeepsWf(ps: Profiles, from: UserId, to: UserId)
    requires from != to && ProfilesWf(ps) && Follow(ps, from, to).Ok?
    ensures ProfilesWf(Follow(ps, from, to).value)
  {
    var (fp, tp) := (ps[from], ps[to]);
    var (fp', tp') := (fp.(followings := [Ref(to)] + fp.followings), tp.(followers := [Ref(from)] + tp.followers));
    assert Follow(ps, from, to).value == ps[from := fp'][to := tp'];
    PrependOrFilterIsSameExcept(fp.followings, to);
    PrependOrFilterIsSameExcept(tp.followers, from);
    MirroredAt(ps, Follows, to, from);
    PairUpdateKeepsMirrored(ps, from, to, fp', tp', Follows);
    UntouchedIsSame(fp, fp', Friends, to);
    UntouchedIsSame(tp, tp', Friends, from);
    PairUpdateKeepsMirrored(ps, from, to, fp', tp', Friends);
    UntouchedIsSame(fp, fp', Requests, to);
    UntouchedIsSame(tp, tp', Requests, from);
    PairUpdateKeepsMirrored(ps, from, to, fp', tp', Requests);
    PairUpdateKeepsOwners(ps, from, to, fp', tp');
  }


  lemma UnfollowKeepsWf(ps: Profiles, from: UserId, to: UserId)
    requires from != to && ProfilesWf(ps) && Unfollow(ps, from, to).Ok?
    ensures ProfilesWf(Unfollow(ps, from, to).value)
  {
    var (fp, tp) := (ps[from], ps[to]);
    var (fp', tp') := (fp.(followings := Without(fp.followings, to)), tp.(followers := Without(tp.followers, from)));
    assert Unfollow(ps, from, to).value == ps[from := fp'][to := tp'];
    PrependOrFilterIsSameExcept(fp.followings, to);
    PrependOrFilterIsSameExcept(tp.followers, from);
    MirroredAt(ps, Follows, to, from);
    PairUpdateKeepsMirrored(ps, from, to, fp', tp', Follows);
    UntouchedIsSame(fp, fp', Friends, to);
    UntouchedIsSame(tp, tp', Friends, from);
    PairUpdateKeepsMirrored(ps, from, to, fp', tp', Friends);
    UntouchedIsSame(fp, fp', Requests, to);
    UntouchedIsSame(tp, tp', Requests, from);
    PairUpdateKeepsMirrored(ps, from, to, fp', tp', Requests);
    PairUpdateKeepsOwners(ps, from, to, fp', tp');
  }


  /** With mirrored follow lists the second check of `follow` never decides:
      a refusal is for a missing profile or an existing follow, and the call
      goes through exactly when the follower does not follow the target yet. */
  lemma MirroredFollowNeedsOneCheck(ps: Profiles, from: UserId, to: UserId)
    requires from != to && ProfilesWf(ps)
    ensures Follow(ps, from, to) != Err(AlreadyFollowing)
    ensures from in ps && to in ps ==> (Follow(ps, from, to).Ok? <==> Ref(to) !in ps[from].followings)
  {
    if from in ps && to in ps {
      assert Ref(to) in Out(ps[from], Follows) <==> Ref(from) in In(ps[to], Follows);
    }
  }

  /** Unfollowing right after following restores every profile. */
  lemma UnfollowUndoesFollow(ps: Profiles, from: UserId, to: UserId)
    requires from != to && Follow(ps, from, to).Ok?
    ensures Unfollow(Follow(ps, from, to).value, from, to) == Ok(ps)
  {
    var ps1 := Follow(ps, from, to).value;
    WithoutUndoesPrepend(ps[from].followings, to);
    WithoutUndoesPrepend(ps[to].followers, from);
    var back := Unfollow(ps1, from, to).value;
    assert back[from] == ps[from];
    assert back[to] == ps[to];
    assert back.Keys == ps.Keys;
    assert forall u :: u in ps ==> back[u] == ps[u];
    assert back == ps;
  }

  // --------------------------------------------------------- friends

  lemma AddFriendKeepsWf(ps: Profiles, from: UserId, to: UserId)
    requires from != to && ProfilesWf(ps) && AddFriend(ps, from, to).Ok?
    ensures ProfilesWf(AddFriend(ps, from, to).value)
  {
    var (fp, tp) := (ps[from], ps[to]);
    var (fp', tp') := (fp.(friendRequestSent := [Ref(to)] + fp.friendRequestSent), tp.(friendRequests := [Ref(from)] + tp.friendRequests));
    assert AddFriend(ps, from, to).value == ps[from := fp'][to := tp'];
    PrependOrFilterIsSameExcept(fp.friendRequestSent, to);
    PrependOrFilterIsSameExcept(tp.friendRequests, from);
    MirroredAt(ps, Requests, to, from);
    PairUpdateKeepsMirrored(ps, from, to, fp', tp', Requests);
    UntouchedIsSame(fp, fp', Friends, to);
    UntouchedIsSame(tp, tp', Friends, from);
    PairUpdateKeepsMirrored(ps, from, to, fp', tp', Friends);
    UntouchedIsSame(fp, fp', Follows, to);
    UntouchedIsSame(tp, tp', Follows, from);
    PairUpdateKeepsMirrored(ps, from, to, fp', tp', Follows);
    PairUpdateKeepsOwners(ps, from, to, fp', tp');
  }


  lemma AddFriendDeduplicatedKeepsWf(ps: Profiles, from: UserId, to: UserId)
    requires from != to && ProfilesWf(ps) && AddFriendDeduplicated(ps, from, to).Ok?
    ensures ProfilesWf(AddFriendDeduplicated(ps, from, to).value)
  {
    var (fp, tp) := (ps[from], ps[to]);
    var (fp', tp') := (fp.(friendRequestSent := [Ref(to)] + Without(fp.friendRequestSent, to)), tp.(friendRequests := [Ref(from)] + tp.friendRequests));
    assert AddFriendDeduplicated(ps, from, to).value == ps[from := fp'][to := tp'];
    PrependOrFilterIsSameExcept(fp.friendRequestSent, to);
    PrependOrFilterIsSameExcept(tp.friendRequests, from);
    MirroredAt(ps, Requests, to, from);
    PairUpdateKeepsMirrored(ps, from, to, fp', tp', Requests);
    UntouchedIsSame(fp, fp', Friends, to);
    UntouchedIsSame(tp, tp', Friends, from);
    PairUpdateKeepsMirrored(ps, from, to, fp', tp', Friends);
    UntouchedIsSame(fp, fp', Follows, to);
    UntouchedIsSame(tp, tp', Follows, from);
    PairUpdateKeepsMirrored(ps, from, to, fp', tp', Follows);
    PairUpdateKeepsOwners(ps, from, to, fp', tp');
  }


  lemma AcceptFriendRequestKeepsWf(ps: Profiles, current: UserId, requester: UserId)
    requires current != requester && ProfilesWf(ps) && AcceptFriendRequest(ps, current, requester).Ok?
    ensures ProfilesWf(AcceptFriendRequest(ps, current, requester).value)
  {
    var (fp, tp) := (ps[current], ps[requester]);
    var (fp', tp') := (fp.(friends := [Ref(requester)] + fp.friends), tp.(friends := [Ref(current)] + tp.friends));
    assert AcceptFriendRequest(ps, current, requester).value == ps[current := fp'][requester := tp'];
    PrependOrFilterIsSameExcept(fp.friends, requester);
    PrependOrFilterIsSameExcept(tp.friends, current);
    PairUpdateKeepsMirrored(ps, current, requester, fp', tp', Friends);
    UntouchedIsSame(fp, fp', Requests, requester);
    UntouchedIsSame(tp, tp', Requests, current);
    PairUpdateKeepsMirrored(ps, current, requester, fp', tp', Requests);
    UntouchedIsSame(fp, fp', Follows, requester);
    UntouchedIsSame(tp, tp', Follows, current);
    PairUpdateKeepsMirrored(ps, current, requester, fp', tp', Follows);
    PairUpdateKeepsOwners(ps, current, requester, fp', tp');
  }


  lemma AcceptFriendRequestClearingKeepsWf(ps: Profiles, current: UserId, requester: UserId)
    requires current != requester && ProfilesWf(ps) && AcceptFriendRequestClearing(ps, current, requester).Ok?
    ensures ProfilesWf(AcceptFriendRequestClearing(ps, current, requester).value)
  {
    var (fp, tp) := (ps[current], ps[requester]);
    var (fp', tp') := (fp.(friends := [Ref(requester)] + fp.friends, friendRequests := Without(fp.friendRequests, requester)), tp.(friends := [Ref(current)] + tp.friends, friendRequestSent := Without(tp.friendRequestSent, current)));
    assert AcceptFriendRequestClearing(ps, current, requester).value == ps[current := fp'][requester := tp'];
    PrependOrFilterIsSameExcept(fp.friends, requester);
    PrependOrFilterIsSameExcept(tp.friends, current);
    PairUpdateKeepsMirrored(ps, current, requester, fp', tp', Friends);
    PrependOrFilterIsSameExcept(fp.friendRequests, requester);
    PrependOrFilterIsSameExcept(tp.friendRequestSent, current);
    MirroredAt(ps, Requests, current, requester);
    PairUpdateKeepsMirrored(ps, current, requester, fp', tp', Requests);
    UntouchedIsSame(fp, fp', Follows, requester);
    UntouchedIsSame(tp, tp', Follows, current);
    PairUpdateKeepsMirrored(ps, current, requester, fp', tp', Follows);
    PairUpdateKeepsOwners(ps, current, requester, fp', tp');
  }


  /** A list that names only `u` holds no one else. */
  lemma OnlyNamesExcludesOthers(s: seq<Ref>, u: UserId)
    requires OnlyNames(s, u)
    ensures forall z :: z != u ==> Ref(z) !in s
  {
  }

  lemma UnfriendKeepsWf(ps: Profiles, from: UserId, to: UserId)
    requires from != to && ProfilesWf(ps) && Unfriend(ps, from, to).Ok?
    ensures ProfilesWf(Unfriend(ps, from, to).value)
  {
    var (fp, tp) := (ps[from], ps[to]);
    var (fp', tp') := (fp.(friends := Without(fp.friends, to)), tp.(friends := Without(tp.friends, from)));
    assert Unfriend(ps, from, to).value == ps[from := fp'][to := tp'];
    OnlyNamesExcludesOthers(fp.friends, to);
    OnlyNamesExcludesOthers(tp.friends, from);
    PairUpdateKeepsMirrored(ps, from, to, fp', tp', Friends);
    UntouchedIsSame(fp, fp', Requests, to);
    UntouchedIsSame(tp, tp', Requests, from);
    PairUpdateKeepsMirrored(ps, from, to, fp', tp', Requests);
    UntouchedIsSame(fp, fp', Follows, to);
    UntouchedIsSame(tp, tp', Follows, from);
    PairUpdateKeepsMirrored(ps, from, to, fp', tp', Follows);
    PairUpdateKeepsOwners(ps, from, to, fp', tp');
  }


  lemma UnfriendCheckedKeepsWf(ps: Profiles, from: UserId, to: UserId)
    requires from != to && ProfilesWf(ps) && UnfriendChecked(ps, from, to).Ok?
    ensures ProfilesWf(UnfriendChecked(ps, from, to).value)
  {
    var (fp, tp) := (ps[from], ps[to]);
    var (fp', tp') := (fp.(friends := Without(fp.friends, to)), tp.(friends := Without(tp.friends, from)));
    assert UnfriendChecked(ps, from, to).value == ps[from := fp'][to := tp'];
    PrependOrFilterIsSameExcept(fp.friends, to);
    PrependOrFilterIsSameExcept(tp.friends, from);
    PairUpdateKeepsMirrored(ps, from, to, fp', tp', Friends);
    UntouchedIsSame(fp, fp', Requests, to);
    UntouchedIsSame(tp, tp', Requests, from);
    PairUpdateKeepsMirrored(ps, from, to, fp', tp', Requests);
    UntouchedIsSame(fp, fp', Follows, to);
    UntouchedIsSame(tp, tp', Follows, from);
    PairUpdateKeepsMirrored(ps, from, to, fp', tp', Follows);
    PairUpdateKeepsOwners(ps, from, to, fp', tp');
  }


  // --------------------------------------------------------- findings

  /** A profile with every list empty. */
  function Blank(u: UserId): (p: Profile)
    ensures p.user == u && p.friends == [] && p.friendRequests == [] && p.friendRequestSent == []
  {
    Profile(u, [], [], [], [], [], [], [], [])
  }

  /** Finding, `addFriend` as written: a repeated request is accepted and
      every call adds another copy on both sides, because the result of the
      `filter` meant to drop the older request is thrown away. */
  lemma AddFriendTwiceDuplicates(ps: Profiles, from: UserId, to: UserId)
    requires from != to && AddFriend(ps, from, to).Ok?
    ensures AddFriend(AddFriend(ps, from, to).value, from, to).Ok?
    ensures var twice := AddFriend(AddFriend(ps, from, to).value, from, to).value;
            && multiset(twice[from].friendRequestSent)[Ref(to)] == multiset(ps[from].friendRequestSent)[Ref(to)] + 2
            && multiset(twice[to].friendRequests)[Ref(from)] == multiset(ps[to].friendRequests)[Ref(from)] + 2
  {
  }

  /** Corrected `addFriend`: however often a request is repeated, the sender
      lists the target once, and a repeat leaves the sender's list as it was. */
  lemma AddFriendDeduplicatedIsStable(ps: Profiles, from: UserId, to: UserId)
    requires from != to && AddFriendDeduplicated(ps, from, to).Ok?
    ensures var once := AddFriendDeduplicated(ps, from, to).value;
            && AddFriendDeduplicated(once, from, to).Ok?
            && AddFriendDeduplicated(once, from, to).value[from] == once[from]
            && multiset(once[from].friendRequestSent)[Ref(to)] == 1
  {
    var s := Without(ps[from].friendRequestSent, to);
    WithoutUndoesPrepend(s, to);
  }

  /** Finding, `acceptFriendRequest` as written: after a request and its
      acceptance the two users are friends, yet the request is still listed
      as pending on both sides, because the results of both `filter` calls
      are thrown away. */
  lemma AcceptLeavesRequestPending()
    ensures var ps := map["a" := Blank("a"), "b" := Blank("b")];
            var requested := AddFriend(ps, "a", "b");
            && requested.Ok?
            && AcceptFriendRequest(requested.value, "b", "a").Ok?
            && var accepted := AcceptFriendRequest(requested.value, "b", "a").value;
               && Ref("a") in accepted["b"].friends && Ref("b") in accepted["a"].friends
               && Ref("a") in accepted["b"].friendRequests && Ref("b") in accepted["a"].friendRequestSent
  {
    var ps := map["a" := Blank("a"), "b" := Blank("b")];
    var requested := AddFriend(ps, "a", "b").value;
    assert requested["b"].friendRequests == [Ref("a")];
    assert requested["a"].friendRequestSent == [Ref("b")];
    var accepted := AcceptFriendRequest(requested, "b", "a").value;
    assert accepted["b"].friendRequests == [Ref("a")];
    assert accepted["a"].friendRequestSent == [Ref("b")];
    assert accepted["b"].friends == [Ref("a")];
    assert accepted["a"].friends == [Ref("b")];
  }

  /** Corrected `acceptFriendRequest`: after a request and its acceptance
      the two users are friends and the request is gone from both sides. */
  lemma AcceptClearsAnsweredRequest(ps: Profiles, from: UserId, to: UserId)
    requires from != to && AddFriendDeduplicated(ps, from, to).Ok?
    requires Ref(to) !in ps[from].friends
    ensures var requested := AddFriendDeduplicated(ps, from, to).value;
            && AcceptFriendRequestClearing(requested, to, from).Ok?
            && var accepted := AcceptFriendRequestClearing(requested, to, from).value;
               && Ref(from) in accepted[to].friends && Ref(to) in accepted[from].friends
               && Ref(from) !in accepted[to].friendRequests && Ref(to) !in accepted[from].friendRequestSent
  {
  }

  /** Three profiles: "a" is friends with "b" and with "c". */
  function Triangle(): (ps: Profiles)
    ensures ps.Keys == {"a", "b", "c"}
  {
    map["a" := Blank("a").(friends := [Ref("b"), Ref("c")]),
        "b" := Blank("b").(friends := [Ref("a")]),
        "c" := Blank("c").(friends := [Ref("a")])]
  }

  /** The three profiles are consistent: each friendship is listed on both
      sides, and nobody follows or requests anybody. */
  lemma TriangleIsWf()
    ensures ProfilesWf(Triangle())
  {
    var ps := Triangle();
    var (pa, pb, pc) := (ps["a"], ps["b"], ps["c"]);
    assert pa.friends == [Ref("b"), Ref("c")] && pb.friends == [Ref("a")] && pc.friends == [Ref("a")];
    forall u | u in ps ensures Out(ps[u], Follows) == [] == In(ps[u], Follows)
                            && Out(ps[u], Requests) == [] == In(ps[u], Requests)
                            && ps[u].user == u
    {
    }
    NobodyListedIsMirrored(ps, Follows);
    NobodyListedIsMirrored(ps, Requests);
    forall a, b | a in ps && b in ps
      ensures Ref(b) in Out(ps[a], Friends) <==> Ref(a) in In(ps[b], Friends)
    {
    }
  }

  /** A relationship nobody lists anyone in is trivially mirrored. */
  lemma NobodyListedIsMirrored(ps: Profiles, rel: Relation)
    requires forall u :: u in ps ==> Out(ps[u], rel) == [] == In(ps[u], rel)
    ensures Mirrored(ps, rel)
  {
  }

  /** Finding, `unfriend` as written: the guard is inverted. Two mutual
      friends are refused as soon as one of them has a third friend ... */
  lemma UnfriendRefusesFriends()
    ensures ProfilesWf(Triangle())
    ensures Ref("b") in Triangle()["a"].friends && Ref("a") in Triangle()["b"].friends
    ensures Unfriend(Triangle(), "a", "b") == Err(NotFriends)
    ensures UnfriendChecked(Triangle(), "a", "b").Ok?
  {
    TriangleIsWf();
    var ps := Triangle();
    assert ps["a"].friends[1].user == "c";
  }

  /** ... and two users who are not friends at all are let through. */
  lemma UnfriendAcceptsStrangers()
    ensures var ps := map["a" := Blank("a"), "b" := Blank("b")];
            && Ref("b") !in ps["a"].friends && Ref("a") !in ps["b"].friends
            && Unfriend(ps, "a", "b").Ok?
            && UnfriendChecked(ps, "a", "b") == Err(NotFriends)
  {
  }

  /** Corrected `unfriend` undoes an acceptance: when the two were not
      friends before, unfriending right after accepting gives both friend
      lists back as they were. */
  lemma UnfriendUndoesAccept(ps: Profiles, current: UserId, requester: UserId)
    requires current != requester && AcceptFriendRequestClearing(ps, current, requester).Ok?
    ensures var accepted := AcceptFriendRequestClearing(ps, current, requester).value;
            && UnfriendChecked(accepted, current, requester).Ok?
            && UnfriendChecked(accepted, current, requester).value[current].friends == ps[current].friends
            && UnfriendChecked(accepted, current, requester).value[requester].friends == ps[requester].friends
  {
    WithoutUndoesPrepend(ps[current].friends, requester);
    WithoutUndoesPrepend(ps[requester].friends, current);
  }

  // ---------------------------------------------- the corrected service

  /** The relationship calls of the service, with the corrected friend workflow. */
  datatype ProfileCall =
    | FollowCall(from: UserId, to: UserId)
    | UnfollowCall(from: UserId, to: UserId)
    | RequestFriend(from: UserId, to: UserId)
    | AcceptRequest(current: UserId, requester: UserId)
    | RemoveFriend(from: UserId, to: UserId)

  /** Runs one call on the profiles; a refused call leaves them as they were.
      Calls a user makes about themself are refused as well. */
  function Apply(ps: Profiles, call: ProfileCall): (r: Profiles)
    ensures r.Keys == ps.Keys
  {
    match call
    case FollowCall(a, b) => if a == b then ps else match Follow(ps, a, b) { case Ok(p) => p case Err(_) => ps }
    case UnfollowCall(a, b) => if a == b then ps else match Unfollow(ps, a, b) { case Ok(p) => p case Err(_) => ps }
    case RequestFriend(a, b) => if a == b then ps else match AddFriendDeduplicated(ps, a, b) { case Ok(p) => p case Err(_) => ps }
    case AcceptRequest(a, b) => if a == b then ps else match AcceptFriendRequestClearing(ps, a, b) { case Ok(p) => p case Err(_) => ps }
    case RemoveFriend(a, b) => if a == b then ps else match UnfriendChecked(ps, a, b) { case Ok(p) => p case Err(_) => ps }
  }

  /** Any sequence of calls keeps every relationship mirrored. */
  lemma {:induction false} ApplyAllKeepsWf(ps: Profiles, calls: seq<ProfileCall>)
    requires ProfilesWf(ps)
    ensures ProfilesWf(ApplyAll(ps, calls))
  {
    if |calls| > 0 {
      ApplyKeepsWf(ps, calls[0]);
      ApplyAllKeepsWf(Apply(ps, calls[0]), calls[1..]);
    }
  }

  /** The profiles after the calls, one after the other. */
  function ApplyAll(ps: Profiles, calls: seq<ProfileCall>): (r: Profiles)
    ensures r.Keys == ps.Keys
  {
    if |calls| == 0 then ps else ApplyAll(Apply(ps, calls[0]), calls[1..])
  }

  /** One call keeps every relationship mirrored. */
  lemma ApplyKeepsWf(ps: Profiles, call: ProfileCall)
    requires ProfilesWf(ps)
    ensures ProfilesWf(Apply(ps, call))
  {
    match call
    case FollowCall(a, b) => FollowCallStepKeepsWf(ps, a, b);
    case UnfollowCall(a, b) => UnfollowCallStepKeepsWf(ps, a, b);
    case RequestFriend(a, b) => RequestFriendStepKeepsWf(ps, a, b);
    case AcceptRequest(a, b) => AcceptRequestStepKeepsWf(ps, a, b);
    case RemoveFriend(a, b) => RemoveFriendStepKeepsWf(ps, a, b);
  }

  /** Each kind of call keeps the profiles consistent, refused or not. */
  lemma FollowCallStepKeepsWf(ps: Profiles, a: UserId, b: UserId)
    requires ProfilesWf(ps)
    ensures ProfilesWf(Apply(ps, FollowCall(a, b)))
  {
    if a != b && Follow(ps, a, b).Ok? {
      FollowKeepsWf(ps, a, b);
    }
  }

  lemma UnfollowCallStepKeepsWf(ps: Profiles, a: UserId, b: UserId)
    requires ProfilesWf(ps)
    ensures ProfilesWf(Apply(ps, UnfollowCall(a, b)))
  {
    if a != b && Unfollow(ps, a, b).Ok? {
      UnfollowKeepsWf(ps, a, b);
    }
  }

  lemma RequestFriendStepKeepsWf(ps: Profiles, a: UserId, b: UserId)
    requires ProfilesWf(ps)
    ensures ProfilesWf(Apply(ps, RequestFriend(a, b)))
  {
    if a != b && AddFriendDeduplicated(ps, a, b).Ok? {
      AddFriendDeduplicatedKeepsWf(ps, a, b);
    }
  }

  lemma AcceptRequestStepKeepsWf(ps: Profiles, a: UserId, b: UserId)
    requires ProfilesWf(ps)
    ensures ProfilesWf(Apply(ps, AcceptRequest(a, b)))
  {
    if a != b && AcceptFriendRequestClearing(ps, a, b).Ok? {
      AcceptFriendRequestClearingKeepsWf(ps, a, b);
    }
  }

  lemma RemoveFriendStepKeepsWf(ps: Profiles, a: UserId, b: UserId)
    requires ProfilesWf(ps)
    ensures ProfilesWf(Apply(ps, RemoveFriend(a, b)))
  {
    if a != b && UnfriendChecked(ps, a, b).Ok? {
      UnfriendCheckedKeepsWf(ps, a, b);
    }
  }
}
