/** The profile service: experience and education lists, the skills field,
    and the relationships between two profiles: follow/unfollow, and the
    friend workflow addFriend / acceptFriendRequest / unfriend. The friend
    operations are modelled as written, including a discarded `filter` result
    in addFriend and acceptFriendRequest and an inverted guard in unfriend;
    the corrected variants follow each of them. */
module ProfileService {
  import opened Common
  import Strings

  datatype Experience = Experience(title: string, company: string, location: string,
                                   current: bool, description: string)

  datatype Education = Education(school: string, degree: string, fieldOfStudy: string,
                                 current: bool, description: string)

  /** A profile, reduced to the fields the modelled operations read or write. */
  datatype Profile = Profile(
    user: UserId,
    skills: seq<string>,
    experiences: seq<Entry<Experience>>,
    educations: seq<Entry<Education>>,
    followers: seq<Ref>,
    followings: seq<Ref>,
    friends: seq<Ref>,
    friendRequests: seq<Ref>,     // incoming
    friendRequestSent: seq<Ref>)  // outgoing

  /** The profiles, looked up by their owner as `findOne({ user })` does. */
  type Profiles = map<UserId, Profile>

  /** One constructor per distinct reason a profile call throws. */
  datatype ProfileError =
    | NoProfile           // "There is not profile for your user" / "... for this user"
    | NoTargetProfile     // "There is not profile for target user"
    | AlreadyFollowedBy   // "Target user has already been followed from user"
    | AlreadyFollowing    // "Profile has been followed"
    | NotFollowedBy       // "You has not being followed this user"
    | NotFollowing        // "You has not been yet followed this user"
    | AlreadyFriends      // "Target user has already been be friend ..." / "This user has already been be friend"
    | NotFriends          // "You are not friends with this user"

  /** The `skills` field of a create request: an array, or comma-separated text. */
  datatype SkillsInput = SkillList(items: seq<string>) | SkillText(text: string)

  /** Only the profiles of `a` and `b` may differ, and no profile appears or disappears. */
  ghost predicate OnlyPairChanged(ps: Profiles, ps': Profiles, a: UserId, b: UserId) {
    && ps'.Keys == ps.Keys
    && forall u :: u in ps && u != a && u != b ==> ps'[u] == ps[u]
  }

  /** The two-profile lookup every relationship call starts with. */
  function Lookup(ps: Profiles, from: UserId, to: UserId): (r: Result<(Profile, Profile), ProfileError>)
    ensures r.Ok? <==> from in ps && to in ps
    ensures r.Ok? ==> r.value == (ps[from], ps[to])
    ensures from !in ps ==> r == Err(NoProfile)
    ensures from in ps && to !in ps ==> r == Err(NoTargetProfile)
  {
    if from !in ps then Err(NoProfile)
    else if to !in ps then Err(NoTargetProfile)
    else Ok((ps[from], ps[to]))
  }

  // ---------------------------------------------------------------- skills

  /** One stored skill: a space, then the piece with its surrounding
      whitespace cut off and nothing else changed. */
  function SkillOf(piece: string): (skill: string)
    ensures |skill| >= 1 && skill[0] == ' '
    ensures Strings.LeadingWhitespace(piece) + |skill| - 1 <= |piece|
    ensures skill[1..] == piece[Strings.LeadingWhitespace(piece)..Strings.LeadingWhitespace(piece) + |skill| - 1]
    ensures forall k :: Strings.LeadingWhitespace(piece) + |skill| - 1 <= k < |piece| ==> Strings.IsWhitespace(piece[k])
    ensures |skill| > 1 ==> !Strings.IsWhitespace(skill[1]) && !Strings.IsWhitespace(skill[|skill| - 1])
  {
    var t := Strings.Trim(piece);
    assert (" " + t)[1..] == t;
    " " + t
  }

  /** The skills `createProfile` stores: an array is kept as it is; text is
      split on "," into one skill per piece. */
  function Skills(input: SkillsInput): (r: seq<string>)
    ensures input.SkillList? ==> r == input.items
    ensures input.SkillText? ==> |r| == multiset(input.text)[','] + 1
    ensures input.SkillText? ==> forall i :: 0 <= i < |r| ==> ',' !in r[i]
  {
    match input
    case SkillList(items) => items
    case SkillText(text) =>
      var pieces := Strings.Split(text, ',');
      seq(|pieces|, i requires 0 <= i < |pieces| => SkillOf(pieces[i]))
  }

  /** The i-th stored skill comes from the i-th comma-separated piece, and
      those pieces joined with "," give the text back, so no character other
      than separators and surrounding whitespace is lost. */
  lemma SkillsRoundTrip(text: string)
    ensures var pieces := Strings.Split(text, ',');
            && |Skills(SkillText(text))| == |pieces|
            && (forall i :: 0 <= i < |pieces| ==> Skills(SkillText(text))[i] == SkillOf(pieces[i]))
            && Strings.Join(pieces, ',') == text
  {
    Strings.JoinSplit(text, ',');
  }

  // --------------------------------------------------- experience / education

  /** `addExperience`: the new entry (with the id the store gives it) goes first. */
  function AddExperience(ps: Profiles, user: UserId, e: Entry<Experience>): (r: Result<Profiles, ProfileError>)
    ensures r.Err? <==> user !in ps
    ensures r.Err? ==> r.error == NoProfile
    ensures r.Ok? ==> OnlyPairChanged(ps, r.value, user, user)
    ensures r.Ok? ==> var (p, p') := (ps[user], r.value[user]);
              && |p'.experiences| == |p.experiences| + 1
              && p'.experiences[0] == e && p'.experiences[1..] == p.experiences
              && p' == p.(experiences := p'.experiences)
  {
    if user !in ps then Err(NoProfile)
    else Ok(ps[user := ps[user].(experiences := [e] + ps[user].experiences)])
  }

  /** `deleteExperience`: every entry with the id is removed, the rest keep
      their order; an unknown id is not an error. */
  function DeleteExperience(ps: Profiles, user: UserId, id: string): (r: Result<Profiles, ProfileError>)
    ensures r.Err? <==> user !in ps
    ensures r.Err? ==> r.error == NoProfile
    ensures r.Ok? ==> OnlyPairChanged(ps, r.value, user, user)
    ensures r.Ok? ==> var (p, p') := (ps[user], r.value[user]);
              && !HasId(p'.experiences, id)
              && (forall i :: 0 <= i < |p'.experiences| ==> p'.experiences[i] in p.experiences)
              && (forall i :: 0 <= i < |p.experiences| && p.experiences[i].id != id ==> p.experiences[i] in p'.experiences)
              && p'.experiences == WithoutId(p.experiences, id)
              && p' == p.(experiences := p'.experiences)
  {
    if user !in ps then Err(NoProfile)
    else Ok(ps[user := ps[user].(experiences := WithoutId(ps[user].experiences, id))])
  }

  /** `addEducation`: the new entry (with the id the store gives it) goes first. */
  function AddEducation(ps: Profiles, user: UserId, e: Entry<Education>): (r: Result<Profiles, ProfileError>)
    ensures r.Err? <==> user !in ps
    ensures r.Err? ==> r.error == NoProfile
    ensures r.Ok? ==> OnlyPairChanged(ps, r.value, user, user)
    ensures r.Ok? ==> var (p, p') := (ps[user], r.value[user]);
              && |p'.educations| == |p.educations| + 1
              && p'.educations[0] == e && p'.educations[1..] == p.educations
              && p' == p.(educations := p'.educations)
  {
    if user !in ps then Err(NoProfile)
    else Ok(ps[user := ps[user].(educations := [e] + ps[user].educations)])
  }

  /** `deleteEducation`: every entry with the id is removed, the rest keep
      their order; an unknown id is not an error. */
  function DeleteEducation(ps: Profiles, user: UserId, id: string): (r: Result<Profiles, ProfileError>)
    ensures r.Err? <==> user !in ps
    ensures r.Err? ==> r.error == NoProfile
    ensures r.Ok? ==> OnlyPairChanged(ps, r.value, user, user)
    ensures r.Ok? ==> var (p, p') := (ps[user], r.value[user]);
              && !HasId(p'.educations, id)
              && (forall i :: 0 <= i < |p'.educations| ==> p'.educations[i] in p.educations)
              && (forall i :: 0 <= i < |p.educations| && p.educations[i].id != id ==> p.educations[i] in p'.educations)
              && p'.educations == WithoutId(p.educations, id)
              && p' == p.(educations := p'.educations)
  {
    if user !in ps then Err(NoProfile)
    else Ok(ps[user := ps[user].(educations := WithoutId(ps[user].educations, id))])
  }

  /** Deleting an experience just added under a fresh id restores the profiles. */
  lemma DeleteUndoesAddExperience(ps: Profiles, user: UserId, e: Entry<Experience>)
    requires user in ps && !HasId(ps[user].experiences, e.id)
    ensures DeleteExperience(AddExperience(ps, user, e).value, user, e.id) == Ok(ps)
  {
    var s := ps[user].experiences;
    WithoutIdAppend([e], s, e.id);
    WithoutIdAbsent(s, e.id);
    assert WithoutId([e], e.id) == [];
    var added := AddExperience(ps, user, e).value;
    assert added[user].experiences == [e] + s;
    var back := DeleteExperience(added, user, e.id).value;
    assert back[user] == ps[user];
    assert back.Keys == ps.Keys;
    assert forall u :: u in ps ==> back[u] == ps[u];
    assert back == ps;
    assert user in added;
  }

  /** Deleting an education just added under a fresh id restores the profiles. */
  lemma DeleteUndoesAddEducation(ps: Profiles, user: UserId, e: Entry<Education>)
    requires user in ps && !HasId(ps[user].educations, e.id)
    ensures DeleteEducation(AddEducation(ps, user, e).value, user, e.id) == Ok(ps)
  {
    var s := ps[user].educations;
    WithoutIdAppend([e], s, e.id);
    WithoutIdAbsent(s, e.id);
    assert WithoutId([e], e.id) == [];
    var added := AddEducation(ps, user, e).value;
    assert added[user].educations == [e] + s;
    var back := DeleteEducation(added, user, e.id).value;
    assert back[user] == ps[user];
    assert back.Keys == ps.Keys;
    assert forall u :: u in ps ==> back[u] == ps[u];
    assert back == ps;
    assert user in added;
  }

  // ------------------------------------------------------- follow / unfollow

  /** `follow`: refused if the target already lists the follower or the
      follower already lists the target; otherwise one entry goes at the head
      of each side. */
  function Follow(ps: Profiles, from: UserId, to: UserId): (r: Result<Profiles, ProfileError>)
    requires from != to
    ensures from !in ps ==> r == Err(NoProfile)
    ensures from in ps && to !in ps ==> r == Err(NoTargetProfile)
    ensures from in ps && to in ps && Ref(from) in ps[to].followers ==> r == Err(AlreadyFollowedBy)
    ensures r.Ok? <==> from in ps && to in ps && Ref(from) !in ps[to].followers && Ref(to) !in ps[from].followings
    ensures r.Err? ==> r.error in {NoProfile, NoTargetProfile, AlreadyFollowedBy, AlreadyFollowing}
    ensures r.Ok? ==>
              && OnlyPairChanged(ps, r.value, from, to)
              && r.value[from].followings == [Ref(to)] + ps[from].followings
              && r.value[to].followers == [Ref(from)] + ps[to].followers
              && r.value[from] == ps[from].(followings := r.value[from].followings)
              && r.value[to] == ps[to].(followers := r.value[to].followers)
  {
    match Lookup(ps, from, to)
    case Err(e) => Err(e)
    case Ok((fp, tp)) =>
      if Ref(from) in tp.followers then Err(AlreadyFollowedBy)
      else if Ref(to) in fp.followings then Err(AlreadyFollowing)
      else Ok(ps[from := fp.(followings := [Ref(to)] + fp.followings)]
                [to := tp.(followers := [Ref(from)] + tp.followers)])
  }

  /** `unfollow`: refused if either side lacks the edge; otherwise every
      matching entry is removed on both sides and the others keep their order. */
  function Unfollow(ps: Profiles, from: UserId, to: UserId): (r: Result<Profiles, ProfileError>)
    requires from != to
    ensures from !in ps ==> r == Err(NoProfile)
    ensures from in ps && to !in ps ==> r == Err(NoTargetProfile)
    ensures from in ps && to in ps && Ref(from) !in ps[to].followers ==> r == Err(NotFollowedBy)
    ensures r.Ok? <==> from in ps && to in ps && Ref(from) in ps[to].followers && Ref(to) in ps[from].followings
    ensures r.Err? ==> r.error in {NoProfile, NoTargetProfile, NotFollowedBy, NotFollowing}
    ensures r.Ok? ==>
              && OnlyPairChanged(ps, r.value, from, to)
              && Ref(to) !in r.value[from].followings && Ref(from) !in r.value[to].followers
              && (forall x :: x in r.value[from].followings <==> x in ps[from].followings && x != Ref(to))
              && (forall x :: x in r.value[to].followers <==> x in ps[to].followers && x != Ref(from))
              && r.value[from].followings == Without(ps[from].followings, to)
              && r.value[to].followers == Without(ps[to].followers, from)
              && r.value[from] == ps[from].(followings := r.value[from].followings)
              && r.value[to] == ps[to].(followers := r.value[to].followers)
  {
    match Lookup(ps, from, to)
    case Err(e) => Err(e)
    case Ok((fp, tp)) =>
      if Ref(from) !in tp.followers then Err(NotFollowedBy)
      else if Ref(to) !in fp.followings then Err(NotFollowing)
      else Ok(ps[from := fp.(followings := Without(fp.followings, to))]
                [to := tp.(followers := Without(tp.followers, from))])
  }

  // ------------------------------------------------------------- friends

  /** `addFriend`, as written: refused only if the target already lists the
      sender as a friend. One request goes at the head of the target's
      incoming list and one at the head of the sender's outgoing list; the
      `filter` meant to drop an older outgoing request has its result
      discarded, so repeated requests pile up. */
  function AddFriend(ps: Profiles, from: UserId, to: UserId): (r: Result<Profiles, ProfileError>)
    requires from != to
    ensures from !in ps ==> r == Err(NoProfile)
    ensures from in ps && to !in ps ==> r == Err(NoTargetProfile)
    ensures r.Ok? <==> from in ps && to in ps && Ref(from) !in ps[to].friends
    ensures r.Err? ==> r.error in {NoProfile, NoTargetProfile, AlreadyFriends}
    ensures r.Ok? ==>
              && OnlyPairChanged(ps, r.value, from, to)
              && r.value[to].friendRequests == [Ref(from)] + ps[to].friendRequests
              && r.value[from].friendRequestSent == [Ref(to)] + ps[from].friendRequestSent
              && r.value[to] == ps[to].(friendRequests := r.value[to].friendRequests)
              && r.value[from] == ps[from].(friendRequestSent := r.value[from].friendRequestSent)
  {
    match Lookup(ps, from, to)
    case Err(e) => Err(e)
    case Ok((fp, tp)) =>
      if Ref(from) in tp.friends then Err(AlreadyFriends)
      else Ok(ps[to := tp.(friendRequests := [Ref(from)] + tp.friendRequests)]
                [from := fp.(friendRequestSent := [Ref(to)] + fp.friendRequestSent)])
  }

  /** `addFriend` with the `filter` result kept: an older outgoing request to
      the same user is replaced, so the sender lists the target exactly once. */
  function AddFriendDeduplicated(ps: Profiles, from: UserId, to: UserId): (r: Result<Profiles, ProfileError>)
    requires from != to
    ensures r.Ok? <==> AddFriend(ps, from, to).Ok?
    ensures r.Err? ==> r == AddFriend(ps, from, to)
    ensures r.Ok? ==>
              && OnlyPairChanged(ps, r.value, from, to)
              && multiset(r.value[from].friendRequestSent)[Ref(to)] == 1
              && r.value[from].friendRequestSent == [Ref(to)] + Without(ps[from].friendRequestSent, to)
              && r.value[to] == AddFriend(ps, from, to).value[to]
              && r.value[from] == ps[from].(friendRequestSent := r.value[from].friendRequestSent)
  {
    match Lookup(ps, from, to)
    case Err(e) => Err(e)
    case Ok((fp, tp)) =>
      if Ref(from) in tp.friends then Err(AlreadyFriends)
      else Ok(ps[to := tp.(friendRequests := [Ref(from)] + tp.friendRequests)]
                [from := fp.(friendRequestSent := [Ref(to)] + Without(fp.friendRequestSent, to))])
  }

  /** `acceptFriendRequest`, as written: refused if either side already lists
      the other as a friend; no pending request is needed. Each user goes at
      the head of the other's friends; the `filter` calls meant to clear the
      request have their results discarded, so both request lists stay as
      they were. */
  function AcceptFriendRequest(ps: Profiles, current: UserId, requester: UserId): (r: Result<Profiles, ProfileError>)
    requires current != requester
    ensures current !in ps ==> r == Err(NoProfile)
    ensures current in ps && requester !in ps ==> r == Err(NoTargetProfile)
    ensures r.Ok? <==> && current in ps && requester in ps
                       && Ref(requester) !in ps[current].friends && Ref(current) !in ps[requester].friends
    ensures r.Err? ==> r.error in {NoProfile, NoTargetProfile, AlreadyFriends}
    ensures r.Ok? ==>
              && OnlyPairChanged(ps, r.value, current, requester)
              && r.value[current].friends == [Ref(requester)] + ps[current].friends
              && r.value[requester].friends == [Ref(current)] + ps[requester].friends
              && r.value[current] == ps[current].(friends := r.value[current].friends)
              && r.value[requester] == ps[requester].(friends := r.value[requester].friends)
  {
    match Lookup(ps, current, requester)
    case Err(e) => Err(e)
    case Ok((cp, rp)) =>
      if Ref(requester) in cp.friends || Ref(current) in rp.friends then Err(AlreadyFriends)
      else Ok(ps[current := cp.(friends := [Ref(requester)] + cp.friends)]
                [requester := rp.(friends := [Ref(current)] + rp.friends)])
  }

  /** `acceptFriendRequest` with the `filter` results kept: the accepted
      request leaves the acceptor's incoming list and the requester's
      outgoing list, and nothing else in either profile changes. */
  function AcceptFriendRequestClearing(ps: Profiles, current: UserId, requester: UserId): (r: Result<Profiles, ProfileError>)
    requires current != requester
    ensures r.Ok? <==> AcceptFriendRequest(ps, current, requester).Ok?
    ensures r.Err? ==> r == AcceptFriendRequest(ps, current, requester)
    ensures r.Ok? ==>
              && OnlyPairChanged(ps, r.value, current, requester)
              && Ref(requester) in r.value[current].friends && Ref(current) in r.value[requester].friends
              && Ref(requester) !in r.value[current].friendRequests
              && Ref(current) !in r.value[requester].friendRequestSent
              && (forall x :: x in r.value[current].friendRequests <==> x in ps[current].friendRequests && x != Ref(requester))
              && (forall x :: x in r.value[requester].friendRequestSent <==> x in ps[requester].friendRequestSent && x != Ref(current))
              && r.value[current].friends == AcceptFriendRequest(ps, current, requester).value[current].friends
              && r.value[requester].friends == AcceptFriendRequest(ps, current, requester).value[requester].friends
              && r.value[current].friendRequests == Without(ps[current].friendRequests, requester)
              && r.value[requester].friendRequestSent == Without(ps[requester].friendRequestSent, current)
              && r.value[current] == ps[current].(friends := r.value[current].friends,
                                                  friendRequests := r.value[current].friendRequests)
              && r.value[requester] == ps[requester].(friends := r.value[requester].friends,
                                                      friendRequestSent := r.value[requester].friendRequestSent)
  {
    match Lookup(ps, current, requester)
    case Err(e) => Err(e)
    case Ok((cp, rp)) =>
      if Ref(requester) in cp.friends || Ref(current) in rp.friends then Err(AlreadyFriends)
      else Ok(ps[current := cp.(friends := [Ref(requester)] + cp.friends,
                               friendRequests := Without(cp.friendRequests, requester))]
                [requester := rp.(friends := [Ref(current)] + rp.friends,
                                  friendRequestSent := Without(rp.friendRequestSent, current))])
  }

  /** Every entry of the list names `u`: the negation of
      `list.some(({ user }) => user !== u)`. */
  predicate OnlyNames(s: seq<Ref>, u: UserId) {
    forall i :: 0 <= i < |s| ==> s[i].user == u
  }

  /** Filtering `u` out of a list that names only `u` leaves nothing. */
  lemma {:induction false} OnlyNamesFilterToEmpty(s: seq<Ref>, u: UserId)
    requires OnlyNames(s, u)
    ensures Without(s, u) == []
  {
    if |s| > 0 {
      assert s[0] == Ref(u);
      OnlyNamesFilterToEmpty(s[1..], u);
    }
  }

  /** `unfriend`, as written: the guard is inverted, so the call is refused
      whenever either side has a friend other than the counterpart, and goes
      through when each side's friends are only the other (or nobody). On
      success both friend lists are therefore empty. */
  function Unfriend(ps: Profiles, from: UserId, to: UserId): (r: Result<Profiles, ProfileError>)
    requires from != to
    ensures from !in ps ==> r == Err(NoProfile)
    ensures from in ps && to !in ps ==> r == Err(NoTargetProfile)
    ensures r.Ok? <==> from in ps && to in ps && OnlyNames(ps[from].friends, to) && OnlyNames(ps[to].friends, from)
    ensures r.Err? ==> r.error in {NoProfile, NoTargetProfile, NotFriends}
    ensures r.Ok? ==>
              && OnlyPairChanged(ps, r.value, from, to)
              && r.value[from].friends == [] && r.value[to].friends == []
              && r.value[from] == ps[from].(friends := [])
              && r.value[to] == ps[to].(friends := [])
  {
    match Lookup(ps, from, to)
    case Err(e) => Err(e)
    case Ok((fp, tp)) =>
      if !OnlyNames(fp.friends, to) || !OnlyNames(tp.friends, from) then Err(NotFriends)
      else
        OnlyNamesFilterToEmpty(fp.friends, to);
        OnlyNamesFilterToEmpty(tp.friends, from);
        Ok(ps[from := fp.(friends := Without(fp.friends, to))][to := tp.(friends := Without(tp.friends, from))])
  }

  /** `unfriend` with the guard the message describes: refused unless both
      sides list each other as friends; then each side drops the other and
      keeps its other friends in order. */
  function UnfriendChecked(ps: Profiles, from: UserId, to: UserId): (r: Result<Profiles, ProfileError>)
    requires from != to
    ensures from !in ps ==> r == Err(NoProfile)
    ensures from in ps && to !in ps ==> r == Err(NoTargetProfile)
    ensures r.Ok? <==> from in ps && to in ps && Ref(to) in ps[from].friends && Ref(from) in ps[to].friends
    ensures r.Err? ==> r.error in {NoProfile, NoTargetProfile, NotFriends}
    ensures r.Ok? ==>
              && OnlyPairChanged(ps, r.value, from, to)
              && Ref(to) !in r.value[from].friends && Ref(from) !in r.value[to].friends
              && (forall x :: x in r.value[from].friends <==> x in ps[from].friends && x != Ref(to))
              && (forall x :: x in r.value[to].friends <==> x in ps[to].friends && x != Ref(from))
              && r.value[from].friends == Without(ps[from].friends, to)
              && r.value[to].friends == Without(ps[to].friends, from)
              && r.value[from] == ps[from].(friends := r.value[from].friends)
              && r.value[to] == ps[to].(friends := r.value[to].friends)
  {
    match Lookup(ps, from, to)
    case Err(e) => Err(e)
    case Ok((fp, tp)) =>
      if Ref(to) !in fp.friends || Ref(from) !in tp.friends then Err(NotFriends)
      else Ok(ps[from := fp.(friends := Without(fp.friends, to))][to := tp.(friends := Without(tp.friends, from))])
  }
}
