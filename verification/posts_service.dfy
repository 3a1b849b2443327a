/** The post interactions: deleting a post, the like toggle, adding and
    removing comments, sharing and un-sharing. */
module PostService {
  import opened Common

  type PostId = string

  /** A comment's content; its id is carried by the `Entry` around it. */
  datatype CommentBody = CommentBody(user: UserId, text: string)

  /** A post, reduced to the fields the modelled operations read or write.
      `shares` is absent (`None`) until the first share: the services guard
      every use of it with `post.shares && ...`. */
  datatype Post = Post(author: UserId, text: string, likes: seq<Ref>,
                       comments: seq<Entry<CommentBody>>, shares: Option<seq<Ref>>)

  type Posts = map<PostId, Post>

  /** One constructor per distinct reason a post call throws. */
  datatype PostError =
    | PostNotFound      // "Post is not found", "This post is not found"
    | NotAuthorized     // "You are not authorized"
    | CommentNotFound   // "Comment is not exist"
    | CannotRemove      // "You can not remove this comment"
    | AlreadyShared     // "Post is already shared"
    | NotYetShared      // "Post has not yet been shared"

  /** The shares list, read as empty while the field is absent. */
  function SharesOf(p: Post): seq<Ref> {
    match p.shares
    case None => []
    case Some(s) => s
  }

  /** Only the post stored under `id` may differ, and no post appears or disappears. */
  ghost predicate OnlyPostChanged(ps: Posts, ps': Posts, id: PostId) {
    && ps'.Keys == ps.Keys
    && forall other :: other in ps && other != id ==> ps'[other] == ps[other]
  }

  /** `deletePost`: only the author may delete; the post is gone afterwards
      and every other post stays. */
  function DeletePost(ps: Posts, user: UserId, postId: PostId): (r: Result<Posts, PostError>)
    ensures postId !in ps ==> r == Err(PostNotFound)
    ensures r.Ok? <==> postId in ps && ps[postId].author == user
    ensures r.Err? ==> r.error in {PostNotFound, NotAuthorized}
    ensures r.Ok? ==> r.value.Keys == ps.Keys - {postId}
                      && forall other :: other in r.value ==> r.value[other] == ps[other]
  {
    if postId !in ps then Err(PostNotFound)
    else if ps[postId].author != user then Err(NotAuthorized)
    else Ok(ps - {postId})
  }

  /** `likePost`: a user who likes the post already loses every like entry;
      any other user gains exactly one, at the head. */
  function LikePost(ps: Posts, user: UserId, postId: PostId): (r: Result<Posts, PostError>)
    ensures r.Err? <==> postId !in ps
    ensures r.Err? ==> r.error == PostNotFound
    ensures r.Ok? ==> OnlyPostChanged(ps, r.value, postId)
    ensures r.Ok? ==> var (p, p') := (ps[postId], r.value[postId]);
              && p' == p.(likes := p'.likes)
              && (Ref(user) in p'.likes <==> Ref(user) !in p.likes)
              && (Ref(user) in p.likes ==> forall x :: x in p'.likes <==> x in p.likes && x != Ref(user))
              && (Ref(user) in p.likes ==> p'.likes == Without(p.likes, user))
              && (Ref(user) !in p.likes ==> p'.likes == [Ref(user)] + p.likes)
  {
    if postId !in ps then Err(PostNotFound)
    else
      var p := ps[postId];
      if Ref(user) in p.likes then Ok(ps[postId := p.(likes := Without(p.likes, user))])
      else Ok(ps[postId := p.(likes := [Ref(user)] + p.likes)])
  }

  /** `createComment`: exactly one comment by the caller, with the id the
      store gives it, goes at the head; the other comments are unchanged. */
  function CreateComment(ps: Posts, user: UserId, postId: PostId, text: string, newId: string): (r: Result<Posts, PostError>)
    ensures r.Err? <==> postId !in ps
    ensures r.Err? ==> r.error == PostNotFound
    ensures r.Ok? ==> OnlyPostChanged(ps, r.value, postId)
    ensures r.Ok? ==> var (p, p') := (ps[postId], r.value[postId]);
              && p' == p.(comments := p'.comments)
              && |p'.comments| == |p.comments| + 1
              && p'.comments[0] == Entry(newId, CommentBody(user, text))
              && p'.comments[1..] == p.comments
  {
    if postId !in ps then Err(PostNotFound)
    else Ok(ps[postId := ps[postId].(comments := [Entry(newId, CommentBody(user, text))] + ps[postId].comments)])
  }

  /** `deleteComment`: the first comment with the id must exist, and the
      caller must be both its author and the post's author; then every
      comment with that id is removed and the others keep their order. */
  function DeleteComment(ps: Posts, user: UserId, postId: PostId, commentId: string): (r: Result<Posts, PostError>)
    ensures postId !in ps ==> r == Err(PostNotFound)
    ensures postId in ps && !HasId(ps[postId].comments, commentId) ==> r == Err(CommentNotFound)
    ensures r.Ok? <==> && postId in ps && HasId(ps[postId].comments, commentId)
                       && ps[postId].comments[IndexOfId(ps[postId].comments, commentId)].body.user == user
                       && ps[postId].author == user
    ensures r.Err? ==> r.error in {PostNotFound, CommentNotFound, CannotRemove}
    ensures r.Ok? ==> OnlyPostChanged(ps, r.value, postId)
    ensures r.Ok? ==> var (p, p') := (ps[postId], r.value[postId]);
              && p' == p.(comments := p'.comments)
              && !HasId(p'.comments, commentId)
              && (forall i :: 0 <= i < |p'.comments| ==> p'.comments[i] in p.comments)
              && (forall i :: 0 <= i < |p.comments| && p.comments[i].id != commentId ==> p.comments[i] in p'.comments)
              && p'.comments == WithoutId(p.comments, commentId)
  {
    if postId !in ps then Err(PostNotFound)
    else
      var p := ps[postId];
      var i := IndexOfId(p.comments, commentId);
      if i == |p.comments| then Err(CommentNotFound)
      else if p.comments[i].body.user != user || p.author != user then Err(CannotRemove)
      else Ok(ps[postId := p.(comments := WithoutId(p.comments, commentId))])
  }

  /** `sharePost`: refused if the caller has shared already; otherwise one
      share goes at the head (creating the list when absent). */
  function SharePost(ps: Posts, user: UserId, postId: PostId): (r: Result<Posts, PostError>)
    ensures postId !in ps ==> r == Err(PostNotFound)
    ensures r.Ok? <==> postId in ps && Ref(user) !in SharesOf(ps[postId])
    ensures r.Err? ==> r.error in {PostNotFound, AlreadyShared}
    ensures r.Ok? ==> OnlyPostChanged(ps, r.value, postId)
    ensures r.Ok? ==> var (p, p') := (ps[postId], r.value[postId]);
              && p' == p.(shares := p'.shares)
              && p'.shares == Some([Ref(user)] + SharesOf(p))
  {
    if postId !in ps then Err(PostNotFound)
    else
      var p := ps[postId];
      if p.shares.Some? && Ref(user) in p.shares.value then Err(AlreadyShared)
      else Ok(ps[postId := p.(shares := Some([Ref(user)] + SharesOf(p)))])
  }

  /** `removeShared`: refused if the list exists and lacks the caller;
      otherwise every share of the caller is removed and the others keep
      their order. An absent list lets the call through and leaves an empty
      list behind. */
  function RemoveShared(ps: Posts, user: UserId, postId: PostId): (r: Result<Posts, PostError>)
    ensures postId !in ps ==> r == Err(PostNotFound)
    ensures r.Ok? <==> postId in ps && (ps[postId].shares.None? || Ref(user) in SharesOf(ps[postId]))
    ensures r.Err? ==> r.error in {PostNotFound, NotYetShared}
    ensures r.Ok? ==> OnlyPostChanged(ps, r.value, postId)
    ensures r.Ok? ==> var (p, p') := (ps[postId], r.value[postId]);
              && p' == p.(shares := p'.shares)
              && p'.shares.Some?
              && Ref(user) !in SharesOf(p')
              && (forall x :: x in SharesOf(p') <==> x in SharesOf(p) && x != Ref(user))
              && p'.shares == Some(Without(SharesOf(p), user))
  {
    if postId !in ps then Err(PostNotFound)
    else
      var p := ps[postId];
      if p.shares.Some? && Ref(user) !in p.shares.value then Err(NotYetShared)
      else Ok(ps[postId := p.(shares := Some(Without(SharesOf(p), user)))])
  }

  // ------------------------------------------------------------ properties

  /** Deleting a post cannot be repeated: once it succeeded the id is gone,
      so any further `deletePost` of it fails with `PostNotFound`, and every
      post that remains is one that was there, unchanged. */
  lemma DeletePostIsFinal(ps: Posts, user: UserId, postId: PostId, anyone: UserId)
    requires DeletePost(ps, user, postId).Ok?
    ensures var rest := DeletePost(ps, user, postId).value;
            && postId !in rest
            && DeletePost(rest, anyone, postId) == Err(PostNotFound)
            && |rest.Keys| == |ps.Keys| - 1
            && forall id :: id in rest ==> id in ps && rest[id] == ps[id]
  {
  }

  /** Two likes by a user who had not liked the post restore every post. */
  lemma LikeTwiceRestores(ps: Posts, user: UserId, postId: PostId)
    requires postId in ps && Ref(user) !in ps[postId].likes
    ensures LikePost(LikePost(ps, user, postId).value, user, postId) == Ok(ps)
  {
    var once := LikePost(ps, user, postId).value;
    WithoutUndoesPrepend(ps[postId].likes, user);
    var back := LikePost(once, user, postId).value;
    assert back[postId] == ps[postId];
    assert back.Keys == ps.Keys;
    assert forall id :: id in ps ==> back[id] == ps[id];
    assert back == ps;
  }

  /** Removing a share right after sharing restores every post, as long as
      the post already had a shares list. */
  lemma RemoveSharedUndoesShare(ps: Posts, user: UserId, postId: PostId)
    requires postId in ps && ps[postId].shares.Some? && SharePost(ps, user, postId).Ok?
    ensures RemoveShared(SharePost(ps, user, postId).value, user, postId) == Ok(ps)
  {
    var once := SharePost(ps, user, postId).value;
    WithoutUndoesPrepend(SharesOf(ps[postId]), user);
    var back := RemoveShared(once, user, postId).value;
    assert back[postId] == ps[postId];
    assert back.Keys == ps.Keys;
    assert forall id :: id in ps ==> back[id] == ps[id];
    assert back == ps;
  }

  /** On a post without a shares list, sharing and then removing the share
      leaves an empty list behind instead of no list: every other field of
      the post and every other post are as before. */
  lemma ShareThenRemoveLeavesEmptyList(ps: Posts, user: UserId, postId: PostId)
    requires postId in ps && ps[postId].shares.None?
    ensures SharePost(ps, user, postId).Ok?
    ensures var once := SharePost(ps, user, postId).value;
            && RemoveShared(once, user, postId) == Ok(ps[postId := ps[postId].(shares := Some([]))])
            && RemoveShared(once, user, postId) != Ok(ps)
  {
    var once := SharePost(ps, user, postId).value;
    assert SharesOf(ps[postId]) == [] && [Ref(user)] + [] == [Ref(user)];
    assert once[postId].shares == Some([Ref(user)]);
    assert Without([Ref(user)], user) == [];
    var back := RemoveShared(once, user, postId).value;
    var expected := ps[postId := ps[postId].(shares := Some([]))];
    assert back.Keys == expected.Keys;
    assert forall id :: id in expected ==> back[id] == expected[id];
    assert back == expected;
    assert back[postId] != ps[postId];
  }

  /** The post's author can delete a comment they just wrote under a fresh
      id, and that restores every post. */
  lemma DeleteCommentUndoesCreate(ps: Posts, user: UserId, postId: PostId, text: string, newId: string)
    requires postId in ps && ps[postId].author == user && !HasId(ps[postId].comments, newId)
    ensures DeleteComment(CreateComment(ps, user, postId, text, newId).value, user, postId, newId) == Ok(ps)
  {
    var c := Entry(newId, CommentBody(user, text));
    var s := ps[postId].comments;
    var once := CreateComment(ps, user, postId, text, newId).value;
    assert once[postId].comments == [c] + s;
    assert HasId([c] + s, newId) by { assert ([c] + s)[0].id == newId; }
    WithoutIdAppend([c], s, newId);
    WithoutIdAbsent(s, newId);
    assert WithoutId([c], newId) == [];
    var back := DeleteComment(once, user, postId, newId).value;
    assert back[postId] == ps[postId];
    assert back.Keys == ps.Keys;
    assert forall id :: id in ps ==> back[id] == ps[id];
    assert back == ps;
  }

  /** At most one like and at most one share per user, and comment ids are distinct. */
  ghost predicate PostWf(p: Post) {
    && (forall u :: multiset(p.likes)[Ref(u)] <= 1)
    && (forall u :: multiset(SharesOf(p))[Ref(u)] <= 1)
    && (forall i, j :: 0 <= i < j < |p.comments| ==> p.comments[i].id != p.comments[j].id)
  }

  /** Filtering a user out keeps every user's count at most one. */
  lemma WithoutKeepsAtMostOne(s: seq<Ref>, user: UserId)
    requires forall u :: multiset(s)[Ref(u)] <= 1
    ensures forall u :: multiset(Without(s, user))[Ref(u)] <= 1
  {
    forall u ensures multiset(Without(s, user))[Ref(u)] <= 1 {
      WithoutCountBound(s, user, u);
    }
  }

  /** Filtering never raises a count. */
  lemma {:induction false} WithoutCountBound(s: seq<Ref>, user: UserId, u: UserId)
    ensures multiset(Without(s, user))[Ref(u)] <= multiset(s)[Ref(u)]
  {
    if |s| > 0 {
      assert s == [s[0]] + s[1..];
      WithoutCountBound(s[1..], user, u);
      if s[0].user != user {
        assert Without(s, user) == [s[0]] + Without(s[1..], user);
      } else {
        assert Without(s, user) == Without(s[1..], user);
      }
    }
  }

  /** Removing entries by id keeps ids distinct. */
  lemma {:induction false} WithoutIdKeepsDistinct(s: seq<Entry<CommentBody>>, id: string)
    requires forall i, j :: 0 <= i < j < |s| ==> s[i].id != s[j].id
    ensures var r := WithoutId(s, id); forall i, j :: 0 <= i < j < |r| ==> r[i].id != r[j].id
  {
    if |s| > 0 {
      var t := WithoutId(s[1..], id);
      WithoutIdKeepsDistinct(s[1..], id);
      WithoutIdAppend([s[0]], s[1..], id);
      assert s == [s[0]] + s[1..];
      if s[0].id != id {
        assert WithoutId([s[0]], id) == [s[0]];
        forall k | 0 <= k < |t| ensures t[k].id != s[0].id {
          var j :| 0 <= j < |s[1..]| && s[1..][j] == t[k];
          assert s[j + 1] == t[k];
        }
      } else {
        assert WithoutId([s[0]], id) == [];
      }
    }
  }

  /** Deleting a post leaves every remaining post well formed. */
  lemma DeletePostKeepsPostWf(ps: Posts, user: UserId, postId: PostId)
    requires forall id :: id in ps ==> PostWf(ps[id])
    requires DeletePost(ps, user, postId).Ok?
    ensures forall id :: id in DeletePost(ps, user, postId).value ==> PostWf(DeletePost(ps, user, postId).value[id])
  {
  }

  /** A prepended entry for someone not yet listed keeps every count at most one. */
  lemma PrependKeepsAtMostOne(s: seq<Ref>, user: UserId)
    requires Ref(user) !in s && forall u :: multiset(s)[Ref(u)] <= 1
    ensures forall u :: multiset([Ref(user)] + s)[Ref(u)] <= 1
  {
    assert multiset([Ref(user)] + s) == multiset{Ref(user)} + multiset(s);
  }

  lemma LikePostKeepsPostWf(ps: Posts, user: UserId, postId: PostId)
    requires postId in ps && PostWf(ps[postId])
    ensures LikePost(ps, user, postId).Ok? && PostWf(LikePost(ps, user, postId).value[postId])
  {
    var p := ps[postId];
    if Ref(user) in p.likes {
      WithoutKeepsAtMostOne(p.likes, user);
    } else {
      PrependKeepsAtMostOne(p.likes, user);
    }
  }

  lemma CreateCommentKeepsPostWf(ps: Posts, user: UserId, postId: PostId, text: string, newId: string)
    requires postId in ps && PostWf(ps[postId]) && !HasId(ps[postId].comments, newId)
    ensures CreateComment(ps, user, postId, text, newId).Ok?
    ensures PostWf(CreateComment(ps, user, postId, text, newId).value[postId])
  {
    var p := ps[postId];
    var cs := [Entry(newId, CommentBody(user, text))] + p.comments;
    forall i, j | 0 <= i < j < |cs| ensures cs[i].id != cs[j].id {
      if i == 0 {
        assert cs[j] == p.comments[j - 1];
      } else {
        assert cs[i] == p.comments[i - 1] && cs[j] == p.comments[j - 1];
      }
    }
    assert CreateComment(ps, user, postId, text, newId).value[postId] == p.(comments := cs);
  }

  lemma DeleteCommentKeepsPostWf(ps: Posts, user: UserId, postId: PostId, commentId: string)
    requires postId in ps && PostWf(ps[postId]) && DeleteComment(ps, user, postId, commentId).Ok?
    ensures PostWf(DeleteComment(ps, user, postId, commentId).value[postId])
  {
    var p := ps[postId];
    WithoutIdKeepsDistinct(p.comments, commentId);
    assert DeleteComment(ps, user, postId, commentId).value[postId] == p.(comments := WithoutId(p.comments, commentId));
  }

  lemma SharePostKeepsPostWf(ps: Posts, user: UserId, postId: PostId)
    requires postId in ps && PostWf(ps[postId]) && SharePost(ps, user, postId).Ok?
    ensures PostWf(SharePost(ps, user, postId).value[postId])
  {
    PrependKeepsAtMostOne(SharesOf(ps[postId]), user);
  }

  lemma RemoveSharedKeepsPostWf(ps: Posts, user: UserId, postId: PostId)
    requires postId in ps && PostWf(ps[postId]) && RemoveShared(ps, user, postId).Ok?
    ensures PostWf(RemoveShared(ps, user, postId).value[postId])
  {
    WithoutKeepsAtMostOne(SharesOf(ps[postId]), user);
  }
}
