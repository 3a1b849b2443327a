# Membership and relationship engine of a social-network backend, in Dafny

This project models the service layer of an Express/Mongoose social-network backend. Most operations there load one or two documents, check some conditions on lists of `{ user }` entries, rewrite those lists and save. Here every such operation is a pure function from a store to `Result<store, error>`. There is one error constructor per distinct failure reason. Messages the service uses for the same reason share one constructor. Wherever a row below says "iff", the group, post or profiles involved are assumed to exist, and so are the acting users. A missing one fails with its own lookup error (GroupNotFound, PostNotFound, UserNotFound, NoProfile, NoTargetProfile), which the contracts also state.

The modelled parts are:

- **Group roles** (`GroupRoles`). The role catalogue creator > admin > mod > member, with `getLevelFromString`.
- **Group membership engine** (`GroupModel`, `GroupService`, `GroupProperties`). It covers:
  - unique names and codes;
  - the creator bootstrap;
  - the join-request queue and approval;
  - promotion (`addManager`), demotion (`deleteManager`) and removal (`deleteMember`);
  - the member list.
  Authority is the numeric level of the actor's first member entry, with two exceptions. Approval accepts any entry of the actor whose level is high enough. Deletion asks for the role name "creator".
- **Older group service** (`LegacyGroupService`). Uniqueness checks only, with no permission checks.
- **Profile relationship engine** (`ProfileService`, `ProfileProperties`):
  - follow/unfollow;
  - the friend workflow addFriend / acceptFriendRequest / unfriend, modelled as written and in corrected form;
  - experience and education lists;
  - the `skills` split.
- **Post interactions** (`PostService`). Delete-post ownership, the like toggle, comments, and share/unshare.
- **Chat rooms** (`ChatService`). The member list and roles of a new room, and the membership guard in front of `getMessages`.
- **Populate builder** (`SchemaPopulate`, `UserReferences`). It turns `"a.b.c"` into a nested `{ path, populate }` chain whose innermost object carries `select`.
- **Shared pieces.** `Common` holds ids, the `{ user }` entry `Ref`, sub-documents with an id (`Entry`), `Option`, `Result`, and `filter`/`find` on lists. `Strings` holds JavaScript's `split`, `join` and `trim`, with the ECMAScript whitespace set.

Invariants proved over the operations:

- In every group, members are distinct, requests are distinct, and nobody is both a member and pending.
- The stored level of every member is the level of its role name.
- Names and codes are unique across groups.
- Once a group has its creator, the creator stays: this holds for the corrected promotion.
- Every relationship between two profiles (follow, friendship, pending request) is listed on both sides.
- A post has at most one like and one share per user, and its comment ids are distinct.

Round trips proved:

- unfollow undoes follow;
- a second like undoes the first;
- removeShared undoes sharePost, when the post already has a shares list;
- deleteComment undoes createComment;
- deleting an experience or education undoes adding it;
- the corrected unfriend undoes the corrected accept;
- `join(split(s))` gives `s` back for skills and populate paths.

## Model

| member | source | states |
|---|---|---|
| GroupRoles.LevelFromString | src/modules/groups/enums/group_manager_role.ts:29-40 | Levels stay within 0..3. The level is 3, 2 or 1 exactly for "creator", "admin" or "mod". Every other name, "member" included, gets 0. |
| GroupRoles.Creator | src/modules/groups/enums/group_manager_role.ts:7-12 | The creator getter is named "creator", and its level is the level `getLevelFromString` gives that name. |
| GroupRoles.Admin | src/modules/groups/enums/group_manager_role.ts:13-18 | The admin getter is named "admin", and its level is the level of that name. |
| GroupRoles.Mod | src/modules/groups/enums/group_manager_role.ts:19-21 | The mod getter is named "mod", and its level is the level of that name. |
| GroupRoles.Member | src/modules/groups/enums/group_manager_role.ts:22-27 | The member getter is named "member", and its level is the level of that name. |
| GroupRoles.CatalogIsStrictlyOrdered | src/modules/groups/enums/group_manager_role.ts:7-40 | The getters have levels 3, 2, 1 and 0, strictly decreasing creator > admin > mod > member. Every name outside the catalogue falls back to the member level. |
| GroupRoles.LevelIdentifiesCatalogRole | src/modules/groups/enums/group_manager_role.ts:7-40 | Within the catalogue, two roles share a level only if they are the same role, and each role's level agrees with its name. |
| GroupModel.DefaultMember | src/modules/groups/groups.model.ts:27-35 | An admitted user gets the schema defaults: role "member" with the member level. |
| GroupModel.FindMember | src/modules/groups/group.service.ts:94-96 | `members.find(user)` finds something exactly when the user has an entry, and returns the first such entry. |
| GroupModel.Retag | src/modules/groups/group.service.ts:295-300 | The rewrite loop sets every entry of the target to the given role and level. Length and the other entries are unchanged. |
| GroupModel.DropMember | src/modules/groups/group.service.ts:416-418 | Filtering a user out leaves no entry of that user. Every other entry stays. |
| GroupModel.DropMemberAppend | src/modules/groups/group.service.ts:416-418 | The filter distributes over concatenation, so the other entries keep their order. |
| Common.WithoutAppend | src/modules/profile/profile.service.ts:259-266 | Dropping one user's `{ user }` entries, as the services' `filter` calls do, distributes over concatenation. Together with `WithoutAbsent`, this pins the result to the kept entries in their original order and multiplicity. |
| Common.WithoutIdAppend | src/modules/profile/profile.service.ts:144-146 | Dropping the entries with one `_id` distributes over concatenation. So the kept entries stay in their original order and multiplicity. |
| GroupService.CreateGroup | src/modules/groups/group.service.ts:38-74 | Fails for an unknown user, or when any group has the same name or the same code (50-58); otherwise succeeds. The new group has the given fields, exactly one member (the creator, with role "creator" and level 3; 64-69) and no requests. Other groups are unchanged. |
| GroupService.UpdateGroup | src/modules/groups/group.service.ts:76-124 | Checks are made in source order. Succeeds iff the group exists, the actor exists, the actor's first entry has level ≥ 2 (94-100), and no *other* group uses the name or code (102-111). On success only this group's fields change. |
| GroupService.DeleteGroup | src/modules/groups/group.service.ts:126-156 | For an existing group and actor, succeeds iff the actor's first entry carries the role name "creator" (140-146); the level is not enough. On success exactly that group is gone. |
| GroupService.JoinGroup | src/modules/groups/group.service.ts:158-198 | A pending request gives AlreadyRequested, and an existing member gives AlreadyMember (172-190). Otherwise exactly one request for the user goes at the head of the queue, and nothing else changes. |
| GroupService.ApproveJoinRequest | src/modules/groups/group.service.ts:200-249 | For an existing group, censor and user, succeeds iff some entry of the censor has level ≥ 2 and the user has a pending request (214-237). A missing user fails with UserNotFound. On success the requests become exactly the old ones without the user's, in order. One default member entry goes at the head. |
| GroupService.AddManager | src/modules/groups/group.service.ts:251-305 | As written: for an existing group and actor, succeeds iff the actor's level is ≥ the requested role's level and the target is a member (276-292). The target is not ranked against the actor. Every entry of the target gets that role and level; count and other entries are unchanged (295-300). Nothing else in the group changes. |
| GroupService.AddManagerChecked | src/modules/groups/group.service.ts:276-300 | Corrected promotion: additionally requires the actor to outrank the target. It succeeds exactly when the as-written call does and the actor outranks the target, and then has the same result. |
| GroupService.DeleteManager | src/modules/groups/group.service.ts:307-360 | For an existing group and actor, succeeds iff the target is a member and the actor's level is strictly above the target's (328-347). So never on oneself. Only the target's entries are reset to member/0, and nothing else in the group changes. |
| GroupService.GetMemberList | src/modules/groups/group.service.ts:362-373 | Fails for a missing group; otherwise returns its member list. |
| GroupService.DeleteMember | src/modules/groups/group.service.ts:375-422 | The same guard as deleteManager (394-413). Only the target's entries are filtered out (416-418). The others keep their order, as `DropMember` states, and nothing else in the group changes. |
| GroupProperties.LevelsBounded | src/modules/groups/enums/group_manager_role.ts:29-40 | In a group whose levels match role names, no level exceeds the creator's, and level 3 means the role name "creator". |
| GroupProperties.CreateGroupKeepsStoreWf | src/modules/groups/group.service.ts:50-69 | Creation keeps names and codes unique, keeps every group well formed, and leaves every group with a creator. |
| GroupProperties.UpdateGroupKeepsStoreWf | src/modules/groups/group.service.ts:102-118 | Updating keeps names and codes unique and groups well formed, because only other groups count as collisions. |
| GroupProperties.DeleteGroupKeepsStoreWf | src/modules/groups/group.service.ts:140-153 | Deletion keeps the store invariants. |
| GroupProperties.EnqueueKeepsGroupWf | src/modules/groups/group.service.ts:172-192 | Queueing a user who is neither pending nor a member keeps requests distinct and disjoint from members. |
| GroupProperties.JoinGroupKeepsStoreWf | src/modules/groups/group.service.ts:158-198 | joinGroup keeps the store invariants. |
| GroupProperties.AdmitKeepsGroupWf | src/modules/groups/group.service.ts:239-244 | Turning a pending request into a default member keeps members distinct, requests distinct, and levels matching roles. |
| GroupProperties.ApproveJoinRequestKeepsStoreWf | src/modules/groups/group.service.ts:200-249 | approveJoinRequest keeps the store invariants. |
| GroupProperties.RetagKeepsGroupWf | src/modules/groups/group.service.ts:295-300 | Rewriting a user's entries to a role and that role's level keeps a group well formed. |
| GroupProperties.DropKeepsGroupWf | src/modules/groups/group.service.ts:416-418 | Filtering a member out keeps a group well formed. |
| GroupProperties.AddManagerKeepsStoreWf | src/modules/groups/group.service.ts:251-305 | addManager as written keeps well-formedness; keeping the creator is not claimed (see Findings). |
| GroupProperties.DeleteManagerKeepsStoreWf | src/modules/groups/group.service.ts:307-360 | deleteManager keeps the store invariants, and every group keeps a creator. |
| GroupProperties.DeleteMemberKeepsStoreWf | src/modules/groups/group.service.ts:375-422 | deleteMember keeps the store invariants, and every group keeps a creator. |
| GroupProperties.RankedTargetIsNotCreator | src/modules/groups/group.service.ts:341-347 | If the actor outranks the target, no entry of the target is a creator. |
| GroupProperties.CreatorIsUntouchable | src/modules/groups/group.service.ts:328-347 | Demoting or removing a creator, or oneself, always fails. |
| GroupProperties.MemberListIsWellFormed | src/modules/groups/group.service.ts:362-373 | In a well-formed store the returned member list names each user once, and its levels agree with the role names. Nobody on it has a pending request. While creators are kept, it holds a creator. |
| GroupProperties.AddManagerCanDemoteCreator | src/modules/groups/group.service.ts:276-300 | Counterexample: a level-0 member "promotes" the creator to "member", the call succeeds, and the group is left without a creator. |
| GroupProperties.AddManagerCheckedSparesCreator | src/modules/groups/group.service.ts:276-300 | The corrected promotion keeps the store invariants, and every group keeps its creator. |
| GroupProperties.ApplyKeepsInvariants | src/modules/groups/group.service.ts:76-422 | Any group call (update, delete, join, approve, corrected promote, demote, remove) keeps well-formedness and the creator. |
| LegacyGroupService.CreateGroup | src/modules/groups/groups.service.ts:11-39 | Fails for an unknown user, or when any group has the name or the code (23-31). The group is built from the fields alone, with no member entries and no requests (33-37). |
| LegacyGroupService.UpdateGroup | src/modules/groups/groups.service.ts:46-76 | Fails for a missing id (50-53). Only groups with a different id count as collisions (55-64). On success only the fields of that group change. |
| LegacyGroupService.DeleteGroup | src/modules/groups/groups.service.ts:78-84 | No permission check: fails exactly when no group has the id, and otherwise removes just that group. |
| LegacyGroupService.KeepingOwnNameIsNoCollision | src/modules/groups/groups.service.ts:55-64 | With unique names, renaming a group to its own name and code never collides. |
| LegacyGroupService.LegacyCallsKeepNamesUnique | src/modules/groups/groups.service.ts:11-84 | Create, update and delete keep names and codes unique across groups. |
| ProfileService.SkillOf | src/modules/profile/profile.service.ts:73 | A stored skill is one space, then the piece with its leading and trailing whitespace cut off. The cut parts are whitespace, and the result has no surrounding whitespace left. |
| ProfileService.Skills | src/modules/profile/profile.service.ts:71-73 | An array is kept unchanged. A string yields commas + 1 skills, none containing a comma. |
| ProfileService.SkillsRoundTrip | src/modules/profile/profile.service.ts:71-73 | The i-th skill comes from the i-th comma-separated piece, and joining the pieces with "," gives the text back. |
| ProfileService.AddExperience | src/modules/profile/profile.service.ts:115-131 | Fails without a profile. Otherwise exactly the new entry is prepended (127), and nothing else changes. |
| ProfileService.DeleteExperience | src/modules/profile/profile.service.ts:133-149 | The experiences become exactly `WithoutId` of the old list (144-146). That removes every entry with the id and keeps the others in order and multiplicity. The profile is otherwise unchanged. |
| ProfileService.AddEducation | src/modules/profile/profile.service.ts:151-169 | Fails without a profile. Otherwise exactly the new entry is prepended (166). |
| ProfileService.DeleteEducation | src/modules/profile/profile.service.ts:171-187 | The educations become exactly `WithoutId` of the old list (182-184). That removes every entry with the id and keeps the others in order and multiplicity. The profile is otherwise unchanged. |
| ProfileService.DeleteUndoesAddExperience | src/modules/profile/profile.service.ts:115-149 | Deleting an experience just added under a fresh id restores every profile. |
| ProfileService.DeleteUndoesAddEducation | src/modules/profile/profile.service.ts:151-187 | Deleting an education just added under a fresh id restores every profile. |
| ProfileService.Follow | src/modules/profile/profile.service.ts:189-228 | Fails if the target's followers list the follower, or the follower's followings list the target (202-219). Otherwise one entry is prepended on each side (220-223), and nothing else changes. |
| ProfileService.Unfollow | src/modules/profile/profile.service.ts:230-272 | For existing profiles, fails iff either side lacks the edge (243-257). Otherwise both lists become exactly `Without` of the old ones (259-266): every matching entry goes, and the others keep their order. |
| ProfileService.AddFriend | src/modules/profile/profile.service.ts:274-314 | As written: fails only if the target's friends list the sender (287-298). Otherwise one request is prepended on each side (300, 308), with no de-duplication. |
| ProfileService.AddFriendDeduplicated | src/modules/profile/profile.service.ts:302-308 | Corrected: same outcome and receiver side. The sender lists the target exactly once, ahead of its other requests. |
| ProfileService.AcceptFriendRequest | src/modules/profile/profile.service.ts:353-400 | As written: for existing profiles, fails iff either side already lists the other as a friend (371-382). No pending request is needed. Each becomes the other's first friend, and the request lists are untouched (384-394). |
| ProfileService.AcceptFriendRequestClearing | src/modules/profile/profile.service.ts:384-394 | Corrected: same outcome and friends. The accepted request also leaves the acceptor's incoming and the requester's outgoing lists, and everything else in them stays. |
| ProfileService.Unfriend | src/modules/profile/profile.service.ts:316-351 | As written: for existing profiles, succeeds iff each side's friends name only the other or nobody (329-336). On success both friend lists are empty (338-344). |
| ProfileService.UnfriendChecked | src/modules/profile/profile.service.ts:329-344 | Corrected: for existing profiles, succeeds iff the two list each other as friends. Then each friend list becomes exactly `Without` of the old one: the other goes, and all other friends keep their order. |
| ProfileProperties.PairUpdateKeepsMirrored | src/modules/profile/profile.service.ts:220-223 | A two-profile update in which each side changes only its entries for the other, and those agree, keeps a relationship listed on both sides. |
| ProfileProperties.FollowKeepsWf | src/modules/profile/profile.service.ts:220-223 | follow keeps "A follows B ⇔ B is followed by A", and the friend and request mirrors. |
| ProfileProperties.UnfollowKeepsWf | src/modules/profile/profile.service.ts:259-266 | unfollow keeps all three mirrors. |
| ProfileProperties.MirroredFollowNeedsOneCheck | src/modules/profile/profile.service.ts:202-219 | With mirrored follow lists the second check of follow never fires. follow succeeds exactly when the follower does not yet follow the target. |
| ProfileProperties.UnfollowUndoesFollow | src/modules/profile/profile.service.ts:189-272 | Unfollowing right after following restores every profile. |
| ProfileProperties.AddFriendKeepsWf | src/modules/profile/profile.service.ts:300-308 | addFriend as written keeps the request mirror, and the others. |
| ProfileProperties.AddFriendDeduplicatedKeepsWf | src/modules/profile/profile.service.ts:300-308 | The corrected addFriend keeps all mirrors. |
| ProfileProperties.AcceptFriendRequestKeepsWf | src/modules/profile/profile.service.ts:384-394 | acceptFriendRequest as written keeps all mirrors. |
| ProfileProperties.AcceptFriendRequestClearingKeepsWf | src/modules/profile/profile.service.ts:384-394 | The corrected accept keeps all mirrors. |
| ProfileProperties.UnfriendKeepsWf | src/modules/profile/profile.service.ts:338-344 | unfriend as written keeps all mirrors. |
| ProfileProperties.UnfriendCheckedKeepsWf | src/modules/profile/profile.service.ts:338-344 | The corrected unfriend keeps all mirrors. |
| ProfileProperties.AddFriendTwiceDuplicates | src/modules/profile/profile.service.ts:302-308 | As written: a repeated request succeeds, and both the sender's and the receiver's lists grow by two copies. |
| ProfileProperties.AddFriendDeduplicatedIsStable | src/modules/profile/profile.service.ts:302-308 | Corrected: a repeat leaves the sender's profile as it was, listing the target once. |
| ProfileProperties.AcceptLeavesRequestPending | src/modules/profile/profile.service.ts:384-394 | Counterexample: after a request and its acceptance the two are friends, yet the request is still pending on both sides. |
| ProfileProperties.AcceptClearsAnsweredRequest | src/modules/profile/profile.service.ts:384-394 | Corrected: after a request and its acceptance the two are friends and the request is gone from both sides. |
| ProfileProperties.TriangleIsWf | src/modules/profile/profile.service.ts:329-336 | The counterexample state (a is friends with b and c) is consistent: every relationship is mirrored. |
| ProfileProperties.UnfriendRefusesFriends | src/modules/profile/profile.service.ts:329-336 | Counterexample: a and b are mutual friends, but a also has friend c, so unfriend fails with NotFriends. The corrected call succeeds. |
| ProfileProperties.UnfriendAcceptsStrangers | src/modules/profile/profile.service.ts:329-344 | Counterexample: two users with no friends can "unfriend". The corrected call refuses them. |
| ProfileProperties.UnfriendUndoesAccept | src/modules/profile/profile.service.ts:329-394 | The corrected unfriend right after the corrected accept gives both friend lists back as they were. |
| ProfileProperties.ApplyKeepsWf | src/modules/profile/profile.service.ts:189-400 | Each relationship call (follow, unfollow, corrected addFriend, accept, unfriend) keeps profiles stored under their owner and all three relationships mirrored. |
| ProfileProperties.ApplyAllKeepsWf | src/modules/profile/profile.service.ts:189-400 | Any sequence of those calls keeps the same invariant. |
| PostService.DeletePost | src/modules/posts/posts.service.ts:133-165 | Fails for a missing post, and unless the caller is the author (159-161). On success exactly that post is gone. |
| PostService.DeletePostIsFinal | src/modules/posts/posts.service.ts:133-165 | After a successful delete, any further delete of that id fails with PostNotFound. Exactly one post is gone, and every remaining post is one that was there, unchanged. |
| PostService.LikePost | src/modules/posts/posts.service.ts:167-185 | Toggles: the caller's like is present afterwards iff it was absent before. A present like loses every entry of the caller, and the likes become `Without` of the old list, in order. Otherwise exactly one entry is prepended (173-177). |
| PostService.CreateComment | src/modules/posts/posts.service.ts:187-212 | Exactly one comment by the caller, with the store's id, is prepended, and the other comments are unchanged (197-202). |
| PostService.DeleteComment | src/modules/posts/posts.service.ts:214-247 | Fails for an unknown id. Fails unless the caller is both the first matching comment's author and the post's author (224-233). On success the comments become exactly `WithoutId` of the old list (235-237): the comments with that id go, and the others keep their order. |
| PostService.SharePost | src/modules/posts/posts.service.ts:249-270 | For an existing post, fails iff the caller has shared already (255-260). Otherwise exactly one share is prepended, creating the list if absent (261-262). |
| PostService.RemoveShared | src/modules/posts/posts.service.ts:272-296 | For an existing post, fails iff a shares list exists without the caller (278-283). Otherwise the shares become exactly `Without` of the old list (an absent list reads as empty) (284-288): every share of the caller goes, and the others keep their order. |
| PostService.LikeTwiceRestores | src/modules/posts/posts.service.ts:173-177 | Two likes by a user who had not liked the post restore every post exactly. |
| PostService.RemoveSharedUndoesShare | src/modules/posts/posts.service.ts:255-288 | When the post already has a shares list, removing a share right after sharing restores every post. |
| PostService.ShareThenRemoveLeavesEmptyList | src/modules/posts/posts.service.ts:255-288 | On a post without a shares list, sharePost creates `[user]` and removeShared then leaves `[]`. The post ends with an empty list, not with no list, so the pair does not restore it. |
| PostService.DeleteCommentUndoesCreate | src/modules/posts/posts.service.ts:187-247 | The post's author can delete the comment they just wrote under a fresh id, which restores every post. |
| PostService.LikePostKeepsPostWf | src/modules/posts/posts.service.ts:173-177 | The like toggle keeps at most one like per user. |
| PostService.DeletePostKeepsPostWf | src/modules/posts/posts.service.ts:133-165 | Deleting a post leaves every remaining post well formed. |
| PostService.CreateCommentKeepsPostWf | src/modules/posts/posts.service.ts:197-202 | A comment under a fresh id keeps comment ids distinct. |
| PostService.DeleteCommentKeepsPostWf | src/modules/posts/posts.service.ts:235-237 | Deleting a comment keeps comment ids distinct. |
| PostService.SharePostKeepsPostWf | src/modules/posts/posts.service.ts:255-262 | Sharing keeps at most one share per user. |
| PostService.RemoveSharedKeepsPostWf | src/modules/posts/posts.service.ts:278-288 | Un-sharing keeps at most one share per user. |
| ChatService.RoomMembers | src/modules/chats/chat.service.ts:31-38 | The member list is the creator followed by the invited users, so its length is the input count + 1. An entry is "admin" iff it is the creator's id and there are more than two entries. |
| ChatService.CreateChatRoom | src/modules/chats/chat.service.ts:23-45 | Fails iff the user is unknown, or the room type is neither "private" nor "group". The schema's `type` enum (chats/chat.model.ts:6) rejects any other type when the room is saved (43). Otherwise the new room holds exactly those members, and other rooms are unchanged. |
| ChatService.CreatorRoleFollowsRoomSize | src/modules/chats/chat.service.ts:31-38 | The creator is first and is "admin" iff at least two users were invited. Every other user is a plain member, and the invited users follow in order. |
| ChatService.MessagesOf | src/modules/chats/chat.service.ts:113-116 | Returns the messages whose chat is the given one, and no others. Order and repeated copies are pinned by `ChatService.MessagesOfAppend`. |
| ChatService.MessagesOfAppend | src/modules/chats/chat.service.ts:113-116 | Selecting a chat's messages distributes over concatenation. So the selected messages keep their store order, and every copy of a repeated message is returned. |
| ChatService.GetMessages | src/modules/chats/chat.service.ts:102-118 | Fails for a missing chat, or when the caller is not among the members (109-111). Otherwise returns `MessagesOf` for that chat: its messages in store order, every copy kept. |
| ChatService.RoomMembersCanReadMessages | src/modules/chats/chat.service.ts:23-118 | For a room of a valid type, the creator and every invited user of the new room pass the membership guard and read exactly its messages. |
| SchemaPopulate.Nest | src/core/utils/helper.ts:15-29 | The nested chain has one object per segment, in order, and only the innermost object carries `select`. |
| SchemaPopulate.GetSchemaPopulate | src/core/utils/helper.ts:5-33 | An empty path list gives undefined (`None`). Otherwise there is one chain per path, in order, whose segments are the path split on "." and whose innermost `select` is the given one. |
| SchemaPopulate.SchemaPopulateRoundTrip | src/core/utils/helper.ts:15-32 | The chain depth is the number of dots + 1, and joining the chain's paths with "." gives the input path back. |
| UserReferences.GetPopulate | src/modules/users/utils/reference_field.ts:4-29 | An empty path list gives undefined. Otherwise there is one chain per path, in order. |
| UserReferences.NestUserIsNest | src/modules/users/utils/reference_field.ts:11-25 | The nesting closure of `getPopulate` builds the same chain as the general builder with `selectFields`. |
| UserReferences.GetPopulateIsSchemaPopulate | src/modules/users/utils/reference_field.ts:4-29 | `getPopulate(p)` equals `getSchemaPopulate(p, selectFields)`. |
| UserReferences.UserPopulateRoundTrip | src/modules/users/utils/reference_field.ts:2-29 | Each chain has depth dots + 1 and spells out its path. Its leaf selects first_name, last_name and avatar. |
| Strings.Split | src/core/utils/helper.ts:32 | JavaScript `split` yields separators + 1 pieces, none containing the separator. |
| Strings.JoinSplit | src/core/utils/helper.ts:32 | Joining the pieces of `split` with the separator gives the string back. |
| Strings.SplitJoin | src/core/utils/helper.ts:32 | Splitting the join of separator-free pieces gives the pieces back. |
| Strings.Trim | src/modules/profile/profile.service.ts:73 | `trim` returns a slice of the input that starts after the leading whitespace and leaves only whitespace after it. The result neither starts nor ends with whitespace. |

## Left out

- Persistence (Mongoose `find`, `save`, `populate`, `findByIdAndUpdate`) is not modelled; a store is a value and each call returns the new store rather than the populated document or list. Non-atomic two-document saves, crash windows and concurrent requests are out of scope.
- Fresh ids (a new group, comment or chat room id, an experience or education `_id`) are parameters; creating a group or chat room requires its id to be unused.
- Two-profile operations (follow, unfollow, addFriend, acceptFriendRequest, unfriend) require two different users. The source loads two independent copies of the same document when both are the same user, and the outcome then depends on save order.
- ObjectId-to-string comparisons are modelled as string equality on ids.
- `PostService.DeletePost`: the model reads the ownership guard `post.user.toString() !== userId` (posts.service.ts:159) as a comparison of the author's id. It leaves out the `populate` of `user` in front of it (134-153). Were that populate to replace the id with a user document, the comparison would refuse every caller, the author included.
- Optional profile lists are treated as present (the source's `if (!x) x = []` guards). A post's `shares` list is the exception: the share calls test `post.shares && …` and behave differently when it is absent, so it is `Option`.
- Role validation when a group is saved is not modelled, because group.model.ts is not part of this model. An unrecognised role passed to addManager is stored as given, with level 0.
- The "Update is not success" and "Delete is not success" paths of group.service.ts (121, 153) and the "Update is not success" path of groups.service.ts (73) are not modelled. They fire only when the store loses the document between the existence check and the write.
- `LegacyGroupService.UpdateGroup`: the source applies a partial `$set`; the model takes the full name/code/description triple.
- `GroupService.UpdateGroup`: the source applies the same partial `$set: { ...groupDTO }` (group.service.ts:113-116); the model again takes the full name/code/description triple.
- `PostService.RemoveSharedUndoesShare`: holds only when the post already has a shares list. On an absent list the pair leaves an empty list instead (`PostService.ShareThenRemoveLeavesEmptyList`).
- Friendship and a pending request between the same pair are not excluded by `ProfileProperties.ProfilesWf`. The corrected accept clears only the answered direction, so a request the acceptor had sent the other way stays pending.
- The other `createProfile` fields, `normalizeUrl`, `getCurrentProfile` and `deleteProfile`: URL normalisation is a foreign library, and the rest is persistence.
- `sendMessage`, `getAllChat`, `getChatById`, `getAllPostFilter`, `getAllGroup`, `getGroupById` and the user and auth services are queries and plumbing; search and pagination depend on user-supplied regexes and an environment variable.
- Join dates, `date`, `recent_date` and the other timestamps are dropped.
- ChatRole values come from the chat schema, where the roles are "admin" and "member"; chats/enums/chat_role is not part of this model.
- `ChatService.CreateChatRoom`: `members` is always present in the model. The source throws at `members.unshift` (chat.service.ts:31) when the request omits it, because the request object does not validate `members`. Schema validation on save is modelled only for the room `type`.
- The `populate` options used by each service (for example `["members.user"]` for chats) are covered by `SchemaPopulate` in general; their specific constants are not instantiated.

## Findings

| source | as written | input that shows it | evidently intended | confidence | as-written member | corrected member |
|---|---|---|---|---|---|---|
| src/modules/groups/group.service.ts:276-300 | `addManager` compares the actor's level only with the requested role's level. Any member can rewrite the creator's entry. | group with members c (creator, 3) and m (member, 0); m calls addManager(target c, role "member"): succeeds, and the group has no creator left | the actor must also outrank the target, as `deleteManager` and `deleteMember` require (341-347, 407-413) | medium, not executed | GroupProperties.AddManagerCanDemoteCreator | GroupProperties.AddManagerCheckedSparesCreator |
| src/modules/profile/profile.service.ts:302-308 | the `filter` on `friend_request_sent` is evaluated and thrown away, so every repeated request adds another copy on both sides | addFriend(a, b) twice, with a not yet b's friend: both succeed, and a's sent list holds b twice | the filtered list replaces the old one, so the sender lists the target once | high, not executed | ProfileProperties.AddFriendTwiceDuplicates | ProfileProperties.AddFriendDeduplicatedIsStable |
| src/modules/profile/profile.service.ts:384-394 | both `filter` calls that should clear the accepted request are thrown away | a and b with no relations; addFriend(a, b), then acceptFriendRequest(b, a): a and b are friends, yet b still lists a's request and a still lists it as sent | the request leaves b's incoming and a's outgoing list | high, not executed | ProfileProperties.AcceptLeavesRequestPending | ProfileProperties.AcceptClearsAnsweredRequest |
| src/modules/profile/profile.service.ts:329-336 | `unfriend` refuses when either side has any friend other than the counterpart, so the guard is inverted | a's friends [b, c], b's [a], c's [a]: unfriend(a, b) fails with "You are not friends with this user"; two users with no friends can unfriend | fail unless the two list each other as friends | high, not executed | ProfileProperties.UnfriendRefusesFriends | ProfileService.UnfriendChecked |
