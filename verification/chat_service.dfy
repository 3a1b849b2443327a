/** Chat rooms: how `createChatRoom` builds the member list and its roles,
    and the membership guard in front of `getMessages`. */
module ChatService {
  import opened Common

  type ChatId = string

  /** The two roles a chat member can hold, stored as "admin" and "member". */
  datatype ChatRole = Admin | Member

  datatype ChatMember = ChatMember(user: UserId, role: ChatRole)

  /** A chat room; `kind` is the "private"/"group" type and `name` is optional. */
  datatype Chat = Chat(kind: string, name: Option<string>, members: seq<ChatMember>)

  datatype Message = Message(sender: UserId, chat: ChatId, kind: string, content: string)

  /** One constructor per distinct reason a chat call throws. */
  datatype ChatError =
    | UserNotFound    // "User id is not exist"
    | ChatNotFound    // "Chat is not exist"
    | NotChatMember   // "You are not a member of this chat"
    | InvalidChatType // the schema's `type` enum rejects the room on save

  /** The users of a member list, in order. */
  function UsersOf(ms: seq<ChatMember>): (us: seq<UserId>)
    ensures |us| == |ms| && forall i :: 0 <= i < |ms| ==> us[i] == ms[i].user
  {
    seq(|ms|, i requires 0 <= i < |ms| => ms[i].user)
  }

  /** `members.some(m => m.user === u)`. */
  predicate IsChatMember(ms: seq<ChatMember>, u: UserId) {
    exists i :: 0 <= i < |ms| && ms[i].user == u
  }

  /** The member list `createChatRoom` builds: the creator is put in front of
      the invited users, and an entry is "admin" exactly when it is the
      creator's id and the room has more than two entries. */
  function RoomMembers(userId: UserId, invited: seq<UserId>): (ms: seq<ChatMember>)
    ensures |ms| == |invited| + 1
    ensures UsersOf(ms) == [userId] + invited
    ensures forall i :: 0 <= i < |ms| ==> (ms[i].role == Admin <==> ms[i].user == userId && |ms| > 2)
  {
    var all := [userId] + invited;
    var ms := seq(|all|, i requires 0 <= i < |all| =>
                ChatMember(all[i], if all[i] == userId && |all| > 2 then Admin else Member));
    assert UsersOf(ms) == all;
    ms
  }

  /** The room types the chat schema's `type` enum admits. */
  predicate ValidChatType(kind: string) {
    kind == "private" || kind == "group"
  }

  /** `createChatRoom`: the caller must be a known user, and saving the room
      fails unless its type is one the schema admits; the new room, under the
      id the store gives it, holds `RoomMembers` and nothing else changes. */
  function CreateChatRoom(users: set<UserId>, chats: map<ChatId, Chat>, userId: UserId,
                          invited: seq<UserId>, kind: string, name: Option<string>,
                          newId: ChatId): (r: Result<map<ChatId, Chat>, ChatError>)
    requires newId !in chats
    ensures r.Err? <==> userId !in users || !ValidChatType(kind)
    ensures userId !in users ==> r == Err(UserNotFound)
    ensures userId in users && !ValidChatType(kind) ==> r == Err(InvalidChatType)
    ensures r.Ok? ==> r.value.Keys == chats.Keys + {newId}
                      && (forall id :: id in chats ==> r.value[id] == chats[id])
                      && r.value[newId] == Chat(kind, name, RoomMembers(userId, invited))
  {
    if userId !in users then Err(UserNotFound)
    else if !ValidChatType(kind) then Err(InvalidChatType)
    else Ok(chats[newId := Chat(kind, name, RoomMembers(userId, invited))])
  }

  /** The messages of one chat, in store order: `find({ chat: chatId })`. */
  function MessagesOf(messages: seq<Message>, chatId: ChatId): (r: seq<Message>)
    ensures forall m :: m in r <==> m in messages && m.chat == chatId
    ensures |r| <= |messages|
  {
    if |messages| == 0 then []
    else
      assert messages == [messages[0]] + messages[1..];
      (if messages[0].chat == chatId then [messages[0]] else []) + MessagesOf(messages[1..], chatId)
  }

  /** Selecting a chat's messages distributes over concatenation, so the
      selected messages keep their store order and every copy of a repeated
      message is kept. */
  lemma {:induction false} MessagesOfAppend(a: seq<Message>, b: seq<Message>, chatId: ChatId)
    ensures MessagesOf(a + b, chatId) == MessagesOf(a, chatId) + MessagesOf(b, chatId)
  {
    if |a| == 0 {
      assert a + b == b;
    } else {
      assert (a + b)[1..] == a[1..] + b;
      MessagesOfAppend(a[1..], b, chatId);
    }
  }

  /** `getMessages`: the chat must exist and the caller must be one of its
      members; then every message of that chat is returned, and no other. */
  function GetMessages(chats: map<ChatId, Chat>, messages: seq<Message>, userId: UserId,
                       chatId: ChatId): (r: Result<seq<Message>, ChatError>)
    ensures chatId !in chats ==> r == Err(ChatNotFound)
    ensures r.Ok? <==> chatId in chats && IsChatMember(chats[chatId].members, userId)
    ensures r.Err? ==> r.error in {ChatNotFound, NotChatMember}
    ensures r.Ok? ==> forall m :: m in r.value <==> m in messages && m.chat == chatId
    ensures r.Ok? ==> r.value == MessagesOf(messages, chatId)
  {
    if chatId !in chats then Err(ChatNotFound)
    else if !IsChatMember(chats[chatId].members, userId) then Err(NotChatMember)
    else Ok(MessagesOf(messages, chatId))
  }

  /** The creator heads the room and holds "admin" exactly when at least two
      users were invited; every entry for another user is a plain member,
      and the invited users follow in the order given. */
  lemma CreatorRoleFollowsRoomSize(userId: UserId, invited: seq<UserId>)
    ensures var ms := RoomMembers(userId, invited);
            && ms[0].user == userId
            && (ms[0].role == Admin <==> |invited| >= 2)
            && (forall i :: 0 <= i < |ms| && ms[i].user != userId ==> ms[i].role == Member)
            && (forall i :: 0 <= i < |invited| ==> ms[i + 1].user == invited[i])
  {
    var ms := RoomMembers(userId, invited);
    assert UsersOf(ms)[0] == userId;
    forall i | 0 <= i < |invited| ensures ms[i + 1].user == invited[i] {
      assert UsersOf(ms)[i + 1] == ([userId] + invited)[i + 1];
    }
  }

  /** The position of `u` in `s`, for a `u` that occurs. */
  function IndexIn(s: seq<UserId>, u: UserId): (i: nat)
    requires u in s
    ensures i < |s| && s[i] == u
  {
    if s[0] == u then 0 else 1 + IndexIn(s[1..], u)
  }

  /** Everyone placed in a new room, the creator and each invited user, may
      read its messages, and gets exactly the messages sent to it. */
  lemma RoomMembersCanReadMessages(users: set<UserId>, chats: map<ChatId, Chat>, userId: UserId,
                                   invited: seq<UserId>, kind: string, name: Option<string>,
                                   newId: ChatId, messages: seq<Message>, reader: UserId)
    requires newId !in chats && userId in users && ValidChatType(kind)
    requires reader == userId || reader in invited
    ensures var created := CreateChatRoom(users, chats, userId, invited, kind, name, newId).value;
            && GetMessages(created, messages, reader, newId).Ok?
            && forall m :: m in GetMessages(created, messages, reader, newId).value <==> m in messages && m.chat == newId
  {
    var ms := RoomMembers(userId, invited);
    var all := [userId] + invited;
    var k := if reader == userId then 0 else 1 + IndexIn(invited, reader);
    assert all[k] == reader;
    assert UsersOf(ms)[k] == reader;
    assert ms[k].user == reader;
  }
}
