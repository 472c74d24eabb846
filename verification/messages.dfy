/** The message controllers: list a chat's messages, send one (with uploaded attachments)
    and delete one, keeping each chat's `lastMessage` reference and telling the other
    participants. `me` is the authenticated requester's id. */
module MessageHandlers {
  import opened Base
  import opened Constants
  import opened Domain
  import Helpers
  import Sorting

  const ChatMissing := "Chat does not exist"

  /** Every chat's `lastMessage`, when set, names a stored message of that same chat. */
  ghost predicate LastMessagesResolve(s: Store) {
    forall c :: c in s.chats && c.lastMessage.Some? ==>
      exists m :: m in s.messages && m.id == c.lastMessage.value && m.chat == c.id
  }

  function MessagesOf(vs: seq<MessageView>): (r: seq<Message>)
    ensures |r| == |vs|
    ensures forall i :: 0 <= i < |vs| ==> r[i] == vs[i].message
  {
    seq(|vs|, i requires 0 <= i < |vs| => vs[i].message)
  }

  // ---------------------------------------------------------------- listing

  /** The messages of one chat, newest first: the match and sort stages. */
  function MessagesInChat(messages: seq<Message>, chatId: Id): (r: seq<Message>)
    ensures forall i, j :: 0 <= i < j < |r| ==> r[i].createdAt >= r[j].createdAt
    ensures forall m :: multiset(r)[m] == (if m.chat == chatId then multiset(messages)[m] else 0)
  {
    var mine := Filter(messages, (m: Message) => m.chat == chatId);
    FilterCount(messages, (m: Message) => m.chat == chatId);
    Sorting.SortDesc(mine, (m: Message) => m.createdAt)
  }

  /** The common message pipeline applied to each message. */
  function ViewMessages(users: seq<User>, ms: seq<Message>): (r: seq<MessageView>)
    ensures MessagesOf(r) == ms
    ensures forall i :: 0 <= i < |r| ==> r[i] == ViewMessage(users, ms[i])
  {
    seq(|ms|, i requires 0 <= i < |ms| => ViewMessage(users, ms[i]))
  }

  /** `getAllMessages`: a participant reads every message of the chat, newest first. */
  function GetAllMessages(s: Store, me: Id, chatId: Id): (r: Effect)
    ensures chatId !in ChatIds(s.chats) ==> r == Fail(s, 404, ChatMissing)
    ensures chatId in ChatIds(s.chats) && me !in ChatById(s.chats, chatId).value.participants ==>
              r == Fail(s, 400, "User is not a part of this chat")
    ensures chatId in ChatIds(s.chats) && me in ChatById(s.chats, chatId).value.participants ==>
              && r.store == s && r.events == [] && r.unlinked == []
              && r.reply.Respond? && r.reply.status == 200 && r.reply.data.MessagesDoc?
              && var vs := r.reply.data.messages;
                 && (forall i :: 0 <= i < |vs| ==> vs[i] == ViewMessage(s.users, MessagesOf(vs)[i]))
                 && (forall i, j :: 0 <= i < j < |vs| ==> MessagesOf(vs)[i].createdAt >= MessagesOf(vs)[j].createdAt)
                 && (forall m :: multiset(MessagesOf(vs))[m] == (if m.chat == chatId then multiset(s.messages)[m] else 0))
  {
    match ChatById(s.chats, chatId)
    case None => Fail(s, 404, ChatMissing)
    case Some(c) =>
      if me !in c.participants then Fail(s, 400, "User is not a part of this chat")
      else
        var views := ViewMessages(s.users, MessagesInChat(s.messages, chatId));
        Effect(s, [], [], Respond(200, MessagesDoc(views), "Messages fetched successfully"))
  }

  // ---------------------------------------------------------------- sending

  /** One attachment per uploaded file, in upload order, served from the request's host. */
  function Attachments(protocol: string, host: string, files: seq<string>): (r: seq<Attachment>)
    ensures |r| == |files|
    ensures forall i :: 0 <= i < |files| ==>
              r[i].localPath == Helpers.LocalPath(files[i])
              && r[i].url == Helpers.StaticFilePath(protocol, host, files[i])
  {
    seq(|files|, i requires 0 <= i < |files| =>
      Attachment(Helpers.StaticFilePath(protocol, host, files[i]), Helpers.LocalPath(files[i])))
  }

  function PointTo(messageId: Id, now: int): Chat -> Chat {
    (c: Chat) => c.(lastMessage := Some(messageId), updatedAt := now)
  }

  /** `sendMessage`: store a message from `me` in the chat under the fresh id `newId` at
      time `now`, make it the chat's last message and tell every other participant entry.
      `content` is the body's field (absent or a string), `files` the stored names of the
      uploaded attachments, `protocol` and `host` those of the request. There is no check
      that the sender is a participant. */
  function SendMessage(
    s: Store, me: Id, chatId: Id, content: Option<string>, files: seq<string>,
    protocol: string, host: string, newId: Id, now: int): (r: Effect)
    requires newId !in MessageIds(s.messages)
    ensures !Truthy(content) && |files| == 0 ==>
              r == Fail(s, 400, "Message content or attachment is required")
    ensures (Truthy(content) || |files| > 0) && chatId !in ChatIds(s.chats) ==>
              r == Fail(s, 404, ChatMissing)
    ensures (Truthy(content) || |files| > 0) && chatId in ChatIds(s.chats) ==>
              var c := ChatById(s.chats, chatId).value;
              && r.store.users == s.users && r.unlinked == []
              && |r.store.messages| == |s.messages| + 1
              && r.store.messages[..|s.messages|] == s.messages
              && var m := r.store.messages[|s.messages|];
                 && m.id == newId && m.sender == me && m.chat == chatId && m.createdAt == now
                 && m.content == (if Truthy(content) then content.value else "")
                 && m.attachments == Attachments(protocol, host, files)
                 && |r.store.chats| == |s.chats|
                 && (forall i :: 0 <= i < |s.chats| && s.chats[i].id != chatId ==> r.store.chats[i] == s.chats[i])
                 && (forall i :: 0 <= i < |s.chats| && s.chats[i].id == chatId ==>
                       r.store.chats[i] == s.chats[i].(lastMessage := Some(newId), updatedAt := now))
                 && r.reply == Respond(201, MessageDoc(ViewMessage(s.users, m)), "Message saved successfully")
                 && Rooms(r.events) == Pull(c.participants, me)
                 && (forall n :: n in r.events ==> n.event == MessageReceived && n.payload == r.reply.data)
    ensures WellFormed(s) ==> WellFormed(r.store)
    ensures LastMessagesResolve(s) ==> LastMessagesResolve(r.store)
  {
    if !Truthy(content) && |files| == 0 then
      Fail(s, 400, "Message content or attachment is required")
    else
      match ChatById(s.chats, chatId)
      case None => Fail(s, 404, ChatMissing)
      case Some(c) =>
        var m := Message(newId, me, if Truthy(content) then content.value else "", chatId,
                         Attachments(protocol, host, files), now);
        var s' := StoreMessage(s, m, now);
        var view := ViewMessage(s.users, m);
        Effect(s', NotifyEach(c.participants, Some(me), MessageReceived, MessageDoc(view)), [],
               Respond(201, MessageDoc(view), "Message saved successfully"))
  }

  /** The writes of a send: append the message, point its chat at it. */
  function StoreMessage(s: Store, m: Message, now: int): (r: Store)
    requires m.id !in MessageIds(s.messages)
    ensures r.users == s.users && r.messages == s.messages + [m]
    ensures r.chats == UpdateChat(s.chats, m.chat, PointTo(m.id, now))
    ensures WellFormed(s) ==> WellFormed(r)
    ensures LastMessagesResolve(s) ==> LastMessagesResolve(r)
  {
    var r := Store(s.users, UpdateChat(s.chats, m.chat, PointTo(m.id, now)), s.messages + [m]);
    assert WellFormed(s) ==> WellFormed(r) by {
      if WellFormed(s) {
        AddMessageWellFormed(s, m);
      }
    }
    assert LastMessagesResolve(s) ==> LastMessagesResolve(r) by {
      if LastMessagesResolve(s) {
        SendKeepsResolved(s, r, m.chat, m, now);
      }
    }
    r
  }

  lemma SendKeepsResolved(s: Store, s': Store, chatId: Id, m: Message, now: int)
    requires LastMessagesResolve(s)
    requires m.chat == chatId
    requires s' == Store(s.users, UpdateChat(s.chats, chatId, PointTo(m.id, now)), s.messages + [m])
    ensures LastMessagesResolve(s')
  {
    forall c | c in s'.chats && c.lastMessage.Some?
      ensures exists x :: x in s'.messages && x.id == c.lastMessage.value && x.chat == c.id
    {
      var i :| 0 <= i < |s'.chats| && s'.chats[i] == c;
      if s.chats[i].id == chatId {
        assert m in s'.messages;
      } else {
        assert s.chats[i] == c;
        var x :| x in s.messages && x.id == c.lastMessage.value && x.chat == c.id;
        assert x in s'.messages;
      }
    }
  }

  /** Every participant entry except the sender hears MESSAGE_RECEIVED once per entry,
      whether or not the sender is a participant. */
  lemma SendNotifiesOthers(
    s: Store, me: Id, chatId: Id, content: Option<string>, files: seq<string>,
    protocol: string, host: string, newId: Id, now: int, x: Id)
    requires newId !in MessageIds(s.messages)
    requires Truthy(content) || |files| > 0
    requires chatId in ChatIds(s.chats)
    ensures var r := SendMessage(s, me, chatId, content, files, protocol, host, newId, now);
            var c := ChatById(s.chats, chatId).value;
            && (x in Rooms(r.events) <==> x in c.participants && x != me)
            && (x != me ==> multiset(Rooms(r.events))[x] == multiset(c.participants)[x])
  {
  }

  // ---------------------------------------------------------------- deleting

  /** `ChatMessage.findOne({ chat }, {}, { sort: { createdAt: -1 } })`: the first of the
      newest messages. */
  function Newest(ms: seq<Message>): (r: Option<Message>)
    ensures r.None? <==> |ms| == 0
    ensures r.Some? ==> r.value in ms && forall m :: m in ms ==> m.createdAt <= r.value.createdAt
  {
    if |ms| == 0 then None
    else
      var rest := Newest(ms[1..]);
      assert forall m :: m in ms ==> m == ms[0] || m in ms[1..];
      if rest.None? || ms[0].createdAt >= rest.value.createdAt then Some(ms[0]) else rest
  }

  /** The chat's last message after a recomputation: the newest remaining one, or none. */
  function Recomputed(messages: seq<Message>, chatId: Id): (r: Option<Id>)
    ensures r.None? <==> forall m :: m in messages ==> m.chat != chatId
    ensures r.Some? ==> exists m :: m in messages && m.chat == chatId && m.id == r.value
                                    && forall n :: n in messages && n.chat == chatId ==> n.createdAt <= m.createdAt
  {
    match Newest(Filter(messages, (m: Message) => m.chat == chatId))
    case None => None
    case Some(m) => Some(m.id)
  }

  function Repoint(last: Option<Id>, now: int): Chat -> Chat {
    (c: Chat) => c.(lastMessage := last, updatedAt := now)
  }

  /** The chat named in the request, provided the requester takes part in it. */
  function ChatOfMember(chats: seq<Chat>, chatId: Id, me: Id): (r: Option<Chat>)
    ensures r.None? <==> forall c :: c in chats ==> !(c.id == chatId && me in c.participants)
    ensures r.Some? ==> r.value in chats && r.value.id == chatId && me in r.value.participants
  {
    Find(chats, (c: Chat) => c.id == chatId && me in c.participants)
  }

  /** `deleteMessage`, with the outcome of the guard before the `lastMessage` recomputation
      given as `recompute`. The message is looked up by id alone, so it need not belong to
      the chat named in the request. */
  function DeleteMessageWith(s: Store, me: Id, chatId: Id, messageId: Id, recompute: bool, now: int): (r: Effect)
    ensures ChatOfMember(s.chats, chatId, me).None? ==> r == Fail(s, 404, ChatMissing)
    ensures ChatOfMember(s.chats, chatId, me).Some? && messageId !in MessageIds(s.messages) ==>
              r == Fail(s, 404, "Message does not exist")
    ensures ChatOfMember(s.chats, chatId, me).Some? && messageId in MessageIds(s.messages)
            && MessageById(s.messages, messageId).value.sender != me ==>
              r == Fail(s, 403, "You are not the authorised to delete the message, you are not the sender")
    ensures ChatOfMember(s.chats, chatId, me).Some? && messageId in MessageIds(s.messages)
            && MessageById(s.messages, messageId).value.sender == me ==>
              var c := ChatOfMember(s.chats, chatId, me).value;
              var m := MessageById(s.messages, messageId).value;
              && r.store.users == s.users
              && (forall x :: x in r.store.messages <==> x in s.messages && x.id != messageId)
              && r.store.messages == Filter(s.messages, (x: Message) => x.id != messageId)
              && r.unlinked == LocalPathsOf(m)
              && (!recompute ==> r.store.chats == s.chats)
              && (recompute ==>
                    && |r.store.chats| == |s.chats|
                    && (forall i :: 0 <= i < |s.chats| && s.chats[i].id != chatId ==> r.store.chats[i] == s.chats[i])
                    && (forall i :: 0 <= i < |s.chats| && s.chats[i].id == chatId ==>
                          r.store.chats[i] == s.chats[i].(lastMessage := Recomputed(r.store.messages, chatId), updatedAt := now)))
              && r.reply == Respond(200, RawMessageDoc(m), "Message deleted successfully")
              && Rooms(r.events) == Pull(c.participants, me)
              && (forall n :: n in r.events ==> n.event == MessageDelete && n.payload == RawMessageDoc(m))
    ensures WellFormed(s) ==> WellFormed(r.store)
  {
    match ChatOfMember(s.chats, chatId, me)
    case None => Fail(s, 404, ChatMissing)
    case Some(c) =>
      match MessageById(s.messages, messageId)
      case None => Fail(s, 404, "Message does not exist")
      case Some(m) =>
        if m.sender != me then
          Fail(s, 403, "You are not the authorised to delete the message, you are not the sender")
        else RemoveOwnMessage(s, me, c, m, recompute, now)
  }

  /** The part of `deleteMessage` after every check has passed: the sender's message `m`
      goes with its files, the chat `c` is repointed when `recompute` holds, and every other
      participant entry of `c` is told. */
  function RemoveOwnMessage(s: Store, me: Id, c: Chat, m: Message, recompute: bool, now: int): (r: Effect)
    ensures r.store.users == s.users
    ensures forall x :: x in r.store.messages <==> x in s.messages && x.id != m.id
    ensures r.store.messages == Filter(s.messages, (x: Message) => x.id != m.id)
    ensures r.unlinked == LocalPathsOf(m)
    ensures !recompute ==> r.store.chats == s.chats
    ensures recompute ==>
              && |r.store.chats| == |s.chats|
              && (forall i :: 0 <= i < |s.chats| && s.chats[i].id != c.id ==> r.store.chats[i] == s.chats[i])
              && (forall i :: 0 <= i < |s.chats| && s.chats[i].id == c.id ==>
                    r.store.chats[i] == s.chats[i].(lastMessage := Recomputed(r.store.messages, c.id), updatedAt := now))
    ensures r.reply == Respond(200, RawMessageDoc(m), "Message deleted successfully")
    ensures Rooms(r.events) == Pull(c.participants, me)
    ensures forall n :: n in r.events ==> n.event == MessageDelete && n.payload == RawMessageDoc(m)
    ensures WellFormed(s) ==> WellFormed(r.store)
  {
    var messages := Filter(s.messages, (x: Message) => x.id != m.id);
    var chats := if recompute then UpdateChat(s.chats, c.id, Repoint(Recomputed(messages, c.id), now))
                 else s.chats;
    assert NoDup(MessageIds(s.messages)) ==> NoDup(MessageIds(messages)) by {
      if NoDup(MessageIds(s.messages)) {
        FilterDistinct(s.messages, (x: Message) => x.id != m.id, MessageKey);
      }
    }
    Effect(Store(s.users, chats, messages),
           NotifyEach(c.participants, Some(me), MessageDelete, RawMessageDoc(m)),
           LocalPathsOf(m),
           Respond(200, RawMessageDoc(m), "Message deleted successfully"))
  }

  /** The handler as written: the guard compares the chat's `lastMessage` string with the
      message's id object under `===`, which never holds, so nothing is recomputed. */
  function DeleteMessageAsWritten(s: Store, me: Id, chatId: Id, messageId: Id, now: int): (r: Effect)
    ensures r.store.chats == s.chats
    ensures r == DeleteMessageWith(s, me, chatId, messageId, false, now)
  {
    DeleteMessageWith(s, me, chatId, messageId, false, now)
  }

  /** The handler with the guard corrected (recompute exactly when the deleted message is
      the chat's last message) but the message still looked up by id alone. */
  function DeleteMessageAnyChat(s: Store, me: Id, chatId: Id, messageId: Id, now: int): (r: Effect)
    ensures var c := ChatOfMember(s.chats, chatId, me);
            r == DeleteMessageWith(s, me, chatId, messageId, c.Some? && c.value.lastMessage == Some(messageId), now)
    ensures WellFormed(s) && LastMessagesResolve(s) && r.reply.Respond?
            && MessageById(s.messages, messageId).value.chat == chatId ==>
              LastMessagesResolve(r.store)
  {
    var c := ChatOfMember(s.chats, chatId, me);
    var recompute := c.Some? && c.value.lastMessage == Some(messageId);
    var r := DeleteMessageWith(s, me, chatId, messageId, recompute, now);
    assert (WellFormed(s) && LastMessagesResolve(s) && r.reply.Respond?
            && MessageById(s.messages, messageId).value.chat == chatId) ==> LastMessagesResolve(r.store) by {
      if WellFormed(s) && LastMessagesResolve(s) && r.reply.Respond?
         && MessageById(s.messages, messageId).value.chat == chatId {
        DeleteKeepsResolved(s, me, chatId, messageId, now);
      }
    }
    r
  }

  /** The handler as intended: the message is looked up among the messages of the chat named
      in the request, so a message of another chat is missing here, and the chat's last
      message is recomputed exactly when it is the deleted one. */
  function DeleteMessage(s: Store, me: Id, chatId: Id, messageId: Id, now: int): (r: Effect)
    ensures ChatOfMember(s.chats, chatId, me).Some? && messageId in MessageIds(s.messages)
            && MessageById(s.messages, messageId).value.chat != chatId ==>
              r == Fail(s, 404, "Message does not exist")
    ensures !(ChatOfMember(s.chats, chatId, me).Some? && messageId in MessageIds(s.messages)
              && MessageById(s.messages, messageId).value.chat != chatId) ==>
              r == DeleteMessageAnyChat(s, me, chatId, messageId, now)
    ensures WellFormed(s) ==> WellFormed(r.store)
    ensures WellFormed(s) && LastMessagesResolve(s) ==> LastMessagesResolve(r.store)
  {
    if ChatOfMember(s.chats, chatId, me).Some? && messageId in MessageIds(s.messages)
       && MessageById(s.messages, messageId).value.chat != chatId then
      Fail(s, 404, "Message does not exist")
    else
      var r := DeleteMessageAnyChat(s, me, chatId, messageId, now);
      assert r.reply.Respond? ==> MessageById(s.messages, messageId).value.chat == chatId;
      r
  }

  lemma DeleteKeepsResolved(s: Store, me: Id, chatId: Id, messageId: Id, now: int)
    requires WellFormed(s) && LastMessagesResolve(s)
    requires ChatOfMember(s.chats, chatId, me).Some?
    requires messageId in MessageIds(s.messages)
    requires MessageById(s.messages, messageId).value.chat == chatId
    requires MessageById(s.messages, messageId).value.sender == me
    ensures var c := ChatOfMember(s.chats, chatId, me).value;
            LastMessagesResolve(DeleteMessageWith(s, me, chatId, messageId, c.lastMessage == Some(messageId), now).store)
  {
    var c := ChatOfMember(s.chats, chatId, me).value;
    var m := MessageById(s.messages, messageId).value;
    var recompute := c.lastMessage == Some(messageId);
    assert DeleteMessageWith(s, me, chatId, messageId, recompute, now) == RemoveOwnMessage(s, me, c, m, recompute, now);
    RemoveKeepsResolved(s, me, c, m, recompute, now);
  }

  /** Removing the sender's message `m` of chat `c` and repointing `c` exactly when `m` was its
      last message leaves every chat's last message resolvable. */
  lemma RemoveKeepsResolved(s: Store, me: Id, c: Chat, m: Message, recompute: bool, now: int)
    requires WellFormed(s) && LastMessagesResolve(s)
    requires c in s.chats && m in s.messages && m.chat == c.id
    requires recompute == (c.lastMessage == Some(m.id))
    ensures LastMessagesResolve(RemoveOwnMessage(s, me, c, m, recompute, now).store)
  {
    var s' := RemoveOwnMessage(s, me, c, m, recompute, now).store;
    forall d | d in s'.chats && d.lastMessage.Some?
      ensures exists x :: x in s'.messages && x.id == d.lastMessage.value && x.chat == d.id
    {
      var i :| 0 <= i < |s'.chats| && s'.chats[i] == d;
      if recompute && s.chats[i].id == c.id {
        var last := Recomputed(s'.messages, c.id);
        assert d.lastMessage == last;
      } else {
        assert d == s.chats[i];
        var x :| x in s.messages && x.id == d.lastMessage.value && x.chat == d.id;
        if x.id == m.id {
          OnlyMessageWithId(s.messages, m, x);
          OnlyChatWithId(s.chats, c, i);
        }
        assert x in s'.messages;
      }
    }
  }

  lemma OnlyMessageWithId(messages: seq<Message>, a: Message, b: Message)
    requires NoDup(MessageIds(messages)) && a in messages && b in messages && a.id == b.id
    ensures a == b
  {
    var i :| 0 <= i < |messages| && messages[i] == a;
    var j :| 0 <= j < |messages| && messages[j] == b;
    assert MessageIds(messages)[i] == MessageIds(messages)[j];
  }

  lemma OnlyChatWithId(chats: seq<Chat>, c: Chat, i: nat)
    requires NoDup(ChatIds(chats)) && c in chats && i < |chats| && chats[i].id == c.id
    ensures chats[i] == c
  {
    var j :| 0 <= j < |chats| && chats[j] == c;
    assert ChatIds(chats)[i] == ChatIds(chats)[j];
  }

  /** As written, when a participant deletes their own message that is the chat's last
      message, the chat keeps pointing at a message that no longer exists. */
  lemma AsWrittenLeavesDanglingLastMessage(s: Store, me: Id, chatId: Id, messageId: Id, now: int)
    requires ChatOfMember(s.chats, chatId, me).Some?
    requires ChatOfMember(s.chats, chatId, me).value.lastMessage == Some(messageId)
    requires messageId in MessageIds(s.messages)
    requires MessageById(s.messages, messageId).value.sender == me
    ensures var r := DeleteMessageAsWritten(s, me, chatId, messageId, now);
            && r.reply.Respond?
            && ChatOfMember(s.chats, chatId, me).value in r.store.chats
            && messageId !in MessageIds(r.store.messages)
            && !LastMessagesResolve(r.store)
  {
    var c := ChatOfMember(s.chats, chatId, me).value;
    var r := DeleteMessageAsWritten(s, me, chatId, messageId, now);
    assert messageId !in MessageIds(r.store.messages) by {
      forall k | 0 <= k < |r.store.messages| ensures MessageIds(r.store.messages)[k] != messageId {
        assert r.store.messages[k] in r.store.messages;
      }
    }
    assert c in r.store.chats && c.lastMessage.Some?;
    assert !exists m :: m in r.store.messages && m.id == c.lastMessage.value && m.chat == c.id;
  }

  /** Even with the guard corrected, deleting one's own message through another chat the
      requester takes part in leaves the message's own chat pointing at it: only the chat
      named in the request is ever recomputed. */
  lemma CrossChatLeavesDangling(s: Store, me: Id, chatId: Id, messageId: Id, now: int, b: Chat)
    requires ChatOfMember(s.chats, chatId, me).Some?
    requires messageId in MessageIds(s.messages)
    requires MessageById(s.messages, messageId).value.sender == me
    requires b in s.chats && b.id != chatId && b.lastMessage == Some(messageId)
    ensures var r := DeleteMessageAnyChat(s, me, chatId, messageId, now);
            && r.reply.Respond?
            && b in r.store.chats
            && messageId !in MessageIds(r.store.messages)
            && !LastMessagesResolve(r.store)
  {
    var r := DeleteMessageAnyChat(s, me, chatId, messageId, now);
    assert messageId !in MessageIds(r.store.messages) by {
      forall k | 0 <= k < |r.store.messages| ensures MessageIds(r.store.messages)[k] != messageId {
        assert r.store.messages[k] in r.store.messages;
      }
    }
    var i :| 0 <= i < |s.chats| && s.chats[i] == b;
    assert r.store.chats[i] == b;
    assert b in r.store.chats;
    assert !exists m :: m in r.store.messages && m.id == b.lastMessage.value && m.chat == b.id;
  }

  /** A concrete store in which that happens: "me" takes part in chats A and B, and B's last
      message is the message "m" that "me" sent to B; deleting it through A leaves B's
      pointer dangling, from a store whose ids are unique and whose pointers all resolve. */
  lemma CrossChatExample()
    ensures var a := Chat("A", "", false, ["me", "x"], None, None, 0, 0);
            var b := Chat("B", "", false, ["me", "y"], None, Some("m"), 0, 0);
            var s := Store([], [a, b], [Message("m", "me", "hi", "B", [], 0)]);
            var r := DeleteMessageAnyChat(s, "me", "A", "m", 5);
            WellFormed(s) && LastMessagesResolve(s) && r.reply.Respond? && !LastMessagesResolve(r.store)
  {
    var a := Chat("A", "", false, ["me", "x"], None, None, 0, 0);
    var b := Chat("B", "", false, ["me", "y"], None, Some("m"), 0, 0);
    var m := Message("m", "me", "hi", "B", [], 0);
    var s := Store([], [a, b], [m]);
    assert ChatIds(s.chats) == ["A", "B"];
    assert MessageIds(s.messages) == ["m"];
    assert ChatOfMember(s.chats, "A", "me") == Some(a);
    assert MessageById(s.messages, "m") == Some(m);
    assert UserIds(s.users) == [];
    assert WellFormed(s);
    assert LastMessagesResolve(s) by {
      forall c | c in s.chats && c.lastMessage.Some?
        ensures exists x :: x in s.messages && x.id == c.lastMessage.value && x.chat == c.id
      {
        assert c == b;
        assert m in s.messages && m.id == c.lastMessage.value && m.chat == c.id;
      }
    }
    CrossChatLeavesDangling(s, "me", "A", "m", 5, b);
  }
}
