/** The chat controllers: one-on-one and group chats, their members and their admin, each
    request handled as one transition of the database that also yields the socket
    notifications and the files to unlink. `me` is the authenticated requester's id. */
module ChatHandlers {
  import opened Base
  import opened Constants
  import opened Domain
  import Sorting

  const OneOnOneChatName := "One on one chat"
  const GroupChatMissing := "Group chat does not exist"
  const NotAnAdmin := "You are not an admin"

  /** The message of the `TypeError` thrown by `otherParticipant._id` when no other
      participant was found. */
  const UndefinedIdRead := "Cannot read properties of undefined (reading '_id')"

  function Cards(users: seq<User>): (r: seq<UserCard>)
    ensures |r| == |users|
    ensures forall i :: 0 <= i < |users| ==> r[i] == Card(users[i])
  {
    seq(|users|, i requires 0 <= i < |users| => Card(users[i]))
  }

  // ---------------------------------------------------------------- search

  /** `searchAvailableUsers`: every user but the requester, in public form. */
  function SearchAvailableUsers(s: Store, me: Id): (r: Effect)
    ensures r.store == s && r.events == [] && r.unlinked == []
    ensures r.reply.Respond? && r.reply.status == 200 && r.reply.data.UsersDoc?
    ensures forall i :: 0 <= i < |r.reply.data.cards| ==>
              r.reply.data.cards[i].id != me
              && exists u :: u in s.users && Card(u) == r.reply.data.cards[i]
    ensures forall u :: u in s.users && u.id != me ==> Card(u) in r.reply.data.cards
    ensures r.reply.data.cards == Cards(Filter(s.users, (u: User) => u.id != me))
  {
    var others := Filter(s.users, (u: User) => u.id != me);
    var cards := Cards(others);
    assert forall u :: u in others ==> Card(u) in cards by {
      forall u | u in others ensures Card(u) in cards {
        var i :| 0 <= i < |others| && others[i] == u;
        assert cards[i] == Card(u);
      }
    }
    assert forall i :: 0 <= i < |cards| ==> others[i] in s.users && Card(others[i]) == cards[i] by {
      forall i | 0 <= i < |cards| ensures others[i] in s.users && Card(others[i]) == cards[i] {
        assert others[i] in others;
      }
    }
    Effect(s, [], [], Respond(200, UsersDoc(cards), "Users fetched successfully"))
  }

  // ---------------------------------------------------------------- one-on-one chats

  /** A one-on-one chat both users take part in: what the creation pipeline matches. */
  predicate Between(c: Chat, a: Id, b: Id) {
    !c.isGroupChat && a in c.participants && b in c.participants
  }

  /** `createOrGetAOneOnOneChat`: return the existing one-on-one chat of the two users, or
      create one under the fresh id `newId` at time `now` and tell the receiver. */
  function CreateOrGetOneOnOneChat(s: Store, me: Id, receiverId: Id, newId: Id, now: int): (r: Effect)
    requires newId !in ChatIds(s.chats)
    ensures receiverId !in UserIds(s.users) ==> r == Fail(s, 404, "Receiver does not exist")
    ensures receiverId in UserIds(s.users) && receiverId == me ==>
              r == Fail(s, 400, "You cannot chat with yourself")
    ensures receiverId in UserIds(s.users) && receiverId != me
            && (exists c :: c in s.chats && Between(c, me, receiverId)) ==>
              && r.store == s && r.events == [] && r.unlinked == []
              && r.reply.Respond? && r.reply.status == 200 && r.reply.data.ChatDoc?
              && r.reply.data.view.chat in s.chats
              && Between(r.reply.data.view.chat, me, receiverId)
              && r.reply == Respond(200, ChatDoc(ViewChat(s, r.reply.data.view.chat)), "Chat retrieved successfully")
    ensures receiverId in UserIds(s.users) && receiverId != me
            && (forall c :: c in s.chats ==> !Between(c, me, receiverId)) ==>
              && r.store.users == s.users && r.store.messages == s.messages && r.unlinked == []
              && |r.store.chats| == |s.chats| + 1 && r.store.chats[..|s.chats|] == s.chats
              && var c := r.store.chats[|s.chats|];
                 && c.id == newId && c.name == OneOnOneChatName && !c.isGroupChat
                 && c.participants == [me, receiverId] && c.admin == Some(me)
                 && c.lastMessage.None?
                 && r.reply == Respond(201, ChatDoc(ViewChat(r.store, c)), "Chat retrieved successfully")
                 && Rooms(r.events) == Pull(MemberIds(ViewChat(r.store, c)), me)
                 && (forall n :: n in r.events ==> n.event == NewChat && n.payload == r.reply.data)
                 && (WellFormed(s) ==> Rooms(r.events) == [receiverId])
    ensures WellFormed(s) ==> WellFormed(r.store)
  {
    if receiverId !in UserIds(s.users) then Fail(s, 404, "Receiver does not exist")
    else if receiverId == me then Fail(s, 400, "You cannot chat with yourself")
    else
      match Find(s.chats, (c: Chat) => Between(c, me, receiverId))
      case Some(c) =>
        Effect(s, [], [], Respond(200, ChatDoc(ViewChat(s, c)), "Chat retrieved successfully"))
      case None =>
        var c := Chat(newId, OneOnOneChatName, false, [me, receiverId], Some(me), None, now, now);
        var s' := s.(chats := s.chats + [c]);
        var view := ViewChat(s', c);
        var events := NotifyEach(MemberIds(view), Some(me), NewChat, ChatDoc(view));
        assert WellFormed(s) ==> WellFormed(s') && Rooms(events) == [receiverId] by {
          if WellFormed(s) {
            AddChatWellFormed(s, c);
            OnlyReceiverNotified(s', c, me, receiverId);
          }
        }
        Effect(s', events, [], Respond(201, ChatDoc(view), "Chat retrieved successfully"))
  }

  /** In a new one-on-one chat, the only member other than the requester is the receiver,
      and (ids being unique) that receiver gets exactly one notification. */
  lemma OnlyReceiverNotified(s: Store, c: Chat, me: Id, receiverId: Id)
    requires WellFormed(s)
    requires c.participants == [me, receiverId] && receiverId != me
    requires receiverId in UserIds(s.users)
    ensures Pull(MemberIds(ViewChat(s, c)), me) == [receiverId]
  {
    var members := MemberIds(ViewChat(s, c));
    LookupDistinct(s.users, c.participants);
    MemberIdsExact(s, c, receiverId);
    PullDistinct(members, me);
    var rest := Pull(members, me);
    forall y | y in rest ensures y == receiverId {
      MemberIdsExact(s, c, y);
    }
    Sole(rest, receiverId);
  }

  // ---------------------------------------------------------------- group chats

  /** `createAGroupChat`: the requester creates a group named `name` with the given
      participants (between 2 and 100 of them, as the request validator demands). */
  function CreateGroupChat(s: Store, me: Id, name: string, participants: seq<Id>, newId: Id, now: int): (r: Effect)
    requires 2 <= |participants| <= 100
    requires newId !in ChatIds(s.chats)
    ensures me in participants ==>
              r == Fail(s, 400, "Participants array should not contain the group creator")
    ensures me !in participants && (forall i :: 0 <= i < |participants| ==> participants[i] == participants[0]) ==>
              r == Fail(s, 400, "Seems like you have passed duplicate participants.")
    ensures me !in participants && (exists i :: 0 <= i < |participants| && participants[i] != participants[0]) ==>
              && r.store.users == s.users && r.store.messages == s.messages && r.unlinked == []
              && |r.store.chats| == |s.chats| + 1 && r.store.chats[..|s.chats|] == s.chats
              && var c := r.store.chats[|s.chats|];
                 && c.id == newId && c.name == name && c.isGroupChat && c.admin == Some(me)
                 && c.lastMessage.None?
                 && NoDup(c.participants) && |c.participants| >= 3 && me in c.participants
                 && (forall x :: x in c.participants <==> x in participants || x == me)
                 && (NoDup(participants) ==> c.participants == participants + [me])
                 && r.reply == Respond(201, ChatDoc(ViewChat(r.store, c)), "Group chat created successfully")
                 && Rooms(r.events) == Pull(MemberIds(ViewChat(r.store, c)), me)
                 && (forall n :: n in r.events ==> n.event == NewChat && n.payload == r.reply.data)
    ensures WellFormed(s) ==> WellFormed(r.store)
  {
    if me in participants then
      Fail(s, 400, "Participants array should not contain the group creator")
    else
      var members := Dedup(participants + [me]);
      DistinctMembers(participants, me);
      assert NoDup(participants) ==> members == participants + [me] by {
        if NoDup(participants) {
          assert NoDup(participants + [me]);
          DedupDistinct(participants + [me]);
        }
      }
      if |members| < 3 then
        Fail(s, 400, "Seems like you have passed duplicate participants.")
      else
        OpenGroup(s, me, name, members, newId, now)
  }

  /** With the creator not among them, the participants and the creator make at least three
      distinct members exactly when not every participant is the same user. */
  lemma DistinctMembers(participants: seq<Id>, me: Id)
    requires |participants| >= 1 && me !in participants
    ensures |Dedup(participants + [me])| >= 3
            <==> exists i :: 0 <= i < |participants| && participants[i] != participants[0]
  {
    var members := Dedup(participants + [me]);
    if exists i :: 0 <= i < |participants| && participants[i] != participants[0] {
      var i :| 0 <= i < |participants| && participants[i] != participants[0];
      assert participants[0] in participants + [me] && participants[i] in participants + [me];
      AtLeastThree(members, participants[0], participants[i], me);
    } else {
      forall x | x in members ensures x == participants[0] || x == me {
        assert x in participants + [me];
      }
      AtMostTwo(members, participants[0], me);
    }
  }

  /** The group `createAGroupChat` stores once its checks have passed: `members` under the
      fresh id, the requester as admin; every member but the requester hears NEW_CHAT. */
  function OpenGroup(s: Store, me: Id, name: string, members: seq<Id>, newId: Id, now: int): (r: Effect)
    requires newId !in ChatIds(s.chats)
    ensures r.store.users == s.users && r.store.messages == s.messages && r.unlinked == []
    ensures |r.store.chats| == |s.chats| + 1 && r.store.chats[..|s.chats|] == s.chats
    ensures var c := r.store.chats[|s.chats|];
            && c.id == newId && c.name == name && c.isGroupChat && c.admin == Some(me)
            && c.lastMessage.None? && c.participants == members
            && r.reply == Respond(201, ChatDoc(ViewChat(r.store, c)), "Group chat created successfully")
            && Rooms(r.events) == Pull(MemberIds(ViewChat(r.store, c)), me)
            && (forall n :: n in r.events ==> n.event == NewChat && n.payload == r.reply.data)
    ensures WellFormed(s) ==> WellFormed(r.store)
  {
    var c := Chat(newId, name, true, members, Some(me), None, now, now);
    var s' := s.(chats := s.chats + [c]);
    var view := ViewChat(s', c);
    assert WellFormed(s) ==> WellFormed(s') by {
      if WellFormed(s) {
        AddChatWellFormed(s, c);
      }
    }
    assert s'.chats[..|s.chats|] == s.chats;
    Effect(s', NotifyEach(MemberIds(view), Some(me), NewChat, ChatDoc(view)), [],
           Respond(201, ChatDoc(view), "Group chat created successfully"))
  }

  /** `getGroupChatDetails`. */
  function GetGroupChatDetails(s: Store, chatId: Id): (r: Effect)
    ensures (forall c :: c in s.chats ==> !(c.id == chatId && c.isGroupChat)) ==>
              r == Fail(s, 404, GroupChatMissing)
    ensures (exists c :: c in s.chats && c.id == chatId && c.isGroupChat) ==>
              && r.store == s && r.events == [] && r.unlinked == []
              && r.reply.Respond? && r.reply.status == 200 && r.reply.data.ChatDoc?
              && r.reply.data.view.chat in s.chats
              && r.reply.data.view.chat.id == chatId && r.reply.data.view.chat.isGroupChat
              && r.reply.data.view == ViewChat(s, r.reply.data.view.chat)
  {
    match GroupChatById(s.chats, chatId)
    case None => Fail(s, 404, GroupChatMissing)
    case Some(g) => Effect(s, [], [], Respond(200, ChatDoc(ViewChat(s, g)), "Group chat fetched successfully"))
  }

  /** The admin gate shared by rename, delete, add and remove: the group chat the request
      names, provided the requester is its admin; otherwise the 404 or 403 to throw. */
  function AdminGate(chats: seq<Chat>, chatId: Id, me: Id, forbidden: string): (r: Result<Chat>)
    ensures GroupChatById(chats, chatId).None? ==> r == Err(HttpError(404, GroupChatMissing))
    ensures GroupChatById(chats, chatId).Some? && GroupChatById(chats, chatId).value.admin != Some(me) ==>
              r == Err(HttpError(403, forbidden))
    ensures r.Ok? <==> GroupChatById(chats, chatId).Some? && GroupChatById(chats, chatId).value.admin == Some(me)
    ensures r.Ok? ==> Some(r.value) == GroupChatById(chats, chatId)
                      && r.value in chats && r.value.id == chatId && r.value.isGroupChat
  {
    match GroupChatById(chats, chatId)
    case None => Err(HttpError(404, GroupChatMissing))
    case Some(g) => if g.admin != Some(me) then Err(HttpError(403, forbidden)) else Ok(g)
  }

  /** Only the admin of an existing group passes the gate, whatever the operation. */
  lemma AdminGateOnlyAdmin(chats: seq<Chat>, chatId: Id, me: Id, forbidden: string)
    requires AdminGate(chats, chatId, me, forbidden).Ok?
    ensures exists c :: c in chats && c.id == chatId && c.isGroupChat && c.admin == Some(me)
  {
    var g := AdminGate(chats, chatId, me, forbidden).value;
    assert g in chats && g.id == chatId && g.isGroupChat && g.admin == Some(me);
  }

  function Renamed(name: string, now: int): Chat -> Chat {
    (c: Chat) => c.(name := name, updatedAt := now)
  }

  /** `renameGroupChat`: the admin renames the group; every member, the admin included,
      hears about it. */
  function RenameGroupChat(s: Store, me: Id, chatId: Id, name: string, now: int): (r: Effect)
    ensures AdminGate(s.chats, chatId, me, NotAnAdmin).Err? ==>
              r == Fail(s, AdminGate(s.chats, chatId, me, NotAnAdmin).error.status,
                           AdminGate(s.chats, chatId, me, NotAnAdmin).error.message)
    ensures AdminGate(s.chats, chatId, me, NotAnAdmin).Ok? ==>
              var g := AdminGate(s.chats, chatId, me, NotAnAdmin).value;
              var g' := g.(name := name, updatedAt := now);
              && r.store == s.(chats := r.store.chats) && r.unlinked == []
              && |r.store.chats| == |s.chats|
              && (forall i :: 0 <= i < |s.chats| && s.chats[i].id != chatId ==> r.store.chats[i] == s.chats[i])
              && (forall i :: 0 <= i < |s.chats| && s.chats[i].id == chatId ==>
                    r.store.chats[i].name == name
                    && r.store.chats[i] == s.chats[i].(name := name, updatedAt := now))
              && r.reply == Respond(200, ChatDoc(ViewChat(r.store, g')), "Group chat name updated successfully")
              && (forall x :: x in Rooms(r.events) <==> x in g.participants && x in UserIds(s.users))
              && Rooms(r.events) == MemberIds(ViewChat(r.store, g'))
              && (forall n :: n in r.events ==> n.event == UpdateGroupName && n.payload == r.reply.data)
    ensures WellFormed(s) ==> WellFormed(r.store)
  {
    match AdminGate(s.chats, chatId, me, NotAnAdmin)
    case Err(e) => Fail(s, e.status, e.message)
    case Ok(g) =>
      var s' := s.(chats := UpdateChat(s.chats, chatId, Renamed(name, now)));
      var g' := g.(name := name, updatedAt := now);
      var view := ViewChat(s', g');
      var events := NotifyEach(MemberIds(view), None, UpdateGroupName, ChatDoc(view));
      assert forall x :: x in Rooms(events) <==> x in g.participants && x in UserIds(s.users) by {
        forall x ensures x in Rooms(events) <==> x in g.participants && x in UserIds(s.users) {
          MemberIdsExact(s', g', x);
        }
      }
      Effect(s', events, [], Respond(200, ChatDoc(view), "Group chat name updated successfully"))
  }

  // ---------------------------------------------------------------- deletion

  datatype Cascade = Cascade(messages: seq<Message>, unlinked: seq<string>)

  /** `deleteCascadeChatMessages`: drop every message of the chat and list the local files
      of their attachments for removal. */
  function DeleteCascadeChatMessages(messages: seq<Message>, chatId: Id): (r: Cascade)
    ensures forall m :: m in r.messages <==> m in messages && m.chat != chatId
    ensures forall m: Message :: m.chat != chatId ==> multiset(r.messages)[m] == multiset(messages)[m]
    ensures forall p :: p in r.unlinked <==>
              exists m :: m in messages && m.chat == chatId && p in LocalPathsOf(m)
    ensures NoDup(MessageIds(messages)) ==> NoDup(MessageIds(r.messages))
  {
    var doomed := Filter(messages, (m: Message) => m.chat == chatId);
    var kept := Filter(messages, (m: Message) => m.chat != chatId);
    assert NoDup(MessageIds(messages)) ==> NoDup(MessageIds(kept)) by {
      if NoDup(MessageIds(messages)) {
        FilterDistinct(messages, (m: Message) => m.chat != chatId, MessageKey);
      }
    }
    FilterCount(messages, (m: Message) => m.chat != chatId);
    Cascade(kept, AttachmentPaths(doomed))
  }

  /** Remove a chat and everything in it, as both deletion handlers do. */
  function DropChat(s: Store, chatId: Id): (r: (Store, seq<string>))
    ensures r.0.users == s.users
    ensures forall c :: c in r.0.chats <==> c in s.chats && c.id != chatId
    ensures chatId !in ChatIds(r.0.chats)
    ensures r.0.messages == DeleteCascadeChatMessages(s.messages, chatId).messages
    ensures r.1 == DeleteCascadeChatMessages(s.messages, chatId).unlinked
    ensures WellFormed(s) ==> WellFormed(r.0)
  {
    var chats := Filter(s.chats, (c: Chat) => c.id != chatId);
    assert NoDup(ChatIds(s.chats)) ==> NoDup(ChatIds(chats)) by {
      if NoDup(ChatIds(s.chats)) {
        FilterDistinct(s.chats, (c: Chat) => c.id != chatId, ChatKey);
      }
    }
    assert chatId !in ChatIds(chats) by {
      forall i | 0 <= i < |chats| ensures ChatIds(chats)[i] != chatId {
        assert chats[i] in chats;
      }
    }
    var cascade := DeleteCascadeChatMessages(s.messages, chatId);
    (Store(s.users, chats, cascade.messages), cascade.unlinked)
  }

  /** `deleteGroupChat`: the admin deletes the group and its messages; every other member
      hears LEAVE_CHAT with the group as it was. */
  function DeleteGroupChat(s: Store, me: Id, chatId: Id): (r: Effect)
    ensures AdminGate(s.chats, chatId, me, "Only admin can delete the group").Err? ==>
              r == Fail(s, AdminGate(s.chats, chatId, me, "Only admin can delete the group").error.status,
                           AdminGate(s.chats, chatId, me, "Only admin can delete the group").error.message)
    ensures AdminGate(s.chats, chatId, me, "Only admin can delete the group").Ok? ==>
              var g := AdminGate(s.chats, chatId, me, "Only admin can delete the group").value;
              && (r.store, r.unlinked) == DropChat(s, chatId)
              && chatId !in ChatIds(r.store.chats)
              && (forall m :: m in r.store.messages ==> m.chat != chatId)
              && r.reply == Respond(200, EmptyDoc, "Group chat deleted successfully")
              && Rooms(r.events) == Pull(MemberIds(ViewChat(s, g)), me)
              && (forall n :: n in r.events ==> n.event == LeaveChat && n.payload == ChatDoc(ViewChat(s, g)))
    ensures WellFormed(s) ==> WellFormed(r.store)
  {
    match AdminGate(s.chats, chatId, me, "Only admin can delete the group")
    case Err(e) => Fail(s, e.status, e.message)
    case Ok(g) =>
      var view := ViewChat(s, g);
      var (s', unlinked) := DropChat(s, chatId);
      assert chatId !in ChatIds(s'.chats) by {
        forall i | 0 <= i < |s'.chats| ensures ChatIds(s'.chats)[i] != chatId {
          assert s'.chats[i] in s'.chats;
        }
      }
      Effect(s', NotifyEach(MemberIds(view), Some(me), LeaveChat, ChatDoc(view)), unlinked,
             Respond(200, EmptyDoc, "Group chat deleted successfully"))
  }

  /** `deleteOneOnOneChat`: any authenticated user may delete any chat by id (there is no
      membership or group check). The first looked-up participant other than the requester
      hears LEAVE_CHAT; when there is none, reading its id throws after the deletion, so the
      database and the files are already gone and the reply is a 500. */
  function DeleteOneOnOneChat(s: Store, me: Id, chatId: Id): (r: Effect)
    ensures chatId !in ChatIds(s.chats) ==> r == Fail(s, 404, "Chat does not exist")
    ensures chatId in ChatIds(s.chats) ==>
              var c := ChatById(s.chats, chatId).value;
              && (r.store, r.unlinked) == DropChat(s, chatId)
              && chatId !in ChatIds(r.store.chats)
              && ((forall u :: u in s.users && u.id in c.participants ==> u.id == me) <==> r.reply.Raise?)
              && (r.reply.Raise? ==> r.reply.error == HttpError(500, UndefinedIdRead) && r.events == [])
              && (r.reply.Respond? ==>
                    && r.reply == Respond(200, EmptyDoc, "Chat deleted successfully")
                    && |r.events| == 1
                    && r.events[0].room != me && r.events[0].room in c.participants
                    && r.events[0].room in UserIds(s.users)
                    && (var v := ViewChat(s, c).participants;
                        exists i :: 0 <= i < |v| && v[i].id == r.events[0].room
                                    && forall j :: 0 <= j < i ==> v[j].id == me)
                    && r.events[0].event == LeaveChat
                    && r.events[0].payload == ChatDoc(ViewChat(s, c)))
    ensures WellFormed(s) ==> WellFormed(r.store)
  {
    match ChatById(s.chats, chatId)
    case None => Fail(s, 404, "Chat does not exist")
    case Some(c) => DeleteFoundChat(s, me, c)
  }

  /** `deleteOneOnOneChat` once the chat `c` is found. */
  function DeleteFoundChat(s: Store, me: Id, c: Chat): (r: Effect)
    ensures (r.store, r.unlinked) == DropChat(s, c.id)
    ensures c.id !in ChatIds(r.store.chats)
    ensures (forall u :: u in s.users && u.id in c.participants ==> u.id == me) <==> r.reply.Raise?
    ensures r.reply.Raise? ==> r.reply.error == HttpError(500, UndefinedIdRead) && r.events == []
    ensures r.reply.Respond? ==>
              && r.reply == Respond(200, EmptyDoc, "Chat deleted successfully")
              && |r.events| == 1
              && r.events[0].room != me && r.events[0].room in c.participants
              && r.events[0].room in UserIds(s.users)
              && (var v := ViewChat(s, c).participants;
                  exists i :: 0 <= i < |v| && v[i].id == r.events[0].room
                              && forall j :: 0 <= j < i ==> v[j].id == me)
              && r.events[0].event == LeaveChat
              && r.events[0].payload == ChatDoc(ViewChat(s, c))
    ensures WellFormed(s) ==> WellFormed(r.store)
  {
    var (s', unlinked) := DropChat(s, c.id);
    LeaveFirstOther(s.users, c, ViewChat(s, c), me, s', unlinked)
  }

  /** What follows the deletion of `c`, leaving `s'` and `unlinked`: LEAVE_CHAT with `view`
      to the first of its looked-up participants whose id is not `me`, or the 500 of
      reading the id of a participant that is not there. */
  function LeaveFirstOther(users: seq<User>, c: Chat, view: ChatView, me: Id, s': Store, unlinked: seq<string>): (r: Effect)
    requires forall u :: u in view.participants <==> u in users && u.id in c.participants
    ensures r.store == s' && r.unlinked == unlinked
    ensures (forall u :: u in users && u.id in c.participants ==> u.id == me) <==> r.reply.Raise?
    ensures r.reply.Raise? ==> r.reply.error == HttpError(500, UndefinedIdRead) && r.events == []
    ensures r.reply.Respond? ==>
              && r.reply == Respond(200, EmptyDoc, "Chat deleted successfully")
              && |r.events| == 1
              && r.events[0].room != me && r.events[0].room in c.participants
              && r.events[0].room in UserIds(users)
              && (var v := view.participants;
                  exists i :: 0 <= i < |v| && v[i].id == r.events[0].room
                              && forall j :: 0 <= j < i ==> v[j].id == me)
              && r.events[0].event == LeaveChat
              && r.events[0].payload == ChatDoc(view)
  {
    var v := view.participants;
    match Find(v, (u: User) => u.id != me)
    case None => Effect(s', [], unlinked, Raise(HttpError(500, UndefinedIdRead)))
    case Some(other) =>
      var i :| 0 <= i < |v| && v[i] == other && forall j :: 0 <= j < i ==> v[j].id == me;
      LookedUpMember(users, v, c.participants, i);
      Effect(s', [Notification(other.id, LeaveChat, ChatDoc(view))], unlinked,
             Respond(200, EmptyDoc, "Chat deleted successfully"))
  }

  // ---------------------------------------------------------------- membership

  function Without(x: Id, now: int): Chat -> Chat {
    (c: Chat) => c.(participants := Pull(c.participants, x), updatedAt := now)
  }

  function With(x: Id, now: int): Chat -> Chat {
    (c: Chat) => c.(participants := c.participants + [x], updatedAt := now)
  }

  /** `leaveGroupChat`: the requester pulls themself out of the group. Nobody is notified,
      and the admin field is left as it was, even when the admin leaves. */
  function LeaveGroupChat(s: Store, me: Id, chatId: Id, now: int): (r: Effect)
    ensures GroupChatById(s.chats, chatId).None? ==> r == Fail(s, 404, GroupChatMissing)
    ensures GroupChatById(s.chats, chatId).Some? && me !in GroupChatById(s.chats, chatId).value.participants ==>
              r == Fail(s, 400, "You are not a part of this group chat")
    ensures GroupChatById(s.chats, chatId).Some? && me in GroupChatById(s.chats, chatId).value.participants ==>
              var g := GroupChatById(s.chats, chatId).value;
              var g' := g.(participants := Pull(g.participants, me), updatedAt := now);
              && r.store == s.(chats := r.store.chats) && r.events == [] && r.unlinked == []
              && |r.store.chats| == |s.chats|
              && (forall i :: 0 <= i < |s.chats| && s.chats[i].id != chatId ==> r.store.chats[i] == s.chats[i])
              && (forall i :: 0 <= i < |s.chats| && s.chats[i].id == chatId ==>
                    r.store.chats[i] == s.chats[i].(participants := Pull(s.chats[i].participants, me), updatedAt := now))
              && me !in g'.participants
              && (forall y :: y != me ==> multiset(g'.participants)[y] == multiset(g.participants)[y])
              && g'.admin == g.admin && g'.name == g.name && g'.isGroupChat
              && r.reply == Respond(200, ChatDoc(ViewChat(r.store, g')), "Left a group successfully")
    ensures WellFormed(s) ==> WellFormed(r.store)
  {
    match GroupChatById(s.chats, chatId)
    case None => Fail(s, 404, GroupChatMissing)
    case Some(g) =>
      if me !in g.participants then Fail(s, 400, "You are not a part of this group chat")
      else
        var s' := s.(chats := UpdateChat(s.chats, chatId, Without(me, now)));
        var g' := Without(me, now)(g);
        Effect(s', [], [], Respond(200, ChatDoc(ViewChat(s', g')), "Left a group successfully"))
  }

  /** `addNewParticipantInGroupChat`: the admin appends a new member, who alone hears
      NEW_CHAT. Whether a user with that id exists is not checked. */
  function AddParticipant(s: Store, me: Id, chatId: Id, pid: Id, now: int): (r: Effect)
    ensures AdminGate(s.chats, chatId, me, NotAnAdmin).Err? ==>
              r == Fail(s, AdminGate(s.chats, chatId, me, NotAnAdmin).error.status,
                           AdminGate(s.chats, chatId, me, NotAnAdmin).error.message)
    ensures AdminGate(s.chats, chatId, me, NotAnAdmin).Ok? && pid in AdminGate(s.chats, chatId, me, NotAnAdmin).value.participants ==>
              r == Fail(s, 409, "Participant already in a group chat")
    ensures AdminGate(s.chats, chatId, me, NotAnAdmin).Ok? && pid !in AdminGate(s.chats, chatId, me, NotAnAdmin).value.participants ==>
              var g := AdminGate(s.chats, chatId, me, NotAnAdmin).value;
              var g' := g.(participants := g.participants + [pid], updatedAt := now);
              && r.store == s.(chats := r.store.chats) && r.unlinked == []
              && |r.store.chats| == |s.chats|
              && (forall i :: 0 <= i < |s.chats| && s.chats[i].id != chatId ==> r.store.chats[i] == s.chats[i])
              && (forall i :: 0 <= i < |s.chats| && s.chats[i].id == chatId ==>
                    r.store.chats[i] == s.chats[i].(participants := s.chats[i].participants + [pid], updatedAt := now))
              && r.reply == Respond(200, ChatDoc(ViewChat(r.store, g')), "Participant added successfully")
              && r.events == [Notification(pid, NewChat, r.reply.data)]
    ensures WellFormed(s) ==> WellFormed(r.store)
  {
    match AdminGate(s.chats, chatId, me, NotAnAdmin)
    case Err(e) => Fail(s, e.status, e.message)
    case Ok(g) =>
      if pid in g.participants then Fail(s, 409, "Participant already in a group chat")
      else
        var s' := s.(chats := UpdateChat(s.chats, chatId, With(pid, now)));
        var view := ViewChat(s', With(pid, now)(g));
        Effect(s', [Notification(pid, NewChat, ChatDoc(view))], [],
               Respond(200, ChatDoc(view), "Participant added successfully"))
  }

  /** `removeParticipantFromGroupChat`: the admin pulls a member, who alone hears LEAVE_CHAT. */
  function RemoveParticipant(s: Store, me: Id, chatId: Id, pid: Id, now: int): (r: Effect)
    ensures AdminGate(s.chats, chatId, me, NotAnAdmin).Err? ==>
              r == Fail(s, AdminGate(s.chats, chatId, me, NotAnAdmin).error.status,
                           AdminGate(s.chats, chatId, me, NotAnAdmin).error.message)
    ensures AdminGate(s.chats, chatId, me, NotAnAdmin).Ok? && pid !in AdminGate(s.chats, chatId, me, NotAnAdmin).value.participants ==>
              r == Fail(s, 400, "Participant does not exist in the group chat")
    ensures AdminGate(s.chats, chatId, me, NotAnAdmin).Ok? && pid in AdminGate(s.chats, chatId, me, NotAnAdmin).value.participants ==>
              var g := AdminGate(s.chats, chatId, me, NotAnAdmin).value;
              var g' := g.(participants := Pull(g.participants, pid), updatedAt := now);
              && r.store == s.(chats := r.store.chats) && r.unlinked == []
              && |r.store.chats| == |s.chats|
              && (forall i :: 0 <= i < |s.chats| && s.chats[i].id != chatId ==> r.store.chats[i] == s.chats[i])
              && (forall i :: 0 <= i < |s.chats| && s.chats[i].id == chatId ==>
                    r.store.chats[i] == s.chats[i].(participants := Pull(s.chats[i].participants, pid), updatedAt := now))
              && pid !in g'.participants
              && r.reply == Respond(200, ChatDoc(ViewChat(r.store, g')), "Participant removed successfully")
              && r.events == [Notification(pid, LeaveChat, r.reply.data)]
    ensures WellFormed(s) ==> WellFormed(r.store)
  {
    match AdminGate(s.chats, chatId, me, NotAnAdmin)
    case Err(e) => Fail(s, e.status, e.message)
    case Ok(g) =>
      if pid !in g.participants then Fail(s, 400, "Participant does not exist in the group chat")
      else
        var s' := s.(chats := UpdateChat(s.chats, chatId, Without(pid, now)));
        var view := ViewChat(s', Without(pid, now)(g));
        Effect(s', [Notification(pid, LeaveChat, ChatDoc(view))], [],
               Respond(200, ChatDoc(view), "Participant removed successfully"))
  }

  /** With unique ids, the chat a lookup by id finds is the only one with that id. */
  lemma OnlyChatWithId(chats: seq<Chat>, g: Chat)
    requires NoDup(ChatIds(chats)) && g in chats
    ensures forall i :: 0 <= i < |chats| && chats[i].id == g.id ==> chats[i] == g
  {
    forall i | 0 <= i < |chats| && chats[i].id == g.id ensures chats[i] == g {
      var j :| 0 <= j < |chats| && chats[j] == g;
      assert ChatIds(chats)[i] == ChatIds(chats)[j];
    }
  }

  /** What a successful add leaves behind, in the terms the removal looks at. */
  lemma AddedMember(s: Store, me: Id, chatId: Id, pid: Id, t1: int)
    requires WellFormed(s)
    requires AddParticipant(s, me, chatId, pid, t1).reply.Respond?
    ensures var g := AdminGate(s.chats, chatId, me, NotAnAdmin);
            var s1 := AddParticipant(s, me, chatId, pid, t1).store;
            && g.Ok? && pid !in g.value.participants
            && s1.users == s.users && s1.messages == s.messages && WellFormed(s1)
            && |s1.chats| == |s.chats|
            && (forall i :: 0 <= i < |s.chats| && s.chats[i].id != chatId ==> s1.chats[i] == s.chats[i])
            && (forall i :: 0 <= i < |s.chats| && s.chats[i].id == chatId ==>
                  s1.chats[i] == g.value.(participants := g.value.participants + [pid], updatedAt := t1))
  {
    var g := AdminGate(s.chats, chatId, me, NotAnAdmin).value;
    OnlyChatWithId(s.chats, g);
  }

  /** In a database with unique ids, adding a member and then removing the same member
      succeeds and leaves every chat's participants as they were. */
  lemma AddThenRemoveRestores(s: Store, me: Id, chatId: Id, pid: Id, t1: int, t2: int)
    requires WellFormed(s)
    requires AddParticipant(s, me, chatId, pid, t1).reply.Respond?
    ensures var s1 := AddParticipant(s, me, chatId, pid, t1).store;
            var r := RemoveParticipant(s1, me, chatId, pid, t2);
            && r.reply.Respond?
            && r.store.users == s.users && r.store.messages == s.messages
            && |r.store.chats| == |s.chats|
            && forall i :: 0 <= i < |s.chats| ==> r.store.chats[i].participants == s.chats[i].participants
  {
    AddedMember(s, me, chatId, pid, t1);
    var g := AdminGate(s.chats, chatId, me, NotAnAdmin).value;
    var s1 := AddParticipant(s, me, chatId, pid, t1).store;
    var g1 := g.(participants := g.participants + [pid], updatedAt := t1);
    var found := GroupChatById(s1.chats, chatId).value;
    assert found == g1 by {
      var k :| 0 <= k < |s1.chats| && s1.chats[k] == found;
      if s.chats[k].id != chatId {
        assert s1.chats[k] == s.chats[k];
      }
    }
    assert AdminGate(s1.chats, chatId, me, NotAnAdmin) == Ok(g1);
    var r := RemoveParticipant(s1, me, chatId, pid, t2);
    PushThenPull(g.participants, pid);
    forall i | 0 <= i < |s.chats| ensures r.store.chats[i].participants == s.chats[i].participants {
      if s.chats[i].id == chatId {
        OnlyChatWithId(s.chats, g);
        assert s1.chats[i] == g1;
      }
    }
  }

  // ---------------------------------------------------------------- listing

  /** The requester's chats, most recently updated first: the match and sort stages. */
  function ChatsOfUser(chats: seq<Chat>, me: Id): (r: seq<Chat>)
    ensures forall i, j :: 0 <= i < j < |r| ==> r[i].updatedAt >= r[j].updatedAt
    ensures forall c :: multiset(r)[c] == (if me in c.participants then multiset(chats)[c] else 0)
  {
    var mine := Filter(chats, (c: Chat) => me in c.participants);
    FilterCount(chats, (c: Chat) => me in c.participants);
    Sorting.SortDesc(mine, (c: Chat) => c.updatedAt)
  }

  /** The common chat pipeline applied to each chat. */
  function ViewChats(s: Store, cs: seq<Chat>): (r: seq<ChatView>)
    ensures ChatsOf(r) == cs
    ensures forall i :: 0 <= i < |r| ==> r[i] == ViewChat(s, cs[i])
  {
    seq(|cs|, i requires 0 <= i < |cs| => ViewChat(s, cs[i]))
  }

  /** `getAllChats`: the requester's chats, most recently updated first. */
  function GetAllChats(s: Store, me: Id): (r: Effect)
    ensures r.store == s && r.events == [] && r.unlinked == []
    ensures r.reply.Respond? && r.reply.status == 200 && r.reply.data.ChatsDoc?
    ensures var vs := r.reply.data.views;
            && (forall i :: 0 <= i < |vs| ==> vs[i] == ViewChat(s, ChatsOf(vs)[i]))
            && (forall i, j :: 0 <= i < j < |vs| ==> ChatsOf(vs)[i].updatedAt >= ChatsOf(vs)[j].updatedAt)
            && (forall c :: multiset(ChatsOf(vs))[c] == (if me in c.participants then multiset(s.chats)[c] else 0))
  {
    var views := ViewChats(s, ChatsOfUser(s.chats, me));
    Effect(s, [], [], Respond(200, ChatsDoc(views), "User chats fetched successfully!"))
  }

  function ChatsOf(vs: seq<ChatView>): (r: seq<Chat>)
    ensures |r| == |vs|
    ensures forall i :: 0 <= i < |vs| ==> r[i] == vs[i].chat
  {
    seq(|vs|, i requires 0 <= i < |vs| => vs[i].chat)
  }

  /** What a successful leave does to the chats collection. */
  lemma LeftChat(s: Store, me: Id, chatId: Id, now: int)
    requires LeaveGroupChat(s, me, chatId, now).reply.Respond?
    ensures var s1 := LeaveGroupChat(s, me, chatId, now).store;
            && |s1.chats| == |s.chats|
            && (forall i :: 0 <= i < |s.chats| && s.chats[i].id != chatId ==> s1.chats[i] == s.chats[i])
            && (forall i :: 0 <= i < |s.chats| && s.chats[i].id == chatId ==> me !in s1.chats[i].participants)
  {
  }

  /** Whoever leaves a group no longer finds it among their chats. */
  lemma LeaveThenListed(s: Store, me: Id, chatId: Id, now: int)
    requires LeaveGroupChat(s, me, chatId, now).reply.Respond?
    ensures var s1 := LeaveGroupChat(s, me, chatId, now).store;
            forall v :: v in GetAllChats(s1, me).reply.data.views ==> v.chat.id != chatId
  {
    var s1 := LeaveGroupChat(s, me, chatId, now).store;
    LeftChat(s, me, chatId, now);
    var listed := ChatsOfUser(s1.chats, me);
    var vs := GetAllChats(s1, me).reply.data.views;
    assert vs == ViewChats(s1, listed);
    forall v | v in vs ensures v.chat.id != chatId {
      var i :| 0 <= i < |vs| && vs[i] == v;
      var c := listed[i];
      assert c in multiset(listed);
      assert me in c.participants && c in multiset(s1.chats);
      var k :| 0 <= k < |s1.chats| && s1.chats[k] == c;
      assert s.chats[k].id != chatId;
    }
  }
}
