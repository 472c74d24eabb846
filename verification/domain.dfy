/** The records the controllers work on (users, chats, chat messages), the database they
    live in, the populated views the aggregation pipelines return, and what a request
    handler produces: a new database, the socket notifications it emits, the local files it
    removes and the HTTP reply. */
module Domain {
  import opened Base
  import opened Constants

  /** A database id, as its hexadecimal string. */
  type Id = string

  datatype Avatar = Avatar(url: string, localPath: string)

  /** A user document without its secrets (password hash and tokens, which every pipeline
      projects away). */
  datatype User = User(
    id: Id,
    username: string,
    email: string,
    role: UserRole,
    loginType: LoginType,
    isEmailVerified: bool,
    avatar: Avatar)

  /** A chat document; timestamps are milliseconds. */
  datatype Chat = Chat(
    id: Id,
    name: string,
    isGroupChat: bool,
    participants: seq<Id>,
    admin: Option<Id>,
    lastMessage: Option<Id>,
    createdAt: int,
    updatedAt: int)

  datatype Attachment = Attachment(url: string, localPath: string)

  /** A chat-message document. */
  datatype Message = Message(
    id: Id,
    sender: Id,
    content: string,
    chat: Id,
    attachments: seq<Attachment>,
    createdAt: int)

  /** The three collections, each in natural (insertion) order. */
  datatype Store = Store(users: seq<User>, chats: seq<Chat>, messages: seq<Message>)

  /** The public fields of a user a message's sender or a search result shows. */
  datatype UserCard = UserCard(id: Id, username: string, email: string, avatar: Avatar)

  /** A message with its sender looked up (absent when the sender no longer exists). */
  datatype MessageView = MessageView(message: Message, sender: Option<UserCard>)

  /** A chat as the common chat pipeline returns it: participants replaced by the matching
      user documents, last message replaced by its view. */
  datatype ChatView = ChatView(chat: Chat, participants: seq<User>, lastMessage: Option<MessageView>)

  /** What `jwt.verify` makes of an access token: the `_id` it carries, or the message of
      the error it throws (a bad signature, an expired or malformed token). */
  datatype Decoded = Verified(userId: Id) | Rejected(message: string)

  /** A response body or a socket payload. */
  datatype Doc =
    | EmptyDoc
    | TextDoc(text: string)
    | ChatDoc(view: ChatView)
    | ChatsDoc(views: seq<ChatView>)
    | UsersDoc(cards: seq<UserCard>)
    | MessageDoc(message: MessageView)
    | MessagesDoc(messages: seq<MessageView>)
    | RawMessageDoc(raw: Message)

  /** `emitSocketEvent(req, room, event, payload)`. */
  datatype Notification = Notification(room: Id, event: ChatEvent, payload: Doc)

  /** The HTTP outcome: an `ApiResponse` with its status, data and message, or a thrown error. */
  datatype Reply =
    | Respond(status: int, data: Doc, message: string)
    | Raise(error: HttpError)

  datatype Effect = Effect(store: Store, events: seq<Notification>, unlinked: seq<string>, reply: Reply)

  /** A handler that throws before touching anything. */
  function Fail(s: Store, status: int, message: string): (r: Effect)
    ensures r.store == s && r.events == [] && r.unlinked == []
    ensures r.reply == Raise(HttpError(status, message))
  {
    Effect(s, [], [], Raise(HttpError(status, message)))
  }

  // ---------------------------------------------------------------- sequences

  predicate NoDup<T(==)>(s: seq<T>) {
    forall i, j :: 0 <= i < j < |s| ==> s[i] != s[j]
  }

  /** The elements of `s` that satisfy `p`, in order. */
  function Filter<T(!new)>(s: seq<T>, p: T -> bool): (r: seq<T>)
    ensures forall x :: x in r <==> x in s && p(x)
    ensures |r| <= |s|
  {
    if |s| == 0 then []
    else
      assert forall x :: x in s <==> x == s[0] || x in s[1..];
      (if p(s[0]) then [s[0]] else []) + Filter(s[1..], p)
  }

  /** Filtering keeps every satisfying element as often as it occurs, and no other. */
  lemma {:induction false} FilterCount<T(!new)>(s: seq<T>, p: T -> bool)
    ensures forall x :: multiset(Filter(s, p))[x] == (if p(x) then multiset(s)[x] else 0)
  {
    if |s| > 0 {
      FilterCount(s[1..], p);
      assert s == [s[0]] + s[1..];
    }
  }

  /** Filtering a concatenation filters each part, keeping the parts in order. */
  lemma {:induction false} FilterAppend<T(!new)>(a: seq<T>, b: seq<T>, p: T -> bool)
    ensures Filter(a + b, p) == Filter(a, p) + Filter(b, p)
  {
    if |a| > 0 {
      FilterAppend(a[1..], b, p);
      assert (a + b)[1..] == a[1..] + b;
    } else {
      assert a + b == b;
    }
  }

  /** The first element of `s` that satisfies `p`. */
  function Find<T(!new)>(s: seq<T>, p: T -> bool): (r: Option<T>)
    ensures r.None? <==> forall x :: x in s ==> !p(x)
    ensures r.Some? ==> r.value in s && p(r.value)
    ensures r.Some? ==> exists i :: 0 <= i < |s| && s[i] == r.value && forall j :: 0 <= j < i ==> !p(s[j])
  {
    if |s| == 0 then None
    else if p(s[0]) then Some(s[0])
    else
      assert forall x :: x in s ==> x == s[0] || x in s[1..];
      var r := Find(s[1..], p);
      assert r.Some? ==> exists i :: 0 <= i < |s| && s[i] == r.value && forall j :: 0 <= j < i ==> !p(s[j]) by {
        if r.Some? {
          var k :| 0 <= k < |s| - 1 && s[1..][k] == r.value && forall j :: 0 <= j < k ==> !p(s[1..][j]);
          assert forall j :: 0 <= j < k + 1 ==> !p(s[j]) by {
            forall j | 0 <= j < k + 1 ensures !p(s[j]) {
              if j > 0 { assert s[j] == s[1..][j - 1]; }
            }
          }
          assert s[k + 1] == r.value;
        }
      }
      r
  }

  /** `$pull`: every occurrence of `x` removed, the rest in order. */
  function Pull(xs: seq<Id>, x: Id): (r: seq<Id>)
    ensures x !in r
    ensures forall y :: y != x ==> multiset(r)[y] == multiset(xs)[y]
    ensures forall y :: y in r <==> y in xs && y != x
    ensures |r| <= |xs|
  {
    if |xs| == 0 then []
    else
      assert xs == [xs[0]] + xs[1..];
      (if xs[0] == x then [] else [xs[0]]) + Pull(xs[1..], x)
  }

  /** Pulling a value that does not occur changes nothing. */
  lemma {:induction false} PullAbsent(xs: seq<Id>, x: Id)
    requires x !in xs
    ensures Pull(xs, x) == xs
  {
    if |xs| > 0 {
      PullAbsent(xs[1..], x);
    }
  }

  lemma {:induction false} PullAppend(a: seq<Id>, b: seq<Id>, x: Id)
    ensures Pull(a + b, x) == Pull(a, x) + Pull(b, x)
  {
    if |a| > 0 {
      assert (a + b)[1..] == a[1..] + b;
      PullAppend(a[1..], b, x);
    } else {
      assert a + b == b;
    }
  }

  /** `$push` then `$pull` of a value that was not there gives back the original array. */
  lemma PushThenPull(xs: seq<Id>, x: Id)
    requires x !in xs
    ensures Pull(xs + [x], x) == xs
  {
    PullAppend(xs, [x], x);
    PullAbsent(xs, x);
    assert Pull([x], x) == [];
  }

  /** Pulling keeps an array free of repetitions. */
  lemma {:induction false} PullDistinct(xs: seq<Id>, x: Id)
    requires NoDup(xs)
    ensures NoDup(Pull(xs, x))
  {
    if |xs| > 0 {
      NoDupCons(xs[0], xs[1..]);
      assert xs == [xs[0]] + xs[1..];
      PullDistinct(xs[1..], x);
      if xs[0] != x {
        assert Pull(xs, x) == [xs[0]] + Pull(xs[1..], x);
        NoDupCons(xs[0], Pull(xs[1..], x));
      }
    }
  }

  lemma FirstTwoDiffer<T>(xs: seq<T>)
    requires NoDup(xs) && |xs| >= 2
    ensures xs[0] != xs[1]
  {
  }

  /** An array without repetitions whose only value is `a` is `[a]`. */
  lemma Sole(xs: seq<Id>, a: Id)
    requires NoDup(xs) && a in xs
    requires forall y :: y in xs ==> y == a
    ensures xs == [a]
  {
    forall i | 0 <= i < |xs| ensures xs[i] == a {
      assert xs[i] in xs;
    }
    if |xs| >= 2 {
      FirstTwoDiffer(xs);
      assert false;
    }
  }

  lemma NoDupSnoc<T>(xs: seq<T>, x: T)
    requires NoDup(xs) && x !in xs
    ensures NoDup(xs + [x])
  {
  }

  lemma ThreeDistinct<T>(xs: seq<T>)
    requires NoDup(xs) && |xs| >= 3
    ensures xs[0] != xs[1] && xs[0] != xs[2] && xs[1] != xs[2]
    ensures xs[0] in xs && xs[1] in xs && xs[2] in xs
  {
  }

  /** An array without repetitions drawn from two values has at most two entries. */
  lemma AtMostTwo<T>(xs: seq<T>, a: T, b: T)
    requires NoDup(xs)
    requires forall x :: x in xs ==> x == a || x == b
    ensures |xs| <= 2
  {
    if |xs| >= 3 {
      ThreeDistinct(xs);
      assert false;
    }
  }

  /** An array without repetitions holding three distinct values has at least three entries. */
  lemma AtLeastThree<T>(xs: seq<T>, a: T, b: T, c: T)
    requires NoDup(xs)
    requires a in xs && b in xs && c in xs
    requires a != b && a != c && b != c
    ensures |xs| >= 3
  {
    var i :| 0 <= i < |xs| && xs[i] == a;
    var j :| 0 <= j < |xs| && xs[j] == b;
    var k :| 0 <= k < |xs| && xs[k] == c;
  }

  /** `[...new Set(xs)]`: each value once, every value kept. A list without repeats comes
      back unchanged (`DedupDistinct`). */
  function Dedup<T(==,!new)>(xs: seq<T>): (r: seq<T>)
    ensures NoDup(r)
    ensures forall x :: x in r <==> x in xs
    ensures |r| <= |xs|
  {
    if |xs| == 0 then []
    else
      var init := xs[..|xs| - 1];
      var x := xs[|xs| - 1];
      assert xs == init + [x];
      var r := Dedup(init);
      if x in r then r else r + [x]
  }

  /** A sequence without repetitions is its own set-spread. */
  lemma {:induction false} DedupDistinct<T(!new)>(xs: seq<T>)
    requires NoDup(xs)
    ensures Dedup(xs) == xs
  {
    if |xs| > 0 {
      var init := xs[..|xs| - 1];
      assert NoDup(init);
      DedupDistinct(init);
      assert xs[|xs| - 1] !in init;
      assert init + [xs[|xs| - 1]] == xs;
    }
  }

  // ---------------------------------------------------------------- ids and lookups

  /** The key of every element, in order. */
  function Keys<T>(s: seq<T>, key: T -> Id): (r: seq<Id>)
    ensures |r| == |s|
    ensures forall i :: 0 <= i < |s| ==> r[i] == key(s[i])
  {
    seq(|s|, i requires 0 <= i < |s| => key(s[i]))
  }

  function UserKey(u: User): Id { u.id }
  function ChatKey(c: Chat): Id { c.id }
  function MessageKey(m: Message): Id { m.id }

  function UserIds(users: seq<User>): (r: seq<Id>)
    ensures |r| == |users|
    ensures forall i :: 0 <= i < |users| ==> r[i] == users[i].id
  {
    Keys(users, UserKey)
  }

  function ChatIds(chats: seq<Chat>): (r: seq<Id>)
    ensures |r| == |chats|
    ensures forall i :: 0 <= i < |chats| ==> r[i] == chats[i].id
  {
    Keys(chats, ChatKey)
  }

  function MessageIds(messages: seq<Message>): (r: seq<Id>)
    ensures |r| == |messages|
    ensures forall i :: 0 <= i < |messages| ==> r[i] == messages[i].id
  {
    Keys(messages, MessageKey)
  }

  /** Every id names one document: what the database's `_id` index guarantees. */
  ghost predicate WellFormed(s: Store) {
    NoDup(UserIds(s.users)) && NoDup(ChatIds(s.chats)) && NoDup(MessageIds(s.messages))
  }

  /** `User.findById(id)`. */
  function UserById(users: seq<User>, id: Id): (r: Option<User>)
    ensures r.None? <==> id !in UserIds(users)
    ensures r.Some? ==> r.value in users && r.value.id == id
  {
    var r := Find(users, (u: User) => u.id == id);
    assert r.None? <==> id !in UserIds(users) by {
      if r.Some? {
        var i :| 0 <= i < |users| && users[i] == r.value;
        assert UserIds(users)[i] == id;
      } else {
        forall i | 0 <= i < |users| ensures UserIds(users)[i] != id {
          assert users[i] in users;
        }
      }
    }
    r
  }

  /** `Chat.findById(id)`. */
  function ChatById(chats: seq<Chat>, id: Id): (r: Option<Chat>)
    ensures r.None? <==> id !in ChatIds(chats)
    ensures r.Some? ==> r.value in chats && r.value.id == id
  {
    var r := Find(chats, (c: Chat) => c.id == id);
    assert r.None? <==> id !in ChatIds(chats) by {
      if r.Some? {
        var i :| 0 <= i < |chats| && chats[i] == r.value;
        assert ChatIds(chats)[i] == id;
      } else {
        forall i | 0 <= i < |chats| ensures ChatIds(chats)[i] != id {
          assert chats[i] in chats;
        }
      }
    }
    r
  }

  /** `Chat.findOne({ _id: id, isGroupChat: true })`. */
  function GroupChatById(chats: seq<Chat>, id: Id): (r: Option<Chat>)
    ensures r.None? <==> forall c :: c in chats ==> !(c.id == id && c.isGroupChat)
    ensures r.Some? ==> r.value in chats && r.value.id == id && r.value.isGroupChat
  {
    Find(chats, (c: Chat) => c.id == id && c.isGroupChat)
  }

  /** `ChatMessage.findOne({ _id: id })`. */
  function MessageById(messages: seq<Message>, id: Id): (r: Option<Message>)
    ensures r.None? <==> id !in MessageIds(messages)
    ensures r.Some? ==> r.value in messages && r.value.id == id
  {
    var r := Find(messages, (m: Message) => m.id == id);
    assert r.None? <==> id !in MessageIds(messages) by {
      if r.Some? {
        var i :| 0 <= i < |messages| && messages[i] == r.value;
        assert MessageIds(messages)[i] == id;
      } else {
        forall i | 0 <= i < |messages| ensures MessageIds(messages)[i] != id {
          assert messages[i] in messages;
        }
      }
    }
    r
  }

  /** `updateOne`-style change of the chat(s) with the given id; every other chat kept. */
  function UpdateChat(chats: seq<Chat>, id: Id, f: Chat -> Chat): (r: seq<Chat>)
    ensures |r| == |chats|
    ensures forall i :: 0 <= i < |chats| && chats[i].id != id ==> r[i] == chats[i]
    ensures forall i :: 0 <= i < |chats| && chats[i].id == id ==> r[i] == f(chats[i])
    ensures (forall c :: f(c).id == c.id) ==> ChatIds(r) == ChatIds(chats)
  {
    seq(|chats|, i requires 0 <= i < |chats| => if chats[i].id == id then f(chats[i]) else chats[i])
  }

  /** The local paths of a message's attachments, in order. */
  function LocalPathsOf(m: Message): (r: seq<string>)
    ensures |r| == |m.attachments|
    ensures forall i :: 0 <= i < |r| ==> r[i] == m.attachments[i].localPath
  {
    seq(|m.attachments|, i requires 0 <= i < |m.attachments| => m.attachments[i].localPath)
  }

  /** `[].concat(...messages.map(m => m.attachments))`, reduced to the local paths. */
  function AttachmentPaths(ms: seq<Message>): (r: seq<string>)
    ensures forall p :: p in r <==> exists m :: m in ms && p in LocalPathsOf(m)
  {
    if |ms| == 0 then []
    else
      assert forall m :: m in ms <==> m == ms[0] || m in ms[1..];
      LocalPathsOf(ms[0]) + AttachmentPaths(ms[1..])
  }

  // ---------------------------------------------------------------- populated views

  function Card(u: User): (r: UserCard)
    ensures r.id == u.id && r.username == u.username && r.email == u.email && r.avatar == u.avatar
  {
    UserCard(u.id, u.username, u.email, u.avatar)
  }

  /** The common message pipeline: sender looked up, reduced to its public fields. */
  function ViewMessage(users: seq<User>, m: Message): (r: MessageView)
    ensures r.message == m
    ensures r.sender.Some? <==> m.sender in UserIds(users)
    ensures r.sender.Some? ==> r.sender.value.id == m.sender
    ensures r.sender.Some? ==> exists u :: u in users && u.id == m.sender && r.sender.value == Card(u)
  {
    match UserById(users, m.sender)
    case None => MessageView(m, None)
    case Some(u) => MessageView(m, Some(Card(u)))
  }

  /** The user documents whose id occurs in `ids`, in collection order, each as often as
      the collection holds it. */
  function Lookup(users: seq<User>, ids: seq<Id>): (r: seq<User>)
    ensures forall u :: u in r <==> u in users && u.id in ids
    ensures forall u :: multiset(r)[u] == (if u.id in ids then multiset(users)[u] else 0)
    ensures |r| <= |users|
  {
    var listed := (u: User) => u.id in ids;
    FilterCount(users, listed);
    Filter(users, listed)
  }

  /** `Lookup` keeps collection order: a document inserted last comes out last. */
  lemma LookupSnoc(users: seq<User>, u: User, ids: seq<Id>)
    ensures Lookup(users + [u], ids) == Lookup(users, ids) + (if u.id in ids then [u] else [])
  {
    var listed := (x: User) => x.id in ids;
    FilterAppend(users, [u], listed);
    assert Filter([u], listed) == (if u.id in ids then [u] else []) by {
      assert [u][1..] == [];
    }
  }

  /** The common chat pipeline applied to one chat. */
  function ViewChat(s: Store, c: Chat): (r: ChatView)
    ensures r.chat == c
    ensures r.participants == Lookup(s.users, c.participants)
    ensures forall u :: u in r.participants <==> u in s.users && u.id in c.participants
    ensures c.lastMessage.None? ==> r.lastMessage.None?
    ensures r.lastMessage.Some? ==> r.lastMessage.value.message in s.messages
                                    && Some(r.lastMessage.value.message.id) == c.lastMessage
    ensures c.lastMessage.Some? && c.lastMessage.value in MessageIds(s.messages) ==> r.lastMessage.Some?
    ensures r.lastMessage.Some? ==> r.lastMessage.value == ViewMessage(s.users, r.lastMessage.value.message)
  {
    var last := match c.lastMessage
      case None => None
      case Some(mid) =>
        match MessageById(s.messages, mid)
        case None => None
        case Some(m) => Some(ViewMessage(s.users, m));
    ChatView(c, Lookup(s.users, c.participants), last)
  }

  /** The ids of a view's looked-up participants: the rooms a chat-level event goes to. */
  function MemberIds(v: ChatView): seq<Id> {
    UserIds(v.participants)
  }

  /** Inserting a document under a fresh id keeps every id unique. */
  lemma AddChatWellFormed(s: Store, c: Chat)
    requires WellFormed(s) && c.id !in ChatIds(s.chats)
    ensures WellFormed(s.(chats := s.chats + [c]))
  {
    assert ChatIds(s.chats + [c]) == ChatIds(s.chats) + [c.id];
    NoDupSnoc(ChatIds(s.chats), c.id);
  }

  lemma AddMessageWellFormed(s: Store, m: Message)
    requires WellFormed(s) && m.id !in MessageIds(s.messages)
    ensures WellFormed(s.(messages := s.messages + [m]))
  {
    assert MessageIds(s.messages + [m]) == MessageIds(s.messages) + [m.id];
    NoDupSnoc(MessageIds(s.messages), m.id);
  }

  /** A participant id reaches the member list exactly when a user with that id exists. */
  lemma MemberIdsExact(s: Store, c: Chat, x: Id)
    ensures x in MemberIds(ViewChat(s, c)) <==> x in c.participants && x in UserIds(s.users)
  {
    var v := ViewChat(s, c);
    LookedUpIds(s.users, v.participants, c.participants, x);
  }

  /** The ids of the users selected by their id being listed. */
  lemma LookedUpIds(users: seq<User>, found: seq<User>, ids: seq<Id>, x: Id)
    requires forall u :: u in found <==> u in users && u.id in ids
    ensures x in UserIds(found) <==> x in ids && x in UserIds(users)
  {
    if x in UserIds(found) {
      var i :| 0 <= i < |found| && UserIds(found)[i] == x;
      assert found[i] in users;
      var j :| 0 <= j < |users| && users[j] == found[i];
      assert UserIds(users)[j] == x;
    }
    if x in ids && x in UserIds(users) {
      var j :| 0 <= j < |users| && UserIds(users)[j] == x;
      assert users[j] in found;
      var i :| 0 <= i < |found| && found[i] == users[j];
      assert UserIds(found)[i] == x;
    }
  }

  /** A user selected by its id being listed is a user of the collection with a listed id. */
  lemma LookedUpMember(users: seq<User>, found: seq<User>, ids: seq<Id>, i: int)
    requires forall u :: u in found <==> u in users && u.id in ids
    requires 0 <= i < |found|
    ensures found[i].id in ids && found[i].id in UserIds(users)
  {
    assert found[i] in found;
    var k :| 0 <= k < |users| && users[k] == found[i];
    assert UserIds(users)[k] == found[i].id;
  }

  lemma NoDupCons<T>(x: T, xs: seq<T>)
    ensures NoDup([x] + xs) <==> x !in xs && NoDup(xs)
  {
    var l := [x] + xs;
    if x !in xs && NoDup(xs) {
      forall i, j | 0 <= i < j < |l| ensures l[i] != l[j] {
        if i == 0 {
          assert l[j] == xs[j - 1];
        } else {
          assert l[i] == xs[i - 1] && l[j] == xs[j - 1];
        }
      }
    }
    if NoDup(l) {
      forall i, j | 0 <= i < j < |xs| ensures xs[i] != xs[j] {
        assert l[i + 1] != l[j + 1];
      }
      forall k | 0 <= k < |xs| ensures xs[k] != x {
        assert l[0] != l[k + 1];
      }
    }
  }

  lemma KeysCons<T>(x: T, xs: seq<T>, key: T -> Id)
    ensures Keys([x] + xs, key) == [key(x)] + Keys(xs, key)
  {
  }

  /** Dropping documents never makes two of the remaining ones share a key. */
  lemma {:induction false} FilterDistinct<T(!new)>(s: seq<T>, p: T -> bool, key: T -> Id)
    requires NoDup(Keys(s, key))
    ensures NoDup(Keys(Filter(s, p), key))
  {
    if |s| > 0 {
      var x := s[0];
      var rest := s[1..];
      assert s == [x] + rest;
      KeysCons(x, rest, key);
      NoDupCons(key(x), Keys(rest, key));
      FilterDistinct(rest, p, key);
      var tail := Filter(rest, p);
      assert key(x) !in Keys(tail, key) by {
        forall k | 0 <= k < |tail| ensures Keys(tail, key)[k] != key(x) {
          assert tail[k] in rest;
          var j :| 0 <= j < |rest| && rest[j] == tail[k];
          assert Keys(rest, key)[j] == key(tail[k]);
        }
      }
      if p(x) {
        assert Filter(s, p) == [x] + tail;
        KeysCons(x, tail, key);
        NoDupCons(key(x), Keys(tail, key));
      } else {
        assert Filter(s, p) == tail;
      }
    }
  }

  /** When user ids are unique, nobody appears twice among a chat's members, whatever the
      participants array holds. */
  lemma LookupDistinct(users: seq<User>, ids: seq<Id>)
    requires NoDup(UserIds(users))
    ensures NoDup(UserIds(Lookup(users, ids)))
  {
    FilterDistinct(users, (u: User) => u.id in ids, UserKey);
  }

  // ---------------------------------------------------------------- notifications

  /** The rooms of a list of notifications, in emission order. */
  function Rooms(ns: seq<Notification>): (r: seq<Id>)
    ensures |r| == |ns|
    ensures forall i :: 0 <= i < |ns| ==> r[i] == ns[i].room
  {
    seq(|ns|, i requires 0 <= i < |ns| => ns[i].room)
  }

  /** The rooms a `forEach` reaches when it returns early for `skip`. */
  function Except(rooms: seq<Id>, skip: Option<Id>): (r: seq<Id>)
    ensures skip.None? ==> r == rooms
    ensures skip.Some? ==> r == Pull(rooms, skip.value)
  {
    match skip
    case None => rooms
    case Some(x) => Pull(rooms, x)
  }

  /** A `forEach` over `rooms` that emits `event` with `payload` to each, skipping `skip`:
      one notification per room reached, in order. */
  function NotifyEach(rooms: seq<Id>, skip: Option<Id>, event: ChatEvent, payload: Doc): (r: seq<Notification>)
    ensures Rooms(r) == Except(rooms, skip)
    ensures forall n :: n in r ==> n.event == event && n.payload == payload
  {
    var reached := Except(rooms, skip);
    seq(|reached|, i requires 0 <= i < |reached| => Notification(reached[i], event, payload))
  }

  /** A room gets the event exactly when it is among `rooms` and is not the skipped one; it
      gets it once per occurrence in `rooms`. */
  lemma NotifyEachReaches(rooms: seq<Id>, skip: Option<Id>, event: ChatEvent, payload: Doc, x: Id)
    ensures Notification(x, event, payload) in NotifyEach(rooms, skip, event, payload)
            <==> x in rooms && Some(x) != skip
    ensures Some(x) != skip ==> multiset(Rooms(NotifyEach(rooms, skip, event, payload)))[x] == multiset(rooms)[x]
  {
    var r := NotifyEach(rooms, skip, event, payload);
    var rs := Rooms(r);
    assert rs == Except(rooms, skip);
    assert Some(x) != skip ==> multiset(rs)[x] == multiset(rooms)[x];
    if Notification(x, event, payload) in r {
      var i :| 0 <= i < |r| && r[i] == Notification(x, event, payload);
      assert rs[i] == x;
    }
    if x in rooms && Some(x) != skip {
      assert x in multiset(rs);
      var i :| 0 <= i < |r| && rs[i] == x;
      assert r[i] in r;
    }
  }
}
