/** The socket.io server: authenticating a connection from its handshake, the rooms each
    connection sits in, and which connections receive each event. Verifying the token's
    signature (`jwt.verify`) is a parameter; the user lookup reads the user collection. */
module Sockets {
  import opened Base
  import opened Constants
  import opened Domain

  /** A connection's id (`socket.id`). */
  type SocketId = string

  /** What the connection handler makes of a handshake. */
  datatype Handshake = Accepted(user: User) | Denied(reason: string)

  /** A connection: refused at the handshake (it stays open, with no handlers), authenticated
      as a user, or disconnected. */
  datatype Conn = Unauthorised | Live(user: Id) | Gone

  /** The server: each room's connections, and every connection it has seen. */
  datatype Server = Server(rooms: map<string, set<SocketId>>, conns: map<SocketId, Conn>)

  /** One emission: the connections that receive `event` with `payload`. */
  datatype Emission = Emission(to: set<SocketId>, event: ChatEvent, payload: Doc)

  /** A server step: the new server and what it emitted. */
  datatype Step = Step(server: Server, out: seq<Emission>)

  const TokenMissing := "Un-authorized handshake. Token is missing"
  const TokenInvalid := "Un-authorized handshake. Token is invalid"
  const ConnectFailed := "Something went wrong while connecting to the socket."

  /** The connections in `room`; a room nobody has joined is empty. */
  function Members(sv: Server, room: string): (r: set<SocketId>)
    ensures room !in sv.rooms ==> r == {}
    ensures room in sv.rooms ==> r == sv.rooms[room]
  {
    if room in sv.rooms then sv.rooms[room] else {}
  }

  /** Whether `sid` is an authenticated, open connection. */
  predicate IsLive(sv: Server, sid: SocketId) {
    sid in sv.conns && sv.conns[sid].Live?
  }

  /** Only live connections sit in rooms, and every live connection sits in the room named
      by its user's id. */
  ghost predicate Coherent(sv: Server) {
    (forall room, sid :: sid in Members(sv, room) ==> IsLive(sv, sid))
    && (forall sid :: IsLive(sv, sid) ==> sid in Members(sv, sv.conns[sid].user))
  }

  /** `sid` added to `room`, every other room as it was. */
  function Join(sv: Server, room: string, sid: SocketId): (r: Server)
    ensures r.conns == sv.conns
    ensures forall x :: Members(r, x) == if x == room then Members(sv, x) + {sid} else Members(sv, x)
  {
    sv.(rooms := sv.rooms[room := Members(sv, room) + {sid}])
  }

  /** The handshake's token: the `accessToken` cookie when it is truthy, else the token the
      client put in the handshake's `auth` object. */
  function HandshakeToken(cookieToken: Option<string>, authToken: Option<string>): (r: Option<string>)
    ensures Truthy(r) <==> Truthy(cookieToken) || Truthy(authToken)
    ensures Truthy(cookieToken) ==> r == cookieToken
    ensures r != cookieToken ==> r == authToken
  {
    if Truthy(cookieToken) then cookieToken else authToken
  }

  /** The try block of the connection handler up to the point where it trusts the user. */
  function Authenticate(token: Option<string>, verify: string -> Decoded, users: seq<User>): (r: Handshake)
    ensures r.Accepted? <==>
              Truthy(token) && verify(token.value).Verified? && verify(token.value).userId in UserIds(users)
    ensures r.Accepted? ==> r.user in users && r.user.id == verify(token.value).userId
    ensures !Truthy(token) ==> r == Denied(TokenMissing)
    ensures Truthy(token) && verify(token.value).Rejected? ==> r == Denied(verify(token.value).message)
    ensures (Truthy(token) && verify(token.value).Verified? && verify(token.value).userId !in UserIds(users))
              ==> r == Denied(TokenInvalid)
  {
    if !Truthy(token) then Denied(TokenMissing)
    else
      match verify(token.value)
      case Rejected(message) => Denied(message)
      case Verified(id) =>
        match UserById(users, id)
        case None => Denied(TokenInvalid)
        case Some(u) => Accepted(u)
  }

  /** A new connection `sid`. Accepted: it joins the room of its user's id and is told
      `connected`. Denied: it joins nothing and is told `socketError` with the reason, or a
      generic message when the reason is empty. Either way exactly one emission, to `sid`
      alone, and no other connection moves. */
  function Connect(sv: Server, sid: SocketId, cookieToken: Option<string>, authToken: Option<string>,
                   verify: string -> Decoded, users: seq<User>): (r: Step)
    requires sid !in sv.conns
    ensures sid in r.server.conns && forall x :: x in sv.conns ==> x in r.server.conns && r.server.conns[x] == sv.conns[x]
    ensures |r.out| == 1 && r.out[0].to == {sid}
    ensures IsLive(r.server, sid) <==> Authenticate(HandshakeToken(cookieToken, authToken), verify, users).Accepted?
    ensures IsLive(r.server, sid) ==>
              r.out[0] == Emission({sid}, Connected, EmptyDoc)
              && r.server.conns[sid] == Live(Authenticate(HandshakeToken(cookieToken, authToken), verify, users).user.id)
    ensures !IsLive(r.server, sid) ==>
              r.server.rooms == sv.rooms
              && r.out[0].event == SocketError
              && var reason := Authenticate(HandshakeToken(cookieToken, authToken), verify, users).reason;
                 r.out[0].payload == TextDoc(if reason == "" then ConnectFailed else reason)
    ensures forall room, x :: x != sid ==> (x in Members(r.server, room) <==> x in Members(sv, room))
    ensures Coherent(sv) ==> Coherent(r.server)
    ensures Coherent(sv) ==>
              forall room :: sid in Members(r.server, room) <==> IsLive(r.server, sid) && room == r.server.conns[sid].user
  {
    match Authenticate(HandshakeToken(cookieToken, authToken), verify, users)
    case Denied(reason) =>
      var payload := if reason == "" then ConnectFailed else reason;
      var next := sv.(conns := sv.conns[sid := Unauthorised]);
      assert Coherent(sv) ==> Coherent(next) by {
        if Coherent(sv) {
          forall room, x | x in Members(next, room) ensures IsLive(next, x) {
            assert x in Members(sv, room);
            assert IsLive(sv, x);
            assert x != sid;
          }
          forall x | IsLive(next, x) ensures x in Members(next, next.conns[x].user) {
            assert x != sid;
            assert IsLive(sv, x);
          }
        }
      }
      Step(next, [Emission({sid}, SocketError, TextDoc(payload))])
    case Accepted(u) =>
      var next := Join(sv, u.id, sid).(conns := sv.conns[sid := Live(u.id)]);
      assert Coherent(sv) ==> Coherent(next) && forall room :: sid in Members(next, room) <==> room == u.id by {
        if Coherent(sv) {
          assert !IsLive(sv, sid);
          forall room, x | x in Members(next, room) ensures IsLive(next, x) {
            if x != sid {
              assert x in Members(sv, room);
              assert IsLive(sv, x);
            }
          }
          forall x | IsLive(next, x) ensures x in Members(next, next.conns[x].user) {
            if x != sid { assert IsLive(sv, x); }
          }
          forall room ensures sid in Members(next, room) <==> room == u.id {
            assert sid !in Members(sv, room);
          }
        }
      }
      Step(next, [Emission({sid}, Connected, EmptyDoc)])
  }

  /** `joinChat`: a live connection joins the room `chatId`. Nothing checks that its user
      takes part in that chat. A connection without handlers changes nothing. */
  function OnJoinChat(sv: Server, sid: SocketId, chatId: Id): (r: Server)
    ensures r.conns == sv.conns
    ensures !IsLive(sv, sid) ==> r == sv
    ensures IsLive(sv, sid) ==> sid in Members(r, chatId) && Members(r, chatId) - {sid} == Members(sv, chatId) - {sid}
    ensures forall room :: room != chatId ==> Members(r, room) == Members(sv, room)
    ensures Coherent(sv) ==> Coherent(r)
  {
    if IsLive(sv, sid) then
      var next := Join(sv, chatId, sid);
      assert Coherent(sv) ==> Coherent(next) by {
        if Coherent(sv) {
          forall room, x | x in Members(next, room) ensures IsLive(next, x) {
            if x != sid {
              assert x in Members(sv, room);
              assert IsLive(sv, x);
              assert next.conns == sv.conns;
            } else {
              assert IsLive(sv, sid);
            }
          }
          forall x | IsLive(next, x) ensures x in Members(next, next.conns[x].user) {
            assert IsLive(sv, x);
          }
        }
      }
      next
    else sv
  }

  /** Joining a chat room twice is the same as joining it once. */
  lemma JoinChatIdempotent(sv: Server, sid: SocketId, chatId: Id)
    ensures OnJoinChat(OnJoinChat(sv, sid, chatId), sid, chatId) == OnJoinChat(sv, sid, chatId)
  {
    var once := OnJoinChat(sv, sid, chatId);
    if IsLive(sv, sid) {
      assert Members(once, chatId) + {sid} == Members(once, chatId);
      assert once.rooms[chatId := Members(once, chatId) + {sid}] == once.rooms;
    }
  }

  /** `typing` / `stopTyping` from `sid`: the event, with the chat id as payload, to every
      other connection in the chat's room (`socket.in(room)` leaves out the sender). */
  function Broadcast(sv: Server, sid: SocketId, chatId: Id, event: ChatEvent): (r: seq<Emission>)
    ensures !IsLive(sv, sid) ==> r == []
    ensures IsLive(sv, sid) ==> |r| == 1 && r[0].event == event && r[0].payload == TextDoc(chatId)
    ensures IsLive(sv, sid) ==> forall x :: x in r[0].to <==> x in Members(sv, chatId) && x != sid
  {
    if IsLive(sv, sid) then [Emission(Members(sv, chatId) - {sid}, event, TextDoc(chatId))] else []
  }

  function OnTyping(sv: Server, sid: SocketId, chatId: Id): (r: seq<Emission>)
    ensures IsLive(sv, sid) ==> r == [Emission(Members(sv, chatId) - {sid}, Typing, TextDoc(chatId))]
    ensures !IsLive(sv, sid) ==> r == []
  {
    Broadcast(sv, sid, chatId, Typing)
  }

  function OnStopTyping(sv: Server, sid: SocketId, chatId: Id): (r: seq<Emission>)
    ensures IsLive(sv, sid) ==> r == [Emission(Members(sv, chatId) - {sid}, StopTyping, TextDoc(chatId))]
    ensures !IsLive(sv, sid) ==> r == []
  {
    Broadcast(sv, sid, chatId, StopTyping)
  }

  /** Two live connections that have both joined a chat's room hear each other's typing
      indicator, and nobody hears their own. */
  lemma JoinedPeersHearTyping(sv: Server, a: SocketId, b: SocketId, chatId: Id)
    requires IsLive(sv, a) && IsLive(sv, b) && a != b
    ensures var joined := OnJoinChat(OnJoinChat(sv, a, chatId), b, chatId);
            a in OnTyping(joined, b, chatId)[0].to
            && b in OnStopTyping(joined, a, chatId)[0].to
            && b !in OnTyping(joined, b, chatId)[0].to
  {
  }

  /** A disconnect: the library takes the connection out of every room (the handler's own
      `leave` of the user's room is part of that) and it is gone. */
  function OnDisconnect(sv: Server, sid: SocketId): (r: Server)
    ensures forall room :: sid !in Members(r, room)
    ensures forall room, x :: x != sid ==> (x in Members(r, room) <==> x in Members(sv, room))
    ensures sid in sv.conns ==> sid in r.conns && r.conns[sid] == Gone
    ensures forall x :: x != sid ==> (x in r.conns <==> x in sv.conns) && (x in sv.conns ==> r.conns[x] == sv.conns[x])
    ensures Coherent(sv) ==> Coherent(r)
  {
    var rooms := map room | room in sv.rooms :: sv.rooms[room] - {sid};
    var conns := if sid in sv.conns then sv.conns[sid := Gone] else sv.conns;
    var next := Server(rooms, conns);
    assert Coherent(sv) ==> Coherent(next) by {
      if Coherent(sv) {
        forall room, x | x in Members(next, room) ensures IsLive(next, x) {
          assert x != sid && x in Members(sv, room);
          assert IsLive(sv, x);
        }
        forall x | IsLive(next, x) ensures x in Members(next, next.conns[x].user) {
          assert x != sid && IsLive(sv, x);
        }
      }
    }
    next
  }

  /** Connecting and then disconnecting leaves every room as it was, whatever the handshake. */
  lemma ConnectThenDisconnect(sv: Server, sid: SocketId, cookieToken: Option<string>, authToken: Option<string>,
                              verify: string -> Decoded, users: seq<User>)
    requires sid !in sv.conns && Coherent(sv)
    ensures var after := OnDisconnect(Connect(sv, sid, cookieToken, authToken, verify, users).server, sid);
            forall room :: Members(after, room) == Members(sv, room)
  {
    var after := OnDisconnect(Connect(sv, sid, cookieToken, authToken, verify, users).server, sid);
    forall room ensures Members(after, room) == Members(sv, room) {
      assert !IsLive(sv, sid);
    }
  }

  /** `emitSocketEvent`: `event` with `payload` to every connection in `room`, from the
      server, so the connection behind the request is not left out. */
  function EmitSocketEvent(sv: Server, room: Id, event: ChatEvent, payload: Doc): (r: Emission)
    ensures r.event == event && r.payload == payload
    ensures forall x :: x in r.to <==> room in sv.rooms && x in sv.rooms[room]
  {
    Emission(Members(sv, room), event, payload)
  }

  /** The emissions for a handler's notifications, in order. */
  function Deliver(sv: Server, ns: seq<Notification>): (r: seq<Emission>)
    ensures |r| == |ns|
    ensures forall i :: 0 <= i < |ns| ==> r[i] == EmitSocketEvent(sv, ns[i].room, ns[i].event, ns[i].payload)
  {
    seq(|ns|, i requires 0 <= i < |ns| => EmitSocketEvent(sv, ns[i].room, ns[i].event, ns[i].payload))
  }

  /** A notification addressed to a user's id reaches every live connection of that user,
      one per device, and only live connections. */
  lemma NotificationReachesEveryDevice(sv: Server, n: Notification, sid: SocketId)
    requires Coherent(sv)
    ensures IsLive(sv, sid) && sv.conns[sid].user == n.room ==> sid in EmitSocketEvent(sv, n.room, n.event, n.payload).to
    ensures sid in EmitSocketEvent(sv, n.room, n.event, n.payload).to ==> IsLive(sv, sid)
  {
  }
}
