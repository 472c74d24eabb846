/** The enumerations and constants shared by the chat backend: user roles, login types,
    the socket event names and the lifetime of temporary tokens. */
module Constants {
  import opened Base
  import Strs

  datatype UserRole = ADMIN | USER

  /** `AvailableUserRoles`: the keys of the role enumeration, in declaration order. */
  const AvailableUserRoles: seq<UserRole> := [ADMIN, USER]

  function RoleName(r: UserRole): string {
    match r
    case ADMIN => "ADMIN"
    case USER => "USER"
  }

  datatype LoginType = GOOGLE | GITHUB | EMAIL_PASSWORD

  /** `AvailableSocialLogins`: the keys of the login-type enumeration, in declaration order. */
  const AvailableSocialLogins: seq<LoginType> := [GOOGLE, GITHUB, EMAIL_PASSWORD]

  function LoginTypeName(t: LoginType): string {
    match t
    case GOOGLE => "GOOGLE"
    case GITHUB => "GITHUB"
    case EMAIL_PASSWORD => "EMAIL_PASSWORD"
  }

  /** Lifetime of an email-verification or password-reset token, in milliseconds. */
  const UserTemporaryTokenExpiry: nat := 20 * 60 * 1000

  /** The events exchanged over the socket connection (`ChatEventEnum`). */
  datatype ChatEvent =
    | Connected
    | Disconnect
    | JoinChat
    | LeaveChat
    | UpdateGroupName
    | MessageReceived
    | NewChat
    | SocketError
    | StopTyping
    | Typing
    | MessageDelete

  /** The name an event travels under on the wire. */
  function WireName(e: ChatEvent): string {
    match e
    case Connected => "connected"
    case Disconnect => "disconnect"
    case JoinChat => "joinChat"
    case LeaveChat => "leaveChat"
    case UpdateGroupName => "updateGroupName"
    case MessageReceived => "messageReceived"
    case NewChat => "newChat"
    case SocketError => "socketError"
    case StopTyping => "stopTyping"
    case Typing => "typing"
    case MessageDelete => "messageDeleted"
  }

  /** `AvailableChatEvents`: the values of `ChatEventEnum`, in declaration order. */
  const AvailableChatEvents: seq<ChatEvent> :=
    [Connected, Disconnect, JoinChat, LeaveChat, UpdateGroupName, MessageReceived,
     NewChat, SocketError, StopTyping, Typing, MessageDelete]

  /** The event a wire name denotes, if any: a listener registered under `s` hears `e`
      exactly when `WireName(e) == s`. */
  function EventOfWireName(s: string): (r: Option<ChatEvent>)
    ensures r.Some? ==> WireName(r.value) == s
  {
    if s == "connected" then Some(Connected)
    else if s == "disconnect" then Some(Disconnect)
    else if s == "joinChat" then Some(JoinChat)
    else if s == "leaveChat" then Some(LeaveChat)
    else if s == "updateGroupName" then Some(UpdateGroupName)
    else if s == "messageReceived" then Some(MessageReceived)
    else if s == "newChat" then Some(NewChat)
    else if s == "socketError" then Some(SocketError)
    else if s == "stopTyping" then Some(StopTyping)
    else if s == "typing" then Some(Typing)
    else if s == "messageDeleted" then Some(MessageDelete)
    else None
  }

  /** Every event is recovered from its wire name, so no two events share a name. */
  lemma WireNameRoundTrip(e: ChatEvent)
    ensures EventOfWireName(WireName(e)) == Some(e)
  {
  }

  lemma WireNamesDistinct(e1: ChatEvent, e2: ChatEvent)
    ensures WireName(e1) == WireName(e2) <==> e1 == e2
  {
    WireNameRoundTrip(e1);
    WireNameRoundTrip(e2);
  }

  /** There are eleven events, `AvailableChatEvents` lists each exactly once, and the
      role and login-type lists are exactly the enumerations' members. */
  lemma EnumerationsComplete()
    ensures |AvailableChatEvents| == 11
    ensures forall e: ChatEvent :: e in AvailableChatEvents
    ensures forall i, j :: 0 <= i < j < |AvailableChatEvents| ==> AvailableChatEvents[i] != AvailableChatEvents[j]
    ensures forall r: UserRole :: r in AvailableUserRoles && (r == ADMIN || r == USER)
    ensures |AvailableUserRoles| == 2 && AvailableUserRoles[0] != AvailableUserRoles[1]
    ensures forall t: LoginType :: t in AvailableSocialLogins
    ensures |AvailableSocialLogins| == 3
    ensures UserTemporaryTokenExpiry == 1_200_000
  {
    forall e: ChatEvent ensures e in AvailableChatEvents {
      match e
      case Connected => assert AvailableChatEvents[0] == e;
      case Disconnect => assert AvailableChatEvents[1] == e;
      case JoinChat => assert AvailableChatEvents[2] == e;
      case LeaveChat => assert AvailableChatEvents[3] == e;
      case UpdateGroupName => assert AvailableChatEvents[4] == e;
      case MessageReceived => assert AvailableChatEvents[5] == e;
      case NewChat => assert AvailableChatEvents[6] == e;
      case SocketError => assert AvailableChatEvents[7] == e;
      case StopTyping => assert AvailableChatEvents[8] == e;
      case Typing => assert AvailableChatEvents[9] == e;
      case MessageDelete => assert AvailableChatEvents[10] == e;
    }
    forall r: UserRole ensures r in AvailableUserRoles && (r == ADMIN || r == USER) {
      match r
      case ADMIN => assert AvailableUserRoles[0] == r;
      case USER => assert AvailableUserRoles[1] == r;
    }
    forall t: LoginType ensures t in AvailableSocialLogins {
      match t
      case GOOGLE => assert AvailableSocialLogins[0] == t;
      case GITHUB => assert AvailableSocialLogins[1] == t;
      case EMAIL_PASSWORD => assert AvailableSocialLogins[2] == t;
    }
  }

  /** The login type as the account-linking error message shows it: lower-cased, with
      every `_` replaced by a space (`loginType.toLowerCase().replace(/_/g, " ")`). */
  function LoginTypeDisplay(t: LoginType): (r: string)
    ensures |r| == |LoginTypeName(t)|
    ensures '_' !in r
  {
    Strs.ReplaceChar(Strs.ToLower(LoginTypeName(t)), '_', ' ')
  }

  lemma LowerEmailPassword()
    ensures Strs.ToLower("EMAIL_PASSWORD") == "email_password"
  {
    assert Strs.LowerChar('E') == 'e' && Strs.LowerChar('M') == 'm' && Strs.LowerChar('A') == 'a';
    assert Strs.LowerChar('I') == 'i' && Strs.LowerChar('L') == 'l' && Strs.LowerChar('_') == '_';
    assert Strs.LowerChar('P') == 'p' && Strs.LowerChar('S') == 's' && Strs.LowerChar('W') == 'w';
    assert Strs.LowerChar('O') == 'o' && Strs.LowerChar('R') == 'r' && Strs.LowerChar('D') == 'd';
    Strs.ToLowerPointwise("EMAIL_PASSWORD", "email_password");
  }

  /** The display form of a login type, spelled out: `EMAIL_PASSWORD` reads "email password". */
  lemma EmailPasswordDisplay(t: LoginType)
    requires t == EMAIL_PASSWORD
    ensures LoginTypeDisplay(t) == "email password"
  {
    var lower := Strs.ToLower(LoginTypeName(t));
    assert lower == "email_password" by {
      LowerEmailPassword();
    }
    assert Strs.ReplaceChar(lower, '_', ' ') == "email password" by {
      Strs.ReplaceCharPointwise("email_password", '_', ' ', "email password");
    }
  }

  lemma SocialDisplay()
    ensures LoginTypeDisplay(GOOGLE) == "google"
    ensures LoginTypeDisplay(GITHUB) == "github"
  {
    assert Strs.ToLower("GOOGLE") == "google";
    assert Strs.ReplaceChar("google", '_', ' ') == "google";
    assert Strs.ToLower("GITHUB") == "github";
    assert Strs.ReplaceChar("github", '_', ' ') == "github";
  }
}
