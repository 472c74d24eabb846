/** The Passport strategies: turning a Google or GitHub profile into a user, either by
    signing in the account registered under that email or by registering a new one, and
    the session's user-id round trip. Password hashing is left to the database layer and
    the provider's profile arrives as a value. */
module OAuth {
  import opened Base
  import opened Constants
  import opened Domain
  import Strs

  /** The fields of a Google profile's `_json` the callback reads. */
  datatype GoogleProfile = GoogleProfile(email: string, picture: string, sub: string)

  /** The fields of a GitHub profile the callback reads; a user can hide their email. */
  datatype GitHubProfile = GitHubProfile(username: string, email: Option<string>, nodeId: string, avatarUrl: string)

  /** A verify callback's outcome: the user collection afterwards, and `done(null, user)` or
      `done(error, false)`. */
  datatype Login = Login(users: seq<User>, result: Result<User>)

  const NoPublicEmail :=
    "User does not have a public email associated with their GitHub account. Please try another login method."
  const UserMissing := "User does not exist"
  const GoogleFailure := "Google strategy error: "
  const GitHubFailure := "GitHub strategy error: "

  /** What the schema's `lowercase` and `trim` options make of a username or an email, both
      when a user is saved and when a query filters on the field. */
  function Canonical(s: string): (r: string)
    ensures |r| <= |s|
    ensures forall i :: 0 <= i < |r| ==> !Strs.IsUpper(r[i])
    ensures r == [] || (!Strs.IsSpace(r[0]) && !Strs.IsSpace(r[|r| - 1]))
  {
    var t := Strs.Trim(s);
    var r := Strs.ToLower(t);
    assert r != [] ==> r[0] == Strs.LowerChar(t[0]) && r[|r| - 1] == Strs.LowerChar(t[|t| - 1]);
    r
  }

  /** `Canonical` lower-cases one contiguous slice of `s` and drops only the spaces around
      it. */
  lemma CanonicalSpan(s: string)
    ensures exists a, b :: 0 <= a <= b <= |s| && Canonical(s) == Strs.ToLower(s[a..b])
                           && (forall i :: 0 <= i < a ==> Strs.IsSpace(s[i]))
                           && (forall i :: b <= i < |s| ==> Strs.IsSpace(s[i]))
  {
    Strs.TrimSpan(s);
    var a, b :| 0 <= a <= b <= |s| && Strs.Trim(s) == s[a..b]
                && (forall i :: 0 <= i < a ==> Strs.IsSpace(s[i]))
                && (forall i :: b <= i < |s| ==> Strs.IsSpace(s[i]));
    assert Canonical(s) == Strs.ToLower(s[a..b]);
  }

  /** A value already in canonical form is stored and queried as it is. */
  lemma CanonicalFixed(s: string)
    requires forall i :: 0 <= i < |s| ==> !Strs.IsUpper(s[i])
    requires s == [] || (!Strs.IsSpace(s[0]) && !Strs.IsSpace(s[|s| - 1]))
    ensures Canonical(s) == s
  {
    assert Strs.TrimStart(s) == s;
    assert Strs.TrimEnd(s) == s;
    assert Strs.Trim(s) == s;
    Strs.ToLowerPointwise(s, s);
  }

  /** Canonicalising twice is canonicalising once: a saved value matches a query for it. */
  lemma CanonicalIdempotent(s: string)
    ensures Canonical(Canonical(s)) == Canonical(s)
  {
    CanonicalFixed(Canonical(s));
  }

  function EmailKey(u: User): Id { u.email }
  function NameKey(u: User): Id { u.username }

  function Emails(users: seq<User>): (r: seq<string>)
    ensures |r| == |users|
    ensures forall i :: 0 <= i < |users| ==> r[i] == users[i].email
  {
    Keys(users, EmailKey)
  }

  function Usernames(users: seq<User>): (r: seq<string>)
    ensures |r| == |users|
    ensures forall i :: 0 <= i < |users| ==> r[i] == users[i].username
  {
    Keys(users, NameKey)
  }

  /** The unique indexes of the user collection: `_id`, `email` and `username`. */
  ghost predicate Accounts(users: seq<User>) {
    NoDup(UserIds(users)) && NoDup(Emails(users)) && NoDup(Usernames(users))
  }

  /** `User.findOne({ email })`. */
  function ByEmail(users: seq<User>, email: string): (r: Option<User>)
    ensures r.None? <==> Canonical(email) !in Emails(users)
    ensures r.Some? ==> r.value in users && r.value.email == Canonical(email)
    ensures NoDup(Emails(users)) ==> forall u :: u in users && u.email == Canonical(email) ==> r == Some(u)
  {
    var key := Canonical(email);
    var r := Find(users, (u: User) => u.email == key);
    assert r.None? <==> key !in Emails(users) by {
      if r.Some? {
        var i :| 0 <= i < |users| && users[i] == r.value;
        assert Emails(users)[i] == key;
      } else {
        forall i | 0 <= i < |users| ensures Emails(users)[i] != key {
          assert users[i] in users;
        }
      }
    }
    assert NoDup(Emails(users)) ==> forall u :: u in users && u.email == key ==> r == Some(u) by {
      if NoDup(Emails(users)) {
        forall u | u in users && u.email == key ensures r == Some(u) {
          var i :| 0 <= i < |users| && users[i] == u;
          assert Emails(users)[i] == key;
          var j :| 0 <= j < |users| && users[j] == r.value;
          assert Emails(users)[j] == key;
        }
      }
    }
    r
  }

  /** The refusal for an email registered under another login method, which it names in
      lower case with spaces for underscores. */
  function RegisteredWith(t: LoginType): (r: string)
    ensures "You have previously registered using " + LoginTypeDisplay(t) <= r
    ensures Strs.EndsWith(r, ". Please use the same login method.")
    ensures |r| == |"You have previously registered using "| + |LoginTypeDisplay(t)| + |". Please use the same login method."|
  {
    var tail := ". Please use the same login method.";
    var r := "You have previously registered using " + LoginTypeDisplay(t) + tail;
    assert r[|r| - |tail|..] == tail;
    r
  }

  /** The user a strategy registers: verified email, plain user role, the provider's picture
      with no local copy. */
  function Registration(id: Id, username: string, email: string, avatarUrl: string, t: LoginType): (u: User)
    ensures u.id == id && u.loginType == t && u.role == USER && u.isEmailVerified
    ensures u.username == Canonical(username) && u.email == Canonical(email)
    ensures u.avatar == Avatar(avatarUrl, "")
  {
    User(id, Canonical(username), Canonical(email), USER, t, true, Avatar(avatarUrl, ""))
  }

  /** `User.create(u)` inside a strategy: `u` appended, or the database's rejection, which the
      strategy's catch turns into a 500 with the strategy's `failure` prefix. The username is
      required, so an empty one is rejected, and unique, so a taken one is too. `dbError` is
      the rejection's text. */
  function Create(users: seq<User>, u: User, failure: string, dbError: string): (r: Login)
    requires u.id !in UserIds(users) && u.email !in Emails(users)
    ensures r.result.Ok? <==> u.username != "" && u.username !in Usernames(users)
    ensures r.result.Ok? ==> r.users == users + [u] && r.result.value == u
    ensures r.result.Err? ==>
              r.users == users && r.result.error == HttpError(500, failure + dbError)
    ensures Accounts(users) ==> Accounts(r.users)
  {
    if u.username == "" || u.username in Usernames(users) then
      Login(users, Err(HttpError(500, failure + dbError)))
    else
      var next := users + [u];
      assert Accounts(users) ==> Accounts(next) by {
        assert UserIds(next) == UserIds(users) + [u.id];
        assert Emails(next) == Emails(users) + [u.email];
        assert Usernames(next) == Usernames(users) + [u.username];
        if Accounts(users) {
          NoDupSnoc(UserIds(users), u.id);
          NoDupSnoc(Emails(users), u.email);
          NoDupSnoc(Usernames(users), u.username);
        }
      }
      Login(next, Ok(u))
  }

  /** The sign-in of an email already registered: that user when it registered through
      `t`, the refusal otherwise; nothing is written. */
  function Existing(users: seq<User>, u: User, t: LoginType): (r: Login)
    ensures r.users == users
    ensures r.result.Ok? <==> u.loginType == t
    ensures r.result.Ok? ==> r.result.value == u
    ensures r.result.Err? ==> r.result.error == HttpError(400, RegisteredWith(u.loginType))
  {
    if u.loginType == t then Login(users, Ok(u))
    else Login(users, Err(HttpError(400, RegisteredWith(u.loginType))))
  }

  /** The Google verify callback. A known email signs in its own account, refused unless it
      registered through Google. An unknown email registers a user whose username is the
      part of the email before its first `@`; the database refuses it when that username is
      empty or taken. */
  function GoogleVerify(users: seq<User>, p: GoogleProfile, newId: Id, dbError: string): (r: Login)
    requires newId !in UserIds(users)
    ensures r.result.Ok? ==> r.result.value in r.users && r.result.value.loginType == GOOGLE
                             && r.result.value.email == Canonical(p.email)
    ensures r.result.Err? ==> r.users == users
    ensures r.users == users || r.users == users + [Registration(newId, Strs.BeforeFirst(p.email, '@'), p.email, p.picture, GOOGLE)]
    ensures Canonical(p.email) in Emails(users) ==> r.users == users
    ensures r.result.Err? ==> (r.result.error.status == 400 <==> Canonical(p.email) in Emails(users))
    ensures r.result.Err? && r.result.error.status != 400 ==>
              r.result.error == HttpError(500, GoogleFailure + dbError)
              && var name := Canonical(Strs.BeforeFirst(p.email, '@')); name == "" || name in Usernames(users)
    ensures NoDup(Emails(users)) ==>
              forall u :: u in users && u.email == Canonical(p.email) ==> r == Existing(users, u, GOOGLE)
    ensures Accounts(users) ==> Accounts(r.users)
  {
    match ByEmail(users, p.email)
    case Some(u) => Existing(users, u, GOOGLE)
    case None =>
      var u := Registration(newId, Strs.BeforeFirst(p.email, '@'), p.email, p.picture, GOOGLE);
      var r := Create(users, u, GoogleFailure, dbError);
      assert r.result.Err? ==> u.username == "" || u.username in Usernames(users);
      r
  }

  /** The GitHub verify callback. No public email is refused. A known email signs in as with
      Google. An unknown one registers the GitHub username, or, when that username is taken,
      the part of the email before its first `@`; that fallback is not checked again, so
      the database may still refuse it. */
  function GitHubVerify(users: seq<User>, p: GitHubProfile, newId: Id, dbError: string): (r: Login)
    requires newId !in UserIds(users)
    ensures !Truthy(p.email) ==> r == Login(users, Err(HttpError(400, NoPublicEmail)))
    ensures r.result.Ok? ==> Truthy(p.email) && r.result.value in r.users && r.result.value.loginType == GITHUB
                             && r.result.value.email == Canonical(p.email.value)
    ensures r.result.Err? ==> r.users == users
    ensures r.users != users ==>
              Truthy(p.email) && Canonical(p.email.value) !in Emails(users) && r.result.Ok?
              && r.users == users + [r.result.value] && r.result.value.id == newId
              && r.result.value.username
                 == (if Canonical(p.username) in Usernames(users)
                     then Canonical(Strs.BeforeFirst(p.email.value, '@')) else Canonical(p.username))
    ensures Truthy(p.email) && r.result.Err? ==>
              (r.result.error.status == 400 <==> Canonical(p.email.value) in Emails(users))
    ensures Truthy(p.email) && r.result.Err? && r.result.error.status != 400 ==>
              r.result.error == HttpError(500, GitHubFailure + dbError)
    ensures Truthy(p.email) && NoDup(Emails(users)) ==>
              forall u :: u in users && u.email == Canonical(p.email.value) ==> r == Existing(users, u, GITHUB)
    ensures Accounts(users) ==> Accounts(r.users)
  {
    if !Truthy(p.email) then Login(users, Err(HttpError(400, NoPublicEmail)))
    else
      var email := p.email.value;
      match ByEmail(users, email)
      case Some(u) => Existing(users, u, GITHUB)
      case None =>
        var taken := Canonical(p.username) in Usernames(users);
        var name := if taken then Strs.BeforeFirst(email, '@') else p.username;
        var u := Registration(newId, name, email, p.avatarUrl, GITHUB);
        var r := Create(users, u, GitHubFailure, dbError);
        assert r.result.Err? ==> u.username == "" || u.username in Usernames(users);
        r
  }

  /** Looking up the email of a user just appended finds that user. */
  lemma FindAppended(users: seq<User>, u: User, email: string)
    requires Canonical(email) !in Emails(users) && u.email == Canonical(email)
    ensures ByEmail(users + [u], email) == Some(u)
  {
    assert forall x :: x in users ==> x.email != Canonical(email) by {
      forall x | x in users ensures x.email != Canonical(email) {
        var i :| 0 <= i < |users| && users[i] == x;
        assert Emails(users)[i] == x.email;
      }
    }
    assert Emails(users + [u])[|users|] == Canonical(email);
  }

  /** Signing in again with the same Google profile returns the same user and writes
      nothing, whatever id and database error the second attempt would have used. */
  lemma GoogleSignInStable(users: seq<User>, p: GoogleProfile, newId: Id, dbError: string, newId2: Id, dbError2: string)
    requires newId !in UserIds(users)
    requires GoogleVerify(users, p, newId, dbError).result.Ok?
    ensures var first := GoogleVerify(users, p, newId, dbError);
            newId2 !in UserIds(first.users) ==>
              GoogleVerify(first.users, p, newId2, dbError2) == first
  {
    var first := GoogleVerify(users, p, newId, dbError);
    if first.users != users {
      FindAppended(users, first.result.value, p.email);
    }
  }

  /** The same for GitHub. */
  lemma GitHubSignInStable(users: seq<User>, p: GitHubProfile, newId: Id, dbError: string, newId2: Id, dbError2: string)
    requires newId !in UserIds(users)
    requires GitHubVerify(users, p, newId, dbError).result.Ok?
    ensures var first := GitHubVerify(users, p, newId, dbError);
            newId2 !in UserIds(first.users) ==>
              GitHubVerify(first.users, p, newId2, dbError2) == first
  {
    var first := GitHubVerify(users, p, newId, dbError);
    if first.users != users {
      FindAppended(users, first.result.value, p.email.value);
    }
  }

  /** An account registered through GitHub cannot sign in through Google, and is told to use
      GitHub. */
  lemma GitHubAccountRefusedByGoogle(users: seq<User>, p: GoogleProfile, newId: Id, dbError: string, u: User)
    requires newId !in UserIds(users)
    requires u in users && u.loginType == GITHUB && u.email == Canonical(p.email)
    requires NoDup(Emails(users))
    ensures GoogleVerify(users, p, newId, dbError) == Login(users, Err(HttpError(400, RegisteredWith(GITHUB))))
  {
    var i :| 0 <= i < |users| && users[i] == u;
    assert Emails(users)[i] == Canonical(p.email);
    var found := ByEmail(users, p.email);
    var j :| 0 <= j < |users| && users[j] == found.value;
    assert Emails(users)[j] == Canonical(p.email);
    assert found == Some(u);
  }

  /** When both the GitHub username and the email's local part are taken, a new GitHub
      user cannot register: the second choice is not checked before the write. */
  lemma GitHubFallbackCollides(users: seq<User>, p: GitHubProfile, newId: Id, dbError: string)
    requires newId !in UserIds(users)
    requires Truthy(p.email) && Canonical(p.email.value) !in Emails(users)
    requires Canonical(p.username) in Usernames(users)
    requires Canonical(Strs.BeforeFirst(p.email.value, '@')) in Usernames(users)
    ensures GitHubVerify(users, p, newId, dbError) == Login(users, Err(HttpError(500, GitHubFailure + dbError)))
  {
  }

  /** `serializeUser`: the session keeps the user's id. */
  function SerializeUser(u: User): (r: Id)
    ensures r == u.id
  {
    u.id
  }

  /** `deserializeUser`: the user with the session's id, or a 404. */
  function DeserializeUser(users: seq<User>, id: Id): (r: Result<User>)
    ensures r.Ok? <==> id in UserIds(users)
    ensures r.Ok? ==> r.value in users && r.value.id == id
    ensures r.Err? ==> r.error == HttpError(404, UserMissing)
  {
    match UserById(users, id)
    case None => Err(HttpError(404, UserMissing))
    case Some(u) => Ok(u)
  }

  /** A signed-in user's session gives back that same user while its id is unique. */
  lemma SessionRoundTrip(users: seq<User>, u: User)
    requires u in users && NoDup(UserIds(users))
    ensures DeserializeUser(users, SerializeUser(u)) == Ok(u)
  {
    var i :| 0 <= i < |users| && users[i] == u;
    assert UserIds(users)[i] == u.id;
    var r := DeserializeUser(users, u.id);
    var j :| 0 <= j < |users| && users[j] == r.value;
    assert UserIds(users)[j] == u.id;
  }
}
