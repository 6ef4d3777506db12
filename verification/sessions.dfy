/** Accounts and sessions: the user table, the refresh-token store and the
    revoked-access-token list, and the handlers that move between their
    states (`register`, `login`, `refresh`, `revokeSession`,
    `revokeAllSessions`, `logout`) together with the `protect` admission
    check. JWT signing and verification, `jwt.decode` and bcrypt are
    parameters (`Auth`); time is an integer clock in milliseconds. */
module Sessions {
  import opened Js

  /** A user document: its id, name, e-mail and bcrypt hash. */
  datatype User = User(id: string, name: string, email: string, password: string)

  /** A refresh-token document. */
  datatype Session = Session(id: string, token: string, user: string, expiresAt: int,
                             revoked: bool, replacedBy: Option<string>)

  /** The three collections the handlers touch. `revoked` maps a logged-out
      access token to the time its entry expires. */
  datatype Store = Store(users: seq<User>, sessions: seq<Session>, revoked: map<string, int>)

  /** The cryptographic collaborators, each at the current time where it
      depends on it. A verified payload without `id` behaves like an id that
      no user has. */
  datatype Auth = Auth(
    compare: (string, string) -> bool,               // bcrypt.compare(password, hash)
    signAccess: (User, int) -> string,               // jwt.sign({id, role}, JWT_SECRET, 15 minutes)
    signRefresh: (string, int) -> string,            // jwt.sign({id}, refresh secret, 7 days)
    verifyRefresh: (string, int) -> Option<string>,  // jwt.verify(...).id; None when it throws
    verifyAccess: (string, int) -> Option<Json>,     // jwt.verify(...) with JWT_SECRET
    decodeExp: string -> Option<int>,                // jwt.decode(t)?.exp, in seconds
    decodeId: string -> Option<string>)              // jwt.decode(t)?.id

  /** What a handler sends. `Issued` is a `{token}` body together with the
      `refreshToken` cookie; `Unhandled` is a rejected promise the handler
      does not catch. */
  datatype Reply =
    | Registered(user: User)
    | Issued(access: string, refresh: string, expiresAt: int)
    | Done(message: string)
    | Fail(status: int, message: string)
    | Unhandled

  datatype Transition = Transition(reply: Reply, store: Store)

  const SevenDays: int := 7 * 24 * 3600 * 1000
  const OneHour: int := 3600 * 1000

  // ---------------------------------------------------------------------
  // Lookups

  /** `User.findOne({email})`: the first user with that e-mail, or `|users|`. */
  function UserByEmail(users: seq<User>, email: string): (i: nat)
    ensures i <= |users|
    ensures i < |users| ==> users[i].email == email
    ensures forall k :: 0 <= k < i ==> users[k].email != email
  {
    if |users| == 0 then 0 else if users[0].email == email then 0 else 1 + UserByEmail(users[1..], email)
  }

  /** `User.findById(id)` */
  function UserById(users: seq<User>, id: string): (i: nat)
    ensures i <= |users|
    ensures i < |users| ==> users[i].id == id
    ensures forall k :: 0 <= k < i ==> users[k].id != id
  {
    if |users| == 0 then 0 else if users[0].id == id then 0 else 1 + UserById(users[1..], id)
  }

  /** `RefreshToken.findOne({token, revoked: false})` */
  function LiveSession(sessions: seq<Session>, token: string): (i: nat)
    ensures i <= |sessions|
    ensures i < |sessions| ==> sessions[i].token == token && !sessions[i].revoked
    ensures forall k :: 0 <= k < i ==> sessions[k].token != token || sessions[k].revoked
  {
    if |sessions| == 0 then 0
    else if sessions[0].token == token && !sessions[0].revoked then 0
    else 1 + LiveSession(sessions[1..], token)
  }

  /** `RefreshToken.findOne({_id: id, user})` */
  function OwnedSession(sessions: seq<Session>, id: string, user: string): (i: nat)
    ensures i <= |sessions|
    ensures i < |sessions| ==> sessions[i].id == id && sessions[i].user == user
    ensures forall k :: 0 <= k < i ==> sessions[k].id != id || sessions[k].user != user
  {
    if |sessions| == 0 then 0
    else if sessions[0].id == id && sessions[0].user == user then 0
    else 1 + OwnedSession(sessions[1..], id, user)
  }

  /** Whether a session document with this token exists: the unique index
      on `token` refuses a second one. */
  predicate TokenTaken(sessions: seq<Session>, token: string) {
    exists k :: 0 <= k < |sessions| && sessions[k].token == token
  }

  /** `RefreshToken.updateMany({user, revoked: false}, {revoked: true})` */
  function RevokeAllOf(sessions: seq<Session>, user: string): (r: seq<Session>)
    ensures |r| == |sessions|
    ensures forall k :: 0 <= k < |r| ==>
      r[k] == if sessions[k].user == user then sessions[k].(revoked := true) else sessions[k]
  {
    seq(|sessions|, k requires 0 <= k < |sessions| =>
      if sessions[k].user == user then sessions[k].(revoked := true) else sessions[k])
  }

  /** `decoded?.exp ? new Date(decoded.exp * 1000) : fallback` (an `exp` of 0 is falsy). */
  function ExpiryOf(exp: Option<int>, fallback: int): int {
    if exp.Some? && exp.value != 0 then exp.value * 1000 else fallback
  }

  /** The revoked-token entry is found only until it expires: the TTL index
      removes it once `expiresAt` is reached. */
  predicate IsRevoked(s: Store, token: string, now: int) {
    token in s.revoked && s.revoked[token] > now
  }

  /** `authorization?.split(" ")[1]`: the text after the first space, up to
      the next space. */
  function SecondField(header: string): Option<string> {
    var i := IndexOfSpace(header);
    if i == |header| then None
    else
      var rest := header[i + 1..];
      Some(rest[..IndexOfSpace(rest)])
  }

  function IndexOfSpace(s: string): (i: nat)
    ensures i <= |s|
    ensures i < |s| ==> s[i] == ' '
    ensures forall k :: 0 <= k < i ==> s[k] != ' '
  {
    if |s| == 0 then 0 else if s[0] == ' ' then 0 else 1 + IndexOfSpace(s[1..])
  }

  /** A token read from a header, if it is there and not empty. */
  function BearerToken(authorization: Option<string>): Option<string> {
    match authorization
    case None => None
    case Some(h) =>
      match SecondField(h)
      case Some(t) => if t != "" then Some(t) else None
      case None => None
  }

  // ---------------------------------------------------------------------
  // Handlers

  predicate HasEmail(users: seq<User>, email: string) {
    exists k :: 0 <= k < |users| && users[k].email == email
  }

  /** `register`: a taken e-mail is refused with 409; otherwise one user is
      added with the bcrypt hash `hashed` of the password. */
  function Register(s: Store, name: string, email: string, hashed: string, newId: string): (t: Transition)
    ensures HasEmail(s.users, email) ==> t == Transition(Fail(409, "User already exists"), s)
    ensures !HasEmail(s.users, email) ==>
      && t.store == s.(users := s.users + [User(newId, name, email, hashed)])
      && t.reply == Registered(User(newId, name, email, hashed))
  {
    if UserByEmail(s.users, email) < |s.users| then Transition(Fail(409, "User already exists"), s)
    else
      var u := User(newId, name, email, hashed);
      Transition(Registered(u), s.(users := s.users + [u]))
  }

  /** `login`: an unknown e-mail or a wrong password is refused with 401;
      otherwise a refresh session is stored for the user and both tokens are
      issued, the session expiring at the refresh token's `exp` (seconds, so
      times 1000) or, without one, seven days from now. A refresh token equal
      to a stored one makes `create` reject on the unique index, which the
      handler does not catch. */
  function Login(auth: Auth, s: Store, email: string, password: string, now: int, newId: string): (t: Transition)
    ensures t.reply.Fail? ==> t == Transition(Fail(401, "Invalid credentials"), s)
    ensures t.reply.Fail? <==>
      !HasEmail(s.users, email) || !auth.compare(password, s.users[UserByEmail(s.users, email)].password)
    ensures t.reply.Unhandled? <==>
      !t.reply.Fail? && TokenTaken(s.sessions, auth.signRefresh(s.users[UserByEmail(s.users, email)].id, now))
    ensures t.reply.Unhandled? ==> t.store == s
    ensures t.reply.Issued? ==>
      var u := s.users[UserByEmail(s.users, email)];
      && t.store.users == s.users && t.store.revoked == s.revoked
      && t.store.sessions == s.sessions + [Session(newId, t.reply.refresh, u.id, t.reply.expiresAt, false, None)]
      && t.reply.access == auth.signAccess(u, now)
      && t.reply.refresh == auth.signRefresh(u.id, now)
    ensures t.reply.Issued? ==>
      var exp := auth.decodeExp(t.reply.refresh);
      if exp.Some? && exp.value != 0 then t.reply.expiresAt == exp.value * 1000
      else t.reply.expiresAt == now + SevenDays
  {
    var i := UserByEmail(s.users, email);
    if i == |s.users| || !auth.compare(password, s.users[i].password) then
      Transition(Fail(401, "Invalid credentials"), s)
    else
      var u := s.users[i];
      var access := auth.signAccess(u, now);
      var refresh := auth.signRefresh(u.id, now);
      var expiresAt := ExpiryOf(auth.decodeExp(refresh), now + SevenDays);
      if TokenTaken(s.sessions, refresh) then Transition(Unhandled, s)
      else
        var session := Session(newId, refresh, u.id, expiresAt, false, None);
        Transition(Issued(access, refresh, expiresAt), s.(sessions := s.sessions + [session]))
  }

  /** `refresh`: rotates a live refresh token. The old session is revoked and
      saved before the new one is created, so when the new token collides
      with a stored one the old session stays revoked although the caught
      error answers 401. */
  function Refresh(auth: Auth, s: Store, cookie: Option<string>, now: int, newId: string): (t: Transition)
    ensures cookie.None? || cookie == Some("") ==> t == Transition(Fail(400, "No refresh token"), s)
    ensures t.reply.Fail? && t.reply.status == 400 ==> t.store == s
    ensures cookie.Some? && cookie != Some("") && LiveSession(s.sessions, cookie.value) == |s.sessions|
            ==> t == Transition(Fail(401, "Invalid refresh token"), s)
  {
    if cookie.None? || cookie.value == "" then Transition(Fail(400, "No refresh token"), s)
    else
      var token := cookie.value;
      var i := LiveSession(s.sessions, token);
      if i == |s.sessions| then Transition(Fail(401, "Invalid refresh token"), s)
      else
        match auth.verifyRefresh(token, now)
        case None => Transition(Fail(401, "Invalid refresh token"), s)
        case Some(id) =>
          var j := UserById(s.users, id);
          if j == |s.users| then Transition(Fail(401, "Invalid token user"), s)
          else
            var u := s.users[j];
            var next := auth.signRefresh(u.id, now);
            var rotated := s.sessions[i := s.sessions[i].(revoked := true, replacedBy := Some(next))];
            var expiresAt := ExpiryOf(auth.decodeExp(next), now + SevenDays);
            if TokenTaken(rotated, next) then Transition(Fail(401, "Invalid refresh token"), s.(sessions := rotated))
            else
              var session := Session(newId, next, u.id, expiresAt, false, None);
              Transition(Issued(auth.signAccess(u, now), next, expiresAt), s.(sessions := rotated + [session]))
  }

  /** `revokeSession`: revokes the caller's session with that id, or 404. */
  function RevokeSession(s: Store, user: string, id: string): (t: Transition)
    ensures t.reply.Fail? <==> !exists k :: 0 <= k < |s.sessions| && s.sessions[k].id == id && s.sessions[k].user == user
    ensures t.reply.Fail? ==> t == Transition(Fail(404, "Session not found"), s)
    ensures t.reply.Done? ==> t.reply.message == "Session revoked"
  {
    var i := OwnedSession(s.sessions, id, user);
    if i == |s.sessions| then Transition(Fail(404, "Session not found"), s)
    else Transition(Done("Session revoked"), s.(sessions := s.sessions[i := s.sessions[i].(revoked := true)]))
  }

  /** `revokeAllSessions` */
  function RevokeAll(s: Store, user: string): (t: Transition)
    ensures t.reply == Done("All sessions revoked")
    ensures t.store.users == s.users && t.store.revoked == s.revoked
  {
    Transition(Done("All sessions revoked"), s.(sessions := RevokeAllOf(s.sessions, user)))
  }

  /** `logout`: the bearer token is listed as revoked until its own expiry
      (or for an hour when it has none), and every refresh session of the
      user it names is revoked. Listing a token that is already listed
      violates the unique index; the caught error answers 500. */
  function Logout(auth: Auth, s: Store, authorization: Option<string>, now: int): (t: Transition)
    ensures BearerToken(authorization).None? ==> t == Transition(Fail(400, "No token provided"), s)
    ensures t.reply.Fail? ==> t.store == s
    ensures t.store.users == s.users
  {
    match BearerToken(authorization)
    case None => Transition(Fail(400, "No token provided"), s)
    case Some(token) =>
      var expiresAt := ExpiryOf(auth.decodeExp(token), now + OneHour);
      if IsRevoked(s, token, now) then Transition(Fail(500, "Unable to logout"), s)
      else
        var uid := auth.decodeId(token);
        var sessions := if uid.Some? && uid.value != "" then RevokeAllOf(s.sessions, uid.value) else s.sessions;
        Transition(Done("Logged out"), Store(s.users, sessions, s.revoked[token := expiresAt]))
  }

  /** The outcome of `protect`: the request continues with `req.user` set,
      or is refused with 401 and the message. */
  datatype Admission = Admit(claims: Json) | Deny(message: string)

  /** `protect`: the header token wins over the `token` cookie; a listed
      token is refused before its signature is checked. */
  function Protect(auth: Auth, s: Store, authorization: Option<string>, cookie: Option<string>, now: int): (a: Admission)
    ensures a.Admit? ==> exists t :: !IsRevoked(s, t, now) && auth.verifyAccess(t, now) == Some(a.claims)
  {
    var token := if BearerToken(authorization).Some? then BearerToken(authorization) else cookie;
    if token.None? || token.value == "" then Deny("No token")
    else if IsRevoked(s, token.value, now) then Deny("Token revoked")
    else
      match auth.verifyAccess(token.value, now)
      case Some(claims) => Admit(claims)
      case None => Deny("Invalid token")
  }
}
