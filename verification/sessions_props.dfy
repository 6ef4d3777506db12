/** What the account and session handlers guarantee, alone and over any
    sequence of requests. */
module SessionProps {
  import opened Js
  import opened Sessions

  /** The unique index on `token`: no two session documents share one. */
  ghost predicate UniqueTokens(sessions: seq<Session>) {
    forall i, j :: 0 <= i < j < |sessions| ==> sessions[i].token != sessions[j].token
  }

  /** `t` is a later state of the session store than `s`: documents are only
      appended, keep their id, token and owner, and a revoked one stays revoked. */
  ghost predicate Later(s: seq<Session>, t: seq<Session>) {
    && |s| <= |t|
    && forall k :: 0 <= k < |s| ==>
         && t[k].id == s[k].id && t[k].token == s[k].token && t[k].user == s[k].user
         && (s[k].revoked ==> t[k].revoked)
  }

  /** One request. */
  datatype Request =
    | RegisterReq(name: string, email: string, hashed: string, newId: string)
    | LoginReq(email: string, password: string, loginAt: int, loginId: string)
    | RefreshReq(cookie: Option<string>, refreshAt: int, refreshId: string)
    | RevokeSessionReq(owner: string, sessionId: string)
    | RevokeAllReq(caller: string)
    | LogoutReq(authorization: Option<string>, logoutAt: int)

  function Handle(auth: Auth, s: Store, req: Request): Transition {
    match req
    case RegisterReq(name, email, hashed, newId) => Register(s, name, email, hashed, newId)
    case LoginReq(email, password, now, newId) => Login(auth, s, email, password, now, newId)
    case RefreshReq(cookie, now, newId) => Refresh(auth, s, cookie, now, newId)
    case RevokeSessionReq(user, id) => RevokeSession(s, user, id)
    case RevokeAllReq(user) => RevokeAll(s, user)
    case LogoutReq(authorization, now) => Logout(auth, s, authorization, now)
  }

  /** The store after the requests, handled one after another. */
  function Run(auth: Auth, s: Store, reqs: seq<Request>): Store
    decreases |reqs|
  {
    if |reqs| == 0 then s else Run(auth, Handle(auth, s, reqs[0]).store, reqs[1..])
  }

  // ---------------------------------------------------------------------
  // The store only moves forward

  lemma LaterRefl(s: seq<Session>)
    ensures Later(s, s)
  {
  }

  lemma LaterTrans(a: seq<Session>, b: seq<Session>, c: seq<Session>)
    requires Later(a, b) && Later(b, c)
    ensures Later(a, c)
  {
  }

  lemma AppendUnique(sessions: seq<Session>, x: Session)
    requires UniqueTokens(sessions) && !TokenTaken(sessions, x.token)
    ensures UniqueTokens(sessions + [x])
  {
    var r := sessions + [x];
    forall i, j | 0 <= i < j < |r|
      ensures r[i].token != r[j].token
    {
      if j == |sessions| {
        assert r[i] == sessions[i];
      }
    }
  }

  lemma RevokeAllLater(sessions: seq<Session>, user: string)
    requires UniqueTokens(sessions)
    ensures Later(sessions, RevokeAllOf(sessions, user)) && UniqueTokens(RevokeAllOf(sessions, user))
  {
  }

  /** Every handler keeps tokens unique and the store moving forward. */
  lemma HandleLater(auth: Auth, s: Store, req: Request)
    requires UniqueTokens(s.sessions)
    ensures Later(s.sessions, Handle(auth, s, req).store.sessions)
    ensures UniqueTokens(Handle(auth, s, req).store.sessions)
  {
    var t := Handle(auth, s, req).store;
    match req
    case RegisterReq(_, _, _, _) =>
    case LoginReq(email, password, now, newId) =>
      if t != s {
        var u := s.users[UserByEmail(s.users, email)];
        var refresh := auth.signRefresh(u.id, now);
        var x := Session(newId, refresh, u.id, ExpiryOf(auth.decodeExp(refresh), now + SevenDays), false, None);
        assert t.sessions == s.sessions + [x];
        AppendUnique(s.sessions, x);
      }
    case RefreshReq(cookie, now, newId) =>
      RefreshLater(auth, s, cookie, now, newId);
    case RevokeSessionReq(user, id) =>
    case RevokeAllReq(user) =>
      RevokeAllLater(s.sessions, user);
    case LogoutReq(authorization, now) =>
      if t != s {
        var uid := auth.decodeId(BearerToken(authorization).value);
        if uid.Some? && uid.value != "" {
          RevokeAllLater(s.sessions, uid.value);
        }
      }
  }

  lemma RefreshLater(auth: Auth, s: Store, cookie: Option<string>, now: int, newId: string)
    requires UniqueTokens(s.sessions)
    ensures Later(s.sessions, Refresh(auth, s, cookie, now, newId).store.sessions)
    ensures UniqueTokens(Refresh(auth, s, cookie, now, newId).store.sessions)
  {
    var t := Refresh(auth, s, cookie, now, newId);
    if t.reply.Issued? || (t.reply.Fail? && t.store != s) {
      var i := LiveSession(s.sessions, cookie.value);
      var rotated := s.sessions[i := s.sessions[i].(revoked := true, replacedBy := Some(t.store.sessions[i].replacedBy.value))];
      assert t.store.sessions[..|s.sessions|] == rotated;
      assert UniqueTokens(rotated);
      if t.reply.Issued? {
        var x := t.store.sessions[|s.sessions|];
        assert t.store.sessions == rotated + [x];
        AppendUnique(rotated, x);
      }
    }
  }

  /** Over any sequence of requests the store only moves forward. */
  lemma {:induction false} RunLater(auth: Auth, s: Store, reqs: seq<Request>)
    requires UniqueTokens(s.sessions)
    ensures Later(s.sessions, Run(auth, s, reqs).sessions)
    ensures UniqueTokens(Run(auth, s, reqs).sessions)
    decreases |reqs|
  {
    if |reqs| == 0 {
      LaterRefl(s.sessions);
    } else {
      var next := Handle(auth, s, reqs[0]).store;
      HandleLater(auth, s, reqs[0]);
      RunLater(auth, next, reqs[1..]);
      LaterTrans(s.sessions, next.sessions, Run(auth, next, reqs[1..]).sessions);
    }
  }

  /** A revoked refresh token is never accepted again, whatever follows. */
  lemma RevokedStaysDead(auth: Auth, s: Store, reqs: seq<Request>, k: int)
    requires UniqueTokens(s.sessions)
    requires 0 <= k < |s.sessions| && s.sessions[k].revoked
    ensures var t := Run(auth, s, reqs);
      LiveSession(t.sessions, s.sessions[k].token) == |t.sessions|
  {
    var t := Run(auth, s, reqs).sessions;
    RunLater(auth, s, reqs);
    var i := LiveSession(t, s.sessions[k].token);
    if i < |t| {
      assert false;
    }
  }

  // ---------------------------------------------------------------------
  // register and login

  /** A user registered with the hash of a password can log in with it. */
  lemma RegisterThenLogin(auth: Auth, s: Store, name: string, email: string, password: string, hashed: string,
                          userId: string, now: int, sessionId: string)
    requires !HasEmail(s.users, email) && auth.compare(password, hashed)
    requires !TokenTaken(s.sessions, auth.signRefresh(userId, now))
    ensures var t := Register(s, name, email, hashed, userId).store;
      && Login(auth, t, email, password, now, sessionId).reply.Issued?
      && Login(auth, t, email, password, now, sessionId).store.sessions[|s.sessions|].user == userId
  {
    var t := Register(s, name, email, hashed, userId).store;
    var i := UserByEmail(t.users, email);
    assert t.users[|s.users|].email == email;
    assert i == |s.users|;
    assert t.users[i] == User(userId, name, email, hashed);
  }

  /** `signRefresh` depends only on the user and the instant, so a second
      login by the same user at the same instant produces the token the first
      one stored; its `create` then hits the unique index and the handler
      fails without a reply, leaving the store as it was. */
  lemma SecondLoginCollides(auth: Auth, s: Store, email: string, password: string, now: int,
                            firstId: string, secondId: string)
    requires Login(auth, s, email, password, now, firstId).reply.Issued?
    ensures var t := Login(auth, s, email, password, now, firstId).store;
      && Login(auth, t, email, password, now, secondId).reply == Unhandled
      && Login(auth, t, email, password, now, secondId).store == t
  {
    var first := Login(auth, s, email, password, now, firstId);
    var t := first.store;
    assert t.sessions[|s.sessions|].token == first.reply.refresh;
    assert TokenTaken(t.sessions, first.reply.refresh);
  }

  // ---------------------------------------------------------------------
  // refresh

  /** A successful refresh revokes the presented session, points it at the
      new token, appends one live session for the verified user, and leaves
      every other session alone. */
  lemma RefreshRotates(auth: Auth, s: Store, cookie: Option<string>, now: int, newId: string)
    requires UniqueTokens(s.sessions)
    requires Refresh(auth, s, cookie, now, newId).reply.Issued?
    ensures var t := Refresh(auth, s, cookie, now, newId);
      var i := LiveSession(s.sessions, cookie.value);
      && i < |s.sessions|
      && |t.store.sessions| == |s.sessions| + 1
      && t.store.sessions[i].revoked && t.store.sessions[i].replacedBy == Some(t.reply.refresh)
      && (forall k :: 0 <= k < |s.sessions| && k != i ==> t.store.sessions[k] == s.sessions[k])
      && t.store.sessions[|s.sessions|].token == t.reply.refresh
      && t.store.sessions[|s.sessions|].user == auth.verifyRefresh(cookie.value, now).value
      && !t.store.sessions[|s.sessions|].revoked
      && LiveSession(t.store.sessions, cookie.value) == |t.store.sessions|
      && t.store.users == s.users && t.store.revoked == s.revoked
  {
    var t := Refresh(auth, s, cookie, now, newId);
    RefreshLater(auth, s, cookie, now, newId);
    var i := LiveSession(s.sessions, cookie.value);
    var j := LiveSession(t.store.sessions, cookie.value);
    if j < |t.store.sessions| {
      assert false;
    }
  }

  /** A refresh that fails verification or finds no user changes nothing. */
  lemma RefreshRefusedUnchanged(auth: Auth, s: Store, cookie: Option<string>, now: int, newId: string)
    requires cookie.Some?
    requires || auth.verifyRefresh(cookie.value, now).None?
             || UserById(s.users, auth.verifyRefresh(cookie.value, now).value) == |s.users|
    ensures Refresh(auth, s, cookie, now, newId).reply.Fail?
    ensures Refresh(auth, s, cookie, now, newId).store == s
    ensures cookie.value != "" && LiveSession(s.sessions, cookie.value) < |s.sessions| ==>
      Refresh(auth, s, cookie, now, newId).reply
        == Fail(401, if auth.verifyRefresh(cookie.value, now).None? then "Invalid refresh token" else "Invalid token user")
  {
  }

  /** When the new token equals a stored one (`jwt.sign` over the same
      payload in the same second gives the same token), the old session is
      revoked anyway and the caller gets 401 with no live session left. */
  lemma RefreshCollisionRevokes(auth: Auth, s: Store, token: string, now: int, newId: string)
    requires UniqueTokens(s.sessions)
    requires token != "" && LiveSession(s.sessions, token) < |s.sessions|
    requires auth.verifyRefresh(token, now).Some?
    requires UserById(s.users, auth.verifyRefresh(token, now).value) < |s.users|
    requires auth.signRefresh(s.users[UserById(s.users, auth.verifyRefresh(token, now).value)].id, now) == token
    ensures var t := Refresh(auth, s, Some(token), now, newId);
      && t.reply == Fail(401, "Invalid refresh token")
      && t.store.sessions[LiveSession(s.sessions, token)].revoked
      && LiveSession(t.store.sessions, token) == |t.store.sessions|
  {
    var t := Refresh(auth, s, Some(token), now, newId);
    var i := LiveSession(s.sessions, token);
    var u := s.users[UserById(s.users, auth.verifyRefresh(token, now).value)];
    var rotated := s.sessions[i := s.sessions[i].(revoked := true, replacedBy := Some(token))];
    assert rotated[i].token == token;
    assert TokenTaken(rotated, token);
    assert t.store.sessions == rotated;
    RefreshLater(auth, s, Some(token), now, newId);
    var j := LiveSession(t.store.sessions, token);
    if j < |t.store.sessions| {
      assert false;
    }
  }

  // ---------------------------------------------------------------------
  // revokeSession and revokeAllSessions

  /** Exactly the caller's session with that id is revoked. */
  lemma RevokeSessionFrame(s: Store, user: string, id: string)
    requires RevokeSession(s, user, id).reply.Done?
    ensures var t := RevokeSession(s, user, id).store;
      var i := OwnedSession(s.sessions, id, user);
      && |t.sessions| == |s.sessions| && t.sessions[i].revoked
      && t.sessions[i].id == id && t.sessions[i].user == user
      && (forall k :: 0 <= k < |s.sessions| && k != i ==> t.sessions[k] == s.sessions[k])
      && t.users == s.users && t.revoked == s.revoked
  {
  }

  /** Every session of the caller ends revoked; every other session is untouched. */
  lemma RevokeAllFrame(s: Store, user: string)
    ensures var t := RevokeAll(s, user).store;
      && |t.sessions| == |s.sessions|
      && (forall k :: 0 <= k < |s.sessions| && s.sessions[k].user == user ==> t.sessions[k].revoked)
      && (forall k :: 0 <= k < |s.sessions| && s.sessions[k].user != user ==> t.sessions[k] == s.sessions[k])
  {
  }

  /** Revoking all of a user's sessions twice is revoking them once. */
  lemma RevokeAllIdempotent(s: Store, user: string)
    ensures RevokeAll(RevokeAll(s, user).store, user) == RevokeAll(s, user)
  {
    var once := RevokeAll(s, user).store;
    var twice := RevokeAll(once, user).store;
    assert twice.sessions == once.sessions;
  }

  // ---------------------------------------------------------------------
  // logout and protect

  /** A logout lists the token until its own expiry, or for an hour when it
      has none, and revokes the named user's refresh sessions. */
  lemma LogoutRecords(auth: Auth, s: Store, authorization: Option<string>, now: int)
    requires Logout(auth, s, authorization, now).reply.Done?
    ensures var token := BearerToken(authorization).value;
      var t := Logout(auth, s, authorization, now).store;
      var exp := auth.decodeExp(token);
      && t.revoked == s.revoked[token := if exp.Some? && exp.value != 0 then exp.value * 1000 else now + OneHour]
      && (forall u :: auth.decodeId(token) == Some(u) && u != "" ==> t.sessions == RevokeAllOf(s.sessions, u))
      && (auth.decodeId(token).None? ==> t.sessions == s.sessions)
  {
  }

  /** A token logged out is refused by `protect` until its entry expires,
      whether or not its signature would verify. */
  lemma LogoutThenProtect(auth: Auth, s: Store, authorization: Option<string>, now: int,
                          cookie: Option<string>, later: int)
    requires Logout(auth, s, authorization, now).reply.Done?
    requires var t := Logout(auth, s, authorization, now).store;
      later < t.revoked[BearerToken(authorization).value]
    ensures Protect(auth, Logout(auth, s, authorization, now).store, authorization, cookie, later) == Deny("Token revoked")
  {
  }

  /** With neither a header token nor a cookie token, the request is refused. */
  lemma ProtectNoToken(auth: Auth, s: Store, authorization: Option<string>, cookie: Option<string>, now: int)
    requires BearerToken(authorization).None? && (cookie.None? || cookie == Some(""))
    ensures Protect(auth, s, authorization, cookie, now) == Deny("No token")
  {
  }

  /** A usable header token decides alone: the cookie is not looked at. */
  lemma ProtectPrefersHeader(auth: Auth, s: Store, authorization: Option<string>, c1: Option<string>,
                             c2: Option<string>, now: int)
    requires BearerToken(authorization).Some?
    ensures Protect(auth, s, authorization, c1, now) == Protect(auth, s, authorization, c2, now)
  {
  }

  /** The token `protect` judges: the header's if usable, else the cookie's. */
  function Presented(authorization: Option<string>, cookie: Option<string>): Option<string> {
    if BearerToken(authorization).Some? then BearerToken(authorization) else cookie
  }

  /** A request is admitted exactly when its token is not listed and
      verifies, and then `req.user` is the verified payload; a listed token
      is refused whatever verification would say. */
  lemma ProtectDecision(auth: Auth, s: Store, authorization: Option<string>, cookie: Option<string>, now: int)
    requires Presented(authorization, cookie).Some? && Presented(authorization, cookie) != Some("")
    ensures var t := Presented(authorization, cookie).value;
      && (IsRevoked(s, t, now) ==> Protect(auth, s, authorization, cookie, now) == Deny("Token revoked"))
      && (!IsRevoked(s, t, now) && auth.verifyAccess(t, now).None?
          ==> Protect(auth, s, authorization, cookie, now) == Deny("Invalid token"))
      && (Protect(auth, s, authorization, cookie, now).Admit?
          <==> !IsRevoked(s, t, now) && auth.verifyAccess(t, now).Some?)
      && (Protect(auth, s, authorization, cookie, now).Admit?
          ==> Protect(auth, s, authorization, cookie, now).claims == auth.verifyAccess(t, now).value)
  {
  }

  /** A listed token stops being refused as revoked once its entry expires. */
  lemma RevocationExpires(auth: Auth, s: Store, token: string, now: int)
    requires token != "" && token in s.revoked && now >= s.revoked[token]
    ensures Protect(auth, s, None, Some(token), now) != Deny("Token revoked")
  {
  }

  /** `Authorization: Bearer <t>` yields `t` when neither part has a space. */
  lemma BearerOfHeader(scheme: string, t: string, rest: string)
    requires forall k :: 0 <= k < |scheme| ==> scheme[k] != ' '
    requires forall k :: 0 <= k < |t| ==> t[k] != ' '
    requires t != ""
    ensures BearerToken(Some(scheme + " " + t)) == Some(t)
    ensures BearerToken(Some(scheme + " " + t + " " + rest)) == Some(t)
  {
    SpaceSplit(scheme, t);
    IndexOfSpaceIs(t, |t|);
    assert t[..|t|] == t;
    assert scheme + " " + t + " " + rest == scheme + " " + (t + " " + rest);
    SpaceSplit(scheme, t + " " + rest);
    SpaceSplit(t, rest);
  }

  /** The first space of `word + " " + tail` is the one after `word`. */
  lemma SpaceSplit(word: string, tail: string)
    requires forall k :: 0 <= k < |word| ==> word[k] != ' '
    ensures IndexOfSpace(word + " " + tail) == |word|
    ensures (word + " " + tail)[|word| + 1..] == tail
    ensures (word + " " + tail)[..|word|] == word
  {
    var h := word + " " + tail;
    assert h[|word|] == ' ';
    assert forall k :: 0 <= k < |word| ==> h[k] == word[k];
    IndexOfSpaceIs(h, |word|);
    assert h[|word| + 1..] == tail;
  }

  lemma IndexOfSpaceIs(s: string, i: nat)
    requires i <= |s| && (i < |s| ==> s[i] == ' ')
    requires forall k :: 0 <= k < i ==> s[k] != ' '
    ensures IndexOfSpace(s) == i
  {

  }

  /** A header without a space carries no token. */
  lemma NoSpaceNoBearer(h: string)
    requires forall k :: 0 <= k < |h| ==> h[k] != ' '
    ensures BearerToken(Some(h)) == None
  {
    IndexOfSpaceIs(h, |h|);
  }
}
