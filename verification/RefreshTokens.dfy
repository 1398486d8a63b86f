/** Refresh-token rotation: one step for each handler, handled one at a time. Signatures are ideal: exactly the
    tokens the server signed verify. Passwords are compared as they are. */
module RefreshTokens {
  import opened Wrappers

  const MAX_PASSWORD := 128
  const MAX_USERNAME := 64
  const MIN_PASSWORD := 8

  datatype User = User(password: string, enabled: bool)

  datatype Claims = Claims(jti: string, userId: string, expires: int)

  datatype Signed = Signed(claims: Claims, isRefresh: bool)

  /** A row of the refresh_tokens table. */
  datatype Row = Row(userId: string, expires: int, revoked: bool)

  datatype State = State(
    users: map<string, User>,
    names: map<string, string>,   // the unique index from user name to user
    tokens: map<string, Row>,
    signed: map<string, Signed>,  // every token ever signed, by its ID
    now: int)

  /** How long the two kinds of token last. */
  datatype Lives = Lives(access: int, refresh: int)

  /** What a request brings as its token. */
  datatype Presented = Undecodable | Empty | Garbage | Jwt(claims: Claims)

  datatype Op =
    | Login(username: string, password: string, access: string, refresh: string, at: int)
    | Refresh(token: Presented, access: string, refresh: string, at: int)
    | Logout(token: Presented, at: int)
    | ChangePassword(userId: string, oldPassword: string, newPassword: string)
    | Manage(users: map<string, User>, names: map<string, string>)   // administration changes accounts at will

  datatype Reply = Tokens(access: Claims, refresh: Claims) | Unauthorized | BadRequest | InternalError | Done

  const INIT := State(map[], map[], map[], map[], 0)

  /** Token IDs are random: new ones were never used. */
  predicate FreshIds(s: State, access: string, refresh: string)
  {
    access != refresh && access !in s.signed && refresh !in s.signed && access != "" && refresh != ""
  }

  predicate CanStep(s: State, op: Op)
  {
    match op
    case Login(_, _, access, refresh, at) => s.now <= at && FreshIds(s, access, refresh)
    case Refresh(_, access, refresh, at) => s.now <= at && FreshIds(s, access, refresh)
    case Logout(_, at) => s.now <= at
    case _ => true
  }

  // ---- The helpers ----

  /** ValidateToken: signed by this server and not expired. */
  predicate Verifies(s: State, token: Presented, at: int)
  {
    && token.Jwt?
    && var c := token.claims; c.jti in s.signed && s.signed[c.jti].claims == c && at < c.expires
  }

  predicate Revoked(s: State, jti: string)
  {
    jti !in s.tokens || s.tokens[jti].revoked
  }

  function AccessClaims(l: Lives, userId: string, jti: string, at: int): Claims { Claims(jti, userId, at + l.access) }

  function RefreshClaims(l: Lives, userId: string, jti: string, at: int): Claims { Claims(jti, userId, at + l.refresh) }

  /** GenerateTokens: signs one token of either kind. */
  function Generate(l: Lives, s: State, userId: string, access: string, refresh: string, at: int): State
  {
    s.(signed := s.signed[access := Signed(AccessClaims(l, userId, access, at), false)]
                         [refresh := Signed(RefreshClaims(l, userId, refresh, at), true)],
       now := at)
  }

  function Revoke(s: State, jti: string): State
  {
    if jti in s.tokens then s.(tokens := s.tokens[jti := s.tokens[jti].(revoked := true)]) else s
  }

  /** Stores a refresh token that still verifies, unless its ID is there already. */
  function Store(s: State, c: Claims, at: int): State
  {
    if at < c.expires && c.jti !in s.tokens then s.(tokens := s.tokens[c.jti := Row(c.userId, c.expires, false)]) else s
  }

  function RevokeAll(s: State, userId: string): State
  {
    s.(tokens := map jti | jti in s.tokens ::
         if s.tokens[jti].userId == userId then s.tokens[jti].(revoked := true) else s.tokens[jti])
  }

  // ---- The handlers ----

  predicate BadLogin(username: string, password: string)
  {
    username == "" || password == "" || |password| > MAX_PASSWORD || |username| > MAX_USERNAME
  }

  /** The account a login is for, if name, password and state of the account are in order. */
  function Account(s: State, username: string, password: string): Option<string>
  {
    if username in s.names && s.names[username] in s.users
       && s.users[s.names[username]] == User(password, true)
    then Some(s.names[username]) else None
  }

  predicate Redeemable(s: State, token: Presented, at: int)
  {
    Verifies(s, token, at) && !Revoked(s, token.claims.jti) && token.claims.userId in s.users
  }

  predicate ChangesPassword(s: State, op: Op)
  {
    && op.ChangePassword?
    && MIN_PASSWORD <= |op.newPassword| <= MAX_PASSWORD && |op.oldPassword| <= MAX_PASSWORD
    && op.userId in s.users && s.users[op.userId].password == op.oldPassword
  }

  function Step(l: Lives, s: State, op: Op): State
  {
    match op
    case Login(username, password, access, refresh, at) =>
      if BadLogin(username, password) || Account(s, username, password).None? then s.(now := at)
      else
        var id := Account(s, username, password).value;
        Store(Generate(l, s, id, access, refresh, at), RefreshClaims(l, id, refresh, at), at)
    case Refresh(token, access, refresh, at) =>
      if !Redeemable(s, token, at) then s.(now := at)
      else
        var id := token.claims.userId;
        Store(Revoke(Generate(l, s, id, access, refresh, at), token.claims.jti), RefreshClaims(l, id, refresh, at), at)
    case Logout(token, at) =>
      if Verifies(s, token, at) then Revoke(s, token.claims.jti).(now := at) else s.(now := at)
    case ChangePassword(userId, _, newPassword) =>
      if ChangesPassword(s, op)
      then RevokeAll(s.(users := s.users[userId := s.users[userId].(password := newPassword)]), userId) else s
    case Manage(users, names) => s.(users := users, names := names)
  }

  function Answer(l: Lives, s: State, op: Op): Reply
  {
    match op
    case Login(username, password, access, refresh, at) =>
      if BadLogin(username, password) then BadRequest
      else (match Account(s, username, password)
            case None => Unauthorized
            case Some(id) => Tokens(AccessClaims(l, id, access, at), RefreshClaims(l, id, refresh, at)))
    case Refresh(token, access, refresh, at) =>
      if token.Undecodable? then BadRequest
      else if !Redeemable(s, token, at) then Unauthorized
      else Tokens(AccessClaims(l, token.claims.userId, access, at), RefreshClaims(l, token.claims.userId, refresh, at))
    case Logout(token, _) => if token.Undecodable? || token.Empty? then BadRequest else Done
    case ChangePassword(userId, oldPassword, newPassword) =>
      if ChangesPassword(s, op) then Done
      else if |newPassword| < MIN_PASSWORD || |newPassword| > MAX_PASSWORD || |oldPassword| > MAX_PASSWORD
      then BadRequest
      else if userId !in s.users then InternalError
      else BadRequest
    case Manage(_, _) => Done
  }

  // ---- What every step keeps ----

  /** Stored tokens are refresh tokens the server signed for the user they are stored for. */
  ghost predicate Inv(s: State)
  {
    && (forall jti <- s.signed :: s.signed[jti].claims.jti == jti)
    && forall jti <- s.tokens ::
         && jti in s.signed && s.signed[jti].isRefresh
         && s.signed[jti].claims == Claims(jti, s.tokens[jti].userId, s.tokens[jti].expires)
  }

  /** Nothing is unsigned or forgotten. */
  predicate Extends(s: State, s': State)
  {
    && s.now <= s'.now
    && (forall jti <- s.signed :: jti in s'.signed && s'.signed[jti] == s.signed[jti])
    && (forall jti <- s.tokens :: jti in s'.tokens)
  }

  lemma GenerateInv(l: Lives, s: State, userId: string, access: string, refresh: string, at: int)
    requires Inv(s) && s.now <= at && FreshIds(s, access, refresh)
    ensures var s' := Generate(l, s, userId, access, refresh, at);
            && Inv(s') && Extends(s, s') && s'.tokens == s.tokens && refresh !in s'.tokens
            && refresh in s'.signed && s'.signed[refresh] == Signed(RefreshClaims(l, userId, refresh, at), true)
            && access in s'.signed && !s'.signed[access].isRefresh
  {}

  lemma RevokeInv(s: State, jti: string)
    requires Inv(s)
    ensures Inv(Revoke(s, jti)) && Extends(s, Revoke(s, jti)) && Revoke(s, jti).tokens.Keys == s.tokens.Keys
  {}

  lemma StoreInv(s: State, c: Claims, at: int)
    requires Inv(s) && c.jti in s.signed && s.signed[c.jti] == Signed(c, true)
    ensures Inv(Store(s, c, at)) && Extends(s, Store(s, c, at))
  {}

  lemma RevokeAllInv(s: State, userId: string)
    requires Inv(s)
    ensures Inv(RevokeAll(s, userId)) && Extends(s, RevokeAll(s, userId))
  {}

  lemma ExtendsTwice(s: State, s': State, s'': State)
    requires Extends(s, s') && Extends(s', s'')
    ensures Extends(s, s'')
  {}

  lemma Clock(s: State, at: int)
    requires Inv(s) && s.now <= at
    ensures Inv(s.(now := at)) && Extends(s, s.(now := at))
  {}

  lemma Accounts(s: State, users: map<string, User>, names: map<string, string>)
    requires Inv(s)
    ensures Inv(s.(users := users, names := names)) && Extends(s, s.(users := users, names := names))
  {}

  lemma StepInv(l: Lives, s: State, op: Op)
    requires Inv(s) && CanStep(s, op)
    ensures Inv(Step(l, s, op)) && Extends(s, Step(l, s, op))
  {
    hide Inv, Extends, Generate, Store, Revoke, RevokeAll, FreshIds, Verifies, Redeemable, BadLogin, Account,
         ChangesPassword;
    match op
    case Login(username, password, access, refresh, at) =>
      Clock(s, at);
      if !BadLogin(username, password) && Account(s, username, password).Some? {
        var id := Account(s, username, password).value;
        var s1 := Generate(l, s, id, access, refresh, at);
        GenerateInv(l, s, id, access, refresh, at);
        StoreInv(s1, RefreshClaims(l, id, refresh, at), at);
        ExtendsTwice(s, s1, Step(l, s, op));
      }
    case Refresh(token, access, refresh, at) =>
      Clock(s, at);
      if Redeemable(s, token, at) {
        RefreshInv(l, s, token, access, refresh, at);
      }
    case Logout(token, at) =>
      Clock(s, at);
      if Verifies(s, token, at) {
        LogoutInv(s, token, at);
      }
    case ChangePassword(userId, _, newPassword) =>
      Clock(s, s.now);
      Same(s);
      if ChangesPassword(s, op) {
        ChangeInv(s, op);
      }
    case Manage(users, names) => Accounts(s, users, names);
  }

  lemma Same(s: State)
    ensures s.(now := s.now) == s
  {}

  lemma RefreshInv(l: Lives, s: State, token: Presented, access: string, refresh: string, at: int)
    requires Inv(s) && s.now <= at && FreshIds(s, access, refresh) && Redeemable(s, token, at)
    ensures var s' := Step(l, s, Refresh(token, access, refresh, at)); Inv(s') && Extends(s, s')
  {
    hide Inv, Extends, Generate, Store, Revoke, FreshIds;
    var id := token.claims.userId;
    var s1 := Generate(l, s, id, access, refresh, at);
    var s2 := Revoke(s1, token.claims.jti);
    GenerateInv(l, s, id, access, refresh, at);
    RevokeInv(s1, token.claims.jti);
    SignedKept(s1, token.claims.jti);
    StoreInv(s2, RefreshClaims(l, id, refresh, at), at);
    ExtendsTwice(s, s1, s2);
    ExtendsTwice(s, s2, Step(l, s, Refresh(token, access, refresh, at)));
  }

  lemma SignedKept(s: State, jti: string)
    ensures Revoke(s, jti).signed == s.signed && Revoke(s, jti).now == s.now
  {}

  lemma LogoutInv(s: State, token: Presented, at: int)
    requires Inv(s) && Verifies(s, token, at) && s.now <= at
    ensures var s' := Revoke(s, token.claims.jti).(now := at); Inv(s') && Extends(s, s')
  {
    hide Inv, Extends, Revoke;
    var s1 := Revoke(s, token.claims.jti);
    RevokeInv(s, token.claims.jti);
    SignedKept(s, token.claims.jti);
    Clock(s1, at);
    ExtendsTwice(s, s1, s1.(now := at));
  }

  lemma ChangeInv(s: State, op: Op)
    requires Inv(s) && ChangesPassword(s, op)
    ensures var s1 := s.(users := s.users[op.userId := s.users[op.userId].(password := op.newPassword)]);
            Inv(RevokeAll(s1, op.userId)) && Extends(s, RevokeAll(s1, op.userId))
  {
    hide Inv, Extends, RevokeAll;
    var s1 := s.(users := s.users[op.userId := s.users[op.userId].(password := op.newPassword)]);
    Accounts(s, s1.users, s.names);
    assert s1 == s.(users := s1.users, names := s.names);
    RevokeAllInv(s1, op.userId);
    ExtendsTwice(s, s1, RevokeAll(s1, op.userId));
  }
}
