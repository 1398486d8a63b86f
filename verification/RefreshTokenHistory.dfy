/** What tokens, logins and passwords are worth, said of the requests and answers of a history alone. */
module RefreshTokenHistory {
  import opened Wrappers
  import opened RefreshTokens
  import opened RefreshTokenLaws

  // ---- Answers ----

  /** A login is granted exactly for the name and password of an enabled account, within the length limits, and then
      both tokens are for that account and last as long as configured. */
  lemma LoginIff(l: Lives, s: State, op: Op)
    requires op.Login?
    ensures Answer(l, s, op).Tokens? <==>
            && 0 < |op.username| <= 64 && 0 < |op.password| <= 128
            && op.username in s.names && s.names[op.username] in s.users
            && s.users[s.names[op.username]].password == op.password
            && s.users[s.names[op.username]].enabled
    ensures Answer(l, s, op).Tokens? ==>
              var id := s.names[op.username];
              Answer(l, s, op) ==
              Tokens(Claims(op.access, id, op.at + l.access), Claims(op.refresh, id, op.at + l.refresh))
    ensures !Answer(l, s, op).Tokens? ==>
              Answer(l, s, op) ==
              if 0 < |op.username| <= 64 && 0 < |op.password| <= 128 then Unauthorized else BadRequest
  {}

  lemma RefreshAnswer(l: Lives, s: State, op: Op)
    requires op.Refresh? && Answer(l, s, op).Tokens?
    ensures op.token.Jwt?
    ensures var id := op.token.claims.userId;
            Answer(l, s, op) ==
            Tokens(Claims(op.access, id, op.at + l.access), Claims(op.refresh, id, op.at + l.refresh))
  {}

  /** A password is changed exactly for a user who exists and gives the current one, within the length limits; then
      that user has the new password and nothing else about any account changes. */
  lemma ChangePasswordIff(l: Lives, s: State, op: Op)
    requires op.ChangePassword?
    ensures Answer(l, s, op) == Done <==>
            && 8 <= |op.newPassword| <= 128 && |op.oldPassword| <= 128
            && op.userId in s.users && s.users[op.userId].password == op.oldPassword
    ensures Step(l, s, op).users ==
            if Answer(l, s, op) == Done
            then s.users[op.userId := User(op.newPassword, s.users[op.userId].enabled)] else s.users
    ensures Step(l, s, op).names == s.names
    ensures Answer(l, s, op) == InternalError <==>
            8 <= |op.newPassword| <= 128 && |op.oldPassword| <= 128 && op.userId !in s.users
    ensures Answer(l, s, op) in {Done, InternalError, BadRequest}
  {}

  /** Requests that cannot be read are bad ones; any other refresh that is not granted is unauthorized, and any other
      logout succeeds. */
  lemma Refusals(l: Lives, s: State, op: Op)
    ensures op.Refresh? ==>
              || Answer(l, s, op).Tokens?
              || Answer(l, s, op) == (if op.token.Undecodable? then BadRequest else Unauthorized)
    ensures op.Logout? ==>
              Answer(l, s, op) == (if op.token.Undecodable? || op.token.Empty? then BadRequest else Done)
  {}

  /** Signing in, refreshing and signing out leave all accounts alone. */
  lemma AccountsKept(l: Lives, s: State, op: Op)
    requires op.Login? || op.Refresh? || op.Logout?
    ensures Step(l, s, op).users == s.users && Step(l, s, op).names == s.names
  {}

  predicate SameAccount(s: State, s': State, userId: string, name: string)
  {
    && name in s.names && s.names[name] == userId && name in s'.names && s'.names[name] == userId
    && userId in s.users && userId in s'.users && s.users[userId] == s'.users[userId]
  }

  /** Until accounts are administered or the user changes the password again, the account stays as it is. */
  lemma {:induction false} AccountStays(l: Lives, s: State, ops: seq<Op>, userId: string, name: string)
    requires SameAccount(s, s, userId, name)
    requires forall i | 0 <= i < |ops| ::
               !ops[i].Manage? && !(ops[i].ChangePassword? && ops[i].userId == userId)
    ensures SameAccount(s, Final(l, s, ops), userId, name)
    decreases |ops|
  {
    hide Step;
    if ops != [] {
      if ops[0].ChangePassword? {
        ChangePasswordIff(l, s, ops[0]);
      } else {
        AccountsKept(l, s, ops[0]);
      }
      AccountStays(l, Step(l, s, ops[0]), ops[1..], userId, name);
    }
  }

  /** After a password was changed, and until that happens again, the new one signs in and no other does. */
  lemma NewPasswordOnly(l: Lives, s: State, change: Op, ops: seq<Op>, login: Op)
    requires change.ChangePassword? && Answer(l, s, change) == Done && login.Login?
    requires forall i | 0 <= i < |ops| ::
               !ops[i].Manage? && !(ops[i].ChangePassword? && ops[i].userId == change.userId)
    requires login.username in s.names && s.names[login.username] == change.userId && s.users[change.userId].enabled
    requires 0 < |login.username| <= 64
    ensures Answer(l, Final(l, Step(l, s, change), ops), login).Tokens? <==> login.password == change.newPassword
  {
    hide Step, Answer, Final;
    ChangePasswordIff(l, s, change);
    AccountStays(l, Step(l, s, change), ops, change.userId, login.username);
    LoginIff(l, Final(l, Step(l, s, change), ops), login);
  }

  // ---- Which tokens verify ----

  /** The answer to this request contains the token. */
  predicate HandsOut(l: Lives, s: State, op: Op, c: Claims)
  {
    && (op.Login? || op.Refresh?) && Answer(l, s, op).Tokens?
    && (c == Answer(l, s, op).access || c == Answer(l, s, op).refresh)
  }

  predicate IsSigned(s: State, c: Claims)
  {
    c.jti in s.signed && s.signed[c.jti].claims == c
  }

  lemma SignedByTokens(l: Lives, s: State, op: Op, c: Claims)
    requires Inv(s) && CanStep(s, op) && (op.Login? || op.Refresh?)
    ensures IsSigned(Step(l, s, op), c) <==> IsSigned(s, c) || HandsOut(l, s, op, c)
  {}

  lemma SignedByOthers(l: Lives, s: State, op: Op)
    requires !op.Login? && !op.Refresh?
    ensures Step(l, s, op).signed == s.signed
  {}

  lemma SignedStep(l: Lives, s: State, op: Op, c: Claims)
    requires Inv(s) && CanStep(s, op)
    ensures IsSigned(Step(l, s, op), c) <==> IsSigned(s, c) || HandsOut(l, s, op, c)
  {
    hide Step, Inv, CanStep, Answer;
    if op.Login? || op.Refresh? {
      SignedByTokens(l, s, op, c);
    } else {
      SignedByOthers(l, s, op);
    }
  }

  /** Request `i` of the history was answered with this token. */
  predicate HandedOutAt(l: Lives, s: State, ops: seq<Op>, c: Claims, i: nat)
  {
    i < |ops| && HandsOut(l, Final(l, s, ops[..i]), ops[i], c)
  }

  lemma HandedOutLater(l: Lives, s: State, ops: seq<Op>, c: Claims, i: nat)
    requires ops != []
    ensures HandedOutAt(l, Step(l, s, ops[0]), ops[1..], c, i) <==> HandedOutAt(l, s, ops, c, i + 1)
    ensures HandedOutAt(l, s, ops, c, 0) <==> HandsOut(l, s, ops[0], c)
  {
    hide Step, HandsOut;
    assert ops[..0] == [];
    if i + 1 < |ops| {
      assert ops[..i + 1][1..] == ops[1..][..i];
    }
  }

  ghost predicate HandedOut(l: Lives, s: State, ops: seq<Op>, c: Claims)
  {
    exists i: nat :: HandedOutAt(l, s, ops, c, i)
  }

  lemma HandedOutStep(l: Lives, s: State, ops: seq<Op>, c: Claims)
    requires ops != []
    ensures HandedOut(l, s, ops, c) <==> HandsOut(l, s, ops[0], c) || HandedOut(l, Step(l, s, ops[0]), ops[1..], c)
  {
    hide Step, HandsOut, HandedOutAt;
    HandedOutLater(l, s, ops, c, 0);
    if i: nat :| HandedOutAt(l, s, ops, c, i) && i > 0 {
      HandedOutLater(l, s, ops, c, i - 1);
    }
    if i: nat :| HandedOutAt(l, Step(l, s, ops[0]), ops[1..], c, i) {
      HandedOutLater(l, s, ops, c, i);
    }
  }

  lemma {:induction false} SignedIff(l: Lives, s: State, ops: seq<Op>, c: Claims)
    requires Inv(s) && Run(l, s, ops)
    ensures IsSigned(Final(l, s, ops), c) <==> IsSigned(s, c) || HandedOut(l, s, ops, c)
    decreases |ops|
  {
    hide Step, Inv, CanStep, IsSigned, HandsOut, HandedOutAt;
    if ops == [] {
      NothingHandedOut(l, s, c);
    } else {
      StepInv(l, s, ops[0]);
      SignedStep(l, s, ops[0], c);
      HandedOutStep(l, s, ops, c);
      SignedIff(l, Step(l, s, ops[0]), ops[1..], c);
    }
  }

  lemma NothingHandedOut(l: Lives, s: State, c: Claims)
    ensures !HandedOut(l, s, [], c)
  {}

  /** A token verifies exactly when some earlier answer contained just this token and it has not expired. */
  lemma VerifiesIff(l: Lives, ops: seq<Op>, c: Claims, at: int)
    requires Run(l, INIT, ops)
    ensures Verifies(Final(l, INIT, ops), Jwt(c), at) <==> HandedOut(l, INIT, ops, c) && at < c.expires
  {
    hide Run, Final, HandedOut, Inv;
    NothingAtFirst(c);
    SignedIff(l, INIT, ops, c);
  }

  // ---- Which tokens are redeemed ----

  /** The request ends the life of the token: it redeems it, logs out with it in time, or changes its user's
      password. */
  predicate Ends(l: Lives, s: State, op: Op, c: Claims)
  {
    || (op.Refresh? && op.token == Jwt(c) && Answer(l, s, op).Tokens?)
    || (op.Logout? && op.token == Jwt(c) && op.at < c.expires)
    || (op.ChangePassword? && op.userId == c.userId && Answer(l, s, op) == Done)
  }

  lemma EndsIff(l: Lives, s: State, op: Op, c: Claims)
    requires IsSigned(s, c)
    ensures Kills(l, s, op, c.userId, c.jti) <==> Ends(l, s, op, c)
  {}

  /** Request `i` was answered with `c` as refresh token, and none after it ended its life. */
  predicate LivesSince(l: Lives, s: State, ops: seq<Op>, c: Claims, i: nat)
  {
    && i < |ops| && (ops[i].Login? || ops[i].Refresh?)
    && Answer(l, Final(l, s, ops[..i]), ops[i]).Tokens? && Answer(l, Final(l, s, ops[..i]), ops[i]).refresh == c
    && forall j | i < j < |ops| :: !Ends(l, Final(l, s, ops[..j]), ops[j], c)
  }

  lemma {:induction false} NeverKilledIff(l: Lives, s: State, ops: seq<Op>, userId: string, jti: string)
    ensures NeverKilled(l, s, ops, userId, jti) <==>
            forall j | 0 <= j < |ops| :: !Kills(l, Final(l, s, ops[..j]), ops[j], userId, jti)
    decreases |ops|
  {
    hide Step, Kills;
    if ops != [] {
      var s1, rest := Step(l, s, ops[0]), ops[1..];
      NeverKilledIff(l, s1, rest, userId, jti);
      assert ops[..0] == [];
      forall j | 0 < j < |ops| ensures Final(l, s, ops[..j]) == Final(l, s1, rest[..j - 1]) && ops[j] == rest[j - 1] {
        assert ops[..j][1..] == rest[..j - 1];
      }
      if forall j | 0 <= j < |ops| :: !Kills(l, Final(l, s, ops[..j]), ops[j], userId, jti) {
        forall j | 0 <= j < |rest| ensures !Kills(l, Final(l, s1, rest[..j]), rest[j], userId, jti) {
          assert ops[j + 1] == rest[j] && ops[..j + 1][1..] == rest[..j];
        }
      }
    }
  }

  lemma {:induction false} RunSplit(l: Lives, s: State, ops: seq<Op>, i: nat)
    requires Inv(s) && Run(l, s, ops) && i <= |ops|
    ensures Run(l, s, ops[..i]) && Inv(Final(l, s, ops[..i])) && Run(l, Final(l, s, ops[..i]), ops[i..])
    ensures Final(l, Final(l, s, ops[..i]), ops[i..]) == Final(l, s, ops)
    ensures i < |ops| ==> CanStep(Final(l, s, ops[..i]), ops[i])
    decreases |ops|
  {
    hide Step, Inv, CanStep;
    if i == 0 {
      assert ops[..0] == [] && ops[0..] == ops;
    } else {
      StepInv(l, s, ops[0]);
      RunSplit(l, Step(l, s, ops[0]), ops[1..], i - 1);
      assert ops[..i][1..] == ops[1..][..i - 1] && ops[1..][i - 1..] == ops[i..];
    }
  }

  /** What is signed stays signed as it is, and the clock does not go back. */
  lemma {:induction false} RunExtends(l: Lives, s: State, ops: seq<Op>, c: Claims)
    requires Inv(s) && Run(l, s, ops)
    ensures Final(l, s, ops).now >= s.now && (IsSigned(s, c) ==> IsSigned(Final(l, s, ops), c))
    decreases |ops|
  {
    hide Step, Inv, CanStep;
    if ops != [] {
      StepInv(l, s, ops[0]);
      RunExtends(l, Step(l, s, ops[0]), ops[1..], c);
    }
  }

  /** From the answer that contained `c` on, what kills its ID is what ends its life. */
  lemma KilledIsEnded(l: Lives, s: State, ops: seq<Op>, c: Claims, i: nat)
    requires Inv(s) && Run(l, s, ops) && i < |ops|
    requires IsSigned(Step(l, Final(l, s, ops[..i]), ops[i]), c)
    ensures NeverKilled(l, Step(l, Final(l, s, ops[..i]), ops[i]), ops[i + 1..], c.userId, c.jti) <==>
            forall j | i < j < |ops| :: !Ends(l, Final(l, s, ops[..j]), ops[j], c)
  {
    hide Step, Inv, CanStep, Kills, Ends, IsSigned;
    var s1, rest := Step(l, Final(l, s, ops[..i]), ops[i]), ops[i + 1..];
    RunSplit(l, s, ops, i + 1);
    assert ops[..i + 1] == ops[..i] + [ops[i]];
    FinalSnoc(l, s, ops[..i], ops[i]);
    NeverKilledIff(l, s1, rest, c.userId, c.jti);
    forall j | i < j < |ops|
      ensures Final(l, s, ops[..j]) == Final(l, s1, rest[..j - i - 1])
      ensures Kills(l, Final(l, s, ops[..j]), ops[j], c.userId, c.jti) <==> Ends(l, Final(l, s, ops[..j]), ops[j], c)
    {
      assert ops[..j][..i + 1] == ops[..i + 1] && ops[..j][i + 1..] == rest[..j - i - 1];
      RunSplit(l, s, ops, j);
      RunSplit(l, s, ops[..j], i + 1);
      RunExtends(l, s1, rest[..j - i - 1], c);
      EndsIff(l, Final(l, s, ops[..j]), ops[j], c);
    }
    forall j | 0 <= j < |rest| ensures ops[j + i + 1] == rest[j] {}
    if forall j | i < j < |ops| :: !Ends(l, Final(l, s, ops[..j]), ops[j], c) {
      forall j | 0 <= j < |rest| ensures !Kills(l, Final(l, s1, rest[..j]), rest[j], c.userId, c.jti) {
        assert !Ends(l, Final(l, s, ops[..j + i + 1]), ops[j + i + 1], c);
      }
    }
  }

  lemma {:induction false} FinalSnoc(l: Lives, s: State, ops: seq<Op>, op: Op)
    ensures Final(l, s, ops + [op]) == Step(l, Final(l, s, ops), op)
    decreases |ops|
  {
    hide Step;
    if ops == [] {
      assert [] + [op] == [op] && [op][1..] == [];
    } else {
      assert (ops + [op])[1..] == ops[1..] + [op];
      FinalSnoc(l, Step(l, s, ops[0]), ops[1..], op);
    }
  }

  /** The answer with which a token begins to live. */
  lemma IssuedSigns(l: Lives, s: State, op: Op, c: Claims)
    requires Inv(s) && CanStep(s, op) && (op.Login? || op.Refresh?)
    requires Answer(l, s, op).Tokens? && Answer(l, s, op).refresh.jti == c.jti
    ensures IsSigned(Step(l, s, op), Answer(l, s, op).refresh)
    ensures IsSigned(Step(l, s, op), c) ==> Answer(l, s, op).refresh == c
    ensures Answer(l, s, op).refresh.expires == op.at + l.refresh
    ensures Step(l, s, op).now == op.at
  {
    SignedStep(l, s, op, Answer(l, s, op).refresh);
  }

  lemma IssuedToIff(l: Lives, s: State, op: Op, userId: string, jti: string)
    ensures jti in IssuedTo(l, s, op, userId) <==>
            && (op.Login? || op.Refresh?) && Answer(l, s, op).Tokens?
            && op.at < Answer(l, s, op).refresh.expires
            && Answer(l, s, op).refresh.userId == userId && Answer(l, s, op).refresh.jti == jti
  {
    hide Answer;
  }

  lemma LivesIff(l: Lives, ops: seq<Op>, c: Claims, i: nat, at: int)
    requires Run(l, INIT, ops) && i < |ops| && at >= Final(l, INIT, ops).now
    ensures LivesSince(l, INIT, ops, c, i) && at < c.expires <==>
            && IssuedAt(l, INIT, ops, c.userId, c.jti, i)
            && Verifies(Final(l, INIT, ops), Jwt(c), at)
    ensures LivesSince(l, INIT, ops, c, i) ==> c.expires == ops[i].at + l.refresh && ops[i].at <= at
  {
    hide Run, Final, Step, Inv, CanStep, Answer, Ends, NeverKilled, IsSigned, IssuedTo;
    NothingAtFirst(c);
    RunSplit(l, INIT, ops, i);
    var si, op := Final(l, INIT, ops[..i]), ops[i];
    RunSplit(l, INIT, ops, i + 1);
    assert ops[..i + 1] == ops[..i] + [op];
    FinalSnoc(l, INIT, ops[..i], op);
    var s1 := Step(l, si, op);
    RunExtends(l, s1, ops[i + 1..], c);
    IssuedToIff(l, si, op, c.userId, c.jti);
    if (op.Login? || op.Refresh?) && Answer(l, si, op).Tokens? && Answer(l, si, op).refresh.jti == c.jti {
      IssuedSigns(l, si, op, c);
      RunExtends(l, s1, ops[i + 1..], Answer(l, si, op).refresh);
      OneSignature(Final(l, INIT, ops), Answer(l, si, op).refresh, c);
      VerifiesMeans(Final(l, INIT, ops), c, at);
      if IsSigned(s1, c) {
        KilledIsEnded(l, INIT, ops, c, i);
      }
    }
  }

  lemma OneSignature(s: State, c: Claims, d: Claims)
    ensures IsSigned(s, c) && IsSigned(s, d) && c.jti == d.jti ==> c == d
  {}

  lemma VerifiesMeans(s: State, c: Claims, at: int)
    ensures Verifies(s, Jwt(c), at) <==> IsSigned(s, c) && at < c.expires
  {}

  /** Request `i` was answered with `c`, nothing has ended its life since, and its lifetime is not over at `at`. */
  predicate LivesAt(l: Lives, ops: seq<Op>, c: Claims, i: nat, at: int)
  {
    LivesSince(l, INIT, ops, c, i) && ops[i].at <= at < ops[i].at + l.refresh
  }

  ghost predicate Redeemable(l: Lives, ops: seq<Op>, c: Claims, at: int)
  {
    exists i: nat :: LivesAt(l, ops, c, i, at)
  }

  lemma LivesAtIff(l: Lives, ops: seq<Op>, c: Claims, i: nat, at: int)
    requires Run(l, INIT, ops) && at >= Final(l, INIT, ops).now
    ensures LivesAt(l, ops, c, i, at) <==>
            IssuedAt(l, INIT, ops, c.userId, c.jti, i) && Verifies(Final(l, INIT, ops), Jwt(c), at)
  {
    hide Run, Final, Answer, Ends, NeverKilled, IssuedTo, Verifies;
    if i < |ops| {
      LivesIff(l, ops, c, i, at);
    }
  }

  /** After any history a refresh request is granted exactly when its token's user exists and the token is just the one
      with which some login or refresh was answered, at most its lifetime ago, that nobody has redeemed or logged out
      with in time, and whose user has not changed the password, since. */
  lemma RedeemedIff(l: Lives, ops: seq<Op>, op: Op, c: Claims)
    requires Run(l, INIT, ops) && CanStep(Final(l, INIT, ops), op) && op.Refresh? && op.token == Jwt(c)
    ensures Answer(l, Final(l, INIT, ops), op).Tokens? <==>
            c.userId in Final(l, INIT, ops).users && Redeemable(l, ops, c, op.at)
  {
    hide Run, Final, Answer, LivesAt, IssuedAt, Verifies;
    RedeemedIffLive(l, ops, op, c);
    RedeemsIff(l, Final(l, INIT, ops), op, c);
    if i: nat :| IssuedAt(l, INIT, ops, c.userId, c.jti, i) {
      LivesAtIff(l, ops, c, i, op.at);
    }
    if i: nat :| LivesAt(l, ops, c, i, op.at) {
      LivesAtIff(l, ops, c, i, op.at);
    }
  }

  lemma RedeemsIff(l: Lives, s: State, op: Op, c: Claims)
    requires op.Refresh? && op.token == Jwt(c)
    ensures Redeems(l, s, op, c.jti) <==> Answer(l, s, op).Tokens?
  {
    hide Answer;
  }
}
