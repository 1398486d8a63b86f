/** What rotation promises over whole runs: how many tokens of a user are live, and that each is
    redeemed at most once. */
module RefreshTokenLaws {
  import opened Wrappers
  import opened RefreshTokens

  predicate Live(s: State, jti: string)
  {
    jti in s.tokens && !s.tokens[jti].revoked
  }

  /** The stored, unrevoked refresh tokens of a user. */
  function LiveIds(s: State, userId: string): set<string>
  {
    set jti | jti in s.tokens && !s.tokens[jti].revoked && s.tokens[jti].userId == userId
  }

  // ---- What the helpers do to live tokens ----

  lemma LiveGenerated(l: Lives, s: State, userId: string, access: string, refresh: string, at: int, u: string)
    ensures LiveIds(Generate(l, s, userId, access, refresh, at), u) == LiveIds(s, u)
  {}

  lemma LiveRevoked(s: State, jti: string, u: string)
    ensures LiveIds(Revoke(s, jti), u) == LiveIds(s, u) - {jti}
  {}

  lemma LiveStored(s: State, c: Claims, at: int, u: string)
    requires c.jti !in s.tokens
    ensures LiveIds(Store(s, c, at), u) == LiveIds(s, u) + (if at < c.expires && u == c.userId then {c.jti} else {})
  {}

  lemma LiveRevokedAll(s: State, userId: string, u: string)
    ensures LiveIds(RevokeAll(s, userId), u) == if u == userId then {} else LiveIds(s, u)
  {}

  // ---- What the handlers do to them ----

  /** The token a step issues, if it issues one that is stored. */
  function Issued(l: Lives, s: State, op: Op): Option<Claims>
  {
    if (op.Login? || op.Refresh?) && Answer(l, s, op).Tokens? && op.at < Answer(l, s, op).refresh.expires
    then Some(Answer(l, s, op).refresh) else None
  }

  /** The step redeems this token for new ones. */
  predicate Redeems(l: Lives, s: State, op: Op, jti: string)
  {
    op.Refresh? && op.token.Jwt? && op.token.claims.jti == jti && Answer(l, s, op).Tokens?
  }

  /** A client that holds the token logs out with it before it expires. */
  predicate LogsOut(s: State, op: Op, jti: string)
  {
    op.Logout? && Verifies(s, op.token, op.at) && op.token.claims.jti == jti
  }

  /** The step ends the life of token `jti` of user `userId`. */
  predicate Kills(l: Lives, s: State, op: Op, userId: string, jti: string)
  {
    Redeems(l, s, op, jti) || LogsOut(s, op, jti) || (ChangesPassword(s, op) && op.userId == userId)
  }

  function Killed(l: Lives, s: State, op: Op, userId: string): set<string>
  {
    set jti | jti in LiveIds(s, userId) && Kills(l, s, op, userId, jti)
  }

  function IssuedTo(l: Lives, s: State, op: Op, userId: string): set<string>
  {
    match Issued(l, s, op)
    case Some(c) => if c.userId == userId then {c.jti} else {}
    case None => {}
  }

  lemma FreshStored(l: Lives, s: State, op: Op)
    requires Inv(s) && CanStep(s, op) && (op.Login? || op.Refresh?)
    ensures op.refresh !in s.tokens
  {}

  lemma LoginLive(l: Lives, s: State, op: Op, u: string)
    requires Inv(s) && CanStep(s, op) && op.Login?
    ensures LiveIds(Step(l, s, op), u) == LiveIds(s, u) + IssuedTo(l, s, op, u)
  {
    hide Generate, Store, LiveIds, Inv, CanStep, BadLogin, Account;
    FreshStored(l, s, op);
    Quiet(s, op.at, u);
    if Answer(l, s, op).Tokens? {
      var id := Account(s, op.username, op.password).value;
      var s1 := Generate(l, s, id, op.access, op.refresh, op.at);
      LiveGenerated(l, s, id, op.access, op.refresh, op.at, u);
      GenerateTokens(l, s, id, op.access, op.refresh, op.at);
      LiveStored(s1, RefreshClaims(l, id, op.refresh, op.at), op.at, u);
    }
  }

  lemma GenerateTokens(l: Lives, s: State, userId: string, access: string, refresh: string, at: int)
    ensures Generate(l, s, userId, access, refresh, at).tokens == s.tokens
  {}

  lemma Quiet(s: State, at: int, u: string)
    ensures LiveIds(s.(now := at), u) == LiveIds(s, u)
  {}

  lemma RevokeKeys(s: State, jti: string)
    ensures Revoke(s, jti).tokens.Keys == s.tokens.Keys
  {}

  lemma RefreshLive(l: Lives, s: State, op: Op, u: string)
    requires Inv(s) && CanStep(s, op) && op.Refresh?
    ensures LiveIds(Step(l, s, op), u) ==
            LiveIds(s, u)
            - (if op.token.Jwt? && Redeems(l, s, op, op.token.claims.jti) then {op.token.claims.jti} else {})
            + IssuedTo(l, s, op, u)
  {
    hide Generate, Store, Revoke, LiveIds, Inv, CanStep, Redeemable;
    FreshStored(l, s, op);
    Quiet(s, op.at, u);
    if Answer(l, s, op).Tokens? {
      RedeemableJwt(s, op.token, op.at);
      var c := op.token.claims;
      var s1 := Generate(l, s, c.userId, op.access, op.refresh, op.at);
      var s2 := Revoke(s1, c.jti);
      LiveGenerated(l, s, c.userId, op.access, op.refresh, op.at, u);
      GenerateTokens(l, s, c.userId, op.access, op.refresh, op.at);
      LiveRevoked(s1, c.jti, u);
      RevokeKeys(s1, c.jti);
      LiveStored(s2, RefreshClaims(l, c.userId, op.refresh, op.at), op.at, u);
    } else {
      NotRedeemable(l, s, op);
    }
  }

  lemma RedeemableJwt(s: State, token: Presented, at: int)
    requires Redeemable(s, token, at)
    ensures token.Jwt? && Live(s, token.claims.jti)
  {}

  lemma NotRedeemable(l: Lives, s: State, op: Op)
    requires op.Refresh? && !Answer(l, s, op).Tokens?
    ensures Step(l, s, op) == s.(now := op.at)
  {}

  lemma OtherLive(l: Lives, s: State, op: Op, u: string)
    requires !op.Login? && !op.Refresh?
    ensures LiveIds(Step(l, s, op), u) == LiveIds(s, u) - Killed(l, s, op, u)
  {
    hide Revoke, RevokeAll, Verifies;
    match op
    case Logout(token, at) =>
      LogoutLive(l, s, op, u);
    case ChangePassword(userId, oldPassword, newPassword) =>
      if ChangesPassword(s, op) {
        LiveRevokedAll(s.(users := s.users[userId := s.users[userId].(password := newPassword)]), userId, u);
      }
    case Manage(users, names) =>
  }

  lemma LogoutLive(l: Lives, s: State, op: Op, u: string)
    requires op.Logout?
    ensures LiveIds(Step(l, s, op), u) == LiveIds(s, u) - Killed(l, s, op, u)
  {
    hide Revoke, LiveIds;
    Quiet(s, op.at, u);
    if Verifies(s, op.token, op.at) {
      var jti := op.token.claims.jti;
      LiveRevoked(s, jti, u);
      Quiet(Revoke(s, jti), op.at, u);
      assert Killed(l, s, op, u) == LiveIds(s, u) * {jti};
    }
  }

  /** A step changes a user's live tokens by exactly what it kills and what it issues. */
  lemma StepLive(l: Lives, s: State, op: Op, u: string)
    requires Inv(s) && CanStep(s, op)
    ensures LiveIds(Step(l, s, op), u) == LiveIds(s, u) - Killed(l, s, op, u) + IssuedTo(l, s, op, u)
    ensures IssuedTo(l, s, op, u) !! LiveIds(s, u)
  {
    hide Step, Answer, CanStep, Inv, IssuedTo, LiveIds;
    if op.Login? {
      LoginLive(l, s, op, u);
      IssuedIsNew(l, s, op, u);
      assert Killed(l, s, op, u) == {};
    } else if op.Refresh? {
      RefreshLive(l, s, op, u);
      IssuedIsNew(l, s, op, u);
      assert Killed(l, s, op, u) ==
        LiveIds(s, u) * (if op.token.Jwt? && Redeems(l, s, op, op.token.claims.jti) then {op.token.claims.jti} else {});
    } else {
      OtherLive(l, s, op, u);
      NothingIssued(l, s, op, u);
    }
  }

  lemma NothingIssued(l: Lives, s: State, op: Op, u: string)
    requires !op.Login? && !op.Refresh?
    ensures IssuedTo(l, s, op, u) == {}
  {}

  lemma IssuedIsNew(l: Lives, s: State, op: Op, u: string)
    requires Inv(s) && CanStep(s, op)
    ensures IssuedTo(l, s, op, u) !! LiveIds(s, u)
  {}

  // ---- How many are live ----

  /** What a step does to the number of a user's live tokens. */
  function Delta(l: Lives, s: State, op: Op, u: string): int
  {
    match op
    case Login(_, _, _, refresh, at) =>
      if Answer(l, s, op).Tokens? && Answer(l, s, op).refresh.userId == u && l.refresh > 0 then 1 else 0
    case Refresh(token, _, _, _) =>
      if Answer(l, s, op).Tokens? && Answer(l, s, op).refresh.userId == u && l.refresh <= 0 then -1 else 0
    case Logout(token, at) =>
      if Verifies(s, token, at) && Live(s, token.claims.jti) && token.claims.userId == u then -1 else 0
    case ChangePassword(userId, _, _) => if ChangesPassword(s, op) && userId == u then -|LiveIds(s, u)| else 0
    case Manage(_, _) => 0
  }

  lemma SizeOfChange(a: set<string>, killed: set<string>, issued: set<string>)
    requires killed <= a && issued !! a
    ensures |a - killed + issued| == |a| - |killed| + |issued|
  {
    assert |a - killed + issued| == |a - killed| + |issued|;
    assert a == (a - killed) + killed;
  }

  /** Every live token belongs to the user it was signed for. */
  lemma LiveOwner(s: State, token: Presented, at: int, u: string)
    requires Inv(s) && Verifies(s, token, at)
    ensures token.claims.jti in LiveIds(s, u) <==> Live(s, token.claims.jti) && token.claims.userId == u
  {}

  lemma KilledSize(l: Lives, s: State, op: Op, u: string)
    requires Inv(s) && CanStep(s, op)
    ensures |IssuedTo(l, s, op, u)| - |Killed(l, s, op, u)| == Delta(l, s, op, u)
  {
    hide LiveIds, Inv, Verifies, CanStep, Live, BadLogin, Account, Redeemable;
    match op
    case Login(_, _, _, _, _) =>
      assert Killed(l, s, op, u) == {};
    case Refresh(token, _, _, at) =>
      if Answer(l, s, op).Tokens? {
        RedeemableJwt(s, token, at);
        RedeemableVerifies(s, token, at);
        LiveOwner(s, token, at, u);
        assert Killed(l, s, op, u) == LiveIds(s, u) * {token.claims.jti};
        SizeOfOne(LiveIds(s, u), token.claims.jti);
      } else {
        assert Killed(l, s, op, u) == {};
      }
    case Logout(token, at) =>
      if Verifies(s, token, at) {
        VerifiedJwt(s, token, at);
        LiveOwner(s, token, at, u);
        assert Killed(l, s, op, u) == LiveIds(s, u) * {token.claims.jti};
        SizeOfOne(LiveIds(s, u), token.claims.jti);
      } else {
        assert Killed(l, s, op, u) == {};
      }
    case ChangePassword(userId, _, _) =>
      if ChangesPassword(s, op) && userId == u {
        assert Killed(l, s, op, u) == LiveIds(s, u);
      } else {
        assert Killed(l, s, op, u) == {};
      }
    case Manage(_, _) =>
      assert Killed(l, s, op, u) == {};
  }

  lemma SizeOfOne(a: set<string>, x: string)
    ensures |a * {x}| == if x in a then 1 else 0
  {
    assert a * {x} == if x in a then {x} else {};
  }

  lemma VerifiedJwt(s: State, token: Presented, at: int)
    requires Verifies(s, token, at)
    ensures token.Jwt?
  {}

  lemma RedeemableVerifies(s: State, token: Presented, at: int)
    requires Redeemable(s, token, at)
    ensures Verifies(s, token, at)
  {}

  /** The number of live tokens goes up by one for a login, stays for a refresh, goes down by one for a logout with
      a live token and to zero for a changed password; nothing else changes it. (Refresh tokens that expire as they
      are issued are never stored.) */
  lemma StepCount(l: Lives, s: State, op: Op, u: string)
    requires Inv(s) && CanStep(s, op)
    ensures |LiveIds(Step(l, s, op), u)| == |LiveIds(s, u)| + Delta(l, s, op, u)
  {
    hide Step, Answer, CanStep, Inv, IssuedTo, LiveIds, Delta, Kills;
    StepLive(l, s, op, u);
    KilledSize(l, s, op, u);
    SizeOfChange(LiveIds(s, u), Killed(l, s, op, u), IssuedTo(l, s, op, u));
  }

  // ---- Runs ----

  predicate Run(l: Lives, s: State, ops: seq<Op>)
    decreases |ops|
  {
    ops == [] || (CanStep(s, ops[0]) && Run(l, Step(l, s, ops[0]), ops[1..]))
  }

  function Final(l: Lives, s: State, ops: seq<Op>): State
    decreases |ops|
  {
    if ops == [] then s else Final(l, Step(l, s, ops[0]), ops[1..])
  }

  function Balance(l: Lives, s: State, ops: seq<Op>, u: string): int
    decreases |ops|
  {
    if ops == [] then 0 else Delta(l, s, ops[0], u) + Balance(l, Step(l, s, ops[0]), ops[1..], u)
  }

  /** Over a whole run the live tokens of a user are those it began with and the balance of its steps. */
  lemma {:induction false} RunCount(l: Lives, s: State, ops: seq<Op>, u: string)
    requires Inv(s) && Run(l, s, ops)
    ensures Inv(Final(l, s, ops)) && |LiveIds(Final(l, s, ops), u)| == |LiveIds(s, u)| + Balance(l, s, ops, u)
    decreases |ops|
  {
    hide Step, CanStep, Inv, LiveIds, Delta;
    if ops != [] {
      StepInv(l, s, ops[0]);
      StepCount(l, s, ops[0], u);
      RunCount(l, Step(l, s, ops[0]), ops[1..], u);
    }
  }

  // ---- Each token is redeemed at most once ----

  /** Signed, but not to be accepted: revoked, or never stored as access tokens are. */
  predicate Dead(s: State, jti: string)
  {
    jti in s.signed && !Live(s, jti)
  }

  function Redemptions(l: Lives, s: State, ops: seq<Op>, jti: string): nat
    decreases |ops|
  {
    if ops == [] then 0
    else (if Redeems(l, s, ops[0], jti) then 1 else 0) + Redemptions(l, Step(l, s, ops[0]), ops[1..], jti)
  }

  lemma RedeemsLive(l: Lives, s: State, op: Op, jti: string)
    requires Redeems(l, s, op, jti)
    ensures Live(s, jti) && jti in s.signed
  {}

  /** A live token has an owner. */
  function Owner(s: State, jti: string): string
    requires jti in s.tokens
  {
    s.tokens[jti].userId
  }

  lemma LiveIsOwned(s: State, jti: string)
    ensures Live(s, jti) <==> exists u :: jti in LiveIds(s, u)
  {
    if Live(s, jti) {
      assert jti in LiveIds(s, Owner(s, jti));
    }
  }

  lemma DeadStays(l: Lives, s: State, op: Op, jti: string)
    requires Inv(s) && CanStep(s, op) && Dead(s, jti)
    ensures Dead(Step(l, s, op), jti) && !Redeems(l, s, op, jti)
  {
    hide Step, Answer, Inv, LiveIds, Live;
    StepInv(l, s, op);
    var s' := Step(l, s, op);
    LiveIsOwned(s, jti);
    LiveIsOwned(s', jti);
    if u :| jti in LiveIds(s', u) {
      StepLive(l, s, op, u);
      IssuedFresh(l, s, op, u);
    }
    if Redeems(l, s, op, jti) {
      RedeemsLive(l, s, op, jti);
    }
  }

  lemma IssuedFresh(l: Lives, s: State, op: Op, u: string)
    requires CanStep(s, op)
    ensures forall jti <- IssuedTo(l, s, op, u) :: jti !in s.signed
  {}

  lemma RedeemedIsKilled(l: Lives, s: State, op: Op, u: string, jti: string)
    requires Redeems(l, s, op, jti)
    ensures jti in LiveIds(s, u) ==> jti in Killed(l, s, op, u)
  {
    hide LiveIds;
  }

  lemma RedeemedDies(l: Lives, s: State, op: Op, jti: string)
    requires Inv(s) && CanStep(s, op) && Redeems(l, s, op, jti)
    ensures Dead(Step(l, s, op), jti)
  {
    hide Step, Answer, Inv, LiveIds, Live;
    StepInv(l, s, op);
    RedeemsLive(l, s, op, jti);
    LiveIsOwned(Step(l, s, op), jti);
    if u :| jti in LiveIds(Step(l, s, op), u) {
      StepLive(l, s, op, u);
      IssuedFresh(l, s, op, u);
      RedeemedIsKilled(l, s, op, u, jti);
    }
  }

  /** A token that is revoked or was never stored is not redeemed in any later step. */
  lemma {:induction false} DeadForGood(l: Lives, s: State, ops: seq<Op>, jti: string)
    requires Inv(s) && Run(l, s, ops) && Dead(s, jti)
    ensures Redemptions(l, s, ops, jti) == 0 && Dead(Final(l, s, ops), jti)
    decreases |ops|
  {
    hide Step, CanStep, Inv, Dead, Redeems;
    if ops != [] {
      StepInv(l, s, ops[0]);
      DeadStays(l, s, ops[0], jti);
      DeadForGood(l, Step(l, s, ops[0]), ops[1..], jti);
    }
  }

  /** In any run each token is redeemed at most once. */
  lemma {:induction false} RedeemedOnce(l: Lives, s: State, ops: seq<Op>, jti: string)
    requires Inv(s) && Run(l, s, ops)
    ensures Redemptions(l, s, ops, jti) <= 1
    decreases |ops|
  {
    hide Step, CanStep, Inv, Dead, Redeems;
    if ops != [] {
      StepInv(l, s, ops[0]);
      if Redeems(l, s, ops[0], jti) {
        RedeemedDies(l, s, ops[0], jti);
        DeadForGood(l, Step(l, s, ops[0]), ops[1..], jti);
      } else {
        RedeemedOnce(l, Step(l, s, ops[0]), ops[1..], jti);
      }
    }
  }

  /** An access token never refreshes anything. */
  lemma AccessNeverRefreshes(l: Lives, s: State, op: Op, ops: seq<Op>)
    requires Inv(s) && Run(l, s, [op] + ops) && Answer(l, s, op).Tokens?
    ensures Redemptions(l, s, [op] + ops, Answer(l, s, op).access.jti) == 0
  {
    hide Step, Inv, Dead, Redemptions, Run;
    var jti := Answer(l, s, op).access.jti;
    StepAndRest(l, s, op, ops, jti);
    StepInv(l, s, op);
    AccessIsDead(l, s, op);
    DeadForGood(l, Step(l, s, op), ops, jti);
  }

  lemma StepAndRest(l: Lives, s: State, op: Op, ops: seq<Op>, jti: string)
    requires Run(l, s, [op] + ops)
    ensures CanStep(s, op) && Run(l, Step(l, s, op), ops)
    ensures Redemptions(l, s, [op] + ops, jti) ==
            (if Redeems(l, s, op, jti) then 1 else 0) + Redemptions(l, Step(l, s, op), ops, jti)
  {
    hide Step, CanStep, Redeems;
    assert ([op] + ops)[1..] == ops;
  }

  lemma AccessIsDead(l: Lives, s: State, op: Op)
    requires Inv(s) && CanStep(s, op) && Answer(l, s, op).Tokens?
    ensures Dead(Step(l, s, op), Answer(l, s, op).access.jti) && !Redeems(l, s, op, Answer(l, s, op).access.jti)
  {
    var s', jti := Step(l, s, op), Answer(l, s, op).access.jti;
    AccessSigned(l, s, op);
    StepInv(l, s, op);
    hide Step, Answer, CanStep;
    if Redeems(l, s, op, jti) {
      RedeemsLive(l, s, op, jti);
    }
  }

  lemma AccessSigned(l: Lives, s: State, op: Op)
    requires CanStep(s, op) && Answer(l, s, op).Tokens?
    ensures var s', jti := Step(l, s, op), Answer(l, s, op).access.jti;
            jti !in s.signed && jti in s'.signed && !s'.signed[jti].isRefresh
  {}

  // ---- Live means issued and not ended since ----

  predicate NeverKilled(l: Lives, s: State, ops: seq<Op>, userId: string, jti: string)
    decreases |ops|
  {
    ops == [] || (!Kills(l, s, ops[0], userId, jti) && NeverKilled(l, Step(l, s, ops[0]), ops[1..], userId, jti))
  }

  /** Step `i` issued the token and no later step ended its life. */
  predicate IssuedAt(l: Lives, s: State, ops: seq<Op>, userId: string, jti: string, i: nat)
  {
    && i < |ops|
    && var si := Final(l, s, ops[..i]);
       && jti in IssuedTo(l, si, ops[i], userId)
       && NeverKilled(l, Step(l, si, ops[i]), ops[i + 1..], userId, jti)
  }

  lemma IssuedLater(l: Lives, s: State, ops: seq<Op>, userId: string, jti: string, i: nat)
    requires ops != []
    ensures IssuedAt(l, Step(l, s, ops[0]), ops[1..], userId, jti, i) <==> IssuedAt(l, s, ops, userId, jti, i + 1)
  {
    hide Step, IssuedTo, Kills;
    if i + 1 < |ops| {
      assert ops[..i + 1][1..] == ops[1..][..i] && ops[1..][i + 1..] == ops[i + 2..];
    }
  }

  lemma IssuedFirst(l: Lives, s: State, ops: seq<Op>, userId: string, jti: string)
    requires ops != []
    ensures IssuedAt(l, s, ops, userId, jti, 0) <==>
            jti in IssuedTo(l, s, ops[0], userId) && NeverKilled(l, Step(l, s, ops[0]), ops[1..], userId, jti)
  {
    hide Step, IssuedTo, Kills;
    assert ops[..0] == [];
  }

  ghost predicate IssuedIn(l: Lives, s: State, ops: seq<Op>, userId: string, jti: string)
  {
    exists i: nat :: IssuedAt(l, s, ops, userId, jti, i)
  }

  lemma IssuedInStep(l: Lives, s: State, ops: seq<Op>, userId: string, jti: string)
    requires ops != []
    ensures IssuedIn(l, s, ops, userId, jti) <==>
            || IssuedIn(l, Step(l, s, ops[0]), ops[1..], userId, jti)
            || (jti in IssuedTo(l, s, ops[0], userId) && NeverKilled(l, Step(l, s, ops[0]), ops[1..], userId, jti))
  {
    hide Step, IssuedTo, NeverKilled, IssuedAt;
    IssuedFirst(l, s, ops, userId, jti);
    if i: nat :| IssuedAt(l, s, ops, userId, jti, i) && i > 0 {
      IssuedLater(l, s, ops, userId, jti, i - 1);
    }
    if i: nat :| IssuedAt(l, Step(l, s, ops[0]), ops[1..], userId, jti, i) {
      IssuedLater(l, s, ops, userId, jti, i);
    }
  }

  lemma LiveStep(l: Lives, s: State, op: Op, userId: string, jti: string)
    requires Inv(s) && CanStep(s, op)
    ensures jti in LiveIds(Step(l, s, op), userId) <==>
            (jti in LiveIds(s, userId) && !Kills(l, s, op, userId, jti)) || jti in IssuedTo(l, s, op, userId)
  {
    hide Step, Inv, CanStep, LiveIds, IssuedTo, Kills;
    StepLive(l, s, op, userId);
  }

  lemma NoneIssued(l: Lives, s: State, userId: string, jti: string)
    ensures !IssuedIn(l, s, [], userId, jti)
  {}

  /** A token is live exactly when some step issued it (or it was live from the start) and none since ended its life. */
  lemma {:induction false} LiveIff(l: Lives, s: State, ops: seq<Op>, userId: string, jti: string)
    requires Inv(s) && Run(l, s, ops)
    ensures jti in LiveIds(Final(l, s, ops), userId) <==>
            (jti in LiveIds(s, userId) && NeverKilled(l, s, ops, userId, jti)) || IssuedIn(l, s, ops, userId, jti)
    decreases |ops|
  {
    hide Step, Inv, CanStep, LiveIds, IssuedTo, Kills, IssuedAt;
    if ops == [] {
      NoneIssued(l, s, userId, jti);
    } else {
      StepInv(l, s, ops[0]);
      LiveStep(l, s, ops[0], userId, jti);
      IssuedInStep(l, s, ops, userId, jti);
      LiveIff(l, Step(l, s, ops[0]), ops[1..], userId, jti);
    }
  }

  /** After any history a token is redeemed exactly when it was signed by the server, has not expired, was issued as
      the refresh token of a login or refresh of its user, who still exists, and was neither redeemed nor used to
      log out nor ended by a changed password since. */
  lemma RedeemedIffLive(l: Lives, ops: seq<Op>, op: Op, c: Claims)
    requires Run(l, INIT, ops) && op.Refresh? && op.token == Jwt(c)
    ensures var s := Final(l, INIT, ops);
            Redeems(l, s, op, c.jti) <==>
            Verifies(s, op.token, op.at) && c.userId in s.users && IssuedIn(l, INIT, ops, c.userId, c.jti)
  {
    hide Run, Final, IssuedIn, Verifies, LiveIds, Inv;
    NothingAtFirst(c);
    RunCount(l, INIT, ops, c.userId);
    LiveIff(l, INIT, ops, c.userId, c.jti);
    if Verifies(Final(l, INIT, ops), op.token, op.at) {
      LiveOwner(Final(l, INIT, ops), op.token, op.at, c.userId);
    }
  }

  lemma NothingAtFirst(c: Claims)
    ensures Inv(INIT) && c.jti !in LiveIds(INIT, c.userId)
  {}
}
