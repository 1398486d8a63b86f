/** The authentication handlers over mutable tables; each is proved to be a step of `RefreshTokens`. */
module AuthHandlers {
  import opened RefreshTokens

  class AuthHandler {
    var users: map<string, User>
    var names: map<string, string>
    var tokens: map<string, Row>
    var signed: map<string, Signed>   // stands for the signing key: these tokens verify
    var now: int
    const lives: Lives

    ghost function View(): State
      reads this
    {
      State(users, names, tokens, signed, now)
    }

    constructor (lives: Lives)
      ensures View() == INIT && this.lives == lives && Inv(View())
    {
      users, names, tokens, signed, now, this.lives := map[], map[], map[], map[], 0, lives;
    }

    method GenerateTokens(userId: string, access: string, refresh: string, at: int) returns (a: Claims, r: Claims)
      requires FreshIds(View(), access, refresh)
      modifies this
      ensures View() == Generate(lives, old(View()), userId, access, refresh, at)
      ensures a == AccessClaims(lives, userId, access, at) && r == RefreshClaims(lives, userId, refresh, at)
    {
      a := Claims(access, userId, at + lives.access);
      signed := signed[access := Signed(a, false)];
      r := Claims(refresh, userId, at + lives.refresh);
      signed := signed[refresh := Signed(r, true)];
      now := at;
    }

    method ValidateToken(token: Presented, at: int) returns (ok: bool)
      ensures ok == Verifies(View(), token, at)
    {
      ok := token.Jwt? && token.claims.jti in signed && signed[token.claims.jti].claims == token.claims
            && at < token.claims.expires;
    }

    method RefreshTokenRevoked(jti: string) returns (revoked: bool)
      ensures revoked == Revoked(View(), jti)
    {
      if jti !in tokens {
        return true;
      }
      return tokens[jti].revoked;
    }

    method StoreRefreshToken(c: Claims, at: int)
      modifies this
      ensures View() == Store(old(View()), c, at)
    {
      if at < c.expires && c.jti !in tokens {
        tokens := tokens[c.jti := Row(c.userId, c.expires, false)];
      }
    }

    method RevokeRefreshToken(jti: string)
      modifies this
      ensures View() == Revoke(old(View()), jti)
    {
      if jti in tokens && !tokens[jti].revoked {
        tokens := tokens[jti := tokens[jti].(revoked := true)];
      } else {
        AlreadyRevoked(View(), jti);
      }
    }

    method RevokeAllUserRefreshTokens(userId: string)
      modifies this
      ensures View() == RevokeAll(old(View()), userId)
    {
      var left := tokens.Keys;
      ghost var was := tokens;
      while left != {}
        invariant left <= tokens.Keys == was.Keys
        invariant users == old(users) && names == old(names) && signed == old(signed) && now == old(now)
        invariant forall jti <- left :: tokens[jti] == was[jti]
        invariant forall jti <- tokens.Keys - left ::
                    tokens[jti] == if was[jti].userId == userId then was[jti].(revoked := true) else was[jti]
      {
        var jti :| jti in left;
        if tokens[jti].userId == userId && !tokens[jti].revoked {
          tokens := tokens[jti := tokens[jti].(revoked := true)];
        }
        left := left - {jti};
      }
      assert tokens == RevokeAll(old(View()), userId).tokens;
    }

    method Login(username: string, password: string, access: string, refresh: string, at: int) returns (reply: Reply)
      requires CanStep(View(), Op.Login(username, password, access, refresh, at))
      modifies this
      ensures View() == Step(lives, old(View()), Op.Login(username, password, access, refresh, at))
      ensures reply == Answer(lives, old(View()), Op.Login(username, password, access, refresh, at))
    {
      hide Generate, Store;
      now := at;
      if username == "" || password == "" || |password| > MAX_PASSWORD || |username| > MAX_USERNAME {
        return BadRequest;
      }
      if username !in names || names[username] !in users {
        return Unauthorized;
      }
      var id := names[username];
      if users[id].password != password || !users[id].enabled {
        return Unauthorized;
      }
      GenerateNow(lives, old(View()), id, access, refresh, at);
      var a, r := GenerateTokens(id, access, refresh, at);
      StoreRefreshToken(r, at);
      return Tokens(a, r);
    }

    method RefreshToken(token: Presented, access: string, refresh: string, at: int) returns (reply: Reply)
      requires CanStep(View(), Refresh(token, access, refresh, at))
      modifies this
      ensures View() == Step(lives, old(View()), Refresh(token, access, refresh, at))
      ensures reply == Answer(lives, old(View()), Refresh(token, access, refresh, at))
    {
      hide Generate, Store, Revoke, Verifies, Revoked;
      VerifiesNow(old(View()), token, at);
      now := at;
      if token.Undecodable? {
        return BadRequest;
      }
      var ok := ValidateToken(token, at);
      if !ok {
        return Unauthorized;
      }
      var revoked := RefreshTokenRevoked(token.claims.jti);
      if revoked || token.claims.userId !in users {
        return Unauthorized;
      }
      GenerateNow(lives, old(View()), token.claims.userId, access, refresh, at);
      var a, r := GenerateTokens(token.claims.userId, access, refresh, at);
      RevokeRefreshToken(token.claims.jti);
      StoreRefreshToken(r, at);
      return Tokens(a, r);
    }

    method Logout(token: Presented, at: int) returns (reply: Reply)
      requires CanStep(View(), Op.Logout(token, at))
      modifies this
      ensures View() == Step(lives, old(View()), Op.Logout(token, at))
      ensures reply == Answer(lives, old(View()), Op.Logout(token, at))
    {
      hide Revoke;
      VerifiesNow(View(), token, at);
      now := at;
      if token.Undecodable? || token.Empty? {
        return BadRequest;
      }
      var ok := ValidateToken(token, at);
      if ok {
        RevokeNow(old(View()), token.claims.jti, at);
        RevokeRefreshToken(token.claims.jti);
      }
      return Done;
    }

    method ChangePassword(userId: string, oldPassword: string, newPassword: string) returns (reply: Reply)
      modifies this
      ensures View() == Step(lives, old(View()), Op.ChangePassword(userId, oldPassword, newPassword))
      ensures reply == Answer(lives, old(View()), Op.ChangePassword(userId, oldPassword, newPassword))
    {
      hide RevokeAll;
      if |newPassword| < MIN_PASSWORD || |newPassword| > MAX_PASSWORD || |oldPassword| > MAX_PASSWORD {
        return BadRequest;
      }
      if userId !in users {
        return InternalError;
      }
      if users[userId].password != oldPassword {
        return BadRequest;
      }
      users := users[userId := users[userId].(password := newPassword)];
      RevokeAllUserRefreshTokens(userId);
      return Done;
    }
  }

  lemma AlreadyRevoked(s: State, jti: string)
    requires Revoked(s, jti)
    ensures Revoke(s, jti) == s
  {
    if jti in s.tokens {
      assert s.tokens[jti := s.tokens[jti].(revoked := true)] == s.tokens;
    }
  }

  /** Reading the clock first makes no difference. */
  lemma GenerateNow(l: Lives, s: State, userId: string, access: string, refresh: string, at: int)
    ensures Generate(l, s.(now := at), userId, access, refresh, at) == Generate(l, s, userId, access, refresh, at)
  {}

  lemma VerifiesNow(s: State, token: Presented, at: int)
    ensures Verifies(s.(now := at), token, at) <==> Verifies(s, token, at)
    ensures Verifies(s, token, at) ==> token.Jwt?
    ensures token.Jwt? ==> (Revoked(s.(now := at), token.claims.jti) <==> Revoked(s, token.claims.jti))
  {}

  lemma RevokeNow(s: State, jti: string, at: int)
    ensures Revoke(s.(now := at), jti) == Revoke(s, jti).(now := at)
  {}
}
