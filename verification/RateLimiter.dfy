/** The rate limiter's mutable table of mutable visitors; each method is proved to be a step of `RateLimit`. */
module RateLimiter {
  import opened RateLimit
  import opened Tables

  // ---- A request in two halves ----

  function Tracked(l: Limits, s: State, key: string, t0: real): State
  {
    if key in s.visitors then s else s.(visitors := s.visitors[key := Visitor(l.burst as real, t0)])
  }

  function Charged(l: Limits, s: State, key: string, t1: real, t2: real): State
    requires key in s.visitors
  {
    var tokens := Refilled(l, s.visitors[key], t1);
    State(s.visitors[key := Visitor(if tokens < 1.0 then tokens else tokens - 1.0, t2)], t2)
  }

  function Verdict(l: Limits, s: State, key: string, t1: real): Outcome
    requires key in s.visitors
  {
    if Refilled(l, s.visitors[key], t1) < 1.0 then Denied else Allowed
  }

  lemma RequestInHalves(l: Limits, s: State, key: string, t0: real, t1: real, t2: real)
    ensures var op := Request(key, t0, t1, t2);
            if Full(s, key) then Step(l, s, op) == s.(now := t2) && Answer(l, s, op) == Untracked
            else
              var mid := Tracked(l, s, key, t0);
              && key in mid.visitors
              && Step(l, s, op) == Charged(l, mid, key, t1, t2)
              && Answer(l, s, op) == Verdict(l, mid, key, t1)
  {
    hide Refilled;
    var op, mid := Request(key, t0, t1, t2), Tracked(l, s, key, t0);
    if !Full(s, key) {
      assert mid.visitors[key] == Entry(l, s, key, t0);
      assert Charged(l, mid, key, t1, t2).visitors == Step(l, s, op).visitors;
    }
  }

  class TokenBucket {
    ghost const key: string   // the client it belongs to
    var tokens: real
    var lastCheck: real

    constructor (tokens: real, lastCheck: real, ghost key: string)
      ensures this.tokens == tokens && this.lastCheck == lastCheck && this.key == key
    {
      this.tokens, this.lastCheck, this.key := tokens, lastCheck, key;
    }

    method Refill(rate: nat, burst: nat, t1: real, t2: real)
      modifies this
      ensures tokens == Refilled(Limits(rate, burst), Visitor(old(tokens), old(lastCheck)), t1) && lastCheck == t2
    {
      var elapsed := t1 - lastCheck;
      tokens := tokens + elapsed * rate as real;
      if tokens > burst as real {
        tokens := burst as real;
      }
      lastCheck := t2;
    }
  }

  class Limiter {
    var visitors: map<string, TokenBucket>
    const rate: nat
    const burst: nat
    ghost var state: State

    ghost function Config(): Limits { Limits(rate, burst) }

    ghost function Buckets(): set<TokenBucket>
      reads this
    {
      visitors.Values
    }

    /** The fields stand for `state`. */
    ghost predicate Models()
      reads this, Buckets()
    {
      && visitors.Keys == state.visitors.Keys
      && forall k <- visitors ::
           && visitors[k].key == k
           && state.visitors[k] == Visitor(visitors[k].tokens, visitors[k].lastCheck)
    }

    ghost predicate Valid()
      reads this, Buckets()
    {
      Models() && Inv(Config(), state)
    }

    constructor (rate: nat, burst: nat)
      ensures Valid() && state == INIT && this.rate == rate && this.burst == burst && visitors == map[]
    {
      visitors, this.rate, this.burst, state := map[], rate, burst, INIT;
    }

    /** One request of `key`, up to the moment the lock is released. */
    method Admit(key: string, t0: real, t1: real, t2: real) returns (outcome: Outcome)
      requires Valid() && CanStep(state, Request(key, t0, t1, t2))
      modifies this, Buckets()
      ensures Valid()
      ensures state == Step(Config(), old(state), Request(key, t0, t1, t2))
      ensures outcome == Answer(Config(), old(state), Request(key, t0, t1, t2))
      ensures fresh(Buckets() - old(Buckets()))
    {
      hide Inv, Limiter.Models, Step, Answer, Charged, Verdict, Tracked;
      StepInv(Config(), state, Request(key, t0, t1, t2));
      RequestInHalves(Config(), state, key, t0, t1, t2);
      TracksSame();
      if key !in visitors && |visitors| >= CAP {
        Stamp(t2);
        return Untracked;
      }
      Track(key, t0);
      outcome := Charge(key, t1, t2);
    }

    lemma TracksSame()
      requires Models()
      ensures visitors.Keys == state.visitors.Keys && |visitors| == |state.visitors|
    {
      SameSize(visitors, state.visitors);
    }

    ghost method Stamp(t: real)
      requires Models()
      modifies this`state
      ensures Models() && state == old(state).(now := t)
    {
      state := state.(now := t);
    }

    /** A new client starts with a full bucket. */
    method Track(key: string, t0: real)
      requires Models()
      modifies this
      ensures Models() && key in visitors && state == Tracked(Config(), old(state), key, t0)
      ensures fresh(Buckets() - old(Buckets()))
    {
      if key !in visitors {
        var v := new TokenBucket(burst as real, t0, key);
        visitors := visitors[key := v];
      }
      state := Tracked(Config(), state, key, t0);
    }

    /** Refills the client's bucket for the time since it was last used and takes one token, if there is one. */
    method Charge(key: string, t1: real, t2: real) returns (outcome: Outcome)
      requires Models() && key in visitors
      modifies this`state, visitors[key]
      ensures Models() && key in old(state).visitors && visitors == old(visitors)
      ensures state == Charged(Config(), old(state), key, t1, t2)
      ensures outcome == Verdict(Config(), old(state), key, t1)
    {
      hide Inv, Refilled;
      var v := visitors[key];
      v.Refill(rate, burst, t1, t2);
      if v.tokens < 1.0 {
        outcome := Denied;
      } else {
        v.tokens := v.tokens - 1.0;
        outcome := Allowed;
      }
      state := Charged(Config(), state, key, t1, t2);
    }

    /** One tick of the cleaner: entry `k` is looked at when the clock reads `readings[k]`. */
    method Sweep(readings: map<string, real>, finished: real)
      requires Valid() && CanStep(state, Cleanup(readings, finished))
      modifies this
      ensures Valid() && state == Step(Config(), old(state), Cleanup(readings, finished))
      ensures Buckets() <= old(Buckets())
    {
      hide Inv;
      StepInv(Config(), state, Cleanup(readings, finished));
      var left := visitors.Keys;
      var was := visitors;
      while left != {}
        invariant state == old(state)
        invariant left <= was.Keys && visitors.Keys <= was.Keys && left <= visitors.Keys
        invariant forall k <- visitors :: visitors[k] == was[k]
        invariant forall k <- was.Keys - left :: k in visitors <==> !(readings[k] - was[k].lastCheck > INTERVAL)
      {
        var ip :| ip in left;
        if readings[ip] - visitors[ip].lastCheck > INTERVAL {
          visitors := visitors - {ip};
        }
        left := left - {ip};
      }
      assert forall k <- was :: k in visitors <==> k !in IdleKeys(state, readings);
      state := Step(Config(), state, Cleanup(readings, finished));
    }
  }
}
