/** The login limiter's mutable table of mutable entries; each method is proved to be a step of `BruteForce`. */
module LoginLimiter {
  import opened Wrappers
  import opened BruteForce
  import opened BruteForceLaws
  import opened LoginCalls
  import opened Tables

  // ---- A failure in two halves ----

  function Tracked(s: State, ip: string, t0: int): State
  {
    if ip in s.entries then s else s.(entries := s.entries[ip := Entry(0, t0, None)])
  }

  function Charged(p: Policy, s: State, ip: string, t1: int, t2: int, t3: int): State
    requires ip in s.entries
  {
    State(s.entries[ip := Counted(p, s.entries[ip], Failure(ip, t1, t1, t2, t3))], t3)
  }

  lemma FailureInHalves(p: Policy, s: State, op: Op)
    requires op.Failure?
    ensures if Full(s, op.ip) then Step(p, s, op) == s.(now := op.t3)
            else
              var mid := Tracked(s, op.ip, op.t0);
              op.ip in mid.entries && Step(p, s, op) == Charged(p, mid, op.ip, op.t1, op.t2, op.t3)
  {
    hide Counted;
    SameCount(p, Known(s, op), op, op.t1);
    if !Full(s, op.ip) {
      var mid := Tracked(s, op.ip, op.t0);
      assert mid.entries[op.ip] == Known(s, op);
      assert Charged(p, mid, op.ip, op.t1, op.t2, op.t3).entries == Step(p, s, op).entries;
    }
  }

  /** Counting a failure does not look at the reading that created the entry. */
  lemma SameCount(p: Policy, e: Entry, op: Op, t0: int)
    requires op.Failure?
    ensures Counted(p, e, op) == Counted(p, e, op.(t0 := t0))
  {}

  class LoginFailures {
    ghost const ip: string   // the peer it belongs to
    var count: nat
    var firstTry: int
    var lockedUntil: Option<int>

    constructor (firstTry: int, ghost ip: string)
      ensures count == 0 && this.firstTry == firstTry && lockedUntil == None && this.ip == ip
    {
      count, this.firstTry, lockedUntil, this.ip := 0, firstTry, None, ip;
    }

    ghost function Value(): Entry
      reads this
    {
      Entry(count, firstTry, lockedUntil)
    }

    /** Counts one failure, rolling the window and locking as needed. */
    method Count(maxFailures: int, lockDuration: nat, window: nat, t1: int, t2: int, t3: int)
      modifies this
      ensures Value() == Counted(Policy(maxFailures, lockDuration, window), old(Value()), Failure(ip, t1, t1, t2, t3))
    {
      count := count + 1;
      if t1 - firstTry > window {
        count := 1;
        firstTry := t2;
      }
      if count >= maxFailures {
        lockedUntil := Some(t3 + lockDuration);
      }
    }
  }

  class Limiter {
    var failures: map<string, LoginFailures>
    const maxFailures: int
    const lockDuration: nat
    const window: nat
    ghost var state: State

    ghost function Config(): Policy { Policy(maxFailures, lockDuration, window) }

    /** The fields stand for `state`. */
    ghost predicate Models()
      reads this, failures.Values
    {
      && failures.Keys == state.entries.Keys
      && forall k <- failures :: failures[k].ip == k && state.entries[k] == failures[k].Value()
    }

    ghost predicate Valid()
      reads this, failures.Values
    {
      Models() && Inv(Config(), state)
    }

    constructor (maxFailures: int, lockDuration: nat, window: nat)
      ensures Valid() && state == INIT && failures == map[] && Config() == Policy(maxFailures, lockDuration, window)
    {
      this.maxFailures, this.lockDuration, this.window := maxFailures, lockDuration, window;
      failures, state := map[], INIT;
    }

    /** The question the middleware asks before it lets the handler run. */
    method Attempt(ip: string, at: int) returns (rejected: bool)
      requires Valid() && CanStep(state, Op.Attempt(ip, at))
      modifies this`state
      ensures Valid() && state == Step(Config(), old(state), Op.Attempt(ip, at))
      ensures rejected == Rejected(old(state), ip, at)
    {
      hide Inv;
      StepInv(Config(), state, Op.Attempt(ip, at));
      rejected := ip in failures && failures[ip].lockedUntil.Some? && at < failures[ip].lockedUntil.value;
      state := Step(Config(), state, Op.Attempt(ip, at));
    }

    method RecordFailure(ip: string, t0: int, t1: int, t2: int, t3: int)
      requires Valid() && CanStep(state, Failure(ip, t0, t1, t2, t3))
      modifies this, failures.Values
      ensures Valid() && state == Step(Config(), old(state), Failure(ip, t0, t1, t2, t3))
      ensures fresh(failures.Values - old(failures.Values))
    {
      hide Inv, Limiter.Models, Step, Charged, Tracked;
      StepInv(Config(), state, Failure(ip, t0, t1, t2, t3));
      FailureInHalves(Config(), state, Failure(ip, t0, t1, t2, t3));
      TracksSame();
      if ip !in failures && |failures| >= CAP {
        Stamp(t3);
        return;
      }
      Track(ip, t0);
      Charge(ip, t1, t2, t3);
    }

    lemma TracksSame()
      requires Models()
      ensures failures.Keys == state.entries.Keys && |failures| == |state.entries|
    {
      SameSize(failures, state.entries);
    }

    ghost method Stamp(t: int)
      requires Models()
      modifies this`state
      ensures Models() && state == old(state).(now := t)
    {
      state := state.(now := t);
    }

    /** A peer without an entry gets one that counts nothing yet. */
    method Track(ip: string, t0: int)
      requires Models()
      modifies this
      ensures Models() && ip in failures && state == Tracked(old(state), ip, t0)
      ensures fresh(failures.Values - old(failures.Values))
    {
      if ip !in failures {
        var f := new LoginFailures(t0, ip);
        failures := failures[ip := f];
      }
      state := Tracked(state, ip, t0);
    }

    method Charge(ip: string, t1: int, t2: int, t3: int)
      requires Models() && ip in failures
      modifies this`state, failures[ip]
      ensures Models() && ip in old(state).entries && failures == old(failures)
      ensures state == Charged(Config(), old(state), ip, t1, t2, t3)
    {
      hide Inv, Counted;
      failures[ip].Count(maxFailures, lockDuration, window, t1, t2, t3);
      state := Charged(Config(), state, ip, t1, t2, t3);
    }

    /** Clears a peer after a successful login. */
    method Reset(ip: string)
      requires Valid()
      modifies this
      ensures Valid() && state == Step(Config(), old(state), Success(ip)) && failures == old(failures) - {ip}
    {
      hide Inv;
      StepInv(Config(), state, Success(ip));
      failures := failures - {ip};
      state := Step(Config(), state, Success(ip));
    }

    /** A whole login: unless the peer is locked out, the handler runs and its answer is recorded. */
    method LoginMiddleware(ip: string, at: int, verdict: Verdict, t0: int, t1: int, t2: int, t3: int)
        returns (rejected: bool)
      requires Valid() && Run(Config(), state, OpsOf(state, Login(ip, at, verdict, t0, t1, t2, t3)))
      modifies this, failures.Values
      ensures Valid() && rejected == Rejected(old(state), ip, at)
      ensures state == Final(Config(), old(state), OpsOf(old(state), Login(ip, at, verdict, t0, t1, t2, t3)))
      ensures fresh(failures.Values - old(failures.Values))
    {
      hide Run, Final, Inv, Limiter.Models, Rejected, Counted, Known;
      ghost var c := Login(ip, at, verdict, t0, t1, t2, t3);
      AfterOne(Config(), state, c);
      FirstReading(Config(), state, c);
      if verdict == Unauthorized && !Rejected(state, ip, at) {
        Readings(Config(), state, c);
      }
      rejected := Attempt(ip, at);
      if rejected {
        return;
      }
      match verdict
      case Unauthorized => RecordFailure(ip, t0, t1, t2, t3);
      case Ok => Reset(ip);
      case Other =>
    }

    method Cleanup(now: int)
      requires Valid() && CanStep(state, Op.Cleanup(now))
      modifies this
      ensures Valid() && state == Step(Config(), old(state), Op.Cleanup(now))
      ensures failures.Values <= old(failures.Values)
    {
      hide Inv;
      StepInv(Config(), state, Op.Cleanup(now));
      var left := failures.Keys;
      var was := failures;
      while left != {}
        invariant state == old(state)
        invariant left <= was.Keys && failures.Keys <= was.Keys && left <= failures.Keys
        invariant forall k <- failures :: failures[k] == was[k]
        invariant forall k <- was.Keys - left :: k in failures <==> !Stale(Config(), was[k].Value(), now)
      {
        var ip :| ip in left;
        var f := failures[ip];
        if (f.lockedUntil.None? || f.lockedUntil.value < now) && now - f.firstTry > 2 * window {
          failures := failures - {ip};
        }
        left := left - {ip};
      }
      assert forall k <- was :: k in failures <==> k !in StaleKeys(Config(), state, now);
      state := Step(Config(), state, Op.Cleanup(now));
    }
  }

  lemma FirstReading(p: Policy, s: State, c: Call)
    requires c.Login? && Run(p, s, OpsOf(s, c))
    ensures CanStep(s, Attempt(c.ip, c.at))
  {
    hide Rejected;
    var ops := OpsOf(s, c);
    assert ops == [ops[0]] + ops[1..];
    Unroll(p, s, ops[0], ops[1..]);
  }
}
