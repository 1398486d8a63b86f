/** Whole logins: what each answer of the handler records, and how failed logins come to lock a peer out. */
module LoginCalls {
  import opened Wrappers
  import opened BruteForce
  import opened BruteForceLaws
  import Tables

  function AfterCalls(p: Policy, s: State, calls: seq<Call>): State
  {
    Final(p, s, CallOps(p, s, calls))
  }

  // ---- One login ----

  lemma AfterOne(p: Policy, s: State, c: Call)
    requires c.Login?
    ensures var s1 := s.(now := c.at);
            Final(p, s, OpsOf(s, c)) ==
            if Rejected(s, c.ip, c.at) || c.verdict == Other then s1
            else if c.verdict == Ok then Step(p, s1, Success(c.ip))
            else Step(p, s1, Failure(c.ip, c.t0, c.t1, c.t2, c.t3))
  {
    hide Rejected;
    var s1 := Step(p, s, Attempt(c.ip, c.at));
    RunNothing(p, s1);
    Unroll(p, s, Attempt(c.ip, c.at), []);
    assert [Attempt(c.ip, c.at)] + [] == [Attempt(c.ip, c.at)];
    if !Rejected(s, c.ip, c.at) && c.verdict != Other {
      var op := if c.verdict == Ok then Success(c.ip) else Failure(c.ip, c.t0, c.t1, c.t2, c.t3);
      Unroll(p, s, Attempt(c.ip, c.at), [op]);
      assert [op] == [op] + [];
      Unroll(p, s1, op, []);
      RunNothing(p, Step(p, s1, op));
    }
  }

  /** A login that is rejected, or that the handler answers neither with success nor with Unauthorized, leaves all
      counts and locks as they are; a successful one forgets the peer and no other. */
  lemma RecordedNothing(p: Policy, s: State, c: Call)
    requires c.Login?
    ensures var t := Final(p, s, OpsOf(s, c));
            && (Rejected(s, c.ip, c.at) || c.verdict == Other ==> t.entries == s.entries)
            && (!Rejected(s, c.ip, c.at) && c.verdict == Ok ==> t.entries == s.entries - {c.ip})
  {
    hide Final;
    AfterOne(p, s, c);
  }

  /** A login that fails while its window is open counts one more, a later or first one counts as the first of a new
      window; enough of them lock the peer for the lock duration. No other peer is touched. */
  lemma RecordedFailure(p: Policy, s: State, c: Call)
    requires c.Login? && !Rejected(s, c.ip, c.at) && c.verdict == Unauthorized
    requires c.ip in s.entries || |s.entries| < CAP
    requires c.ip !in s.entries ==> c.t1 - c.t0 <= p.window
    ensures var t := Final(p, s, OpsOf(s, c));
            var again := c.ip in s.entries && c.t1 - s.entries[c.ip].firstTry <= p.window;
            && c.ip in t.entries
            && t.entries[c.ip].count == (if again then s.entries[c.ip].count + 1 else 1)
            && t.entries[c.ip].firstTry ==
               (if again then s.entries[c.ip].firstTry else if c.ip in s.entries then c.t2 else c.t0)
            && (t.entries[c.ip].count >= p.maxFailures ==> t.entries[c.ip].lockedUntil == Some(c.t3 + p.lock))
            && (t.entries[c.ip].count < p.maxFailures ==>
                  t.entries[c.ip].lockedUntil == if c.ip in s.entries then s.entries[c.ip].lockedUntil else None)
            && t.entries - {c.ip} == s.entries - {c.ip}
  {
    hide Final;
    AfterOne(p, s, c);
  }

  // ---- Failed logins lock ----

  function FailedLogins(calls: seq<Call>, ip: string): nat
  {
    if calls == [] then 0
    else FailedLogins(calls[1..], ip)
         + if calls[0].Login? && calls[0].ip == ip && calls[0].verdict == Unauthorized then 1 else 0
  }

  predicate NoneSucceeds(calls: seq<Call>, ip: string)
  {
    forall i | 0 <= i < |calls| :: !(calls[i].Login? && calls[i].ip == ip && calls[i].verdict == Ok)
  }

  /** `n` failures are counted, in a window that began at `from` or later, and there is no lock. */
  predicate Counting(s: State, ip: string, n: nat, from: int)
  {
    if n == 0 then ip !in s.entries
    else
      && ip in s.entries && s.entries[ip].count == n && s.entries[ip].lockedUntil == None
      && from <= s.entries[ip].firstTry
  }

  lemma CountingUnlocked(s: State, ip: string, n: nat, from: int, at: int)
    requires Counting(s, ip, n, from)
    ensures !Rejected(s, ip, at)
  {}

  lemma CountFailure(p: Policy, s: State, c: Call, ip: string, n: nat, from: int)
    requires Inv(p, s) && Run(p, s, OpsOf(s, c)) && Counting(s, ip, n, from) && from <= s.now
    requires Final(p, s, OpsOf(s, c)).now <= from + p.window && n + 1 < p.maxFailures
    requires c.Login? && c.ip == ip && c.verdict == Unauthorized && !Full(s, ip)
    ensures Counting(Final(p, s, OpsOf(s, c)), ip, n + 1, from)
  {
    hide Run, Final;
    CountingUnlocked(s, ip, n, from, c.at);
    Readings(p, s, c);
    AfterOne(p, s, c);
  }

  lemma Readings(p: Policy, s: State, c: Call)
    requires Run(p, s, OpsOf(s, c)) && c.Login? && !Rejected(s, c.ip, c.at) && c.verdict == Unauthorized
    ensures s.now <= c.at <= c.t0 <= c.t1 <= c.t2 <= c.t3 && Final(p, s, OpsOf(s, c)).now == c.t3
  {
    var s1, op := s.(now := c.at), Failure(c.ip, c.t0, c.t1, c.t2, c.t3);
    AfterOne(p, s, c);
    hide Final;
    assert OpsOf(s, c) == [Attempt(c.ip, c.at)] + [op];
    Unroll(p, s, Attempt(c.ip, c.at), [op]);
    assert [op] == [op] + [];
    Unroll(p, s1, op, []);
  }

  lemma CountOther(p: Policy, s: State, c: Call, ip: string, n: nat, from: int)
    requires Inv(p, s) && Run(p, s, OpsOf(s, c)) && Counting(s, ip, n, from) && from <= s.now
    requires Final(p, s, OpsOf(s, c)).now <= from + p.window
    requires !(c.Login? && c.ip == ip && c.verdict != Other)
    ensures Counting(Final(p, s, OpsOf(s, c)), ip, n, from)
  {
    match c
    case Login(_, _, _, _, _, _, _) =>
      AfterOne(p, s, c);
    case Sweep(at) =>
      RunNothing(p, Step(p, s, Cleanup(at)));
      assert [Cleanup(at)] == [Cleanup(at)] + [];
      Unroll(p, s, Cleanup(at), []);
  }

  lemma FirstOfCalls(calls: seq<Call>, ip: string)
    requires calls != []
    ensures NoneSucceeds(calls, ip) ==>
              NoneSucceeds(calls[1..], ip) && !(calls[0].Login? && calls[0].ip == ip && calls[0].verdict == Ok)
    ensures FailedLogins(calls, ip) ==
            FailedLogins(calls[1..], ip)
            + if calls[0].Login? && calls[0].ip == ip && calls[0].verdict == Unauthorized then 1 else 0
  {}

  lemma SplitCalls(p: Policy, s: State, calls: seq<Call>)
    requires calls != []
    ensures var s1 := Final(p, s, OpsOf(s, calls[0]));
            && CallOps(p, s, calls) == OpsOf(s, calls[0]) + CallOps(p, s1, calls[1..])
            && AfterCalls(p, s, calls) == AfterCalls(p, s1, calls[1..])
            && (Run(p, s, CallOps(p, s, calls)) <==>
                Run(p, s, OpsOf(s, calls[0])) && Run(p, s1, CallOps(p, s1, calls[1..])))
  {
    hide OpsOf, Run, Final;
    RunConcat(p, s, OpsOf(s, calls[0]), CallOps(p, Final(p, s, OpsOf(s, calls[0])), calls[1..]));
  }

  lemma CountCall(p: Policy, s: State, c: Call, rest: seq<Op>, ip: string, n: nat, from: int) returns (n': nat)
    requires Inv(p, s) && Run(p, s, OpsOf(s, c)) && Counting(s, ip, n, from) && from <= s.now
    requires Final(p, s, OpsOf(s, c)).now <= from + p.window && HasRoom(s, OpsOf(s, c) + rest)
    requires !(c.Login? && c.ip == ip && c.verdict == Ok)
    requires c.Login? && c.ip == ip && c.verdict == Unauthorized ==> n + 1 < p.maxFailures
    ensures n' == if c.Login? && c.ip == ip && c.verdict == Unauthorized then n + 1 else n
    ensures Counting(Final(p, s, OpsOf(s, c)), ip, n', from)
  {
    hide Run, Inv, Final, Counting, OpsOf, HasRoom, Full, Rejected;
    n' := n;
    if c.Login? && c.ip == ip && c.verdict == Unauthorized {
      CallRoom(p, s, c, rest);
      CountingUnlocked(s, ip, n, from, c.at);
      CountFailure(p, s, c, ip, n, from);
      n' := n + 1;
    } else {
      CountOther(p, s, c, ip, n, from);
    }
  }

  /** Fewer than maxFailures failed logins in one window, none succeeding, are all counted and lock nobody. */
  lemma {:induction false} FailuresCounted(p: Policy, s: State, calls: seq<Call>, ip: string, n: nat, from: int)
    requires Inv(p, s) && Run(p, s, CallOps(p, s, calls)) && Counting(s, ip, n, from) && from <= s.now
    requires AfterCalls(p, s, calls).now <= from + p.window
    requires NoneSucceeds(calls, ip) && HasRoom(s, CallOps(p, s, calls))
    requires n + FailedLogins(calls, ip) < p.maxFailures
    ensures Counting(AfterCalls(p, s, calls), ip, n + FailedLogins(calls, ip), from)
    decreases |calls|
  {
    hide Run, Inv, Final, Counting, OpsOf, HasRoom, CallOps, AfterCalls, NoneSucceeds, FailedLogins;
    if calls == [] {
      NoCalls(p, s, ip);
    } else {
      var first, rest := OpsOf(s, calls[0]), calls[1..];
      var s1 := Final(p, s, first);
      SplitCalls(p, s, calls);
      FirstOfCalls(calls, ip);
      RunInv(p, s, first);
      LaterCalls(p, s1, rest);
      CallRoom(p, s, calls[0], CallOps(p, s1, rest));
      var n' := CountCall(p, s, calls[0], CallOps(p, s1, rest), ip, n, from);
      FailuresCounted(p, s1, rest, ip, n', from);
    }
  }

  lemma NoCalls(p: Policy, s: State, ip: string)
    ensures AfterCalls(p, s, []) == s && FailedLogins([], ip) == 0
  {
    RunNothing(p, s);
  }

  lemma LaterCalls(p: Policy, s: State, calls: seq<Call>)
    requires Inv(p, s) && Run(p, s, CallOps(p, s, calls))
    ensures AfterCalls(p, s, calls).now >= s.now
  {
    hide Run, Inv, Final, CallOps;
    RunInv(p, s, CallOps(p, s, calls));
  }

  lemma CallRoom(p: Policy, s: State, c: Call, rest: seq<Op>)
    requires HasRoom(s, OpsOf(s, c) + rest)
    ensures HasRoom(Final(p, s, OpsOf(s, c)), rest)
    ensures c.Login? && c.verdict == Unauthorized && !Rejected(s, c.ip, c.at) ==> !Full(s, c.ip)
  {
    RoomAlong(p, s, OpsOf(s, c), rest);
    if c.Login? && c.verdict == Unauthorized && !Rejected(s, c.ip, c.at) {
      var op := Failure(c.ip, c.t0, c.t1, c.t2, c.t3);
      var all := OpsOf(s, c) + rest;
      assert all[1] == op;
      RoomForKnown(s, all, 1);
    }
  }

  lemma RoomForKnown(s: State, ops: seq<Op>, i: nat)
    requires HasRoom(s, ops) && i < |ops| && ops[i].Failure?
    ensures !Full(s, ops[i].ip)
  {
    if ops[i].ip !in s.entries {
      assert ops[i].ip in KeysOf(ops);
      Tables.Fewer(s.entries.Keys, s.entries.Keys + KeysOf(ops), ops[i].ip);
      Tables.KeyCount(s.entries);
    }
  }

  lemma {:induction false} RoomAlong(p: Policy, s: State, ops: seq<Op>, rest: seq<Op>)
    requires HasRoom(s, ops + rest)
    ensures HasRoom(Final(p, s, ops), rest)
    decreases |ops|
  {
    hide HasRoom, Step;
    if ops == [] {
      assert [] + rest == rest;
    } else {
      assert (ops + rest)[1..] == ops[1..] + rest;
      RoomAfter(p, s, ops + rest, ops[0]);
      RoomAlong(p, Step(p, s, ops[0]), ops[1..], rest);
    }
  }

  /** A peer not known so far is locked out by maxFailures failed logins within one window, none succeeding, whatever
      other peers and the cleaner do meanwhile: the next login is rejected exactly until the lock ends. */
  lemma FailedLoginsLock(p: Policy, s: State, calls: seq<Call>, last: Call, ip: string, at: int)
    requires Inv(p, s) && ip !in s.entries && p.maxFailures >= 1
    requires last.Login? && last.ip == ip && last.verdict == Unauthorized
    requires NoneSucceeds(calls, ip) && FailedLogins(calls, ip) == p.maxFailures - 1
    requires Run(p, s, CallOps(p, s, calls) + OpsOf(AfterCalls(p, s, calls), last))
    requires HasRoom(s, CallOps(p, s, calls) + OpsOf(AfterCalls(p, s, calls), last))
    requires Final(p, AfterCalls(p, s, calls), OpsOf(AfterCalls(p, s, calls), last)).now <= s.now + p.window
    ensures Rejected(Final(p, AfterCalls(p, s, calls), OpsOf(AfterCalls(p, s, calls), last)), ip, at) <==>
            at < last.t3 + p.lock
  {
    hide Run, Inv, OpsOf, HasRoom, Rejected, CallOps;
    var first := CallOps(p, s, calls);
    var s1 := AfterCalls(p, s, calls);
    RunConcat(p, s, first, OpsOf(s1, last));
    RunInv(p, s, first);
    RunInv(p, s1, OpsOf(s1, last));
    RoomPrefix(s, first, OpsOf(s1, last));
    RoomAlong(p, s, first, OpsOf(s1, last));
    FailuresCounted(p, s, calls, ip, 0, s.now);
    CountingUnlocked(s1, ip, p.maxFailures - 1, s.now, last.at);
    assert OpsOf(s1, last) + [] == OpsOf(s1, last);
    CallRoom(p, s1, last, []);
    LastFailureLocks(p, s1, last, s.now, at);
  }

  lemma RoomPrefix(s: State, ops: seq<Op>, rest: seq<Op>)
    requires HasRoom(s, ops + rest)
    ensures HasRoom(s, ops)
  {
    forall k | k in KeysOf(ops) ensures k in KeysOf(ops + rest) {
      var i :| 0 <= i < |ops| && ops[i].Failure? && ops[i].ip == k;
      assert (ops + rest)[i] == ops[i];
    }
    Tables.Subset(s.entries.Keys + KeysOf(ops), s.entries.Keys + KeysOf(ops + rest));
  }

  lemma LastFailureLocks(p: Policy, s: State, c: Call, from: int, at: int)
    requires Inv(p, s) && Run(p, s, OpsOf(s, c)) && p.maxFailures >= 1 && from <= s.now
    requires c.Login? && Counting(s, c.ip, p.maxFailures - 1, from)
    requires c.verdict == Unauthorized && !Rejected(s, c.ip, c.at) && !Full(s, c.ip)
    requires Final(p, s, OpsOf(s, c)).now <= from + p.window
    ensures Rejected(Final(p, s, OpsOf(s, c)), c.ip, at) <==> at < c.t3 + p.lock
  {
    hide Run, Final;
    Readings(p, s, c);
    AfterOne(p, s, c);
  }

  // ---- Cleanup ----

  /** A cleanup forgets exactly the peers whose window began more than twice its length ago and whose lock, if any, has
      run out, and leaves the others as they are. */
  lemma CleanupForgets(p: Policy, s: State, at: int)
    ensures var t := Step(p, s, Cleanup(at));
            && t.entries.Keys <= s.entries.Keys
            && (forall ip <- t.entries :: t.entries[ip] == s.entries[ip])
            && forall ip <- s.entries ::
                 ip !in t.entries <==>
                 && at - s.entries[ip].firstTry > 2 * p.window
                 && (s.entries[ip].lockedUntil.Some? ==> s.entries[ip].lockedUntil.value < at)
  {}
}
