/** Evicting idle clients is invisible, and a client is refused only when it has used up its credit. */
module RateLimitLaws {
  import opened Wrappers
  import opened RateLimit
  import opened Tables

  // ---- Eviction ----

  /** The same history on a limiter that never evicts. */
  function Unswept(op: Op): Op
  {
    match op case Cleanup(_, finished) => Wait(finished) case _ => op
  }

  function AllUnswept(ops: seq<Op>): (r: seq<Op>)
    ensures |r| == |ops| && forall i | 0 <= i < |ops| :: r[i] == Unswept(ops[i])
  {
    seq(|ops|, i requires 0 <= i < |ops| => Unswept(ops[i]))
  }

  function KeysOf(ops: seq<Op>): set<string>
  {
    set i | 0 <= i < |ops| && ops[i].Request? :: ops[i].key
  }

  /** `u` remembers everyone `s` does, and whoever only `u` remembers has a full bucket. */
  predicate Twin(l: Limits, s: State, u: State)
  {
    && s.now == u.now
    && s.visitors.Keys <= u.visitors.Keys
    && (forall k <- s.visitors :: s.visitors[k] == u.visitors[k])
    && (forall k <- u.visitors :: k !in s.visitors ==> Refilled(l, u.visitors[k], u.now) == l.burst as real)
  }

  lemma StaysFull(l: Limits, v: Visitor, t: real, t': real)
    requires 0.0 <= v.tokens <= l.burst as real && v.lastCheck <= t <= t'
    ensures Refilled(l, v, t) == l.burst as real ==> Refilled(l, v, t') == l.burst as real
  {
    hide Refilled, Credit;
    RefilledLater(l, v, t, t');
    RefilledRange(l, v, t');
  }

  lemma TwinAnswers(l: Limits, s: State, u: State, op: Op)
    requires Inv(l, s) && Inv(l, u) && Twin(l, s, u) && CanStep(s, op) && op.Request?
    requires op.key in u.visitors || |u.visitors| < CAP
    ensures !Full(s, op.key) && !Full(u, op.key)
    ensures Refilled(l, Entry(l, s, op.key, op.t0), op.t1) == Refilled(l, Entry(l, u, op.key, op.t0), op.t1)
  {
    hide Refilled;
    if op.key !in s.visitors {
      NewIsFull(l, op.t0, op.t1);
      if op.key in u.visitors {
        StaysFull(l, u.visitors[op.key], u.now, op.t1);
        Fewer(s.visitors.Keys, u.visitors.Keys, op.key);
      } else {
        Subset(s.visitors.Keys, u.visitors.Keys);
      }
    }
  }

  lemma TwinStep(l: Limits, s: State, u: State, op: Op)
    requires Refills(l) && Inv(l, s) && Inv(l, u) && Twin(l, s, u) && CanStep(s, op)
    requires op.Request? ==> op.key in u.visitors || |u.visitors| < CAP
    ensures CanStep(u, Unswept(op)) && Answer(l, s, op) == Answer(l, u, Unswept(op))
    ensures Twin(l, Step(l, s, op), Step(l, u, Unswept(op)))
  {
    hide Refilled, Refills;
    if op.Request? {
      TwinAnswers(l, s, u, op);
    }
    var u' := Step(l, u, Unswept(op));
    forall k | k in u.visitors && k !in s.visitors ensures Refilled(l, u.visitors[k], u'.now) == l.burst as real {
      StaysFull(l, u.visitors[k], u.now, u'.now);
    }
    if op.Cleanup? {
      forall k | Idle(s, op.readings, k) ensures Refilled(l, u.visitors[k], u'.now) == l.burst as real {
        IdleIsFull(l, s.visitors[k], op.readings[k]);
        StaysFull(l, u.visitors[k], op.readings[k], u'.now);
      }
    }
  }

  lemma Room(a: set<string>, ops: seq<Op>)
    requires ops != [] && |a + KeysOf(ops)| <= CAP
    ensures ops[0].Request? ==> ops[0].key in a || |a| < CAP
    ensures ops[0].Request? ==> |(a + {ops[0].key}) + KeysOf(ops[1..])| <= CAP
    ensures |a + KeysOf(ops[1..])| <= CAP
  {
    Subset(a + KeysOf(ops[1..]), a + KeysOf(ops));
    if ops[0].Request? {
      Subset((a + {ops[0].key}) + KeysOf(ops[1..]), a + KeysOf(ops));
      if ops[0].key !in a {
        Fewer(a, a + KeysOf(ops), ops[0].key);
      }
    }
  }

  lemma UnsweptKeys(l: Limits, u: State, op: Op)
    requires op.Request? ==> !Full(u, op.key)
    ensures Step(l, u, Unswept(op)).visitors.Keys == u.visitors.Keys + (if op.Request? then {op.key} else {})
  {
    hide Refilled;
  }

  lemma {:induction false} TwinRun(l: Limits, s: State, u: State, ops: seq<Op>)
    requires Refills(l) && Inv(l, s) && Inv(l, u) && Twin(l, s, u) && Run(l, s, ops)
    requires |u.visitors.Keys + KeysOf(ops)| <= CAP
    ensures Run(l, u, AllUnswept(ops)) && Answers(l, s, ops) == Answers(l, u, AllUnswept(ops))
    decreases |ops|
  {
    hide Step, Inv, CanStep, Answer, Refills, Twin, KeysOf;
    if ops != [] {
      var op, rest := ops[0], ops[1..];
      Room(u.visitors.Keys, ops);
      KeyCount(u.visitors);
      TwinStep(l, s, u, op);
      UnsweptKeys(l, u, op);
      StepInv(l, s, op);
      StepInv(l, u, Unswept(op));
      NoKeys(u.visitors.Keys);
      TwinRun(l, Step(l, s, op), Step(l, u, Unswept(op)), rest);
      assert AllUnswept(ops) == [Unswept(op)] + AllUnswept(rest);
      Unroll(l, u, Unswept(op), AllUnswept(rest), "");
    }
  }

  lemma NoKeys<A>(a: set<A>)
    ensures a + {} == a
  {}

  /** With no more clients than the table holds, evicting idle ones changes no answer. */
  lemma EvictionInvisible(l: Limits, ops: seq<Op>)
    requires Refills(l) && Run(l, INIT, ops) && |KeysOf(ops)| <= CAP
    ensures Run(l, INIT, AllUnswept(ops)) && Answers(l, INIT, ops) == Answers(l, INIT, AllUnswept(ops))
  {
    assert {} + KeysOf(ops) == KeysOf(ops);
    TwinRun(l, INIT, INIT, ops);
  }

  function AllowedCount(ops: seq<Op>, answers: seq<Outcome>, key: string): nat
    requires |answers| == |ops|
  {
    if ops == [] then 0
    else AllowedCount(ops[1..], answers[1..], key)
         + if ops[0].Request? && ops[0].key == key && answers[0] == Allowed then 1 else 0
  }

  lemma {:induction false} AdmittedIsAllowed(l: Limits, s: State, ops: seq<Op>, key: string)
    ensures Admitted(l, s, ops, key) == AllowedCount(ops, Answers(l, s, ops), key)
    decreases |ops|
  {
    hide Step, Answer;
    if ops != [] {
      AdmittedIsAllowed(l, Step(l, s, ops[0]), ops[1..], key);
    }
  }

  lemma {:induction false} UnsweptCount(ops: seq<Op>, answers: seq<Outcome>, key: string)
    requires |answers| == |ops|
    ensures AllowedCount(AllUnswept(ops), answers, key) == AllowedCount(ops, answers, key)
  {
    if ops != [] {
      assert AllUnswept(ops)[1..] == AllUnswept(ops[1..]);
      UnsweptCount(ops[1..], answers[1..], key);
    }
  }

  lemma {:induction false} UnsweptEnd(l: Limits, s: State, u: State, ops: seq<Op>)
    requires s.now == u.now
    ensures Final(l, s, ops).now == Final(l, u, AllUnswept(ops)).now
    decreases |ops|
  {
    hide Refilled;
    if ops != [] {
      assert AllUnswept(ops)[1..] == AllUnswept(ops[1..]);
      UnsweptEnd(l, Step(l, s, ops[0]), Step(l, u, Unswept(ops[0])), ops[1..]);
    }
  }

  predicate Invisible(l: Limits, ops: seq<Op>)
  {
    Run(l, INIT, AllUnswept(ops)) && Answers(l, INIT, ops) == Answers(l, INIT, AllUnswept(ops))
  }

  lemma OverrunKeys(l: Limits, key: string)
    ensures |KeysOf(Overrun(l, key))| <= CAP
  {
    hide TooEarly;
    Subset(KeysOf(Overrun(l, key)), {key});
  }

  /** A bucket slower than the interval: some history of one client is answered differently after an eviction. */
  lemma EvictionVisible(l: Limits, key: string)
    requires !Refills(l)
    ensures !Invisible(l, Overrun(l, key))
  {
    hide Run, Answers, Admitted, AllowedCount, Overrun, Final, TooEarly, Credit, Refills;
    var ops := Overrun(l, key);
    OverrunAdmits(l, key);
    TooEarlyIs(l);
    if Invisible(l, ops) {
      AdmittedIsAllowed(l, INIT, ops, key);
      AdmittedIsAllowed(l, INIT, AllUnswept(ops), key);
      UnsweptCount(ops, Answers(l, INIT, ops), key);
      UnsweptEnd(l, INIT, INIT, ops);
      AdmittedAtMost(l, INIT, AllUnswept(ops), key);
    }
  }

  lemma InvisibleIff(l: Limits)
    ensures Refills(l) <==> forall ops | Run(l, INIT, ops) && |KeysOf(ops)| <= CAP :: Invisible(l, ops)
  {
    hide Run, Answers, Overrun, Refills, KeysOf;
    if Refills(l) {
      forall ops | Run(l, INIT, ops) && |KeysOf(ops)| <= CAP ensures Invisible(l, ops) {
        EvictionInvisible(l, ops);
      }
    } else {
      OverrunAdmits(l, "");
      OverrunKeys(l, "");
      EvictionVisible(l, "");
    }
  }

  // ---- A refusal is earned ----

  /** Credit that runs out unused while a request of `key` is being handled. */
  function LostBy(l: Limits, op: Op, key: string): real
  {
    if op.Request? && op.key == key then Credit(l, op.t1, op.t2) else 0.0
  }

  function Lost(l: Limits, ops: seq<Op>, key: string): real
  {
    if ops == [] then 0.0 else LostBy(l, ops[0], key) + Lost(l, ops[1..], key)
  }

  /** A step either gives a client all the credit of its time, or its bucket was full at `from`. */
  lemma StepGives(l: Limits, s: State, op: Op, key: string) returns (full: bool, from: real)
    requires Inv(l, s) && CanStep(s, op)
    ensures s.now <= from
    ensures var s' := Step(l, s, op);
            Level(l, s', key, s'.now) + (if Admits(l, s, op, key) then 1.0 else 0.0) + LostBy(l, op, key) >=
            if full then l.burst as real + Credit(l, from, s'.now)
            else Level(l, s, key, s.now) + Credit(l, s.now, s'.now)
  {
    hide Refilled, Credit;
    var s' := Step(l, s, op);
    from := if op.Request? && op.key == key then op.t1 else s'.now;
    full := Level(l, s, key, from) == l.burst as real || key !in s'.visitors;
    Credits(l, from, s'.now, s'.now);
    Credits(l, s'.now, s'.now, s'.now);
    Credits(l, s.now, from, s'.now);
    RefillsOrFull(l, s, key, from);
    if op.Request? && op.key == key && !Full(s, key) {
      RequestPays(l, s, op);
    }
  }

  lemma RefillsOrFull(l: Limits, s: State, key: string, t: real)
    requires Inv(l, s) && s.now <= t
    ensures || Level(l, s, key, t) == l.burst as real
            || Level(l, s, key, t) == Level(l, s, key, s.now) + Credit(l, s.now, t)
  {
    hide Credit;
    if key in s.visitors {
      Credits(l, s.visitors[key].lastCheck, s.now, t);
      Credits(l, s.now, t, t);
    }
  }

  predicate Spent(l: Limits, s: State, ops: seq<Op>, key: string, i: nat, from: real)
    requires i <= |ops|
  {
    var end := Final(l, s, ops);
    && Final(l, s, ops[..i]).now <= from
    && Admitted(l, Final(l, s, ops[..i]), ops[i..], key) as real + Lost(l, ops[i..], key)
         >= l.burst as real + Credit(l, from, end.now) - Level(l, end, key, end.now)
  }

  lemma {:induction false} RunGives(l: Limits, s: State, ops: seq<Op>, key: string)
      returns (full: bool, i: nat, from: real)
    requires Inv(l, s) && Run(l, s, ops)
    ensures full ==> i <= |ops| && Spent(l, s, ops, key, i, from)
    ensures !full ==>
              var end := Final(l, s, ops);
              Admitted(l, s, ops, key) as real + Lost(l, ops, key)
                >= Level(l, s, key, s.now) + Credit(l, s.now, end.now) - Level(l, end, key, end.now)
    decreases |ops|
  {
    hide Step, Credit, Level, Admits, Inv, CanStep, LostBy;
    full, i, from := false, 0, s.now;
    if ops == [] {
      Credits(l, s.now, s.now, s.now);
    } else {
      var s1, rest := Step(l, s, ops[0]), ops[1..];
      StepInv(l, s, ops[0]);
      full, i, from := RunGives(l, s1, rest, key);
      if full {
        assert ops[..i + 1][1..] == rest[..i] && ops[i + 1..] == rest[i..];
        i := i + 1;
      } else {
        full, from := StepGives(l, s, ops[0], key);
        i := 0;
        assert ops[..0] == [] && ops[0..] == ops;
        Credits(l, from, s1.now, Final(l, s, ops).now);
        Credits(l, s.now, s1.now, Final(l, s, ops).now);
      }
    }
  }

  /** Whoever is refused was let through, since some moment `from`, more often than burst - 1 + rate * time:
      a client that keeps to its rate never is. Only the time spent inside its own requests earns no credit. */
  lemma RefusedHasSpent(l: Limits, s: State, ops: seq<Op>, req: Op) returns (i: nat, from: real)
    requires Inv(l, s) && Run(l, s, ops) && req.Request? && Level(l, s, req.key, s.now) == l.burst as real
    requires var end := Final(l, s, ops); CanStep(end, req) && req.t1 == end.now && Answer(l, end, req) == Denied
    ensures i <= |ops| && Final(l, s, ops[..i]).now <= from
    ensures Admitted(l, Final(l, s, ops[..i]), ops[i..], req.key) as real + Lost(l, ops[i..], req.key)
              > l.burst as real - 1.0 + Credit(l, from, req.t1)
  {
    hide Run, Credit, Admitted, Lost, Refilled, Final, Inv;
    var full;
    full, i, from := RunGives(l, s, ops, req.key);
    if !full {
      i, from := 0, s.now;
      assert ops[..0] == [] && ops[0..] == ops;
      RunNothing(l, s);
    }
    RunInv(l, s, ops);
    DeniedIsLow(l, Final(l, s, ops), req);
  }

  lemma DeniedIsLow(l: Limits, s: State, req: Op)
    requires Inv(l, s) && CanStep(s, req) && req.Request? && req.t1 == s.now && Answer(l, s, req) == Denied
    ensures Level(l, s, req.key, s.now) < 1.0
  {
    hide Refilled;
    if req.key !in s.visitors {
      NewIsFull(l, req.t0, req.t1);
    }
  }

  // ---- Who is evicted ----

  /** When the last request of the client was stamped. */
  function LastSeen(ops: seq<Op>, key: string): Option<real>
  {
    if ops == [] then None
    else
      var last := ops[|ops| - 1];
      if last.Request? && last.key == key then Some(last.t2) else LastSeen(ops[..|ops| - 1], key)
  }

  ghost predicate Stamped(s: State, hist: seq<Op>)
  {
    forall k <- s.visitors :: LastSeen(hist, k) == Some(s.visitors[k].lastCheck)
  }

  lemma SeenSnoc(hist: seq<Op>, op: Op, key: string)
    ensures LastSeen(hist + [op], key) == if op.Request? && op.key == key then Some(op.t2) else LastSeen(hist, key)
  {
    assert (hist + [op])[..|hist|] == hist;
  }

  lemma StepStamped(l: Limits, s: State, hist: seq<Op>, op: Op)
    requires Stamped(s, hist)
    ensures Stamped(Step(l, s, op), hist + [op])
  {
    hide LastSeen, Refilled;
    forall k | k in Step(l, s, op).visitors
      ensures LastSeen(hist + [op], k) == Some(Step(l, s, op).visitors[k].lastCheck)
    {
      SeenSnoc(hist, op, k);
    }
  }

  lemma {:induction false} RunStamped(l: Limits, s: State, hist: seq<Op>, ops: seq<Op>)
    requires Stamped(s, hist)
    ensures Stamped(Final(l, s, ops), hist + ops)
    decreases |ops|
  {
    hide Stamped, Step;
    if ops == [] {
      assert hist + [] == hist;
    } else {
      StepStamped(l, s, hist, ops[0]);
      RunStamped(l, Step(l, s, ops[0]), hist + [ops[0]], ops[1..]);
      assert hist + [ops[0]] + ops[1..] == hist + ops;
    }
  }

  /** In every run, a cleanup keeps exactly the clients whose last request is at most 300 s old when it looks. */
  lemma CleanupKeepsRecent(l: Limits, hist: seq<Op>, readings: map<string, real>, finished: real)
    requires CanStep(Final(l, INIT, hist), Cleanup(readings, finished))
    ensures var s := Final(l, INIT, hist); var t := Step(l, s, Cleanup(readings, finished));
            && t.visitors.Keys <= s.visitors.Keys
            && (forall k <- t.visitors :: t.visitors[k] == s.visitors[k])
            && forall k <- s.visitors ::
                 && LastSeen(hist, k).Some?
                 && (k in t.visitors <==> readings[k] - LastSeen(hist, k).value <= 300.0)
  {
    hide Final, LastSeen;
    RunStamped(l, INIT, [], hist);
    assert [] + hist == hist;
    var s := Final(l, INIT, hist);
    assert Stamped(s, hist);
  }
}
