/** What a full visitor table lets through: requests of clients it does not know are neither counted nor refused. */
module RateLimitTable {
  import opened Tables
  import opened RateLimit
  import opened RateLimitLaws

  predicate PassesBy(l: Limits, s: State, op: Op, key: string)
  {
    op.Request? && op.key == key && Answer(l, s, op) != Denied
  }

  /** Requests of `key` that reach the handler, charged or not. */
  function Passed(l: Limits, s: State, ops: seq<Op>, key: string): nat
    decreases |ops|
  {
    if ops == [] then 0
    else Passed(l, Step(l, s, ops[0]), ops[1..], key) + if PassesBy(l, s, ops[0], key) then 1 else 0
  }

  predicate PassedBounded(l: Limits, s: State, ops: seq<Op>, key: string)
  {
    Passed(l, s, ops, key) as real <= l.burst as real + Credit(l, s.now, Final(l, s, ops).now)
  }

  // ---- With room for every client ----

  predicate HasRoom(s: State, ops: seq<Op>)
  {
    |s.visitors.Keys + KeysOf(ops)| <= CAP
  }

  lemma KeysAfter(l: Limits, s: State, op: Op)
    ensures Step(l, s, op).visitors.Keys <= s.visitors.Keys + (if op.Request? then {op.key} else {})
  {
    hide Refilled;
  }

  lemma RoomAfter(l: Limits, s: State, ops: seq<Op>)
    requires ops != [] && HasRoom(s, ops)
    ensures HasRoom(Step(l, s, ops[0]), ops[1..]) && (ops[0].Request? ==> !Full(s, ops[0].key))
  {
    hide Step, KeysOf;
    KeysAfter(l, s, ops[0]);
    KeyCount(s.visitors);
    Room(s.visitors.Keys, ops);
    var more := s.visitors.Keys + (if ops[0].Request? then {ops[0].key} else {});
    Subset(Step(l, s, ops[0]).visitors.Keys + KeysOf(ops[1..]), more + KeysOf(ops[1..]));
    NoKeys(s.visitors.Keys);
  }

  /** While the table has room, whatever passes has been charged for. */
  lemma {:induction false} PassedIsAdmitted(l: Limits, s: State, ops: seq<Op>, key: string)
    requires HasRoom(s, ops)
    ensures Passed(l, s, ops, key) == Admitted(l, s, ops, key)
    decreases |ops|
  {
    hide Step, HasRoom, Refilled, Full;
    if ops != [] {
      RoomAfter(l, s, ops);
      PassedIsAdmitted(l, Step(l, s, ops[0]), ops[1..], key);
    }
  }

  /** Then everything that passes keeps the bound, over any stretch of a run. */
  lemma PassedAtMost(l: Limits, s: State, ops: seq<Op>, key: string)
    requires Inv(l, s) && Run(l, s, ops) && (Refills(l) || NeverCleans(ops)) && HasRoom(s, ops)
    ensures PassedBounded(l, s, ops, key)
  {
    hide Inv, Run, Refills, HasRoom, Credit;
    AdmittedAtMost(l, s, ops, key);
    PassedIsAdmitted(l, s, ops, key);
  }

  // ---- With a full table ----

  /** A full table lets any number of requests of an unknown client through at once. */
  lemma {:induction false} FullPasses(l: Limits, s: State, key: string, t: real, n: nat)
    requires Full(s, key) && s.now <= t
    ensures Run(l, s, Burst(key, t, n)) && Passed(l, s, Burst(key, t, n), key) == n
    ensures Final(l, s, Burst(key, t, n)).now == if n == 0 then s.now else t
    decreases n
  {
    if n > 0 {
      hide Run, Final;
      var op, rest := Request(key, t, t, t), Burst(key, t, n - 1);
      assert Burst(key, t, n) == [op] + rest && ([op] + rest)[1..] == rest;
      FullPasses(l, Step(l, s, op), key, t, n - 1);
      Unroll(l, s, op, rest, key);
    } else {
      assert Burst(key, t, 0) == [];
    }
  }

  /** Names of different lengths, hence different. */
  function Name(i: nat): (name: string)
    ensures |name| == i
  {
    seq(i, _ => 'x')
  }

  /** One request each of `n` different clients. */
  function Crowd(n: nat): (ops: seq<Op>)
    ensures |ops| == n && forall i | 0 <= i < n :: ops[i] == Request(Name(i), 0.0, 0.0, 0.0)
  {
    if n == 0 then [] else Crowd(n - 1) + [Request(Name(n - 1), 0.0, 0.0, 0.0)]
  }

  lemma {:induction false} CrowdFills(l: Limits, n: nat)
    requires n <= CAP
    ensures Run(l, INIT, Crowd(n))
    ensures var s := Final(l, INIT, Crowd(n));
            s.now == 0.0 && |s.visitors| == n && forall k <- s.visitors :: |k| < n
  {
    if n > 0 {
      hide Run, Final, Refilled, Admitted;
      var ops, op := Crowd(n - 1), Request(Name(n - 1), 0.0, 0.0, 0.0);
      CrowdFills(l, n - 1);
      var s := Final(l, INIT, ops);
      RunConcat(l, INIT, ops, [op], "");
      assert [op] == [op] + [];
      Unroll(l, s, op, [], "");
      RunNothing(l, Step(l, s, op));
      EmptyRun(l, Step(l, s, op));
      Growth(s.visitors, op.key, Step(l, s, op).visitors[op.key]);
    }
  }

  lemma EmptyRun(l: Limits, s: State)
    ensures Run(l, s, [])
  {}

  /** A crowd that fills the table, and one client more with more requests than the burst. */
  function Overflow(l: Limits): seq<Op>
  {
    Crowd(CAP) + Burst(Name(CAP), 0.0, l.burst + 1)
  }

  lemma {:induction false} PassedConcat(l: Limits, s: State, ops: seq<Op>, ops': seq<Op>, key: string)
    ensures Passed(l, s, ops + ops', key) == Passed(l, s, ops, key) + Passed(l, Final(l, s, ops), ops', key)
    decreases |ops|
  {
    hide Step, PassesBy;
    if ops == [] {
      assert [] + ops' == ops';
    } else {
      assert (ops + ops')[1..] == ops[1..] + ops';
      PassedConcat(l, Step(l, s, ops[0]), ops[1..], ops', key);
    }
  }

  lemma NoCredit(l: Limits)
    ensures Credit(l, 0.0, 0.0) == 0.0
  {}

  lemma OverflowPasses(l: Limits)
    ensures Run(l, INIT, Overflow(l)) && !PassedBounded(l, INIT, Overflow(l), Name(CAP))
  {
    hide Run, Final, Passed, Credit, Name;
    CrowdFills(l, CAP);
    var s, flood := Final(l, INIT, Crowd(CAP)), Burst(Name(CAP), 0.0, l.burst + 1);
    FullPasses(l, s, Name(CAP), 0.0, l.burst + 1);
    RunConcat(l, INIT, Crowd(CAP), flood, "");
    PassedConcat(l, INIT, Crowd(CAP), flood, Name(CAP));
    NoCredit(l);
  }

  lemma {:induction false} NamesCounted(n: nat) returns (names: set<string>)
    ensures names == (set i | 0 <= i < n :: Name(i)) && |names| == n
  {
    if n == 0 {
      names := {};
    } else {
      var fewer := NamesCounted(n - 1);
      names := fewer + {Name(n - 1)};
    }
  }

  lemma OverflowKeys(l: Limits)
    ensures |KeysOf(Overflow(l))| <= CAP + 1
  {
    hide Name;
    var names := NamesCounted(CAP + 1);
    Subset(KeysOf(Overflow(l)), names);
  }

  // ---- The exact condition ----

  /** With at most `clients` different clients since the start, everything that passes keeps the bound. */
  ghost predicate AllPassedBounded(l: Limits, clients: nat)
  {
    forall ops, key | Run(l, INIT, ops) && |KeysOf(ops)| <= clients :: PassedBounded(l, INIT, ops, key)
  }

  lemma OverrunPasses(l: Limits, key: string)
    requires !Refills(l)
    ensures !PassedBounded(l, INIT, Overrun(l, key), key) && |KeysOf(Overrun(l, key))| <= 1
  {
    hide Final, Credit, TooEarly, KeysOf, Passed, Admitted, Overrun, Refills;
    OverrunAdmits(l, key);
    TooEarlyIs(l);
    OneClient(l, key);
    RoomFor(Overrun(l, key));
    PassedIsAdmitted(l, INIT, Overrun(l, key), key);
  }

  lemma OneClient(l: Limits, key: string)
    ensures |KeysOf(Overrun(l, key))| <= 1
  {
    hide TooEarly;
    Subset(KeysOf(Overrun(l, key)), {key});
  }

  lemma RoomFor(ops: seq<Op>)
    requires |KeysOf(ops)| <= CAP
    ensures HasRoom(INIT, ops)
  {
    hide KeysOf;
    assert INIT.visitors.Keys + KeysOf(ops) == KeysOf(ops);
  }

  lemma NoClients(l: Limits, ops: seq<Op>, key: string)
    requires Run(l, INIT, ops) && |KeysOf(ops)| == 0
    ensures PassedBounded(l, INIT, ops, key)
  {
    hide Run, Final, Passed, Credit, Inv;
    NothingPasses(l, INIT, ops, key);
    InitInv(l);
    RunInv(l, INIT, ops);
    Credits(l, INIT.now, Final(l, INIT, ops).now, Final(l, INIT, ops).now);
  }

  lemma FirstClient(ops: seq<Op>)
    requires ops != [] && ops[0].Request?
    ensures |KeysOf(ops)| > 0
  {
    assert ops[0].key in KeysOf(ops);
  }

  lemma {:induction false} NothingPasses(l: Limits, s: State, ops: seq<Op>, key: string)
    requires |KeysOf(ops)| == 0
    ensures Passed(l, s, ops, key) == 0
    decreases |ops|
  {
    hide Step, Answer;
    if ops != [] {
      if ops[0].Request? {
        FirstClient(ops);
      }
      Subset(KeysOf(ops[1..]), KeysOf(ops));
      NothingPasses(l, Step(l, s, ops[0]), ops[1..], key);
    }
  }

  /** The bound holds of everything that passes, in all runs with that many clients, exactly when a bucket refills
      within the cleanup interval and the table holds all of them (or there are none). */
  lemma AllPassedBoundedIff(l: Limits, clients: nat)
    ensures AllPassedBounded(l, clients) <==> clients == 0 || (Refills(l) && clients <= CAP)
  {
    hide Run, KeysOf, PassedBounded, Refills, Overflow, Overrun, Inv;
    InitInv(l);
    if clients == 0 {
      forall ops, key | Run(l, INIT, ops) && |KeysOf(ops)| <= clients ensures PassedBounded(l, INIT, ops, key) {
        NoClients(l, ops, key);
      }
    } else if !Refills(l) {
      OverrunAdmits(l, "");
      OverrunPasses(l, "");
    } else if clients > CAP {
      OverflowPasses(l);
      OverflowKeys(l);
    } else {
      forall ops, key | Run(l, INIT, ops) && |KeysOf(ops)| <= clients ensures PassedBounded(l, INIT, ops, key) {
        RoomFor(ops);
        PassedAtMost(l, INIT, ops, key);
      }
    }
  }
}
