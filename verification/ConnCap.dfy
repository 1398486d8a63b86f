/** The lock-free connection cap of a TCP rule: each listener first adds to the shared counter and
    takes the addition back when it went over the cap. Every step is one atomic operation. */
module ConnCap {

  /** What a listener has in hand between two atomic operations. */
  datatype Phase = Idle | Admitted | RollingBack

  datatype State = State(conns: int, listeners: seq<Phase>, running: nat)

  datatype Op =
    | Arrive(l: nat)     // add one and compare with the cap
    | TakeBack(l: nat)   // undo the addition and drop the connection
    | Spawn(l: nat)      // start the handler
    | Finish             // a handler ends

  function Start(listeners: nat): State { State(0, seq(listeners, _ => Idle), 0) }

  predicate CanStep(s: State, op: Op)
  {
    match op
    case Arrive(l) => l < |s.listeners| && s.listeners[l] == Idle
    case TakeBack(l) => l < |s.listeners| && s.listeners[l] == RollingBack
    case Spawn(l) => l < |s.listeners| && s.listeners[l] == Admitted
    case Finish => s.running > 0
  }

  function Step(max: int, s: State, op: Op): State
    requires CanStep(s, op)
  {
    match op
    case Arrive(l) =>
      var refused := max > 0 && s.conns + 1 > max;
      s.(conns := s.conns + 1, listeners := s.listeners[l := if refused then RollingBack else Admitted])
    case TakeBack(l) => s.(conns := s.conns - 1, listeners := s.listeners[l := Idle])
    case Spawn(l) => s.(running := s.running + 1, listeners := s.listeners[l := Idle])
    case Finish => s.(conns := s.conns - 1, running := s.running - 1)
  }

  predicate Run(max: int, s: State, ops: seq<Op>, t: State)
    decreases |ops|
  {
    if ops == [] then s == t
    else CanStep(s, ops[0]) && Run(max, Step(max, s, ops[0]), ops[1..], t)
  }

  function Count(ls: seq<Phase>, p: Phase): (n: nat)
    ensures n <= |ls|
  {
    if ls == [] then 0 else (if ls[0] == p then 1 else 0) + Count(ls[1..], p)
  }

  lemma {:induction false} CountUpdate(ls: seq<Phase>, l: nat, q: Phase, p: Phase)
    requires l < |ls|
    ensures Count(ls[l := q], p) == Count(ls, p) - (if ls[l] == p then 1 else 0) + (if q == p then 1 else 0)
  {
    var us := ls[l := q];
    if l == 0 {
      assert us[1..] == ls[1..];
    } else {
      assert us[1..] == ls[1..][l - 1 := q];
      CountUpdate(ls[1..], l - 1, q, p);
    }
  }

  lemma {:induction false} CountPhases(ls: seq<Phase>)
    ensures Count(ls, Idle) + Count(ls, Admitted) + Count(ls, RollingBack) == |ls|
  {
    if ls != [] {
      CountPhases(ls[1..]);
    }
  }

  lemma {:induction false} CountIdle(n: nat, p: Phase)
    requires p != Idle
    ensures Count(seq(n, _ => Idle), p) == 0
  {
    if n > 0 {
      assert seq(n, _ => Idle)[1..] == seq(n - 1, _ => Idle);
      CountIdle(n - 1, p);
    }
  }

  /** Additions to the counter that belong to no running handler. */
  function InFlight(s: State): nat { Count(s.listeners, Admitted) + Count(s.listeners, RollingBack) }

  predicate Inv(max: int, s: State)
  {
    && s.conns == s.running + InFlight(s)
    && (max > 0 ==> s.running + Count(s.listeners, Admitted) <= max)
  }

  lemma StepInv(max: int, s: State, op: Op)
    requires Inv(max, s) && CanStep(s, op)
    ensures Inv(max, Step(max, s, op)) && |Step(max, s, op).listeners| == |s.listeners|
  {
    var t := Step(max, s, op);
    if !op.Finish? {
      CountUpdate(s.listeners, op.l, t.listeners[op.l], Admitted);
      CountUpdate(s.listeners, op.l, t.listeners[op.l], RollingBack);
    }
  }

  lemma {:induction false} RunInv(max: int, s: State, ops: seq<Op>, t: State)
    requires Inv(max, s) && Run(max, s, ops, t)
    ensures Inv(max, t) && |t.listeners| == |s.listeners|
    decreases |ops|
  {
    if ops != [] {
      StepInv(max, s, ops[0]);
      RunInv(max, Step(max, s, ops[0]), ops[1..], t);
    }
  }

  /** In every interleaving the counter is the running handlers plus the additions in flight, and
      a positive cap is never exceeded by handlers. */
  lemma CapHolds(max: int, listeners: nat, ops: seq<Op>, t: State)
    requires Run(max, Start(listeners), ops, t)
    ensures t.conns == t.running + InFlight(t)
    ensures max > 0 ==> t.running <= max
    ensures InFlight(t) <= listeners
  {
    CountIdle(listeners, Admitted);
    CountIdle(listeners, RollingBack);
    RunInv(max, Start(listeners), ops, t);
    CountPhases(t.listeners);
  }

  /** A connection is refused exactly when running handlers and additions in flight already fill
      the cap; then at most one place per other listener can be free. */
  lemma RefusedIff(max: int, s: State, l: nat)
    requires Inv(max, s) && CanStep(s, Arrive(l))
    ensures var t := Step(max, s, Arrive(l));
            && (t.listeners[l] == RollingBack <==> max > 0 && s.running + InFlight(s) >= max)
            && (t.listeners[l] == RollingBack ==>
                  s.running + Count(s.listeners, Admitted) >= max - (|s.listeners| - 1))
  {
    CountPhases(s.listeners);
    IdleCounted(s.listeners, l);
  }

  lemma {:induction false} IdleCounted(ls: seq<Phase>, l: nat)
    requires l < |ls| && ls[l] == Idle
    ensures Count(ls, Idle) >= 1
  {
    if l > 0 {
      IdleCounted(ls[1..], l - 1);
    }
  }

  /** With two listeners a free rule can refuse: the other listener has not taken its addition back yet. */
  lemma RefusalWithoutHandlers()
    ensures var ops := [Arrive(0), Spawn(0), Arrive(1), Finish, Arrive(0)];
            Run(1, Start(2), ops, State(2, [RollingBack, RollingBack], 0))
  {
    var s0 := Start(2);
    assert s0.listeners == [Idle, Idle];
    var s1 := State(1, [Admitted, Idle], 0);
    var s2 := State(1, [Idle, Idle], 1);
    var s3 := State(2, [Idle, RollingBack], 1);
    var s4 := State(1, [Idle, RollingBack], 0);
    var s5 := State(2, [RollingBack, RollingBack], 0);
    assert Step(1, s0, Arrive(0)) == s1 && Step(1, s1, Spawn(0)) == s2 && Step(1, s2, Arrive(1)) == s3;
    assert Step(1, s3, Finish) == s4 && Step(1, s4, Arrive(0)) == s5;
    assert Run(1, s4, [Arrive(0)], s5) by { assert [Arrive(0)][1..] == []; }
    assert Run(1, s3, [Finish, Arrive(0)], s5) by { assert [Finish, Arrive(0)][1..] == [Arrive(0)]; }
    RunCons(1, s2, Arrive(1), [Finish, Arrive(0)], s5);
    RunCons(1, s1, Spawn(0), [Arrive(1), Finish, Arrive(0)], s5);
    RunCons(1, s0, Arrive(0), [Spawn(0), Arrive(1), Finish, Arrive(0)], s5);
  }

  lemma RunCons(max: int, s: State, op: Op, ops: seq<Op>, t: State)
    requires CanStep(s, op) && Run(max, Step(max, s, op), ops, t)
    ensures Run(max, s, [op] + ops, t)
  {
    assert ([op] + ops)[1..] == ops;
  }

  /** The counter as the listeners and handlers of one rule instance share it. */
  class RuleInstance {
    const maxConns: int
    var conns: int
    ghost var state: State

    ghost predicate Valid()
      reads this
    {
      conns == state.conns && Inv(maxConns, state)
    }

    constructor (maxConns: int, ghost listeners: nat)
      ensures Valid() && this.maxConns == maxConns && state == Start(listeners)
    {
      this.maxConns, conns, state := maxConns, 0, Start(listeners);
      CountIdle(listeners, Admitted);
      CountIdle(listeners, RollingBack);
    }

    method AddConns(delta: int) returns (now: int)
      modifies this`conns
      ensures now == conns == old(conns) + delta
    {
      conns := conns + delta;
      return conns;
    }

    /** A listener accepts a connection; it is admitted exactly when the cap leaves room. */
    method Arrive(ghost l: nat) returns (admitted: bool)
      requires Valid() && CanStep(state, Op.Arrive(l))
      modifies this
      ensures Valid() && state == Step(maxConns, old(state), Op.Arrive(l))
      ensures admitted <==> state.listeners[l] == Admitted
      ensures admitted <==> maxConns <= 0 || old(state.running + InFlight(state)) < maxConns
    {
      StepInv(maxConns, state, Op.Arrive(l));
      var now := AddConns(1);
      admitted := !(maxConns > 0 && now > maxConns);
      state := Step(maxConns, state, Op.Arrive(l));
    }

    method TakeBack(ghost l: nat)
      requires Valid() && CanStep(state, Op.TakeBack(l))
      modifies this
      ensures Valid() && state == Step(maxConns, old(state), Op.TakeBack(l))
    {
      StepInv(maxConns, state, Op.TakeBack(l));
      var _ := AddConns(-1);
      state := Step(maxConns, state, Op.TakeBack(l));
    }

    ghost method Spawn(l: nat)
      requires Valid() && CanStep(state, Op.Spawn(l))
      modifies this
      ensures Valid() && state == Step(maxConns, old(state), Op.Spawn(l)) && conns == old(conns)
    {
      StepInv(maxConns, state, Op.Spawn(l));
      state := Step(maxConns, state, Op.Spawn(l));
    }

    method Finish()
      requires Valid() && CanStep(state, Op.Finish)
      modifies this
      ensures Valid() && state == Step(maxConns, old(state), Op.Finish)
    {
      StepInv(maxConns, state, Op.Finish);
      var _ := AddConns(-1);
      state := Step(maxConns, state, Op.Finish);
    }
  }
}
