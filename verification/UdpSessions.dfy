/** The shared UDP session map of one forwarding rule as a transition system: every step is one
    critical section, or one move of a background goroutine, and steps interleave freely. */
module UdpSessions {
  import opened Wrappers

  datatype Key = Key(network: string, addr: string)

  /** A session ever created, identified by its position in order of creation. */
  datatype Conn = Conn(key: Key, lastUsed: int, closes: nat)

  /** Where the reader goroutine of a session is: before the `done` check, in a read, or gone. */
  datatype Reader = AtCheck | Reading | Exited

  /** Progress of the once-only close: `done` is closed first, the map is cleared later. */
  datatype ClosePhase = NotCalled | Clearing | Cleared

  datatype State = State(live: map<Key, nat>, conns: seq<Conn>, readers: seq<Reader>, phase: ClosePhase, cleaner: bool)

  const INIT := State(map[], [], [], NotCalled, true)

  datatype Op =
    | GetOrCreate(key: Key, now: int, dials: bool)
    | ReaderCheck(id: nat)
    | ReaderRelay(id: nat)
    | ReaderFail(id: nat)
    | CleanerTick(readings: map<Key, int>)   // the clock as it is read for each entry
    | CleanerExit
    | CloseBegin
    | CloseClear

  predicate Done(s: State) { s.phase != NotCalled }

  predicate CanStep(s: State, op: Op)
  {
    match op
    case ReaderCheck(id) => id < |s.readers| && s.readers[id] == AtCheck
    case ReaderRelay(id) => id < |s.readers| && s.readers[id] == Reading
    case ReaderFail(id) => id < |s.readers| && id < |s.conns| && s.readers[id] == Reading
    case CleanerTick(readings) => s.cleaner && s.live.Keys <= readings.Keys
    case CleanerExit => s.cleaner && Done(s)
    case CloseClear => s.phase == Clearing
    case _ => true
  }

  /** Closes and removes the sessions stored under `ks`. */
  function Evict(s: State, ks: set<Key>): State
  {
    var ids := set k | k in ks && k in s.live :: s.live[k];
    s.(live := map k | k in s.live && k !in ks :: s.live[k],
       conns := seq(|s.conns|, i requires 0 <= i < |s.conns| =>
         if i in ids then s.conns[i].(closes := s.conns[i].closes + 1) else s.conns[i]))
  }

  function Stale(ttl: int, s: State, readings: map<Key, int>): set<Key>
    requires s.live.Keys <= readings.Keys
  {
    set k | k in s.live && s.live[k] < |s.conns| && readings[k] - s.conns[s.live[k]].lastUsed > ttl
  }

  function Step(ttl: int, s: State, op: Op): State
    requires CanStep(s, op)
  {
    match op
    case GetOrCreate(key, now, dials) =>
      if key in s.live then
        if s.live[key] < |s.conns|
        then s.(conns := s.conns[s.live[key] := s.conns[s.live[key]].(lastUsed := now)])
        else s
      else if !dials then s
      else s.(live := s.live[key := |s.conns|], conns := s.conns + [Conn(key, now, 0)],
              readers := s.readers + [AtCheck])
    case ReaderCheck(id) =>
      s.(readers := s.readers[id := if Done(s) then Exited else Reading])
    case ReaderRelay(id) =>
      s.(readers := s.readers[id := AtCheck])
    case ReaderFail(id) =>
      var key := s.conns[id].key;
      (if key in s.live && s.live[key] == id then Evict(s, {key}) else s).(readers := s.readers[id := Exited])
    case CleanerTick(readings) => Evict(s, Stale(ttl, s, readings))
    case CleanerExit => s.(cleaner := false)
    case CloseBegin => if s.phase == NotCalled then s.(phase := Clearing) else s
    case CloseClear => Evict(s, s.live.Keys).(phase := Cleared)
  }

  /** `ops` can be taken one after the other from `s` and lead to `t`. */
  predicate Run(ttl: int, s: State, ops: seq<Op>, t: State)
    decreases |ops|
  {
    if ops == [] then s == t
    else CanStep(s, ops[0]) && Run(ttl, Step(ttl, s, ops[0]), ops[1..], t)
  }

  // ---- The invariant ----

  predicate Stored(s: State, i: nat)
    requires i < |s.conns|
  {
    s.conns[i].key in s.live && s.live[s.conns[i].key] == i
  }

  /** A session is open and stored under its key, or closed exactly once and absent. */
  predicate OpenXorClosed(s: State, i: nat)
    requires i < |s.conns|
  {
    if Stored(s, i) then s.conns[i].closes == 0 else s.conns[i].closes == 1
  }

  ghost predicate Inv(s: State)
  {
    && |s.readers| == |s.conns|
    && (forall k <- s.live :: s.live[k] < |s.conns| && s.conns[s.live[k]].key == k)
    && (forall i: nat | i < |s.conns| :: OpenXorClosed(s, i))
  }

  lemma EvictInv(s: State, ks: set<Key>)
    requires Inv(s)
    ensures Inv(Evict(s, ks))
    ensures forall i: nat | i < |s.conns| ::
              && Evict(s, ks).conns[i].key == s.conns[i].key
              && (Stored(Evict(s, ks), i) <==> Stored(s, i) && s.conns[i].key !in ks)
  {
    var t := Evict(s, ks);
    var ids := set k | k in ks && k in s.live :: s.live[k];
    forall i: nat | i < |s.conns|
      ensures t.conns[i].key == s.conns[i].key
      ensures Stored(t, i) <==> Stored(s, i) && s.conns[i].key !in ks
      ensures OpenXorClosed(t, i)
    {
      assert OpenXorClosed(s, i);
      assert i in ids <==> Stored(s, i) && s.conns[i].key in ks;
    }
    assert forall k <- t.live :: k in s.live;
  }

  lemma StepInv(ttl: int, s: State, op: Op)
    requires Inv(s) && CanStep(s, op)
    ensures Inv(Step(ttl, s, op))
  {
    var t := Step(ttl, s, op);
    match op
    case GetOrCreate(key, now, dials) =>
      forall i: nat | i < |t.conns| ensures OpenXorClosed(t, i) {
        if i < |s.conns| { assert OpenXorClosed(s, i); }
      }
    case ReaderFail(id) =>
      EvictInv(s, {s.conns[id].key});
      SameSessions(if Stored(s, id) then Evict(s, {s.conns[id].key}) else s, t);
    case CleanerTick(readings) => EvictInv(s, Stale(ttl, s, readings));
    case CloseClear =>
      EvictInv(s, s.live.Keys);
      SameSessions(Evict(s, s.live.Keys), t);
    case _ => SameSessions(s, t);
  }

  lemma SameSessions(s: State, t: State)
    requires Inv(s) && t.live == s.live && t.conns == s.conns && |t.readers| == |s.readers|
    ensures Inv(t)
  {
    forall i: nat | i < |t.conns| ensures OpenXorClosed(t, i) { assert OpenXorClosed(s, i); }
  }

  lemma {:induction false} RunInv(ttl: int, s: State, ops: seq<Op>, t: State)
    requires Inv(s) && Run(ttl, s, ops, t)
    ensures Inv(t)
    decreases |ops|
  {
    if ops != [] {
      StepInv(ttl, s, ops[0]);
      RunInv(ttl, Step(ttl, s, ops[0]), ops[1..], t);
    }
  }

  /** In every interleaving each session is open and stored, or closed exactly once and absent,
      and no key has two open sessions. */
  lemma SessionsOpenXorClosed(ttl: int, ops: seq<Op>, t: State)
    requires Run(ttl, INIT, ops, t)
    ensures forall i: nat | i < |t.conns| :: OpenXorClosed(t, i)
    ensures forall i: nat, j: nat | i < |t.conns| && j < |t.conns| ::
              t.conns[i].key == t.conns[j].key && t.conns[i].closes == 0 == t.conns[j].closes ==> i == j
  {
    RunInv(ttl, INIT, ops, t);
    forall i: nat, j: nat | i < |t.conns| && j < |t.conns|
      ensures t.conns[i].key == t.conns[j].key && t.conns[i].closes == 0 == t.conns[j].closes ==> i == j
    {
      assert OpenXorClosed(t, i) && OpenXorClosed(t, j);
    }
  }

  /** A reader that fails after its session was replaced or removed touches nobody's session;
      otherwise it closes its own and no other. */
  lemma FailingReaderClosesOnlyItsOwn(ttl: int, s: State, id: nat)
    requires Inv(s) && CanStep(s, ReaderFail(id))
    ensures var t := Step(ttl, s, ReaderFail(id));
            && |t.conns| == |s.conns|
            && (!Stored(s, id) ==> t.live == s.live && t.conns == s.conns)
            && (forall j: nat | j < |s.conns| && j != id ::
                  t.conns[j] == s.conns[j] && (Stored(t, j) <==> Stored(s, j)))
            && t.conns[id].closes == 1
  {
    EvictInv(s, {s.conns[id].key});
    assert OpenXorClosed(s, id);
    var ids := set k | k in {s.conns[id].key} && k in s.live :: s.live[k];
    assert Stored(s, id) ==> ids == {id};
  }

  /** A cleaner tick removes exactly the stored sessions that were idle for longer than the TTL when it looked. */
  lemma TickRemovesIdle(ttl: int, s: State, readings: map<Key, int>)
    requires Inv(s) && CanStep(s, CleanerTick(readings))
    ensures var t := Step(ttl, s, CleanerTick(readings));
            && |t.conns| == |s.conns|
            && forall i: nat | i < |s.conns| ::
                 Stored(t, i) <==> Stored(s, i) && readings[s.conns[i].key] - s.conns[i].lastUsed <= ttl
  {
    EvictInv(s, Stale(ttl, s, readings));
    forall i: nat | i < |s.conns| && Stored(s, i)
      ensures s.conns[i].key in Stale(ttl, s, readings) <==> readings[s.conns[i].key] - s.conns[i].lastUsed > ttl
    {}
  }

  /** When the history last saw a packet of the client. */
  function LastPacket(ops: seq<Op>, key: Key): Option<int>
  {
    if ops == [] then None
    else
      var last := ops[|ops| - 1];
      if last.GetOrCreate? && last.key == key then Some(last.now) else LastPacket(ops[..|ops| - 1], key)
  }

  /** Every stored session was last used by the last packet of its client. */
  ghost predicate Stamped(s: State, hist: seq<Op>)
  {
    forall k <- s.live :: s.live[k] < |s.conns| && LastPacket(hist, k) == Some(s.conns[s.live[k]].lastUsed)
  }

  lemma PacketSnoc(hist: seq<Op>, op: Op, key: Key)
    ensures LastPacket(hist + [op], key) ==
            if op.GetOrCreate? && op.key == key then Some(op.now) else LastPacket(hist, key)
  {
    assert (hist + [op])[..|hist|] == hist;
  }

  lemma StepStamped(ttl: int, s: State, hist: seq<Op>, op: Op)
    requires Inv(s) && CanStep(s, op) && Stamped(s, hist)
    ensures Stamped(Step(ttl, s, op), hist + [op])
  {
    hide LastPacket, OpenXorClosed;
    var t := Step(ttl, s, op);
    forall k | k in t.live
      ensures t.live[k] < |t.conns| && LastPacket(hist + [op], k) == Some(t.conns[t.live[k]].lastUsed)
    {
      PacketSnoc(hist, op, k);
    }
  }

  lemma {:induction false} RunStamped(ttl: int, s: State, hist: seq<Op>, ops: seq<Op>, t: State)
    requires Inv(s) && Stamped(s, hist) && Run(ttl, s, ops, t)
    ensures Stamped(t, hist + ops)
    decreases |ops|
  {
    hide Inv, Stamped, Step, CanStep;
    if ops == [] {
      assert hist + [] == hist;
    } else {
      StepInv(ttl, s, ops[0]);
      StepStamped(ttl, s, hist, ops[0]);
      RunStamped(ttl, Step(ttl, s, ops[0]), hist + [ops[0]], ops[1..], t);
      assert hist + [ops[0]] + ops[1..] == hist + ops;
    }
  }

  /** In every run, a tick keeps exactly the sessions whose client sent a packet within the TTL before the tick looked
      at them, and closes the others. */
  lemma TickKeepsUsed(ttl: int, hist: seq<Op>, s: State, readings: map<Key, int>)
    requires Run(ttl, INIT, hist, s) && CanStep(s, CleanerTick(readings))
    ensures var t := Step(ttl, s, CleanerTick(readings));
            forall k <- s.live ::
              && LastPacket(hist, k).Some?
              && (k in t.live <==> readings[k] - LastPacket(hist, k).value <= ttl)
              && s.live[k] < |t.conns|
              && t.conns[s.live[k]].closes == (if k in t.live then 0 else 1)
  {
    RunInv(ttl, INIT, hist, s);
    RunStamped(ttl, INIT, [], hist, s);
    assert [] + hist == hist;
    TickRemovesIdle(ttl, s, readings);
    StepInv(ttl, s, CleanerTick(readings));
    hide LastPacket, Run;
    var t := Step(ttl, s, CleanerTick(readings));
    forall k | k in s.live ensures k in t.live <==> readings[k] - LastPacket(hist, k).value <= ttl {
      assert Stored(s, s.live[k]);
    }
    forall k | k in s.live ensures t.conns[s.live[k]].closes == (if k in t.live then 0 else 1) {
      assert OpenXorClosed(t, s.live[k]);
    }
  }

  /** A packet of a client with a session is served by that session; of one without, by a new session if dialling
      works, and otherwise nothing changes. No other session is touched. */
  lemma PacketServed(ttl: int, s: State, key: Key, now: int, dials: bool)
    requires Inv(s)
    ensures var t := Step(ttl, s, GetOrCreate(key, now, dials));
            && (key in s.live ==> t.live == s.live && |t.conns| == |s.conns|)
            && (key !in s.live && dials ==>
                  t.live == s.live[key := |s.conns|] && |t.conns| == |s.conns| + 1
                  && t.conns[|s.conns|] == Conn(key, now, 0) && t.readers == s.readers + [AtCheck])
            && (key !in s.live && !dials ==> t == s)
            && (forall i: nat | i < |s.conns| && !(key in s.live && i == s.live[key]) :: t.conns[i] == s.conns[i])
  {}

  /** A session whose reader starts before `done` is closed can always come to its end: the reader begins a read, and
      when that fails the session is closed and gone. */
  lemma ReaderCanEnd(ttl: int, s: State, i: nat)
    requires Inv(s) && !Done(s) && i < |s.conns| && Stored(s, i) && s.readers[i] == AtCheck
    ensures CanStep(s, ReaderCheck(i)) && CanStep(Step(ttl, s, ReaderCheck(i)), ReaderFail(i))
    ensures var t := Step(ttl, Step(ttl, s, ReaderCheck(i)), ReaderFail(i));
            |t.conns| == |s.conns| && !Stored(t, i) && t.conns[i].closes == 1 && t.readers[i] == Exited
  {
    var s1 := Step(ttl, s, ReaderCheck(i));
    StepInv(ttl, s, ReaderCheck(i));
    FailingReaderClosesOnlyItsOwn(ttl, s1, i);
    StepInv(ttl, s1, ReaderFail(i));
    assert OpenXorClosed(Step(ttl, s1, ReaderFail(i)), i);
  }

  // ---- Closing ----

  lemma StepKeeps(ttl: int, s: State, op: Op)
    requires Inv(s) && CanStep(s, op)
    ensures var t := Step(ttl, s, op);
            && |s.conns| <= |t.conns|
            && (forall i: nat | i < |s.conns| ::
                  t.conns[i].key == s.conns[i].key && (s.conns[i].closes == 1 ==> t.conns[i].closes == 1))
            && (s.phase == Cleared ==> t.phase == Cleared)
            && (!s.cleaner ==> !t.cleaner)
  {
    var t := Step(ttl, s, op);
    StepInv(ttl, s, op);
    forall i: nat | i < |s.conns|
      ensures t.conns[i].key == s.conns[i].key && (s.conns[i].closes == 1 ==> t.conns[i].closes == 1)
    {
      assert OpenXorClosed(s, i) && OpenXorClosed(t, i);
    }
  }

  lemma {:induction false} RunKeeps(ttl: int, s: State, ops: seq<Op>, t: State)
    requires Inv(s) && Run(ttl, s, ops, t)
    ensures |s.conns| <= |t.conns|
    ensures forall i: nat | i < |s.conns| ::
              t.conns[i].key == s.conns[i].key && (s.conns[i].closes == 1 ==> t.conns[i].closes == 1)
    decreases |ops|
  {
    if ops != [] {
      StepKeeps(ttl, s, ops[0]);
      StepInv(ttl, s, ops[0]);
      RunKeeps(ttl, Step(ttl, s, ops[0]), ops[1..], t);
    }
  }

  /** Everything created before the map was cleared is closed, exactly once, for good. */
  lemma ClosedForGood(ttl: int, s: State, ops: seq<Op>, t: State)
    requires Inv(s) && CanStep(s, CloseClear) && Run(ttl, Step(ttl, s, CloseClear), ops, t)
    ensures |s.conns| <= |t.conns|
    ensures forall i: nat | i < |s.conns| :: t.conns[i].closes == 1 && !Stored(t, i)
  {
    var c := Step(ttl, s, CloseClear);
    StepInv(ttl, s, CloseClear);
    EvictInv(s, s.live.Keys);
    RunInv(ttl, c, ops, t);
    RunKeeps(ttl, c, ops, t);
    forall i: nat | i < |s.conns| ensures t.conns[i].closes == 1 && !Stored(t, i) {
      assert OpenXorClosed(c, i) && OpenXorClosed(t, i);
    }
  }

  ghost predicate ClosesBy(ttl: int, s: State, ops: seq<Op>, t: State, i: nat)
  {
    Run(ttl, s, ops, t) && i < |t.conns| && t.conns[i].closes == 1
  }

  /** An open session can still be closed exactly while the map is not cleared, the cleaner has not left, or the
      session's reader is in a read. */
  lemma ClosesIff(ttl: int, s: State, i: nat)
    requires Inv(s) && i < |s.conns| && Stored(s, i)
    ensures (exists ops, t :: ClosesBy(ttl, s, ops, t, i)) <==>
            s.phase != Cleared || s.cleaner || s.readers[i] == Reading
  {
    hide ClosesBy;
    if s.readers[i] == Reading {
      ClosedByReader(ttl, s, i);
    } else if s.cleaner {
      ClosedByCleaner(ttl, s, i);
    } else if s.phase != Cleared {
      ClosedByClose(ttl, s, i);
    } else {
      forall ops, t ensures !ClosesBy(ttl, s, ops, t, i) {
        NotClosedBy(ttl, s, ops, t, i);
      }
    }
  }

  lemma OneStep(ttl: int, s: State, op: Op, i: nat)
    requires CanStep(s, op)
    ensures var t := Step(ttl, s, op); i < |t.conns| && t.conns[i].closes == 1 ==> ClosesBy(ttl, s, [op], t, i)
  {
    hide Step, CanStep;
    var t := Step(ttl, s, op);
    assert [op][1..] == [];
    assert Run(ttl, t, [], t);
  }

  lemma ClosedByReader(ttl: int, s: State, i: nat)
    requires Inv(s) && i < |s.conns| && s.readers[i] == Reading
    ensures ClosesBy(ttl, s, [ReaderFail(i)], Step(ttl, s, ReaderFail(i)), i)
  {
    FailingReaderClosesOnlyItsOwn(ttl, s, i);
    OneStep(ttl, s, ReaderFail(i), i);
  }

  /** The cleaner may take one more tick, even after `done` was closed. */
  lemma ClosedByCleaner(ttl: int, s: State, i: nat)
    requires Inv(s) && i < |s.conns| && Stored(s, i) && s.cleaner
    ensures exists ops, t :: ClosesBy(ttl, s, ops, t, i)
  {
    var readings := map k | k in s.live :: s.conns[i].lastUsed + ttl + 1;
    var op := CleanerTick(readings);
    TickRemovesIdle(ttl, s, readings);
    StepInv(ttl, s, op);
    assert OpenXorClosed(Step(ttl, s, op), i);
    OneStep(ttl, s, op, i);
  }

  lemma ClosedByClose(ttl: int, s: State, i: nat)
    requires Inv(s) && i < |s.conns| && Stored(s, i) && s.phase != Cleared
    ensures exists ops, t :: ClosesBy(ttl, s, ops, t, i)
  {
    var s1 := Step(ttl, s, CloseBegin);
    StepInv(ttl, s, CloseBegin);
    var t := Step(ttl, s1, CloseClear);
    ClosedForGood(ttl, s1, [], t);
    assert [CloseBegin, CloseClear][1..] == [CloseClear] && [CloseClear][1..] == [];
    assert ClosesBy(ttl, s, [CloseBegin, CloseClear], t, i);
  }

  lemma NotClosedBy(ttl: int, s: State, ops: seq<Op>, t: State, i: nat)
    requires Inv(s) && s.phase == Cleared && !s.cleaner && i < |s.conns| && Stored(s, i) && s.readers[i] != Reading
    ensures !ClosesBy(ttl, s, ops, t, i)
  {
    if Run(ttl, s, ops, t) {
      Unclosable(ttl, s, ops, t, i);
    }
  }

  lemma {:induction false} Unclosable(ttl: int, s: State, ops: seq<Op>, t: State, i: nat)
    requires Inv(s) && s.phase == Cleared && !s.cleaner && i < |s.conns| && Stored(s, i)
    requires s.readers[i] != Reading && Run(ttl, s, ops, t)
    ensures i < |t.conns| && Stored(t, i) && t.conns[i].closes == 0
    decreases |ops|
  {
    if ops == [] {
      assert OpenXorClosed(s, i);
    } else {
      UnclosableStep(ttl, s, ops[0], i);
      Unclosable(ttl, Step(ttl, s, ops[0]), ops[1..], t, i);
    }
  }

  lemma UnclosableStep(ttl: int, s: State, op: Op, i: nat)
    requires Inv(s) && s.phase == Cleared && !s.cleaner && i < |s.conns| && Stored(s, i)
    requires s.readers[i] != Reading && CanStep(s, op)
    ensures var t := Step(ttl, s, op);
            Inv(t) && t.phase == Cleared && !t.cleaner && i < |t.conns| && Stored(t, i) && t.readers[i] != Reading
  {
    StepInv(ttl, s, op);
    if op.ReaderFail? {
      FailingReaderClosesOnlyItsOwn(ttl, s, op.id);
    }
  }

  // ---- Sessions created after the map was cleared ----

  /** Once the map is cleared, no open session has a reader that got past its `done` check. */
  predicate LateReadersAtCheck(s: State)
  {
    s.phase == Cleared ==>
      forall i: nat | i < |s.conns| && i < |s.readers| && Stored(s, i) :: s.readers[i] != Reading
  }

  lemma LateReadersStep(ttl: int, s: State, op: Op)
    requires Inv(s) && CanStep(s, op) && LateReadersAtCheck(s)
    ensures LateReadersAtCheck(Step(ttl, s, op))
  {
    if op.ReaderFail? {
      FailingReaderClosesOnlyItsOwn(ttl, s, op.id);
    } else if op.CleanerTick? {
      EvictInv(s, Stale(ttl, s, op.readings));
    } else if op.CloseClear? {
      EvictInv(s, s.live.Keys);
    }
  }

  lemma {:induction false} LateReaders(ttl: int, s: State, ops: seq<Op>, t: State)
    requires Inv(s) && LateReadersAtCheck(s) && Run(ttl, s, ops, t)
    ensures LateReadersAtCheck(t)
    decreases |ops|
  {
    hide Inv, LateReadersAtCheck, Step, CanStep;
    if ops != [] {
      StepInv(ttl, s, ops[0]);
      LateReadersStep(ttl, s, ops[0]);
      LateReaders(ttl, Step(ttl, s, ops[0]), ops[1..], t);
    }
  }

  /** In every run, a session that is open once the map was cleared can still be closed exactly while the cleaner
      has not left: its next tick may take it, its own reader never will. */
  lemma LateSessionClosesIff(ttl: int, hist: seq<Op>, s: State, i: nat)
    requires Run(ttl, INIT, hist, s) && s.phase == Cleared && i < |s.conns| && Stored(s, i)
    ensures i < |s.readers| && s.readers[i] != Reading
    ensures (exists ops, t :: ClosesBy(ttl, s, ops, t, i)) <==> s.cleaner
  {
    RunInv(ttl, INIT, hist, s);
    LateReaders(ttl, INIT, hist, s);
    ClosesIff(ttl, s, i);
  }

  /** And once the cleaner has left it stays open and stored for good. */
  lemma LateSessionStays(ttl: int, hist: seq<Op>, s: State, ops: seq<Op>, t: State, i: nat)
    requires Run(ttl, INIT, hist, s) && s.phase == Cleared && !s.cleaner && i < |s.conns| && Stored(s, i)
    requires Run(ttl, s, ops, t)
    ensures i < |t.conns| && Stored(t, i) && t.conns[i].closes == 0
  {
    RunInv(ttl, INIT, hist, s);
    LateReaders(ttl, INIT, hist, s);
    Unclosable(ttl, s, ops, t, i);
  }

  /** A packet that arrives after the rule was stopped and the cleaner left leaves a session open for good. */
  lemma PacketAfterClose(ttl: int, key: Key, now: int)
    ensures var ops := [CloseBegin, CloseClear, CleanerExit, GetOrCreate(key, now, true)];
            exists t :: Run(ttl, INIT, ops, t) && key in t.live
              && forall more, u :: Run(ttl, t, more, u) ==> key in u.live
  {
    var ops := [CloseBegin, CloseClear, CleanerExit, GetOrCreate(key, now, true)];
    var s1 := Step(ttl, INIT, CloseBegin);
    var s2 := Step(ttl, s1, CloseClear);
    var s3 := Step(ttl, s2, CleanerExit);
    var t := Step(ttl, s3, ops[3]);
    assert ops[1..][1..][1..] == [ops[3]];
    assert Run(ttl, s3, [ops[3]], t) by { assert [ops[3]][1..] == []; }
    assert Run(ttl, INIT, ops, t);
    RunInv(ttl, INIT, ops, t);
    forall more, u | Run(ttl, t, more, u) ensures key in u.live {
      LateSessionStays(ttl, ops, t, more, u, 0);
      RunKeeps(ttl, t, more, u);
    }
  }
}
