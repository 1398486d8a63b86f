/** Overlapping handlers of forwarding rules. A handler changes the database statement by statement and then
    publishes an event; the event reads the row, without any lock, and reloads or removes the rule under the engine's
    lock. The watchdog reads all rows and makes its pass likewise. Each of these is a step of its own. */
module ForwardEvents {
  import opened Wrappers
  import opened ForwardRules

  /** What an event handler or a watchdog pass has in hand. */
  datatype Task =
    | Announced(id: string)      // created or updated; the row is yet to be read
    | Loaded(rule: Rule)         // the reload is due
    | Deleting(id: string)       // the removal is due
    | Snapshot(rows: seq<Rule>)  // the pass is due
    | Finished

  datatype System = System(db: Table, engine: Engine, tasks: seq<Task>)

  /** Reading is three statements, so what is read need not be one state of the row. */
  datatype Move =
    | Write(id: string, row: Option<Rule>)        // one statement on a row
    | Announce(id: string)
    | AnnounceDeletion(id: string)
    | Load(task: nat, read: Option<Rule>)
    | ReadRows(rows: seq<Rule>)
    | Apply(task: nat)                            // the section under the engine's lock

  function Lookup(db: Table, id: string): Option<Rule>
  {
    if id in db then Some(db[id]) else None
  }

  predicate Due(t: Task) { t.Loaded? || t.Deleting? || t.Snapshot? }

  predicate CanMove(s: System, m: Move)
  {
    match m
    case Write(id, row) => row.Some? ==> row.value.id == id
    case Load(k, read) =>
      k < |s.tasks| && s.tasks[k].Announced? && (read.Some? ==> read.value.id == s.tasks[k].id)
    case ReadRows(rows) => DistinctIds(rows)
    case Apply(k) => k < |s.tasks| && Due(s.tasks[k])
    case _ => true
  }

  function Applied(e: Engine, t: Task): Engine
  {
    match t
    case Loaded(r) => Reload(e, r)
    case Deleting(id) => Remove(e, id)
    case Snapshot(rows) => Watchdog(e, rows)
    case _ => e
  }

  function Next(s: System, m: Move): System
    requires CanMove(s, m)
  {
    match m
    case Write(id, row) => s.(db := if row.Some? then s.db[id := row.value] else s.db - {id})
    case Announce(id) => s.(tasks := s.tasks + [Announced(id)])
    case AnnounceDeletion(id) => s.(tasks := s.tasks + [Deleting(id)])
    case Load(k, read) => s.(tasks := s.tasks[k := if read.Some? then Loaded(read.value) else Finished])
    case ReadRows(rows) => s.(tasks := s.tasks + [Snapshot(rows)])
    case Apply(k) => s.(engine := Applied(s.engine, s.tasks[k]), tasks := s.tasks[k := Finished])
  }

  predicate CanRun(s: System, ms: seq<Move>)
    decreases |ms|
  {
    ms == [] || (CanMove(s, ms[0]) && CanRun(Next(s, ms[0]), ms[1..]))
  }

  function After(s: System, ms: seq<Move>): System
    requires CanRun(s, ms)
    decreases |ms|
  {
    if ms == [] then s else After(Next(s, ms[0]), ms[1..])
  }

  // ---- What every interleaving keeps ----

  /** The engine's table is well formed, rows carry their IDs and snapshots have every row once. */
  ghost predicate Sound(s: System)
  {
    && WellFormed(s.engine)
    && (forall id <- s.db :: s.db[id].id == id)
    && (forall t <- s.tasks :: t.Snapshot? ==> DistinctIds(t.rows))
  }

  lemma AppliedWellFormed(e: Engine, t: Task)
    requires WellFormed(e) && (t.Snapshot? ==> DistinctIds(t.rows))
    ensures WellFormed(Applied(e, t))
  {
    match t
    case Loaded(r) => ReloadWellFormed(e, r);
    case Deleting(id) => RemoveWellFormed(e, id);
    case Snapshot(rows) => WatchdogAgrees(e, rows);
    case _ =>
  }

  lemma MoveSound(s: System, m: Move)
    requires Sound(s) && CanMove(s, m)
    ensures Sound(Next(s, m))
  {
    hide WellFormed, DistinctIds, Applied;
    if m.Apply? {
      assert s.tasks[m.task] in s.tasks;
      AppliedWellFormed(s.engine, s.tasks[m.task]);
    }
  }

  /** However handlers, events and watchdog passes interleave, the table points at live instances of the right rules
      and every other instance has been cancelled. */
  lemma {:induction false} AlwaysSound(s: System, ms: seq<Move>)
    requires Sound(s) && CanRun(s, ms)
    ensures Sound(After(s, ms))
    decreases |ms|
  {
    hide Sound, CanMove, Next;
    if ms != [] {
      MoveSound(s, ms[0]);
      AlwaysSound(Next(s, ms[0]), ms[1..]);
    }
  }

  // ---- What the engine shows ----

  /** The rule that runs under an ID. */
  function Shown(e: Engine, id: string): Option<Rule>
  {
    if id in e.rules && e.rules[id] < |e.insts| then Some(Running(e, id)) else None
  }

  /** What a row asks for. */
  function Wanted(row: Option<Rule>): Option<Rule>
  {
    if row.Some? && row.value.enabled then row else None
  }

  function RowOf(rows: seq<Rule>, id: string): Option<Rule>
  {
    if rows == [] then None
    else if rows[|rows| - 1].id == id then Some(rows[|rows| - 1])
    else RowOf(rows[..|rows| - 1], id)
  }

  lemma {:induction false} RowOfIs(rows: seq<Rule>, id: string)
    requires DistinctIds(rows)
    ensures RowOf(rows, id).Some? ==> RowOf(rows, id).value in rows && RowOf(rows, id).value.id == id
    ensures forall r <- rows | r.id == id :: RowOf(rows, id) == Some(r)
  {
    if rows != [] {
      RowOfIs(rows[..|rows| - 1], id);
      assert rows == rows[..|rows| - 1] + [rows[|rows| - 1]];
    }
  }

  /** The row, possibly an absent one, that a task puts into force for `id`; a watchdog pass does so only when the
      row's flag and the table disagree. */
  function Enforced(e: Engine, t: Task, id: string): Option<Option<Rule>>
  {
    match t
    case Loaded(r) => if r.id == id then Some(Some(r)) else None
    case Deleting(i) => if i == id then Some(None) else None
    case Snapshot(rows) =>
      var row := RowOf(rows, id);
      if row.Some? && row.value.enabled != (id in e.rules) then Some(row) else None
    case _ => None
  }

  function EnforcedBy(s: System, m: Move, id: string): Option<Option<Rule>>
  {
    if m.Apply? && m.task < |s.tasks| then Enforced(s.engine, s.tasks[m.task], id) else None
  }

  lemma WatchdogShows(e: Engine, rows: seq<Rule>, id: string)
    requires WellFormed(e) && DistinctIds(rows)
    ensures Shown(Watchdog(e, rows), id) ==
            match Enforced(e, Snapshot(rows), id) case Some(row) => Wanted(row) case None => Shown(e, id)
  {
    hide WellFormed, DistinctIds, Watchdog;
    WatchdogAgrees(e, rows);
    RowOfIs(rows, id);
    TableFacts(e);
    TableFacts(Watchdog(e, rows));
    if RowOf(rows, id).None? {
      assert forall r <- rows :: r.id != id;
    }
    RunsUnderItsId(Watchdog(e, rows), id);
  }

  lemma RunsUnderItsId(e: Engine, id: string)
    requires WellFormed(e)
    ensures Shown(e, id).Some? ==> Shown(e, id).value.id == id
  {}

  lemma AppliedShows(e: Engine, t: Task, id: string)
    requires WellFormed(e) && (t.Snapshot? ==> DistinctIds(t.rows))
    ensures Shown(Applied(e, t), id) ==
            match Enforced(e, t, id) case Some(row) => Wanted(row) case None => Shown(e, id)
  {
    hide WellFormed, DistinctIds, Watchdog, Reload, Remove;
    TableFacts(e);
    match t
    case Loaded(r) =>
      ReloadWellFormed(e, r);
      TableFacts(Reload(e, r));
    case Deleting(i) =>
      RemoveWellFormed(e, i);
      TableFacts(Remove(e, i));
    case Snapshot(rows) => WatchdogShows(e, rows, id);
    case _ =>
  }

  lemma MoveShows(s: System, m: Move, id: string)
    requires Sound(s) && CanMove(s, m)
    ensures Shown(Next(s, m).engine, id) ==
            match EnforcedBy(s, m, id) case Some(row) => Wanted(row) case None => Shown(s.engine, id)
  {
    hide WellFormed, DistinctIds, Shown, Enforced, Applied;
    if m.Apply? {
      assert s.tasks[m.task] in s.tasks;
      AppliedShows(s.engine, s.tasks[m.task], id);
    }
  }

  /** The row that was last put into force for `id`. */
  function LastEnforced(s: System, ms: seq<Move>, id: string): Option<Option<Rule>>
    requires CanRun(s, ms)
    decreases |ms|
  {
    if ms == [] then None
    else
      var later := LastEnforced(Next(s, ms[0]), ms[1..], id);
      if later.Some? then later else EnforcedBy(s, ms[0], id)
  }

  /** In every interleaving, what runs under an ID is what the row last put into force asked for. */
  lemma {:induction false} LastEnforcedShows(s: System, ms: seq<Move>, id: string)
    requires Sound(s) && CanRun(s, ms)
    ensures Shown(After(s, ms).engine, id) ==
            match LastEnforced(s, ms, id) case Some(row) => Wanted(row) case None => Shown(s.engine, id)
    decreases |ms|
  {
    hide Sound, CanMove, Next, Shown, Wanted, EnforcedBy;
    if ms != [] {
      MoveSound(s, ms[0]);
      MoveShows(s, ms[0], id);
      LastEnforcedShows(Next(s, ms[0]), ms[1..], id);
    }
  }

  // ---- When the engine is in step ----

  ghost predicate SystemInStep(s: System)
  {
    InStep(World(s.db, s.engine))
  }

  lemma ShownIff(s: System)
    requires Sound(s)
    ensures SystemInStep(s) <==> forall id :: Shown(s.engine, id) == Wanted(Lookup(s.db, id))
  {
    TableFacts(s.engine);
    if forall id :: Shown(s.engine, id) == Wanted(Lookup(s.db, id)) {
      forall id ensures id in s.engine.rules <==> id in s.db && s.db[id].enabled {
        assert Shown(s.engine, id) == Wanted(Lookup(s.db, id));
      }
      forall id | id in s.engine.rules ensures Running(s.engine, id) == s.db[id] {
        assert Shown(s.engine, id) == Wanted(Lookup(s.db, id));
      }
    }
  }

  /** The row of `id` asks for what the row last put into force asked for, or, if none was, for what the row asked for
      at the beginning. */
  predicate UpToDate(s: System, ms: seq<Move>, id: string)
    requires CanRun(s, ms)
  {
    Wanted(Lookup(After(s, ms).db, id)) ==
    match LastEnforced(s, ms, id) case Some(row) => Wanted(row) case None => Wanted(Lookup(s.db, id))
  }

  /** After any interleaving that begins in step, the engine is in step exactly when every ID is up to date. */
  lemma InStepIff(s: System, ms: seq<Move>)
    requires Sound(s) && SystemInStep(s) && CanRun(s, ms)
    ensures SystemInStep(After(s, ms)) <==> forall id :: UpToDate(s, ms, id)
  {
    hide Sound, SystemInStep, CanRun, After, LastEnforced, Shown, Wanted, Lookup;
    AlwaysSound(s, ms);
    ShownIff(s);
    ShownIff(After(s, ms));
    forall id
      ensures UpToDate(s, ms, id) <==> Shown(After(s, ms).engine, id) == Wanted(Lookup(After(s, ms).db, id))
    {
      LastEnforcedShows(s, ms, id);
    }
  }

  // ---- Handlers that overlap only on different rules ----

  predicate NoWrite(ms: seq<Move>, id: string)
  {
    forall i | 0 <= i < |ms| :: !(ms[i].Write? && ms[i].id == id)
  }

  lemma {:induction false} RunConcat(s: System, ms: seq<Move>, ns: seq<Move>)
    ensures CanRun(s, ms + ns) <==> CanRun(s, ms) && CanRun(After(s, ms), ns)
    ensures CanRun(s, ms + ns) ==> After(s, ms + ns) == After(After(s, ms), ns)
    decreases |ms|
  {
    hide Next, CanMove;
    if ms == [] {
      assert [] + ns == ns;
    } else {
      assert (ms + ns)[1..] == ms[1..] + ns;
      if CanMove(s, ms[0]) {
        RunConcat(Next(s, ms[0]), ms[1..], ns);
      }
    }
  }

  lemma {:induction false} RowStays(s: System, ms: seq<Move>, id: string)
    requires CanRun(s, ms) && NoWrite(ms, id)
    ensures Lookup(After(s, ms).db, id) == Lookup(s.db, id)
    decreases |ms|
  {
    if ms != [] {
      hide Applied;
      RowStays(Next(s, ms[0]), ms[1..], id);
    }
  }

  /** A loaded row stays in hand until it is applied. */
  lemma {:induction false} TaskStays(s: System, ms: seq<Move>, k: nat)
    requires CanRun(s, ms) && k < |s.tasks| && s.tasks[k].Loaded? && Apply(k) !in ms
    ensures k < |After(s, ms).tasks| && After(s, ms).tasks[k] == s.tasks[k]
    decreases |ms|
  {
    if ms != [] {
      hide Applied;
      assert ms[0] in ms;
      TaskStays(Next(s, ms[0]), ms[1..], k);
    }
  }

  lemma Unroll(s: System, m: Move, ms: seq<Move>)
    ensures CanRun(s, [m] + ms) <==> CanMove(s, m) && CanRun(Next(s, m), ms)
    ensures CanRun(s, [m] + ms) ==> After(s, [m] + ms) == After(Next(s, m), ms)
  {
    hide Next, CanMove;
    assert ([m] + ms)[1..] == ms;
  }

  lemma RowsCarryIds(s: System, id: string)
    requires Sound(s) && id in s.db
    ensures s.db[id].id == id
  {}

  /** A rule is right if an event that read its row as it was put it into force, and since the reading nobody wrote
      the row and since then nothing else was put into force. Handlers of other rules may overlap in any way. */
  lemma LatestLoadShows(s: System, k: nat, between: seq<Move>, after: seq<Move>, id: string)
    requires Sound(s) && id in s.db
    requires k < |s.tasks| && s.tasks[k] == Announced(id)
    requires var loaded := Next(s, Load(k, Some(s.db[id])));
             && CanRun(loaded, between) && CanMove(After(loaded, between), Apply(k))
             && var applied := Next(After(loaded, between), Apply(k));
                CanRun(applied, after) && LastEnforced(applied, after, id) == None
    requires NoWrite(between, id) && NoWrite(after, id) && Apply(k) !in between
    ensures var ms := [Load(k, Some(s.db[id]))] + (between + ([Apply(k)] + after));
            && CanRun(s, ms)
            && Shown(After(s, ms).engine, id) == Wanted(Lookup(After(s, ms).db, id))
  {
    hide Sound, CanRun, After, LastEnforced, Shown, Wanted, NoWrite, Applied;
    var load := Load(k, Some(s.db[id]));
    RowsCarryIds(s, id);
    MoveSound(s, load);
    var s1 := Next(s, load);
    AlwaysSound(s1, between);
    TaskStays(s1, between, k);
    RowStays(s1, between, id);
    var s2 := After(s1, between);
    MoveSound(s2, Apply(k));
    MoveShows(s2, Apply(k), id);
    var s3 := Next(s2, Apply(k));
    LastEnforcedShows(s3, after, id);
    RowStays(s3, after, id);
    Unroll(s2, Apply(k), after);
    RunConcat(s1, between, [Apply(k)] + after);
    Unroll(s, load, between + ([Apply(k)] + after));
  }

  // ---- Handlers that do not overlap at all ----

  /** The moves of one whole handler with its event, or of one whole pass; its task is number `k`. */
  function MovesOf(db: Table, op: Op, k: nat): seq<Move>
  {
    match op
    case Create(r, stored) => if stored then Replace(r, k) else []
    case Update(id, r, stored) =>
      if !stored then []
      else if id in db then Replace(r.(id := id, tenantId := db[id].tenantId, ownerId := db[id].ownerId), k)
      else [Announce(id), Load(k, None)]
    case Delete(id, stored) =>
      (if stored then [Write(id, None)] else []) + [AnnounceDeletion(id), Apply(k)]
    case WatchdogPass(rows) => [ReadRows(rows), Apply(k)]
  }

  function Replace(r: Rule, k: nat): seq<Move>
  {
    [Write(r.id, Some(r)), Announce(r.id), Load(k, Some(r)), Apply(k)]
  }

  /** Taken one after the other, the moves of a handler amount to its step in `ForwardRules`. */
  lemma SerialHandler(s: System, op: Op)
    requires op.WatchdogPass? ==> DistinctIds(op.rows)
    ensures var ms := MovesOf(s.db, op, |s.tasks|);
            CanRun(s, ms) && World(After(s, ms).db, After(s, ms).engine) == Step(World(s.db, s.engine), op)
  {
    hide Reload, Remove, Watchdog, DistinctIds;
    var k := |s.tasks|;
    match op
    case Create(r, stored) => ReplaceRuns(s, r);
    case Update(id, r, stored) =>
      if id in s.db {
        ReplaceRuns(s, r.(id := id, tenantId := s.db[id].tenantId, ownerId := s.db[id].ownerId));
      } else {
        TwoMoves(s, Announce(id), Load(k, None));
      }
    case Delete(id, stored) =>
      var s1 := if stored then Next(s, Write(id, None)) else s;
      TwoMoves(s1, AnnounceDeletion(id), Apply(k));
      Unroll(s, Write(id, None), [AnnounceDeletion(id), Apply(k)]);
      assert [] + [AnnounceDeletion(id), Apply(k)] == [AnnounceDeletion(id), Apply(k)];
    case WatchdogPass(rows) =>
      TwoMoves(s, ReadRows(rows), Apply(k));
  }

  lemma TwoMoves(s: System, m: Move, n: Move)
    requires CanMove(s, m) && CanMove(Next(s, m), n)
    ensures CanRun(s, [m, n]) && After(s, [m, n]) == Next(Next(s, m), n)
  {
    hide Next, CanMove;
    assert [m, n] == [m] + ([n] + []);
    Unroll(s, m, [n] + []);
    Unroll(Next(s, m), n, []);
    assert CanRun(Next(Next(s, m), n), []);
  }

  lemma ReplaceRuns(s: System, r: Rule)
    ensures var ms := Replace(r, |s.tasks|);
            && CanRun(s, ms)
            && After(s, ms) == System(s.db[r.id := r], Reload(s.engine, r), s.tasks + [Finished])
  {
    hide Reload;
    var k := |s.tasks|;
    var s1 := Next(s, Write(r.id, Some(r)));
    var s2 := Next(s1, Announce(r.id));
    TwoMoves(s, Write(r.id, Some(r)), Announce(r.id));
    TwoMoves(s2, Load(k, Some(r)), Apply(k));
    RunConcat(s, [Write(r.id, Some(r)), Announce(r.id)], [Load(k, Some(r)), Apply(k)]);
    assert Replace(r, k) == [Write(r.id, Some(r)), Announce(r.id)] + [Load(k, Some(r)), Apply(k)];
  }

  // ---- What a request achieves ----

  /** The contents a client may choose: all but the rule's ID, tenant and owner. */
  predicate SameContents(a: Rule, b: Rule)
  {
    && a.name == b.name && a.protocol == b.protocol
    && a.listenAddr == b.listenAddr && a.listenPort == b.listenPort
    && a.targetAddr == b.targetAddr && a.targetPort == b.targetPort
    && a.enableIPv6 == b.enableIPv6 && a.whitelist == b.whitelist && a.blacklist == b.blacklist
    && a.maxConns == b.maxConns && a.enabled == b.enabled
    && a.scheduleOn == b.scheduleOn && a.scheduleOff == b.scheduleOff
  }

  predicate SameOwner(a: Rule, b: Rule)
  {
    a.id == b.id && a.tenantId == b.tenantId && a.ownerId == b.ownerId
  }

  /** No other rule is touched. */
  ghost predicate OthersKept(w: World, w': World, id: string)
  {
    forall k | k != id :: Lookup(w'.db, k) == Lookup(w.db, k) && Shown(w'.engine, k) == Shown(w.engine, k)
  }

  lemma ReloadShows(e: Engine, r: Rule, k: string)
    requires WellFormed(e)
    ensures Shown(Reload(e, r), k) == if k == r.id then (if r.enabled then Some(r) else None) else Shown(e, k)
  {
    hide WellFormed, Reload;
    ReloadWellFormed(e, r);
    TableFacts(e);
    TableFacts(Reload(e, r));
  }

  lemma RemoveShows(e: Engine, id: string, k: string)
    requires WellFormed(e)
    ensures Shown(Remove(e, id), k) == if k == id then None else Shown(e, k)
  {
    hide WellFormed, Remove;
    RemoveWellFormed(e, id);
    TableFacts(e);
    TableFacts(Remove(e, id));
  }

  /** A rule that was created is in the database as requested, and runs just so if it is enabled. */
  lemma CreateAchieves(w: World, r: Rule)
    requires WellFormed(w.engine)
    ensures var w' := Step(w, Create(r, true));
            && Lookup(w'.db, r.id) == Some(r)
            && Shown(w'.engine, r.id) == (if r.enabled then Some(r) else None)
            && OthersKept(w, w', r.id)
  {
    hide Reload, Shown, WellFormed;
    forall k ensures Shown(Step(w, Create(r, true)).engine, k) ==
                     if k == r.id then (if r.enabled then Some(r) else None) else Shown(w.engine, k)
    {
      ReloadShows(w.engine, r, k);
    }
  }

  /** A rule that was updated has the contents of the request and the ID, tenant and owner it had; it runs just so if
      the request enables it, and not at all if not. */
  lemma UpdateAchieves(w: World, id: string, r: Rule)
    requires WellFormed(w.engine) && id in w.db && w.db[id].id == id
    ensures var w' := Step(w, Update(id, r, true));
            && id in w'.db && SameContents(w'.db[id], r) && SameOwner(w'.db[id], w.db[id])
            && Shown(w'.engine, id) == (if r.enabled then Some(w'.db[id]) else None)
            && OthersKept(w, w', id)
  {
    hide Reload, Shown, WellFormed;
    var row := r.(id := id, tenantId := w.db[id].tenantId, ownerId := w.db[id].ownerId);
    forall k ensures Shown(Step(w, Update(id, r, true)).engine, k) ==
                     if k == id then (if r.enabled then Some(row) else None) else Shown(w.engine, k)
    {
      ReloadShows(w.engine, row, k);
    }
  }

  /** A rule that was deleted is neither in the database nor running; one that could not be deleted only stops. */
  lemma DeleteAchieves(w: World, id: string, stored: bool)
    requires WellFormed(w.engine)
    ensures var w' := Step(w, Delete(id, stored));
            && Lookup(w'.db, id) == (if stored then None else Lookup(w.db, id))
            && Shown(w'.engine, id) == None
            && OthersKept(w, w', id)
  {
    hide Remove, Shown, WellFormed;
    forall k ensures Shown(Step(w, Delete(id, stored)).engine, k) == if k == id then None else Shown(w.engine, k) {
      RemoveShows(w.engine, id, k);
    }
  }

  /** Requests that the database refuses, and updates of rules that are not there, achieve nothing. */
  lemma NothingAchieved(w: World, id: string, r: Rule)
    ensures Step(w, Create(r, false)) == w && Step(w, Update(id, r, false)) == w
    ensures id !in w.db ==> Step(w, Update(id, r, true)) == w
  {}

  // ---- Handlers of one rule that overlap ----

  /** An event that read its row before another update, and takes the lock after that update's event, brings the old
      contents back. */
  lemma OvertakenReload(s: System, b: Rule)
    requires Sound(s) && SystemInStep(s) && b.id in s.db && s.db[b.id].enabled && b.enabled && b != s.db[b.id]
    ensures var a, k := s.db[b.id], |s.tasks|;
            var ms := [Announce(b.id), Load(k, Some(a))] + (Replace(b, k + 1) + [Apply(k)]);
            && CanRun(s, ms)
            && After(s, ms).tasks == s.tasks + [Finished, Finished]
            && After(s, ms).db == s.db[b.id := b] && Shown(After(s, ms).engine, b.id) == Some(a)
            && !SystemInStep(After(s, ms))
  {
    hide Reload, SystemInStep, Shown;
    var a, k := s.db[b.id], |s.tasks|;
    var first := [Announce(b.id), Load(k, Some(a))];
    TwoMoves(s, Announce(b.id), Load(k, Some(a)));
    var s1 := After(s, first);
    ReplaceRuns(s1, b);
    var s2 := After(s1, Replace(b, k + 1));
    assert CanRun(Next(s2, Apply(k)), []);
    Unroll(s2, Apply(k), []);
    assert [Apply(k)] + [] == [Apply(k)];
    RunConcat(s1, Replace(b, k + 1), [Apply(k)]);
    RunConcat(s, first, Replace(b, k + 1) + [Apply(k)]);
    AlwaysSound(s, first + (Replace(b, k + 1) + [Apply(k)]));
    ReloadsShow(s, a, b);
    ShownIff(After(s, first + (Replace(b, k + 1) + [Apply(k)])));
  }

  lemma ReloadsShow(s: System, a: Rule, b: Rule)
    requires WellFormed(s.engine) && a.enabled && a.id == b.id
    ensures Shown(Reload(Reload(s.engine, b), a), a.id) == Some(a)
  {
    hide WellFormed, Reload;
    ReloadWellFormed(s.engine, b);
    ReloadWellFormed(Reload(s.engine, b), a);
    TableFacts(Reload(Reload(s.engine, b), a));
  }

  /** An event that read its row before a deletion, and takes the lock after it, starts the deleted rule again. */
  lemma ReloadAfterDeletion(s: System, id: string)
    requires Sound(s) && SystemInStep(s) && id in s.db && s.db[id].enabled
    ensures var k := |s.tasks|;
            var ms := [Announce(id), Load(k, Some(s.db[id]))]
                      + ([Write(id, None), AnnounceDeletion(id)] + [Apply(k + 1), Apply(k)]);
            && CanRun(s, ms)
            && After(s, ms).tasks == s.tasks + [Finished, Finished]
            && After(s, ms).db == s.db - {id} && Shown(After(s, ms).engine, id) == Some(s.db[id])
            && !SystemInStep(After(s, ms))
  {
    hide Reload, Remove, SystemInStep, Shown;
    var a, k := s.db[id], |s.tasks|;
    var first, second, third := [Announce(id), Load(k, Some(a))], [Write(id, None), AnnounceDeletion(id)],
      [Apply(k + 1), Apply(k)];
    TwoMoves(s, Announce(id), Load(k, Some(a)));
    var s1 := After(s, first);
    TwoMoves(s1, Write(id, None), AnnounceDeletion(id));
    var s2 := After(s1, second);
    TwoMoves(s2, Apply(k + 1), Apply(k));
    RunConcat(s1, second, third);
    RunConcat(s, first, second + third);
    AlwaysSound(s, first + (second + third));
    RestartShows(s, a);
    ShownIff(After(s, first + (second + third)));
  }

  lemma RestartShows(s: System, a: Rule)
    requires WellFormed(s.engine) && a.enabled
    ensures Shown(Reload(Remove(s.engine, a.id), a), a.id) == Some(a)
  {
    hide WellFormed, Reload, Remove;
    RemoveWellFormed(s.engine, a.id);
    ReloadWellFormed(Remove(s.engine, a.id), a);
    TableFacts(Reload(Remove(s.engine, a.id), a));
  }

  /** Watchdog passes on the given snapshots, one after the other; the first is task number `k`. */
  function Passes(k: nat, snapshots: seq<seq<Rule>>): seq<Move>
    decreases |snapshots|
  {
    if snapshots == [] then [] else [ReadRows(snapshots[0]), Apply(k)] + Passes(k + 1, snapshots[1..])
  }

  /** No number of watchdog passes on current rows stops a rule whose row is gone. */
  lemma {:induction false} WatchdogLeavesOrphans(s: System, snapshots: seq<seq<Rule>>, id: string)
    requires Sound(s) && id !in s.db && forall rows <- snapshots :: IsSnapshot(rows, s.db)
    ensures var ms := Passes(|s.tasks|, snapshots);
            CanRun(s, ms) && Shown(After(s, ms).engine, id) == Shown(s.engine, id)
    decreases |snapshots|
  {
    if snapshots != [] {
      hide Watchdog, Shown, IsSnapshot, Sound;
      var rows, k := snapshots[0], |s.tasks|;
      assert rows in snapshots;
      OnePass(s, rows, id);
      var s1 := Next(Next(s, ReadRows(rows)), Apply(k));
      TwoMoves(s, ReadRows(rows), Apply(k));
      WatchdogLeavesOrphans(s1, snapshots[1..], id);
      RunConcat(s, [ReadRows(rows), Apply(k)], Passes(k + 1, snapshots[1..]));
    }
  }

  lemma OnePass(s: System, rows: seq<Rule>, id: string)
    requires Sound(s) && id !in s.db && IsSnapshot(rows, s.db)
    ensures CanMove(s, ReadRows(rows)) && CanMove(Next(s, ReadRows(rows)), Apply(|s.tasks|))
    ensures var s1 := Next(Next(s, ReadRows(rows)), Apply(|s.tasks|));
            Sound(s1) && s1.db == s.db && |s1.tasks| == |s.tasks| + 1 && Shown(s1.engine, id) == Shown(s.engine, id)
  {
    hide Watchdog, Shown, WellFormed;
    MoveSound(s, ReadRows(rows));
    MoveSound(Next(s, ReadRows(rows)), Apply(|s.tasks|));
    WatchdogShows(s.engine, rows, id);
    RowOfIs(rows, id);
  }
}
