/** The forwarding engine's rule table and the database it follows: handlers change a row and
    publish an event that reloads or removes the rule; a watchdog compares the two now and then. */
module ForwardRules {

  datatype Rule = Rule(
    id: string, tenantId: string, ownerId: string, name: string, protocol: string,
    listenAddr: string, listenPort: int, targetAddr: string, targetPort: int,
    enableIPv6: bool, whitelist: seq<string>, blacklist: seq<string>, maxConns: int,
    enabled: bool, scheduleOn: string, scheduleOff: string)

  /** A rule instance ever started. */
  datatype Inst = Inst(rule: Rule, cancelled: bool)

  /** The table maps rule IDs to positions in the list of all instances ever started. */
  datatype Engine = Engine(rules: map<string, nat>, insts: seq<Inst>)

  const EMPTY := Engine(map[], [])

  type Table = map<string, Rule>

  // ---- Engine operations ----

  function StartRule(e: Engine, r: Rule): Engine
  {
    e.(rules := e.rules[r.id := |e.insts|], insts := e.insts + [Inst(r, false)])
  }

  function Cancel(e: Engine, id: string): Engine
  {
    if id in e.rules && e.rules[id] < |e.insts|
    then e.(insts := e.insts[e.rules[id] := e.insts[e.rules[id]].(cancelled := true)])
    else e
  }

  function Remove(e: Engine, id: string): Engine
  {
    if id in e.rules then var c := Cancel(e, id); c.(rules := c.rules - {id}) else e
  }

  function Reload(e: Engine, r: Rule): Engine
  {
    var c := Cancel(e, r.id);
    if r.enabled then StartRule(c, r) else c.(rules := c.rules - {r.id})
  }

  /** What the watchdog does with one row of its snapshot. */
  function Compare(e: Engine, r: Rule): Engine
  {
    if r.id in e.rules then (if r.enabled then e else Remove(e, r.id))
    else if r.enabled then StartRule(e, r)
    else e
  }

  function Watchdog(e: Engine, rows: seq<Rule>): Engine
  {
    if rows == [] then e else Compare(Watchdog(e, rows[..|rows| - 1]), rows[|rows| - 1])
  }

  function StartEnabled(e: Engine, rows: seq<Rule>): Engine
  {
    if rows == [] then e
    else
      var d := StartEnabled(e, rows[..|rows| - 1]);
      var r := rows[|rows| - 1];
      if r.enabled then StartRule(d, r) else d
  }

  // ---- Handlers with their events ----

  datatype World = World(db: Table, engine: Engine)

  datatype Op =
    | Create(rule: Rule, stored: bool)
    | Update(id: string, rule: Rule, stored: bool)
    | Delete(id: string, stored: bool)
    | WatchdogPass(rows: seq<Rule>)

  /** The event handler loads the row again and reloads the rule with it. */
  function Follow(db: Table, e: Engine, id: string): Engine
  {
    if id in db then Reload(e, db[id]) else e
  }

  function Step(w: World, op: Op): World
  {
    match op
    case Create(r, stored) =>
      if !stored then w
      else var db := w.db[r.id := r]; World(db, Follow(db, w.engine, r.id))
    case Update(id, r, stored) =>
      if !stored then w
      else if id !in w.db then World(w.db, Follow(w.db, w.engine, id))
      else
        var row := r.(id := id, tenantId := w.db[id].tenantId, ownerId := w.db[id].ownerId);
        var db := w.db[id := row];
        World(db, Follow(db, w.engine, id))
    case Delete(id, stored) =>
      World(if stored then w.db - {id} else w.db, Remove(w.engine, id))
    case WatchdogPass(rows) => w.(engine := Watchdog(w.engine, rows))
  }

  /** Row IDs are fresh on creation; a snapshot has every row once; deletions reach the database. */
  predicate Allowed(w: World, op: Op)
  {
    match op
    case Create(r, _) => r.id !in w.db
    case Update(_, _, _) => true
    case Delete(id, stored) => stored
    case WatchdogPass(rows) => IsSnapshot(rows, w.db)
  }

  predicate DistinctIds(rows: seq<Rule>)
  {
    forall i, j | 0 <= i < j < |rows| :: rows[i].id != rows[j].id
  }

  predicate IsSnapshot(rows: seq<Rule>, db: Table)
  {
    && DistinctIds(rows)
    && (forall r <- rows :: r.id in db && db[r.id] == r)
    && (forall id <- db :: db[id] in rows)
  }

  // ---- Being in step ----

  predicate Listed(e: Engine, i: nat)
    requires i < |e.insts|
  {
    e.insts[i].rule.id in e.rules && e.rules[e.insts[i].rule.id] == i
  }

  /** The table points at instances of the right rule, and exactly the listed instances are alive. */
  ghost predicate WellFormed(e: Engine)
  {
    && (forall id <- e.rules :: e.rules[id] < |e.insts| && e.insts[e.rules[id]].rule.id == id)
    && (forall i: nat | i < |e.insts| :: e.insts[i].cancelled <==> !Listed(e, i))
  }

  function Running(e: Engine, id: string): Rule
    requires id in e.rules && e.rules[id] < |e.insts|
  {
    e.insts[e.rules[id]].rule
  }

  /** Exactly the enabled rows run, with the contents of their rows. */
  ghost predicate InStep(w: World)
  {
    && WellFormed(w.engine)
    && (forall id <- w.db :: w.db[id].id == id)
    && (forall id :: id in w.engine.rules <==> id in w.db && w.db[id].enabled)
    && (forall id <- w.engine.rules :: Running(w.engine, id) == w.db[id])
  }

  lemma StartWellFormed(e: Engine, r: Rule)
    requires WellFormed(e) && r.id !in e.rules
    ensures WellFormed(StartRule(e, r))
  {
    var t := StartRule(e, r);
    forall i: nat | i < |t.insts| ensures t.insts[i].cancelled <==> !Listed(t, i) {
      if i < |e.insts| { assert e.insts[i].cancelled <==> !Listed(e, i); }
    }
  }

  lemma RemoveWellFormed(e: Engine, id: string)
    requires WellFormed(e)
    ensures WellFormed(Remove(e, id)) && Remove(e, id).rules == e.rules - {id}
    ensures forall k <- Remove(e, id).rules :: Running(Remove(e, id), k) == Running(e, k)
  {
    var t := Remove(e, id);
    forall i: nat | i < |t.insts| ensures t.insts[i].cancelled <==> !Listed(t, i) {
      assert e.insts[i].cancelled <==> !Listed(e, i);
    }
  }

  /** Reloading is removing and, when enabled, starting again. */
  lemma ReloadIsRestart(e: Engine, r: Rule)
    requires WellFormed(e)
    ensures var rem := Remove(e, r.id);
            if r.enabled then Reload(e, r) == StartRule(rem, r) else Reload(e, r) == rem
  {
    var c := Cancel(e, r.id);
    var rem := Remove(e, r.id);
    assert rem.insts == c.insts && rem.rules == c.rules - {r.id};
    assert rem.rules[r.id := |c.insts|] == c.rules[r.id := |c.insts|];
  }

  lemma ReloadWellFormed(e: Engine, r: Rule)
    requires WellFormed(e)
    ensures var t := Reload(e, r);
            && WellFormed(t)
            && (forall k :: k in t.rules <==> if k == r.id then r.enabled else k in e.rules)
            && (forall k <- t.rules :: Running(t, k) == if k == r.id then r else Running(e, k))
  {
    hide WellFormed, Reload;
    ReloadIsRestart(e, r);
    RemoveWellFormed(e, r.id);
    if r.enabled {
      StartWellFormed(Remove(e, r.id), r);
    }
    TableFacts(e);
    TableFacts(Remove(e, r.id));
  }

  lemma TableFacts(e: Engine)
    requires WellFormed(e)
    ensures forall id <- e.rules :: e.rules[id] < |e.insts|
  {}

  lemma ReloadInStep(w: World, r: Rule)
    requires InStep(w)
    ensures InStep(World(w.db[r.id := r], Reload(w.engine, r)))
  {
    hide Reload;
    ReloadWellFormed(w.engine, r);
  }

  lemma RemoveInStep(w: World, id: string)
    requires InStep(w)
    ensures InStep(World(w.db - {id}, Remove(w.engine, id)))
  {
    hide Remove;
    RemoveWellFormed(w.engine, id);
    TableFacts(w.engine);
  }

  lemma SnapshotIdle(w: World, rows: seq<Rule>)
    requires InStep(w) && IsSnapshot(rows, w.db)
    ensures Watchdog(w.engine, rows) == w.engine
  {
    WatchdogIdle(w, rows);
  }

  /** A whole handler with its event, or a pass on current rows, keeps the engine in step. */
  lemma StepInStep(w: World, op: Op)
    requires InStep(w) && Allowed(w, op)
    ensures InStep(Step(w, op))
  {
    hide InStep, Reload, Remove, Watchdog, IsSnapshot;
    match op
    case Create(r, stored) => ReloadInStep(w, r);
    case Update(id, r, stored) =>
      if id in w.db {
        ReloadInStep(w, r.(id := id, tenantId := w.db[id].tenantId, ownerId := w.db[id].ownerId));
      }
    case Delete(id, stored) => RemoveInStep(w, id);
    case WatchdogPass(rows) => SnapshotIdle(w, rows);
  }

  function Run(w: World, ops: seq<Op>): World
    decreases |ops|
  {
    if ops == [] then w else Run(Step(w, ops[0]), ops[1..])
  }

  predicate AllAllowed(w: World, ops: seq<Op>)
    decreases |ops|
  {
    ops == [] || (Allowed(w, ops[0]) && AllAllowed(Step(w, ops[0]), ops[1..]))
  }

  /** After every sequence of handlers that do not overlap and watchdog passes on current rows the engine is in step. */
  lemma {:induction false} AlwaysInStep(w: World, ops: seq<Op>)
    requires InStep(w) && AllAllowed(w, ops)
    ensures InStep(Run(w, ops))
    decreases |ops|
  {
    hide InStep, Allowed, Step;
    if ops != [] {
      StepInStep(w, ops[0]);
      AlwaysInStep(Step(w, ops[0]), ops[1..]);
    }
  }

  /** A deletion that the database refuses leaves the engine in step exactly when nothing was running. */
  lemma FailedDelete(w: World, id: string)
    requires InStep(w)
    ensures InStep(Step(w, Delete(id, false))) <==> !(id in w.db && w.db[id].enabled)
  {
    RemoveWellFormed(w.engine, id);
  }

  // ---- Starting up ----

  lemma {:induction false} StartUp(rows: seq<Rule>, n: nat)
    requires DistinctIds(rows) && n <= |rows|
    ensures var e := StartEnabled(EMPTY, rows[..n]);
            && WellFormed(e)
            && (forall id :: id in e.rules <==> exists r <- rows[..n] :: r.id == id && r.enabled)
            && (forall id <- e.rules :: Running(e, id) in rows[..n])
  {
    if n > 0 {
      StartUp(rows, n - 1);
      var d := StartEnabled(EMPTY, rows[..n - 1]);
      var r := rows[n - 1];
      assert rows[..n][..n - 1] == rows[..n - 1] && rows[..n] == rows[..n - 1] + [r];
      assert r.id !in d.rules;
      StartWellFormed(d, r);
    }
  }

  /** Starting on the rows of the database puts the engine in step with it. */
  lemma StartedInStep(db: Table, rows: seq<Rule>)
    requires IsSnapshot(rows, db) && forall id <- db :: db[id].id == id
    ensures InStep(World(db, StartEnabled(EMPTY, rows)))
  {
    StartUp(rows, |rows|);
    assert rows[..|rows|] == rows;
  }

  // ---- The watchdog ----

  lemma CompareWellFormed(e: Engine, r: Rule)
    requires WellFormed(e)
    ensures var t := Compare(e, r);
            && WellFormed(t)
            && (forall k :: k in t.rules <==> if k == r.id then r.enabled else k in e.rules)
            && (forall k <- t.rules :: Running(t, k) == if k in e.rules then Running(e, k) else r)
  {
    RemoveWellFormed(e, r.id);
    if r.id !in e.rules {
      StartWellFormed(e, r);
    }
  }

  /** From any state and for any rows, a pass makes exactly the enabled ones of these rows run,
      and leaves every other ID and every rule that keeps running alone. */
  lemma {:induction false} WatchdogAgrees(e: Engine, rows: seq<Rule>)
    requires WellFormed(e) && DistinctIds(rows)
    ensures var t := Watchdog(e, rows);
            && WellFormed(t)
            && (forall r <- rows :: r.id in t.rules <==> r.enabled)
            && (forall id | forall r <- rows :: r.id != id :: id in t.rules <==> id in e.rules)
            && (forall id <- t.rules :: id in e.rules ==> Running(t, id) == Running(e, id))
            && (forall id <- t.rules :: id !in e.rules ==> Running(t, id) in rows)
  {
    if rows != [] {
      var init, r := rows[..|rows| - 1], rows[|rows| - 1];
      assert rows == init + [r];
      WatchdogAgrees(e, init);
      CompareWellFormed(Watchdog(e, init), r);
    }
  }

  /** On current rows a pass changes nothing when the engine is in step. */
  lemma {:induction false} WatchdogIdle(w: World, rows: seq<Rule>)
    requires InStep(w) && forall r <- rows :: r.enabled <==> r.id in w.engine.rules
    ensures Watchdog(w.engine, rows) == w.engine
  {
    if rows != [] {
      assert rows[|rows| - 1] in rows;
      WatchdogIdle(w, rows[..|rows| - 1]);
    }
  }

  /** Rows read before some other change: the pass keeps the engine in step exactly when every row
      still says of its rule whether it should run. */
  lemma StaleSnapshotIff(w: World, rows: seq<Rule>)
    requires InStep(w) && DistinctIds(rows)
    ensures InStep(Step(w, WatchdogPass(rows))) <==> forall r <- rows :: r.enabled <==> r.id in w.engine.rules
  {
    WatchdogAgrees(w.engine, rows);
    if forall r <- rows :: r.enabled <==> r.id in w.engine.rules {
      WatchdogIdle(w, rows);
    }
  }

  /** From any state, a pass on current rows makes the running IDs agree with the enabled rows for
      every ID in the database. */
  lemma WatchdogRepairs(w: World, rows: seq<Rule>)
    requires WellFormed(w.engine) && IsSnapshot(rows, w.db) && forall id <- w.db :: w.db[id].id == id
    ensures forall id <- w.db :: id in Step(w, WatchdogPass(rows)).engine.rules <==> w.db[id].enabled
  {
    WatchdogAgrees(w.engine, rows);
    forall id <- w.db
      ensures id in Step(w, WatchdogPass(rows)).engine.rules <==> w.db[id].enabled
    {
      assert w.db[id] in rows;
    }
  }

  /** A pass on current rows puts the engine fully in step exactly when nothing runs whose row is gone and every
      enabled rule that runs already has the contents of its row. */
  lemma WatchdogInStepIff(w: World, rows: seq<Rule>)
    requires WellFormed(w.engine) && IsSnapshot(rows, w.db) && forall id <- w.db :: w.db[id].id == id
    ensures InStep(Step(w, WatchdogPass(rows))) <==>
            forall id <- w.engine.rules ::
              id in w.db && (w.db[id].enabled ==> Running(w.engine, id) == w.db[id])
  {
    WatchdogAgrees(w.engine, rows);
    WatchdogRepairs(w, rows);
    var t := Step(w, WatchdogPass(rows)).engine;
    forall id | id !in w.db ensures id in t.rules <==> id in w.engine.rules {
      assert forall r <- rows :: r.id != id;
    }
  }
}
