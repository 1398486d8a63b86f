/** The session map as the source keeps it: one mutable map of mutable sessions. Each method is
    one critical section and is proved to be the corresponding step of `UdpSessions`. */
module UdpSessionMap {
  import opened UdpSessions

  class Session {
    const key: Key
    ghost const id: nat   // position in order of creation
    var lastUsed: int
    var closes: nat   // calls of Close on the session's connection

    constructor (key: Key, now: int, ghost id: nat)
      ensures this.key == key && lastUsed == now && closes == 0 && this.id == id
    {
      this.key, lastUsed, closes, this.id := key, now, 0, id;
    }
  }

  class SessionMap {
    var sessions: map<Key, Session>
    var phase: ClosePhase
    const ttl: int
    ghost var created: seq<Session>   // every session ever created, in order
    ghost var state: State

    /** The fields stand for `state`. */
    ghost predicate Models()
      reads this, created
    {
      && |created| == |state.conns| && phase == state.phase
      && (forall i | 0 <= i < |created| :: created[i].id == i &&
            state.conns[i] == Conn(created[i].key, created[i].lastUsed, created[i].closes))
      && sessions.Keys == state.live.Keys
      && (forall k <- sessions ::
            state.live[k] < |created| && sessions[k] == created[state.live[k]] && sessions[k].key == k)
    }

    ghost predicate Valid()
      reads this, created
    {
      Models() && Inv(state)
    }

    constructor (ttl: int)
      ensures Valid() && state == INIT && this.ttl == ttl && created == []
    {
      sessions, phase, this.ttl, created, state := map[], NotCalled, ttl, [], INIT;
    }

    /** Stores a new open session under `key`. */
    method Create(key: Key, now: int) returns (sess: Session)
      requires Valid() && key !in sessions
      modifies this
      ensures Valid() && state == Step(ttl, old(state), UdpSessions.GetOrCreate(key, now, true))
      ensures fresh(sess) && created == old(created) + [sess]
      ensures sessions == old(sessions)[key := sess] && sess.key == key && sess.closes == 0 && sess.lastUsed == now
    {
      hide Inv, Step, SessionMap.Models;
      ValidFacts();
      StepInv(ttl, state, UdpSessions.GetOrCreate(key, now, true));
      StepCreates(ttl, state, key, now);
      sess := new Session(key, now, |created|);
      Store(sess);
    }

    /** Stores a session under its key. */
    method Store(sess: Session)
      requires Models() && sess.key !in sessions && sess.id == |created|
      modifies this
      ensures Models() && created == old(created) + [sess] && sessions == old(sessions)[sess.key := sess]
      ensures state == old(state).(live := old(state).live[sess.key := |old(state).conns|],
                                  conns := old(state).conns + [Conn(sess.key, sess.lastUsed, sess.closes)],
                                  readers := old(state).readers + [AtCheck])
    {
      sessions := sessions[sess.key := sess];
      created := created + [sess];
      state := state.(live := state.live[sess.key := |state.conns|],
                      conns := state.conns + [Conn(sess.key, sess.lastUsed, sess.closes)],
                      readers := state.readers + [AtCheck]);
    }

    /** Returns the open session stored under `key`, new if there was none and dialling works. */
    method GetOrCreate(key: Key, now: int, dials: bool) returns (sess: Session?)
      requires Valid()
      modifies this, created
      ensures Valid() && state == Step(ttl, old(state), UdpSessions.GetOrCreate(key, now, dials))
      ensures old(created) <= created && fresh(set s | s in created && s !in old(created))
      ensures sess == null <==> key !in old(sessions) && !dials
      ensures sess != null ==> key in sessions && sessions[key] == sess && sess.key == key && sess.closes == 0
      ensures sess != null ==> sess.lastUsed == now
    {
      hide Inv, Evict, Stale, Stored, OpenXorClosed;
      if key !in sessions {
        if !dials {
          return null;
        }
        sess := Create(key, now);
        return;
      }
      StepInv(ttl, state, UdpSessions.GetOrCreate(key, now, dials));
      StoredIsOpen(state, key);
      sess := sessions[key];
      sess.lastUsed := now;
      state := Step(ttl, state, UdpSessions.GetOrCreate(key, now, dials));
    }

    /** Closes the session stored under `key` and deletes the entry. */
    method CloseAndDelete(key: Key)
      requires Valid() && key in sessions
      modifies this, sessions[key]
      ensures Valid() && state == Evict(old(state), {key}) && created == old(created)
      ensures sessions == old(sessions) - {key} && phase == old(phase)
    {
      hide Inv, Evict, Step, CanStep, Stale, Stored, OpenXorClosed;
      EvictInv(state, {key});
      EvictOne(state, key);
      var s := sessions[key];
      s.closes := s.closes + 1;
      sessions := sessions - {key};
      state := Evict(state, {key});
    }

    /** A reader whose read failed closes its session if that is still the stored one. */
    method ReaderFailed(sess: Session)
      requires Valid() && sess in created && CanStep(state, ReaderFail(sess.id))
      modifies this, sess
      ensures Valid() && state == Step(ttl, old(state), ReaderFail(sess.id)) && created == old(created)
    {
      hide Inv, OpenXorClosed, Evict, Stale;
      StepInv(ttl, state, ReaderFail(sess.id));
      ghost var before := state;
      assert created[sess.id] == sess;
      if sess.key in sessions && sessions[sess.key] == sess {
        CloseAndDelete(sess.key);
      }
      state := Step(ttl, before, ReaderFail(sess.id));
    }

    lemma ValidFacts()
      requires Valid()
      ensures Inv(state) && sessions.Keys == state.live.Keys
      ensures forall k <- sessions :: sessions[k] in created
    {}

    /** Closes and deletes every entry of `ks`, in whatever order the map yields them. */
    method CloseAll(ks: set<Key>)
      requires Valid() && ks <= sessions.Keys
      modifies this, created
      ensures Valid() && state == Evict(old(state), ks) && created == old(created)
      ensures sessions == old(sessions) - ks && phase == old(phase)
    {
      hide Evict, Inv, SessionMap.Valid, SessionMap.Models;
      var todo := ks;
      EvictNone(state);
      ValidFacts();
      RemoveNone(sessions, ks);
      while todo != {}
        invariant todo <= ks && Valid() && created == old(created) && phase == old(phase)
        invariant state == Evict(old(state), ks - todo) && sessions == old(sessions) - (ks - todo)
        decreases |todo|
      {
        var k :| k in todo;
        ValidFacts();
        EvictMore(old(state), ks - todo, k);
        RemoveOne(old(sessions), ks, todo, k);
        CloseAndDelete(k);
        todo := todo - {k};
      }
      assert ks - {} == ks;
    }

    /** One tick of the cleaner: entry `k` is looked at when the clock reads `readings[k]`. */
    method CleanerTick(readings: map<Key, int>)
      requires Valid() && CanStep(state, UdpSessions.CleanerTick(readings))
      modifies this, created
      ensures Valid() && state == Step(ttl, old(state), UdpSessions.CleanerTick(readings)) && created == old(created)
    {
      var stale := set k | k in sessions && readings[k] - sessions[k].lastUsed > ttl;
      assert stale == Stale(ttl, state, readings);
      CloseAll(stale);
    }

    /** First half of the once-only close: `done` is closed. */
    method CloseBegin()
      requires Valid()
      modifies this
      ensures Valid() && state == Step(ttl, old(state), UdpSessions.CloseBegin) && created == old(created)
    {
      StepInv(ttl, state, UdpSessions.CloseBegin);
      if phase == NotCalled {
        phase := Clearing;
      }
      state := Step(ttl, state, UdpSessions.CloseBegin);
    }

    /** Second half: every stored session is closed and deleted. */
    method CloseClear()
      requires Valid() && CanStep(state, UdpSessions.CloseClear)
      modifies this, created
      ensures Valid() && state == Step(ttl, old(state), UdpSessions.CloseClear) && created == old(created)
      ensures sessions == map[] && forall s <- created :: s.closes == 1
    {
      StepInv(ttl, state, UdpSessions.CloseClear);
      ghost var before := state;
      CloseAll(sessions.Keys);
      phase := Cleared;
      state := Step(ttl, before, UdpSessions.CloseClear);
      forall s | s in created ensures s.closes == 1 {
        var i :| 0 <= i < |created| && created[i] == s;
        assert OpenXorClosed(state, i);
      }
    }
  }

  lemma StepCreates(ttl: int, s: State, key: Key, now: int)
    requires key !in s.live
    ensures var t := Step(ttl, s, UdpSessions.GetOrCreate(key, now, true));
            t == s.(live := s.live[key := |s.conns|], conns := s.conns + [Conn(key, now, 0)],
                    readers := s.readers + [AtCheck])
  {}

  lemma EvictOne(s: State, key: Key)
    requires key in s.live
    ensures var t := Evict(s, {key});
            && t.live == s.live - {key} && t.phase == s.phase && |t.conns| == |s.conns|
            && forall i | 0 <= i < |s.conns| ::
                 t.conns[i] == if i == s.live[key] then s.conns[i].(closes := s.conns[i].closes + 1) else s.conns[i]
  {
    var ids := set k | k in {key} && k in s.live :: s.live[k];
    assert ids == {s.live[key]};
  }

  lemma StoredIsOpen(s: State, key: Key)
    requires Inv(s) && key in s.live
    ensures s.live[key] < |s.conns| && s.conns[s.live[key]].closes == 0
  {
    assert OpenXorClosed(s, s.live[key]);
  }

  lemma RemoveNone<K, V>(m: map<K, V>, ks: set<K>)
    ensures ks - ks == {} && m - {} == m
  {}

  lemma RemoveOne<K, V>(m: map<K, V>, ks: set<K>, todo: set<K>, k: K)
    requires k in todo && todo <= ks && ks <= m.Keys
    ensures ks - todo + {k} == ks - (todo - {k})
    ensures k in m - (ks - todo) && m - (ks - todo) - {k} == m - (ks - (todo - {k}))
    ensures k !in ks - todo
  {}

  lemma EvictNone(s: State)
    ensures Evict(s, {}) == s
  {
    assert Evict(s, {}).live == s.live && Evict(s, {}).conns == s.conns;
  }

  /** Evicting one more key is evicting it from what is left. */
  lemma EvictMore(s: State, ks: set<Key>, k: Key)
    requires Inv(s) && k !in ks && k in s.live
    ensures Evict(Evict(s, ks), {k}) == Evict(s, ks + {k})
  {
    var a := Evict(Evict(s, ks), {k});
    var b := Evict(s, ks + {k});
    assert a.live == b.live;
    var ids := set j | j in ks && j in s.live :: s.live[j];
    var all := set j | j in ks + {k} && j in s.live :: s.live[j];
    assert all == ids + {s.live[k]};
    assert s.live[k] !in ids;
    assert (set j | j in {k} && j in Evict(s, ks).live :: Evict(s, ks).live[j]) == {s.live[k]};
    assert a.conns == b.conns;
  }
}
