/** The forwarding engine's mutable rule table; each method is proved to be the corresponding
    function of `ForwardRules`. */
module ForwardEngine {
  import opened ForwardRules

  class RuleInstance {
    const rule: Rule
    ghost const number: nat   // position among all instances ever started
    var cancelled: bool

    constructor (rule: Rule, ghost number: nat)
      ensures this.rule == rule && this.number == number && !cancelled
    {
      this.rule, this.number, cancelled := rule, number, false;
    }

    method Cancel()
      modifies this
      ensures cancelled
    {
      cancelled := true;
    }
  }

  class RuleEngine {
    var rules: map<string, RuleInstance>
    ghost var started: seq<RuleInstance>
    ghost var state: Engine

    ghost predicate Valid()
      reads this, started
    {
      && |started| == |state.insts|
      && (forall i | 0 <= i < |started| ::
            started[i].number == i && state.insts[i] == Inst(started[i].rule, started[i].cancelled))
      && rules.Keys == state.rules.Keys
      && (forall id <- rules :: rules[id] in started && rules[id].number == state.rules[id])
    }

    constructor ()
      ensures Valid() && state == EMPTY && started == []
    {
      rules, started, state := map[], [], EMPTY;
    }

    method StartRule(rule: Rule)
      requires Valid()
      modifies this
      ensures Valid() && state == ForwardRules.StartRule(old(state), rule)
      ensures exists inst :: fresh(inst) && started == old(started) + [inst] && rules == old(rules)[rule.id := inst]
    {
      var inst := new RuleInstance(rule, |started|);
      rules := rules[rule.id := inst];
      started := started + [inst];
      state := ForwardRules.StartRule(state, rule);
    }

    /** Cancels the instance listed under `id`, if any. */
    method CancelListed(id: string)
      requires Valid()
      modifies started
      modifies this`state
      ensures Valid() && state == Cancel(old(state), id)
      ensures forall inst <- started :: inst.cancelled <==> old(inst.cancelled) || (id in rules && inst == rules[id])
    {
      if id in rules {
        rules[id].Cancel();
      }
      state := Cancel(state, id);
    }

    method Reload(rule: Rule)
      requires Valid()
      modifies this, started
      ensures Valid() && state == ForwardRules.Reload(old(state), rule)
      ensures old(started) <= started && fresh(set x | x in started && x !in old(started))
    {
      CancelListed(rule.id);
      if rule.enabled {
        StartRule(rule);
      } else {
        rules := rules - {rule.id};
        state := state.(rules := state.rules - {rule.id});
      }
    }

    method Remove(id: string)
      requires Valid()
      modifies this, started
      ensures Valid() && state == ForwardRules.Remove(old(state), id) && started == old(started)
    {
      if id in rules {
        CancelListed(id);
        rules := rules - {id};
        state := state.(rules := state.rules - {id});
      }
    }

    /** Starts every enabled row. */
    method Start(rows: seq<Rule>)
      requires Valid()
      modifies this
      ensures Valid() && (old(state) == EMPTY ==> state == StartEnabled(EMPTY, rows))
    {
      hide RuleEngine.Valid;
      assert rows[..0] == [] && rows[..|rows|] == rows;
      for n := 0 to |rows|
        invariant Valid() && (old(state) == EMPTY ==> state == StartEnabled(EMPTY, rows[..n]))
      {
        assert rows[..n + 1][..n] == rows[..n];
        if rows[n].enabled {
          StartRule(rows[n]);
        }
      }
    }

    /** One pass of the watchdog over the rows it read. */
    method Watchdog(rows: seq<Rule>)
      requires Valid()
      modifies this, started
      ensures Valid() && state == ForwardRules.Watchdog(old(state), rows)
    {
      assert rows[..0] == [] && rows[..|rows|] == rows;
      ghost var before := started;
      for n := 0 to |rows|
        invariant Valid() && state == ForwardRules.Watchdog(old(state), rows[..n])
        invariant before <= started && fresh(set x | x in started && x !in before)
      {
        assert rows[..n + 1][..n] == rows[..n];
        var r := rows[n];
        if r.id in rules {
          if !r.enabled {
            Remove(r.id);
          }
        } else if r.enabled {
          StartRule(r);
        }
      }
    }
  }
}
