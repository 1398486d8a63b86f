/** Majority consensus over the answers of several STUN servers. */
module Consensus {
  import opened Wrappers

  /** The address is its text, which is never empty: the empty text the program uses for "none" is None here. */
  datatype Mapping = Mapping(ip: string, port: nat)

  /** What probing one server came to. A failed probe may still have seen an address. */
  datatype Probe = Clean(mapping: Mapping) | Failed(error: string, seen: Option<Mapping>)

  /** Without a consensus the port is 0. */
  datatype Report = Report(consensusIp: Option<string>, consensusPort: nat, inconsistent: bool)

  function Seen(p: Probe): Option<Mapping>
  {
    match p case Clean(m) => Some(m) case Failed(_, seen) => seen
  }

  function IpOf(p: Probe): Option<string>
  {
    match Seen(p) case Some(m) => Some(m.ip) case None => None
  }

  function PortOf(p: Probe): Option<nat>
  {
    match Seen(p) case Some(m) => Some(m.port) case None => None
  }

  function Mapped<A, B>(f: A -> B, xs: seq<A>): (ys: seq<B>)
    ensures |ys| == |xs| && forall i | 0 <= i < |xs| :: ys[i] == f(xs[i])
  {
    if xs == [] then [] else [f(xs[0])] + Mapped(f, xs[1..])
  }

  /** How many probes saw `v`. */
  function Votes<T(==)>(f: Probe -> Option<T>, probes: seq<Probe>, v: T): nat
  {
    multiset(Mapped(f, probes))[Some(v)]
  }

  /** More than half of all servers, failed ones included, back `v`. */
  predicate Majority<T(==)>(f: Probe -> Option<T>, probes: seq<Probe>, v: T)
  {
    Votes(f, probes, v) > |probes| / 2
  }

  lemma MappedSnoc<A, B>(f: A -> B, xs: seq<A>, x: A)
    ensures Mapped(f, xs + [x]) == Mapped(f, xs) + [f(x)]
  {}

  lemma VotesSnoc<T>(f: Probe -> Option<T>, probes: seq<Probe>, p: Probe, v: T)
    ensures Votes(f, probes + [p], v) == Votes(f, probes, v) + if f(p) == Some(v) then 1 else 0
  {
    MappedSnoc(f, probes, p);
  }

  lemma VotesFirst<T>(f: Probe -> Option<T>, probes: seq<Probe>, v: T)
    requires probes != []
    ensures Votes(f, probes, v) == Votes(f, probes[1..], v) + if f(probes[0]) == Some(v) then 1 else 0
  {
    var rest := Mapped(f, probes[1..]);
    assert multiset(Mapped(f, probes)) == multiset([f(probes[0])]) + multiset(rest);
  }

  /** The map holds the votes cast for each value that has any. */
  ghost predicate Counts<T(!new)>(count: map<T, nat>, f: Probe -> Option<T>, probes: seq<Probe>)
  {
    forall v: T :: Votes(f, probes, v) == if v in count then count[v] else 0
  }

  function Bump<T(==)>(count: map<T, nat>, v: T): map<T, nat>
  {
    count[v := if v in count then count[v] + 1 else 1]
  }

  lemma CountsSnoc<T(!new)>(count: map<T, nat>, f: Probe -> Option<T>, probes: seq<Probe>, p: Probe)
    requires Counts(count, f, probes)
    ensures f(p).None? ==> Counts(count, f, probes + [p])
    ensures f(p).Some? ==> Counts(Bump(count, f(p).value), f, probes + [p])
  {
    hide Votes;
    forall v: T ensures Votes(f, probes + [p], v) == Votes(f, probes, v) + if f(p) == Some(v) then 1 else 0 {
      VotesSnoc(f, probes, p, v);
    }
  }

  /** A probe that failed votes all the same for the address it saw, and one that saw none votes for nothing. */
  lemma FailedProbesVote(probes: seq<Probe>, error: string, m: Mapping, ip: string, port: nat)
    ensures Votes(IpOf, probes + [Failed(error, Some(m))], ip) ==
            Votes(IpOf, probes, ip) + if m.ip == ip then 1 else 0
    ensures Votes(PortOf, probes + [Failed(error, Some(m))], port) ==
            Votes(PortOf, probes, port) + if m.port == port then 1 else 0
    ensures Votes(IpOf, probes + [Failed(error, None)], ip) == Votes(IpOf, probes, ip)
    ensures Votes(PortOf, probes + [Failed(error, None)], port) == Votes(PortOf, probes, port)
  {
    hide Votes;
    VotesSnoc(IpOf, probes, Failed(error, Some(m)), ip);
    VotesSnoc(PortOf, probes, Failed(error, Some(m)), port);
    VotesSnoc(IpOf, probes, Failed(error, None), ip);
    VotesSnoc(PortOf, probes, Failed(error, None), port);
  }

  /** Some value above the threshold, met in whatever order the map is walked. */
  method PickMajority<T(==)>(count: map<T, nat>, servers: nat) returns (winner: Option<T>)
    ensures winner.Some? ==> winner.value in count && count[winner.value] > servers / 2
    ensures winner.None? ==> forall v <- count :: count[v] <= servers / 2
  {
    var left := count.Keys;
    while left != {}
      invariant left <= count.Keys
      invariant forall v <- count.Keys - left :: count[v] <= servers / 2
    {
      var v :| v in left;
      if count[v] > servers / 2 {
        return Some(v);
      }
      left := left - {v};
    }
    return None;
  }

  /** Two probes that succeeded saw different mappings. */
  predicate Disagree(probes: seq<Probe>)
  {
    exists i, j | 0 <= i < |probes| && 0 <= j < |probes| ::
      probes[i].Clean? && probes[j].Clean? && probes[i] != probes[j]
  }

  /** What a report says about the answers. */
  ghost predicate Reports(probes: seq<Probe>, r: Report)
  {
    && (if exists v :: Majority(IpOf, probes, v)
        then r.consensusIp.Some? && Majority(IpOf, probes, r.consensusIp.value)
        else r.consensusIp.None?)
    && (if exists v :: Majority(PortOf, probes, v)
        then Majority(PortOf, probes, r.consensusPort)
        else r.consensusPort == 0)
    && (r.inconsistent <==> Disagree(probes))
  }

  /** `probes` in the order in which the answers arrive. */
  method ProbeMultiple(probes: seq<Probe>) returns (r: Report)
    ensures Reports(probes, r)
  {
    hide Votes, Disagree;
    var ipCount: map<string, nat> := map[];
    var portCount: map<nat, nat> := map[];
    NoVotes(IpOf);
    NoVotes(PortOf);
    for i := 0 to |probes|
      invariant Counts(ipCount, IpOf, probes[..i]) && Counts(portCount, PortOf, probes[..i])
    {
      var p := probes[i];
      assert probes[..i + 1] == probes[..i] + [p];
      CountsSnoc(ipCount, IpOf, probes[..i], p);
      CountsSnoc(portCount, PortOf, probes[..i], p);
      if Seen(p).Some? {
        ipCount := Bump(ipCount, Seen(p).value.ip);
        portCount := Bump(portCount, Seen(p).value.port);
      }
    }
    assert probes[..|probes|] == probes;
    var ip := PickMajority(ipCount, |probes|);
    Elected(ipCount, IpOf, probes, ip);
    var port := PickMajority(portCount, |probes|);
    Elected(portCount, PortOf, probes, port);
    var inconsistent := Differing(probes);
    r := Report(ip, if port.Some? then port.value else 0, inconsistent);
  }

  lemma Elected<T(!new)>(count: map<T, nat>, f: Probe -> Option<T>, probes: seq<Probe>, winner: Option<T>)
    requires Counts(count, f, probes)
    requires winner.Some? ==> winner.value in count && count[winner.value] > |probes| / 2
    requires winner.None? ==> forall v <- count :: count[v] <= |probes| / 2
    ensures if exists v: T :: Majority(f, probes, v)
            then winner.Some? && Majority(f, probes, winner.value)
            else winner.None?
  {
    hide Votes;
  }

  lemma NoVotes<T(!new)>(f: Probe -> Option<T>)
    ensures Counts(map[], f, [])
  {}

  method Differing(probes: seq<Probe>) returns (inconsistent: bool)
    ensures inconsistent <==> Disagree(probes)
  {
    inconsistent := false;
    var first: Option<Mapping> := None;
    for i := 0 to |probes|
      invariant first.None? ==> forall k | 0 <= k < i :: probes[k].Failed?
      invariant first.Some? ==> (exists k | 0 <= k < i :: probes[k] == Clean(first.value)) &&
                                forall k | 0 <= k < i :: probes[k].Failed? || probes[k] == Clean(first.value)
    {
      if probes[i].Failed? {
        continue;
      }
      if first == None {
        first := Some(probes[i].mapping);
        continue;
      }
      if probes[i].mapping.ip != first.value.ip || probes[i].mapping.port != first.value.port {
        return true;
      }
    }
  }

  // ---- What a consensus means ----

  lemma {:induction false} VotesSplit<T>(f: Probe -> Option<T>, probes: seq<Probe>, v: T, w: T)
    requires v != w
    ensures Votes(f, probes, v) + Votes(f, probes, w) <= |probes|
  {
    if probes != [] {
      hide Votes;
      VotesSplit(f, probes[1..], v, w);
      VotesFirst(f, probes, v);
      VotesFirst(f, probes, w);
    }
  }

  /** So at most one value passes the test, and the order in which the maps are walked does not matter. */
  lemma MajorityUnique<T>(f: Probe -> Option<T>, probes: seq<Probe>, v: T, w: T)
    requires Majority(f, probes, v) && Majority(f, probes, w)
    ensures v == w
  {
    hide Votes;
    if v != w {
      VotesSplit(f, probes, v, w);
    }
  }

  /** Voters who overlap nowhere are at most as many as the probes. */
  lemma {:induction false} Overlap(probes: seq<Probe>, m: Mapping)
    requires forall p <- probes :: Seen(p) != Some(m)
    ensures Votes(IpOf, probes, m.ip) + Votes(PortOf, probes, m.port) <= |probes|
  {
    if probes != [] {
      hide Votes;
      Overlap(probes[1..], m);
      VotesFirst(IpOf, probes, m.ip);
      VotesFirst(PortOf, probes, m.port);
      assert probes[0] in probes;
    }
  }

  /** A consensus address and port were reported together by some server. */
  lemma ConsensusReported(probes: seq<Probe>, m: Mapping)
    requires Majority(IpOf, probes, m.ip) && Majority(PortOf, probes, m.port)
    ensures exists p <- probes :: Seen(p) == Some(m)
  {
    hide Votes;
    if forall p <- probes :: Seen(p) != Some(m) {
      Overlap(probes, m);
    }
  }

  function Successes(probes: seq<Probe>): nat
  {
    if probes == [] then 0 else Successes(probes[1..]) + if probes[0].Clean? then 1 else 0
  }

  lemma {:induction false} SuccessesVote(probes: seq<Probe>, m: Mapping)
    requires forall p <- probes :: p.Clean? ==> p.mapping == m
    ensures Votes(IpOf, probes, m.ip) >= Successes(probes) && Votes(PortOf, probes, m.port) >= Successes(probes)
  {
    if probes != [] {
      hide Votes;
      SuccessesVote(probes[1..], m);
      VotesFirst(IpOf, probes, m.ip);
      VotesFirst(PortOf, probes, m.port);
      assert probes[0] in probes;
    }
  }

  /** When nothing is flagged and more than half of the servers answered, the consensus is what they all saw. */
  lemma UnflaggedConsensus(probes: seq<Probe>, r: Report, i: nat)
    requires Reports(probes, r) && !r.inconsistent && Successes(probes) > |probes| / 2
    requires i < |probes| && probes[i].Clean?
    ensures r.consensusIp == Some(probes[i].mapping.ip) && r.consensusPort == probes[i].mapping.port
  {
    hide Votes;
    var m := probes[i].mapping;
    assert forall p <- probes :: p.Clean? ==> p.mapping == m;
    SuccessesVote(probes, m);
    assert Majority(IpOf, probes, m.ip) && Majority(PortOf, probes, m.port);
    MajorityUnique(IpOf, probes, r.consensusIp.value, m.ip);
    MajorityUnique(PortOf, probes, r.consensusPort, m.port);
  }

  // ---- Independence of the arrival order ----

  lemma MappedConcat<A, B>(f: A -> B, xs: seq<A>, ys: seq<A>)
    ensures Mapped(f, xs + ys) == Mapped(f, xs) + Mapped(f, ys)
  {}

  lemma Pulled<A>(xs: seq<A>, j: nat)
    requires j < |xs|
    ensures xs == xs[..j] + ([xs[j]] + xs[j + 1..])
    ensures multiset(xs[..j] + xs[j + 1..]) == multiset(xs) - multiset{xs[j]}
  {
    assert xs == xs[..j] + ([xs[j]] + xs[j + 1..]);
  }

  lemma MappedPulled<A, B>(f: A -> B, xs: seq<A>, j: nat)
    requires j < |xs|
    ensures multiset(Mapped(f, xs)) == multiset{f(xs[j])} + multiset(Mapped(f, xs[..j] + xs[j + 1..]))
  {
    var pre, post := xs[..j], xs[j + 1..];
    Pulled(xs, j);
    MappedConcat(f, pre, [xs[j]] + post);
    MappedConcat(f, [xs[j]], post);
    MappedConcat(f, pre, post);
    hide Mapped;
    assert Mapped(f, [xs[j]]) == [f(xs[j])];
  }

  lemma Matching<A>(xs: seq<A>, ys: seq<A>) returns (j: nat)
    requires multiset(xs) == multiset(ys) && xs != []
    ensures j < |ys| && ys[j] == xs[0]
    ensures multiset(xs[..0] + xs[1..]) == multiset(ys[..j] + ys[j + 1..])
  {
    assert xs[0] in multiset(ys);
    j :| 0 <= j < |ys| && ys[j] == xs[0];
    Pulled(xs, 0);
    Pulled(ys, j);
  }

  lemma {:induction false} MappedPermutes<A, B>(f: A -> B, xs: seq<A>, ys: seq<A>)
    requires multiset(xs) == multiset(ys)
    ensures multiset(Mapped(f, xs)) == multiset(Mapped(f, ys))
    decreases |xs|
  {
    hide Mapped;
    if xs == [] {
      assert |multiset(ys)| == |ys|;
    } else {
      var j := Matching(xs, ys);
      MappedPulled(f, xs, 0);
      MappedPulled(f, ys, j);
      MappedPermutes(f, xs[..0] + xs[1..], ys[..j] + ys[j + 1..]);
    }
  }

  lemma SameVotes<T>(f: Probe -> Option<T>, probes: seq<Probe>, probes': seq<Probe>, v: T)
    requires multiset(probes) == multiset(probes')
    ensures Majority(f, probes, v) <==> Majority(f, probes', v)
  {
    assert |probes| == |multiset(probes)| == |probes'|;
    MappedPermutes(f, probes, probes');
  }

  lemma StillDisagree(probes: seq<Probe>, probes': seq<Probe>)
    requires multiset(probes) == multiset(probes') && Disagree(probes)
    ensures Disagree(probes')
  {
    var i, j :| 0 <= i < |probes| && 0 <= j < |probes|
                && probes[i].Clean? && probes[j].Clean? && probes[i] != probes[j];
    assert probes[i] in multiset(probes') && probes[j] in multiset(probes');
    var i' :| 0 <= i' < |probes'| && probes'[i'] == probes[i];
    var j' :| 0 <= j' < |probes'| && probes'[j'] == probes[j];
  }

  /** The same answers in another order give the same report. */
  lemma ArrivalOrderIrrelevant(probes: seq<Probe>, probes': seq<Probe>, r: Report, r': Report)
    requires multiset(probes) == multiset(probes')
    requires Reports(probes, r) && Reports(probes', r')
    ensures r == r'
  {
    hide Majority, Disagree;
    forall v: string ensures Majority(IpOf, probes, v) <==> Majority(IpOf, probes', v) {
      SameVotes(IpOf, probes, probes', v);
    }
    forall v ensures Majority(PortOf, probes, v) <==> Majority(PortOf, probes', v) {
      SameVotes(PortOf, probes, probes', v);
    }
    if Disagree(probes) {
      StillDisagree(probes, probes');
    }
    if Disagree(probes') {
      StillDisagree(probes', probes);
    }
    if v: string :| Majority(IpOf, probes, v) {
      MajorityUnique(IpOf, probes, r.consensusIp.value, r'.consensusIp.value);
    }
    if v: nat :| Majority(PortOf, probes, v) {
      MajorityUnique(PortOf, probes, r.consensusPort, r'.consensusPort);
    }
  }
}
