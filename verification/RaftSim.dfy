/** The simulator's own checks on live voters, and why no run of the cluster ever fails them. */
module RaftSim {
  import opened RaftTypes
  import opened RaftInvariant
  import opened RaftVoter
  import opened RaftCluster
  import opened RaftSafety

  /** A live leader contradicts a leader seen before it in the same term. */
  ghost predicate Clash(leaders: map<nat, NodeId>, live: seq<Voter>) {
    || (exists i :: 0 <= i < |live| && live[i].role == Leader && live[i].term in leaders
                    && leaders[live[i].term] != live[i].me)
    || (exists i, j :: 0 <= i < j < |live| && Rivals(live[i], live[j]))
  }

  ghost predicate Rivals(v: Voter, w: Voter) {
    v.role == Leader && w.role == Leader && v.term == w.term && v.me != w.me
  }

  /** The record after a check without a clash: what was known, and every live leader. */
  ghost predicate Noted(before: map<nat, NodeId>, live: seq<Voter>, after: map<nat, NodeId>) {
    && (forall t :: t in before ==> t in after && after[t] == before[t])
    && (forall i :: 0 <= i < |live| && live[i].role == Leader ==>
        live[i].term in after && after[live[i].term] == live[i].me)
    && (forall t :: t in after && t !in before ==>
        exists i :: 0 <= i < |live| && live[i].role == Leader && live[i].term == t)
  }

  /** Highest index both logs hold with one term; everything both hold up to it must agree. */
  ghost predicate LogsAgree(v: Voter, w: Voter) {
    forall q: nat, k: nat :: SameTerm(v, w, q) && Max(v.snapshotIndex, w.snapshotIndex) < k <= q ==>
        EntryAt(v, k) == EntryAt(w, k)
  }

  predicate SameTerm(v: Voter, w: Voter, q: nat) {
    EntryAt(v, q).Some? && EntryAt(w, q).Some? && EntryAt(v, q).value.term == EntryAt(w, q).value.term
  }

  /** Scans down for the agreement point, then compares up to it. */
  method CompareLogs(v: Voter, w: Voter) returns (ok: bool)
    ensures ok <==> LogsAgree(v, w)
  {
    var first := Max(v.snapshotIndex, w.snapshotIndex) + 1;
    var common := Min(LastIndex(v), LastIndex(w));
    var i := common;
    while i >= first && !SameTerm(v, w, i)
      invariant i <= common
      invariant forall q: nat :: SameTerm(v, w, q) && first <= q ==> q <= i
    {
      i := i - 1;
    }
    var agreed := if i >= first then i else 0;
    var k := first;
    while k <= agreed
      invariant first <= k
      invariant forall x: nat :: first <= x < k ==> EntryAt(v, x) == EntryAt(w, x)
    {
      if EntryAt(v, k) != EntryAt(w, k) {
        assert SameTerm(v, w, agreed);
        return false;
      }
      k := k + 1;
    }
    return true;
  }

  class Monitor {
    var leaders: map<nat, NodeId>

    constructor ()
      ensures leaders == map[]
    {
      leaders := map[];
    }

    method CheckElections(live: seq<Voter>) returns (ok: bool)
      modifies this
      ensures ok <==> !Clash(old(leaders), live)
      ensures ok ==> Noted(old(leaders), live, leaders)
    {
      for i := 0 to |live|
        invariant !Clash(old(leaders), live[..i]) && Noted(old(leaders), live[..i], leaders)
      {
        var v := live[i];
        assert live[..i + 1] == live[..i] + [v];
        if v.role == Leader {
          if v.term in leaders && leaders[v.term] != v.me {
            ClashFound(old(leaders), live, i, leaders);
            return false;
          }
          ClashNext(old(leaders), live[..i], leaders, v);
          NotedNext(old(leaders), live[..i], leaders, v);
          leaders := leaders[v.term := v.me];
        } else {
          NotedSkip(old(leaders), live[..i], leaders, v);
        }
      }
      assert live[..|live|] == live;
      return true;
    }

    method CheckLogs(live: seq<Voter>) returns (ok: bool)
      ensures ok <==> forall a, b :: 0 <= a < b < |live| ==> LogsAgree(live[a], live[b])
    {
      for a := 0 to |live|
        invariant forall x, y :: 0 <= x < a && x < y < |live| ==> LogsAgree(live[x], live[y])
      {
        for b := a + 1 to |live|
          invariant forall y :: a < y < b ==> LogsAgree(live[a], live[y])
        {
          ok := CompareLogs(live[a], live[b]);
          if !ok {
            return;
          }
        }
      }
      return true;
    }
  }

  lemma ClashFound(before: map<nat, NodeId>, live: seq<Voter>, i: nat, leaders: map<nat, NodeId>)
    requires i < |live| && Noted(before, live[..i], leaders)
    requires live[i].role == Leader && live[i].term in leaders && leaders[live[i].term] != live[i].me
    ensures Clash(before, live)
  {
    var t := live[i].term;
    if t !in before {
      var j :| 0 <= j < i && live[..i][j].role == Leader && live[..i][j].term == t;
      assert Rivals(live[j], live[i]);
    }
  }

  lemma ClashNext(before: map<nat, NodeId>, live: seq<Voter>, leaders: map<nat, NodeId>, v: Voter)
    requires !Clash(before, live) && Noted(before, live, leaders)
    requires v.role == Leader && (v.term in leaders ==> leaders[v.term] == v.me)
    ensures !Clash(before, live + [v])
  {
    var all := live + [v];
    forall i, j | 0 <= i < j < |all|
      ensures !Rivals(all[i], all[j])
    {
      if j < |live| {
        assert !Rivals(live[i], live[j]);
      }
    }
  }

  lemma NotedNext(before: map<nat, NodeId>, live: seq<Voter>, leaders: map<nat, NodeId>, v: Voter)
    requires Noted(before, live, leaders)
    requires v.role == Leader && (v.term in leaders ==> leaders[v.term] == v.me)
    ensures Noted(before, live + [v], leaders[v.term := v.me])
  {
    var all := live + [v];
    assert all[|live|] == v;
    forall t | t in leaders && t !in before
      ensures exists i :: 0 <= i < |all| && all[i].role == Leader && all[i].term == t
    {
      var i :| 0 <= i < |live| && live[i].role == Leader && live[i].term == t;
      assert all[i] == live[i];
    }
  }

  lemma NotedSkip(before: map<nat, NodeId>, live: seq<Voter>, leaders: map<nat, NodeId>, v: Voter)
    requires !Clash(before, live) && Noted(before, live, leaders) && v.role != Leader
    ensures !Clash(before, live + [v]) && Noted(before, live + [v], leaders)
  {
    var all := live + [v];
    forall i, j | 0 <= i < j < |all|
      ensures !Rivals(all[i], all[j])
    {
      if j < |live| {
        assert !Rivals(live[i], live[j]);
      }
    }
    forall t | t in leaders && t !in before
      ensures exists i :: 0 <= i < |all| && all[i].role == Leader && all[i].term == t
    {
      var i :| 0 <= i < |live| && live[i].role == Leader && live[i].term == t;
      assert all[i] == live[i];
    }
  }

  // ---------------------------------------------------------------------------
  // Runs
  // ---------------------------------------------------------------------------

  /** Each listed voter is running in the cluster. */
  ghost predicate AllLive(c: Cluster, live: seq<Voter>) {
    forall i :: 0 <= i < |live| ==> IsUp(c, live[i].me) && c.nodes[live[i].me].voter == live[i]
  }

  ghost predicate Led(cfg: Config, evs: seq<Event>, i: nat, n: NodeId, t: nat)
    requires cfg.members != []
  {
    i <= |evs| && Leads(Run(cfg, evs[..i]), n) && Run(cfg, evs[..i]).nodes[n].voter.term == t
  }

  /** Every recorded leader did lead its term at some point of the run. */
  ghost predicate Truthful(cfg: Config, evs: seq<Event>, leaders: map<nat, NodeId>)
    requires cfg.members != []
  {
    forall t :: t in leaders ==> exists i: nat :: Led(cfg, evs, i, leaders[t], t)
  }

  lemma LiveLed(cfg: Config, evs: seq<Event>, live: seq<Voter>, i: nat)
    requires cfg.members != [] && AllLive(Run(cfg, evs), live) && i < |live| && live[i].role == Leader
    ensures Led(cfg, evs, |evs|, live[i].me, live[i].term)
  {
    hide Run;
    assert evs[..|evs|] == evs;
  }

  /** In every run the check passes, and what it records stays true. */
  lemma ElectionChecksPass(cfg: Config, evs: seq<Event>, live: seq<Voter>, before: map<nat, NodeId>,
                           after: map<nat, NodeId>)
    requires cfg.Valid() && cfg.members != [] && AllLive(Run(cfg, evs), live) && Truthful(cfg, evs, before)
    ensures !Clash(before, live)
    ensures Noted(before, live, after) ==> Truthful(cfg, evs, after)
  {
    hide Run, AllLive;
    forall i | 0 <= i < |live| && live[i].role == Leader && live[i].term in before
      ensures before[live[i].term] == live[i].me
    {
      LiveLed(cfg, evs, live, i);
      var j: nat :| Led(cfg, evs, j, before[live[i].term], live[i].term);
      ElectionSafety(cfg, evs, j, |evs|, before[live[i].term], live[i].me);
    }
    forall i, j | 0 <= i < j < |live|
      ensures !Rivals(live[i], live[j])
    {
      if live[i].role == Leader && live[j].role == Leader && live[i].term == live[j].term {
        LiveLed(cfg, evs, live, i);
        LiveLed(cfg, evs, live, j);
        ElectionSafety(cfg, evs, |evs|, |evs|, live[i].me, live[j].me);
      }
    }
    if Noted(before, live, after) {
      forall t | t in after
        ensures exists i: nat :: Led(cfg, evs, i, after[t], t)
      {
        if t in before {
          var i: nat :| Led(cfg, evs, i, before[t], t);
          assert Led(cfg, evs, i, after[t], t);
        } else {
          var i :| 0 <= i < |live| && live[i].role == Leader && live[i].term == t;
          LiveLed(cfg, evs, live, i);
          assert Led(cfg, evs, |evs|, after[t], t);
        }
      }
    }
  }

  /** A recorded leader is still truthful in every longer run. */
  lemma TruthfulLater(cfg: Config, evs: seq<Event>, more: seq<Event>, leaders: map<nat, NodeId>)
    requires cfg.members != [] && Truthful(cfg, evs, leaders)
    ensures Truthful(cfg, evs + more, leaders)
  {
    hide Run;
    forall t | t in leaders
      ensures exists i: nat :: Led(cfg, evs + more, i, leaders[t], t)
    {
      var i: nat :| Led(cfg, evs, i, leaders[t], t);
      assert (evs + more)[..i] == evs[..i];
      assert Led(cfg, evs + more, i, leaders[t], t);
    }
  }

  lemma EntryTerm(cfg: Config, evs: seq<Event>, n: NodeId, q: nat)
    requires cfg.Valid() && cfg.members != [] && IsUp(Run(cfg, evs), n)
    ensures var v := Run(cfg, evs).nodes[n].voter;
      && (EntryAt(v, q).Some? <==> v.snapshotIndex < q <= LastIndex(v))
      && (EntryAt(v, q).Some? ==> TermAt(v, q) == EntryAt(v, q).value.term >= 1)
  {
    hide ClusterOk, Run;
    var h := ReachableOk(cfg, evs);
    ReplicaLog(cfg, h, Run(cfg, evs), n);
    var v := Run(cfg, evs).nodes[n].voter;
    ViewEnds(v, h.p.log[n]);
    ViewAt(v, h.p.log[n], q);
  }

  /** In every run any two live logs pass the comparison. */
  lemma LogChecksPass(cfg: Config, evs: seq<Event>, live: seq<Voter>, a: nat, b: nat)
    requires cfg.Valid() && cfg.members != [] && AllLive(Run(cfg, evs), live) && a < |live| && b < |live|
    ensures LogsAgree(live[a], live[b])
  {
    hide Run;
    var v, w := live[a], live[b];
    forall q: nat, k: nat | SameTerm(v, w, q) && Max(v.snapshotIndex, w.snapshotIndex) < k <= q
      ensures EntryAt(v, k) == EntryAt(w, k)
    {
      EntryTerm(cfg, evs, v.me, q);
      EntryTerm(cfg, evs, w.me, q);
      EntryTerm(cfg, evs, v.me, k);
      EntryTerm(cfg, evs, w.me, k);
      assert evs[..|evs|] == evs;
      LogsMatch(cfg, evs, |evs|, |evs|, v.me, w.me, q, k);
    }
  }

  /** One round of checks on a cluster reached by any run: nothing fails, and the record stays truthful. */
  method CheckRun(ghost cfg: Config, ghost evs: seq<Event>, live: seq<Voter>, monitor: Monitor) returns (ok: bool)
    requires cfg.Valid() && cfg.members != [] && AllLive(Run(cfg, evs), live) && Truthful(cfg, evs, monitor.leaders)
    modifies monitor
    ensures ok && Truthful(cfg, evs, monitor.leaders) && Noted(old(monitor.leaders), live, monitor.leaders)
  {
    ghost var before := monitor.leaders;
    ok := monitor.CheckElections(live);
    ElectionChecksPass(cfg, evs, live, before, monitor.leaders);
    var logs := monitor.CheckLogs(live);
    forall a, b | 0 <= a < b < |live|
      ensures LogsAgree(live[a], live[b])
    {
      LogChecksPass(cfg, evs, live, a, b);
    }
    ok := ok && logs;
  }

  /** The live voters after each event of a run, and before the first. */
  ghost predicate Rounds(cfg: Config, evs: seq<Event>, rounds: seq<seq<Voter>>)
    requires cfg.members != []
  {
    |rounds| == |evs| + 1 && forall i :: 0 <= i < |rounds| ==> AllLive(Run(cfg, evs[..i]), rounds[i])
  }

  ghost predicate Recorded(leaders: map<nat, NodeId>, live: seq<Voter>) {
    forall k :: 0 <= k < |live| && live[k].role == Leader ==>
        live[k].term in leaders && leaders[live[k].term] == live[k].me
  }

  /**
    Checking after every event of any run, with one record kept throughout, never fails; each leader
    seen is on record.
   */
  method Watch(ghost cfg: Config, ghost evs: seq<Event>, rounds: seq<seq<Voter>>) returns (ok: bool, monitor: Monitor)
    requires cfg.Valid() && cfg.members != [] && Rounds(cfg, evs, rounds)
    ensures ok && Truthful(cfg, evs, monitor.leaders)
    ensures forall i :: 0 <= i < |rounds| ==> Recorded(monitor.leaders, rounds[i])
  {
    hide Run, AllLive;
    monitor := new Monitor();
    ok := true;
    for i := 0 to |rounds|
      invariant ok && fresh(monitor)
      invariant Truthful(cfg, if i == 0 then [] else evs[..i - 1], monitor.leaders)
      invariant forall j :: 0 <= j < i ==> Recorded(monitor.leaders, rounds[j])
    {
      ghost var before := if i == 0 then [] else evs[..i - 1];
      ghost var known := monitor.leaders;
      assert evs[..i] == before + if i == 0 then [] else [evs[i - 1]];
      TruthfulLater(cfg, before, if i == 0 then [] else [evs[i - 1]], known);
      assert AllLive(Run(cfg, evs[..i]), rounds[i]);
      var passed := CheckRun(cfg, evs[..i], rounds[i], monitor);
      ok := ok && passed;
      forall j | 0 <= j < i
        ensures Recorded(monitor.leaders, rounds[j])
      {
        RecordKept(known, rounds[i], monitor.leaders, rounds[j]);
      }
    }
    assert evs[..|evs|] == evs;
  }

  lemma RecordKept(before: map<nat, NodeId>, live: seq<Voter>, after: map<nat, NodeId>, earlier: seq<Voter>)
    requires Noted(before, live, after) && Recorded(before, earlier)
    ensures Recorded(after, earlier)
  {
  }
}
