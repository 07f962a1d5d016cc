/**
  The simulator's state machines: each voter's list of applied entries, kept across crashes, and
  what every run that reports those lists truthfully says about them.
 */
module RaftApplied {
  import opened RaftTypes
  import opened RaftVoter
  import opened RaftInvariant
  import opened RaftCluster
  import opened RaftSafety

  /** All entries voter `n` ever handed to its state machine, in every process it ran. */
  ghost function Applied(cfg: Config, evs: seq<Event>, n: NodeId): seq<Entry>
    requires cfg.members != []
  {
    if evs == [] then []
    else
      var rest := evs[..|evs| - 1];
      Applied(cfg, rest, n)
      + if evs[|evs| - 1] == TakeEntries(n) && IsUp(Run(cfg, rest), n)
        then Deliveries(Run(cfg, rest).nodes[n].voter) else []
  }

  /** The last event restarted the crashed voter `n`. */
  ghost predicate Restarted(cfg: Config, evs: seq<Event>, n: NodeId)
    requires cfg.members != []
  {
    evs != [] && evs[|evs| - 1] == Restart(n)
    && n in Run(cfg, evs[..|evs| - 1]).nodes && !IsUp(Run(cfg, evs[..|evs| - 1]), n)
  }

  /** Reports never run ahead of the state machine, and a restart reports all of it before anything else. */
  ghost predicate Accurate(cfg: Config, rest: seq<Event>, ev: Event)
    requires cfg.members != []
  {
    && (ev.ReportApplied? ==> ev.applied <= |Applied(cfg, rest, ev.n)|)
    && (forall n :: Restarted(cfg, rest, n) ==> ev == ReportApplied(n, |Applied(cfg, rest, n)|))
  }

  ghost predicate Diligent(cfg: Config, evs: seq<Event>)
    requires cfg.members != []
  {
    evs == [] || (Diligent(cfg, evs[..|evs| - 1]) && Accurate(cfg, evs[..|evs| - 1], evs[|evs| - 1]))
  }

  ghost predicate InOrder(es: seq<Entry>) {
    forall i :: 0 <= i < |es| ==> es[i].index == i + 1
  }

  /** Whatever was applied, its voter knew to be committed when it took it. */
  lemma {:induction false} AppliedCommitted(cfg: Config, evs: seq<Event>, n: NodeId, e: Entry) returns (i: nat)
    requires cfg.Valid() && cfg.members != [] && e in Applied(cfg, evs, n)
    ensures i < |evs| && evs[i] == TakeEntries(n) && HoldsCommitted(Run(cfg, evs[..i]), n, e)
  {
    hide Run, Deliveries;
    var k := |evs| - 1;
    var rest := evs[..k];
    if e in Applied(cfg, rest, n) {
      i := AppliedCommitted(cfg, rest, n, e);
      assert rest[..i] == evs[..i];
    } else {
      i := k;
      var h := ReachableOk(cfg, rest);
      UpVoter(cfg, h, Run(cfg, rest), n);
      DeliveredHeld(cfg, h, Run(cfg, rest).nodes[n].voter, e);
    }
  }

  /** What was reported to a voter, its state machine had applied. */
  lemma {:induction false} ReportedApplied(cfg: Config, evs: seq<Event>, n: NodeId)
    requires cfg.members != [] && Diligent(cfg, evs)
    ensures Reported(cfg, evs, n) <= |Applied(cfg, evs, n)|
  {
    hide Run, Deliveries;
    if evs != [] {
      ReportedApplied(cfg, evs[..|evs| - 1], n);
    }
  }

  lemma BaseApplied(cfg: Config, evs: seq<Event>, n: NodeId, m: NodeId)
    requires cfg.Valid() && cfg.members != [] && Diligent(cfg, evs) && n in Run(cfg, evs).nodes && m in cfg.members
    ensures Replica(Run(cfg, evs), n).snapshotIndex <= |Applied(cfg, evs, m)|
  {
    hide Run, Applied, Diligent, Reported;
    CompactionSafety(cfg, evs, n, m);
    ReportedApplied(cfg, evs, m);
  }

  lemma IsMember(cfg: Config, evs: seq<Event>, n: NodeId)
    requires cfg.Valid() && cfg.members != []
    ensures n in Run(cfg, evs).nodes <==> n in cfg.members
  {
    hide Run, HistOk, NetOk, NodeOk;
    var h := ReachableOk(cfg, evs);
  }

  /** A restarted voter's log still reaches as far as its state machine. */
  lemma AppliedReached(cfg: Config, evs: seq<Event>, n: NodeId)
    requires cfg.Valid() && cfg.members != [] && IsUp(Run(cfg, evs), n) && InOrder(Applied(cfg, evs, n))
    requires Run(cfg, evs).nodes[n].voter.snapshotIndex <= |Applied(cfg, evs, n)|
    ensures var v, a := Run(cfg, evs).nodes[n].voter, |Applied(cfg, evs, n)|;
            Max(Min(a, LastIndex(v)), v.snapshotIndex) == a
  {
    hide Run, Applied;
    var es := Applied(cfg, evs, n);
    if es != [] {
      var e := es[|es| - 1];
      var i := AppliedCommitted(cfg, evs, n, e);
      assert evs[..|evs|] == evs;
      CommitsAreDurable(cfg, evs, i, |evs|, n, e);
    }
  }

  lemma DeliveredInOrder(cfg: Config, h: Hist, v: Voter, es: seq<Entry>)
    requires HistOk(cfg, h) && VoterOk(cfg, h, v) && InOrder(es) && v.lastDelivered == |es|
    ensures InOrder(es + Deliveries(v))
  {
    hide HistOk, VoterOk, Deliveries;
    TakenExactly(cfg, h, v);
  }

  /** One event at a voter that stays up, when delivery had caught up with the state machine. */
  lemma AppliedStep(cfg: Config, h: Hist, v: Voter, ev: Event, es: seq<Entry>)
    requires HistOk(cfg, h) && VoterOk(cfg, h, v) && cfg.members != []
    requires InOrder(es) && v.lastDelivered == |es| && (ev.ReportApplied? ==> ev.applied <= |es|)
    ensures var more := if ev.TakeEntries? then Deliveries(v) else [];
            InOrder(es + more) && VoterNext(cfg, v, ev).lastDelivered == |es + more|
  {
    hide HistOk, VoterOk, VoterNext, Deliveries;
    EventDelivers(cfg, h, v, ev);
    if ev.TakeEntries? {
      DeliveredInOrder(cfg, h, v, es);
    }
  }

  /** The frontier a voter delivers from is where its state machine stands; right after a restart it may lag. */
  ghost predicate CaughtUp(cfg: Config, evs: seq<Event>, n: NodeId)
    requires cfg.members != []
  {
    IsUp(Run(cfg, evs), n) ==>
      var v, a := Run(cfg, evs).nodes[n].voter, |Applied(cfg, evs, n)|;
      v.lastDelivered <= a && (v.lastDelivered == a || Restarted(cfg, evs, n))
  }

  /** In a diligent run every state machine applies indices 1, 2, 3 and so on, whatever crashes. */
  lemma {:induction false} AppliedInOrder(cfg: Config, evs: seq<Event>, n: NodeId)
    requires cfg.Valid() && cfg.members != [] && Diligent(cfg, evs)
    ensures InOrder(Applied(cfg, evs, n)) && CaughtUp(cfg, evs, n)
  {
    hide Next, VoterNext, Deliveries, Diligent;
    if evs != [] {
      DiligentLast(cfg, evs);
      AppliedInOrder(cfg, evs[..|evs| - 1], n);
      AppliedNext(cfg, evs, n);
    } else {
      StartsEmpty(cfg, n);
    }
  }

  lemma StartsEmpty(cfg: Config, n: NodeId)
    requires cfg.members != []
    ensures CaughtUp(cfg, [], n)
  {
  }

  lemma DiligentLast(cfg: Config, evs: seq<Event>)
    requires cfg.members != [] && Diligent(cfg, evs) && evs != []
    ensures Diligent(cfg, evs[..|evs| - 1]) && Accurate(cfg, evs[..|evs| - 1], evs[|evs| - 1])
  {
  }

  lemma AppliedNext(cfg: Config, evs: seq<Event>, n: NodeId)
    requires cfg.Valid() && cfg.members != [] && evs != [] && Diligent(cfg, evs)
    requires InOrder(Applied(cfg, evs[..|evs| - 1], n)) && CaughtUp(cfg, evs[..|evs| - 1], n)
    ensures InOrder(Applied(cfg, evs, n)) && CaughtUp(cfg, evs, n)
  {
    hide Next, VoterNext, Deliveries, Diligent;
    var rest, ev := evs[..|evs| - 1], evs[|evs| - 1];
    var c, es := Run(cfg, rest), Applied(cfg, rest, n);
    DiligentLast(cfg, evs);
    assert es + [] == es;
    if IsUp(c, n) && IsUp(Run(cfg, evs), n) {
      var v := c.nodes[n].voter;
      NextVoter(cfg, c, ev, n);
      if Restarted(cfg, rest, n) {
        IsMember(cfg, rest, n);
        BaseApplied(cfg, rest, n, n);
        AppliedReached(cfg, rest, n);
        ReportVoter(cfg, c, n, |es|);
      } else if Run(cfg, evs).nodes[n].voter != v || ev == TakeEntries(n) {
        var h := ReachableOk(cfg, rest);
        UpVoter(cfg, h, c, n);
        AppliedStep(cfg, h, v, ev, es);
      }
    } else if IsUp(Run(cfg, evs), n) {
      FreshVoter(cfg, c, ev, n);
      RestartOnly(cfg, c, ev, n);
      IsMember(cfg, evs, n);
      BaseApplied(cfg, evs, n, n);
    } else if IsUp(c, n) {
      TakeStaysUp(cfg, c, n);
    }
  }

  lemma ReportVoter(cfg: Config, c: Cluster, n: NodeId, a: nat)
    requires cfg.members != [] && IsUp(c, n)
    ensures var d := Next(cfg, c, ReportApplied(n, a));
            IsUp(d, n) && d.nodes[n].voter == SetApplied(c.nodes[n].voter, a)
  {
  }

  lemma RestartOnly(cfg: Config, c: Cluster, ev: Event, n: NodeId)
    requires cfg.members != [] && !IsUp(c, n) && IsUp(Next(cfg, c, ev), n)
    ensures ev == Restart(n) && n in c.nodes
  {
    hide VoterNext, MidStep;
  }

  lemma TakeStaysUp(cfg: Config, c: Cluster, n: NodeId)
    requires cfg.members != [] && IsUp(c, n)
    ensures IsUp(Next(cfg, c, TakeEntries(n)), n)
  {
  }

  /** Of any two state machines of a diligent run, the shorter is a prefix of the longer. */
  lemma AppliedAgree(cfg: Config, evs: seq<Event>, a: NodeId, b: NodeId)
    requires cfg.Valid() && cfg.members != [] && Diligent(cfg, evs)
    requires |Applied(cfg, evs, a)| <= |Applied(cfg, evs, b)|
    ensures Applied(cfg, evs, a) <= Applied(cfg, evs, b)
  {
    hide Run, Applied, Diligent, HoldsCommitted;
    AppliedInOrder(cfg, evs, a);
    AppliedInOrder(cfg, evs, b);
    var x, y := Applied(cfg, evs, a), Applied(cfg, evs, b);
    forall k | 0 <= k < |x|
      ensures x[k] == y[k]
    {
      var i := AppliedCommitted(cfg, evs, a, x[k]);
      var j := AppliedCommitted(cfg, evs, b, y[k]);
      StateMachineSafety(cfg, evs, i, j, a, b, x[k], y[k]);
    }
  }
}
