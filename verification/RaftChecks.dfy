/**
  The whole round of checks the simulator makes after each step, on its nodes with their state
  machines. In a diligent run every part passes but the last, leader completeness: a leader that
  was voted out without hearing of it fails that one, and the exact condition is given.
 */
module RaftChecks {
  import opened Basics
  import opened RaftTypes
  import opened RaftProtocol
  import opened RaftVoter
  import opened RaftInvariant
  import opened RaftReplication
  import opened RaftCluster
  import opened RaftSafety
  import opened RaftSim
  import opened RaftApplied

  /** A node of the simulator: its voter unless crashed, and the entries its state machine applied. */
  datatype SimNode = SimNode(voter: Option<Voter>, applied: seq<Entry>)

  // ---------------------------------------------------------------------------
  // The checks
  // ---------------------------------------------------------------------------

  function LastApplied(node: SimNode): nat {
    if node.applied == [] then 0 else node.applied[|node.applied| - 1].index
  }

  /** Node `a` dropped entries that live node `b` has neither applied nor under its own base. */
  predicate Strands(a: SimNode, b: SimNode) {
    && a.voter.Some? && b.voter.Some? && a.voter.value.me != b.voter.value.me
    && LastApplied(b) < a.voter.value.snapshotIndex && b.voter.value.snapshotIndex < a.voter.value.snapshotIndex
  }

  method CheckCompaction(nodes: seq<SimNode>) returns (ok: bool)
    ensures ok <==> forall i, j :: 0 <= i < |nodes| && 0 <= j < |nodes| ==> !Strands(nodes[i], nodes[j])
  {
    for i := 0 to |nodes|
      invariant forall x, y :: 0 <= x < i && 0 <= y < |nodes| ==> !Strands(nodes[x], nodes[y])
    {
      for j := 0 to |nodes|
        invariant forall y :: 0 <= y < j ==> !Strands(nodes[i], nodes[y])
      {
        if Strands(nodes[i], nodes[j]) {
          return false;
        }
      }
    }
    return true;
  }

  ghost predicate IsLongest(nodes: seq<SimNode>, k: nat) {
    k < |nodes| && forall i :: 0 <= i < |nodes| ==> |nodes[i].applied| <= |nodes[k].applied|
  }

  method Longest(nodes: seq<SimNode>) returns (k: nat)
    requires nodes != []
    ensures IsLongest(nodes, k) && forall i :: 0 <= i < k ==> |nodes[i].applied| < |nodes[k].applied|
  {
    k := 0;
    for i := 1 to |nodes|
      invariant k < i
      invariant forall x :: 0 <= x < i ==> |nodes[x].applied| <= |nodes[k].applied|
      invariant forall x :: 0 <= x < k ==> |nodes[x].applied| < |nodes[k].applied|
    {
      if |nodes[i].applied| > |nodes[k].applied| {
        k := i;
      }
    }
  }

  method CheckPrefixes(nodes: seq<SimNode>, longest: seq<Entry>) returns (ok: bool)
    requires forall i :: 0 <= i < |nodes| ==> |nodes[i].applied| <= |longest|
    ensures ok <==> forall i :: 0 <= i < |nodes| ==> nodes[i].applied <= longest
  {
    for i := 0 to |nodes|
      invariant forall x :: 0 <= x < i ==> nodes[x].applied <= longest
    {
      var es := nodes[i].applied;
      for k := 0 to |es|
        invariant forall y :: 0 <= y < k ==> es[y] == longest[y]
      {
        if es[k] != longest[k] {
          return false;
        }
      }
    }
    return true;
  }

  predicate IsLeader(node: SimNode) {
    node.voter.Some? && node.voter.value.role == Leader
  }

  /** The live leader of the highest term. */
  ghost predicate Heads(nodes: seq<SimNode>, i: nat) {
    && i < |nodes| && IsLeader(nodes[i])
    && (forall j :: 0 <= j < |nodes| && IsLeader(nodes[j]) ==> nodes[j].voter.value.term <= nodes[i].voter.value.term)
  }

  /** The last such leader in node order. */
  method CurrentLeader(nodes: seq<SimNode>) returns (r: Option<nat>)
    ensures r.None? <==> forall i :: 0 <= i < |nodes| ==> !IsLeader(nodes[i])
    ensures r.Some? ==> Heads(nodes, r.value) && forall i :: r.value < i < |nodes| ==> !Heads(nodes, i)
  {
    r := None;
    for i := 0 to |nodes|
      invariant r.None? <==> forall j :: 0 <= j < i ==> !IsLeader(nodes[j])
      invariant r.Some? ==> Heads(nodes[..i], r.value)
      invariant r.Some? ==> forall j :: r.value < j < i && IsLeader(nodes[j]) ==>
          nodes[j].voter.value.term < nodes[r.value].voter.value.term
    {
      if IsLeader(nodes[i]) && (r.None? || nodes[r.value].voter.value.term <= nodes[i].voter.value.term) {
        r := Some(i);
      }
    }
    assert nodes[..|nodes|] == nodes;
  }

  /** The leader stores every listed entry that is above its base. */
  ghost predicate Complete(es: seq<Entry>, w: Voter) {
    forall k :: 0 <= k < |es| && es[k].index > w.snapshotIndex ==> EntryAt(w, es[k].index) == Some(es[k])
  }

  method CheckLeader(es: seq<Entry>, w: Voter) returns (ok: bool)
    ensures ok <==> Complete(es, w)
  {
    for k := 0 to |es|
      invariant Complete(es[..k], w)
    {
      assert es[..k + 1] == es[..k] + [es[k]];
      if es[k].index > w.snapshotIndex && EntryAt(w, es[k].index) != Some(es[k]) {
        return false;
      }
    }
    assert es[..|es|] == es;
    return true;
  }

  // ---------------------------------------------------------------------------
  // Runs
  // ---------------------------------------------------------------------------

  ghost function LiveVoter(c: Cluster, n: NodeId): Option<Voter> {
    if IsUp(c, n) then Some(c.nodes[n].voter) else None
  }

  /** The simulator's nodes after a run. */
  ghost predicate Mirrors(cfg: Config, evs: seq<Event>, nodes: seq<SimNode>)
    requires cfg.members != []
  {
    |nodes| == |cfg.members| && forall i :: 0 <= i < |nodes| ==>
        nodes[i] == SimNode(LiveVoter(Run(cfg, evs), cfg.members[i]), Applied(cfg, evs, cfg.members[i]))
  }

  /** Nothing a diligent run compacts is missing from a live state machine. */
  lemma CompactionChecksPass(cfg: Config, evs: seq<Event>, nodes: seq<SimNode>, i: nat, j: nat)
    requires cfg.Valid() && cfg.members != [] && Diligent(cfg, evs) && Mirrors(cfg, evs, nodes)
    requires i < |nodes| && j < |nodes|
    ensures !Strands(nodes[i], nodes[j])
  {
    hide Run, Applied, Diligent;
    if nodes[i].voter.Some? {
      BaseApplied(cfg, evs, cfg.members[i], cfg.members[j]);
      AppliedInOrder(cfg, evs, cfg.members[j]);
    }
  }

  lemma PrefixChecksPass(cfg: Config, evs: seq<Event>, nodes: seq<SimNode>, k: nat)
    requires cfg.Valid() && cfg.members != [] && Diligent(cfg, evs) && Mirrors(cfg, evs, nodes) && IsLongest(nodes, k)
    ensures forall i :: 0 <= i < |nodes| ==> nodes[i].applied <= nodes[k].applied
  {
    hide Run, Applied, Diligent;
    forall i | 0 <= i < |nodes|
      ensures nodes[i].applied <= nodes[k].applied
    {
      AppliedAgree(cfg, evs, cfg.members[i], cfg.members[k]);
    }
  }

  /**
    Two committed entries, and a voter whose log has the term of the higher one at its index: it
    stores the lower one too, or has it under its base.
   */
  lemma CommittedBelow(cfg: Config, evs: seq<Event>, i: nat, a: NodeId, d: Entry, j: nat, b: NodeId, e: Entry,
                       n: NodeId)
    requires cfg.Valid() && cfg.members != [] && i <= |evs| && j <= |evs| && IsUp(Run(cfg, evs), n)
    requires HoldsCommitted(Run(cfg, evs[..i]), a, d) && HoldsCommitted(Run(cfg, evs[..j]), b, e)
    requires d.index <= e.index && TermAt(Run(cfg, evs).nodes[n].voter, e.index) == e.term
    ensures var v := Run(cfg, evs).nodes[n].voter;
            d.index > v.snapshotIndex ==> EntryAt(v, d.index) == Some(d)
  {
    hide ClusterOk, Run, CommittedLog, Safe, HistGrows, Traced, View, Shape, TermAt, EntryAt;
    var hs := Histories(cfg, evs);
    assert evs[..|evs|] == evs;
    var x, y, c, h := Run(cfg, evs[..i]), Run(cfg, evs[..j]), Run(cfg, evs), hs[|evs|];
    assert HistGrows(hs[i], h) && HistGrows(hs[j], h) && ClusterOk(cfg, h, c);
    CommittedEntry(cfg, hs[i], h, x, a, d);
    CommittedEntry(cfg, hs[j], h, y, b, e);
    var f :| |f| >= d.index > 0 && f[d.index - 1] == d && CommittedLog(h.p, f, d.index, x.nodes[a].voter.term);
    var g :| |g| >= e.index > 0 && g[e.index - 1] == e && CommittedLog(h.p, g, e.index, y.nodes[b].voter.term);
    ClusterSafe(cfg, h, c);
    CommittedLogsAgree(cfg, h.p, f, d.index, x.nodes[a].voter.term, g, e.index, y.nodes[b].voter.term);
    ReplicaLog(cfg, h, c, n);
    var v := c.nodes[n].voter;
    ViewAt(v, h.p.log[n], e.index);
    ViewAt(v, h.p.log[n], d.index);
    if d.index > v.snapshotIndex {
      CommittedMatches(cfg, h.p, g, e.index, y.nodes[b].voter.term, h.p.log[n]);
    }
  }

  /** A well-formed log with the term of a committed prefix at its end starts with that prefix. */
  lemma CommittedMatches(cfg: Config, p: Proto, g: seq<Entry>, q: nat, hi: nat, w: seq<Entry>)
    requires Safe(cfg, p) && CommittedLog(p, g, q, hi) && 0 < q <= |g| && Shape(p, w)
    requires g[q - 1].term == if q <= |w| then w[q - 1].term else 0
    ensures Agree(g, w, q)
  {
    hide Safe, Shape;
    var t :| CommittedIn(p, g, q, hi, t);
    ReignLog(cfg, p, t);
    LogMatching(p, w, p.reign[t].log, g[q - 1].term, q);
  }

  /** The term the leader has at the last index of the list is the last entry's, or the list ends under its base. */
  ghost predicate LastHeld(es: seq<Entry>, w: Voter) {
    es == [] || es[|es| - 1].index <= w.snapshotIndex || TermAt(w, es[|es| - 1].index) == es[|es| - 1].term
  }

  /** Whether a live voter holds everything a state machine applied is decided by the last applied entry. */
  lemma LeaderCheckExactly(cfg: Config, evs: seq<Event>, a: NodeId, n: NodeId)
    requires cfg.Valid() && cfg.members != [] && Diligent(cfg, evs) && IsUp(Run(cfg, evs), n)
    ensures var w := Run(cfg, evs).nodes[n].voter;
            Complete(Applied(cfg, evs, a), w) <==> LastHeld(Applied(cfg, evs, a), w)
  {
    hide Run, Applied, Diligent, HoldsCommitted;
    var w, es := Run(cfg, evs).nodes[n].voter, Applied(cfg, evs, a);
    AppliedInOrder(cfg, evs, a);
    if es != [] && es[|es| - 1].index > w.snapshotIndex && TermAt(w, es[|es| - 1].index) == es[|es| - 1].term {
      var e := es[|es| - 1];
      var j := AppliedCommitted(cfg, evs, a, e);
      forall k | 0 <= k < |es| && es[k].index > w.snapshotIndex
        ensures EntryAt(w, es[k].index) == Some(es[k])
      {
        var i := AppliedCommitted(cfg, evs, a, es[k]);
        CommittedBelow(cfg, evs, i, a, es[k], j, a, e, n);
      }
    }
  }

  /** Voter `a` was never above term `t` when its state machine took entries. */
  ghost predicate TakenWithin(cfg: Config, evs: seq<Event>, a: NodeId, t: nat)
    requires cfg.members != []
  {
    forall k :: 0 <= k < |evs| && evs[k] == TakeEntries(a) && IsUp(Run(cfg, evs[..k]), a) ==>
        Run(cfg, evs[..k]).nodes[a].voter.term <= t
  }

  /** Against a leader at least as new as the terms the entries were taken in, the check passes. */
  lemma LeaderCheckPasses(cfg: Config, evs: seq<Event>, a: NodeId, n: NodeId)
    requires cfg.Valid() && cfg.members != [] && Leads(Run(cfg, evs), n)
    requires TakenWithin(cfg, evs, a, Run(cfg, evs).nodes[n].voter.term)
    ensures Complete(Applied(cfg, evs, a), Run(cfg, evs).nodes[n].voter)
  {
    hide Run, Applied;
    var w, es := Run(cfg, evs).nodes[n].voter, Applied(cfg, evs, a);
    assert evs[..|evs|] == evs;
    forall k | 0 <= k < |es| && es[k].index > w.snapshotIndex
      ensures EntryAt(w, es[k].index) == Some(es[k])
    {
      var i := AppliedCommitted(cfg, evs, a, es[k]);
      LeadersAreComplete(cfg, evs, i, |evs|, a, n, es[k]);
    }
  }

  // ---------------------------------------------------------------------------
  // One round
  // ---------------------------------------------------------------------------

  method LiveVoters(ghost cfg: Config, ghost evs: seq<Event>, nodes: seq<SimNode>) returns (live: seq<Voter>)
    requires cfg.Valid() && cfg.members != [] && Mirrors(cfg, evs, nodes)
    ensures AllLive(Run(cfg, evs), live)
    ensures forall i :: 0 <= i < |nodes| && nodes[i].voter.Some? ==> nodes[i].voter.value in live
  {
    hide Run, Applied;
    live := [];
    for i := 0 to |nodes|
      invariant AllLive(Run(cfg, evs), live)
      invariant forall j :: 0 <= j < i && nodes[j].voter.Some? ==> nodes[j].voter.value in live
    {
      if nodes[i].voter.Some? {
        LiveName(cfg, evs, cfg.members[i]);
        live := live + [nodes[i].voter.value];
      }
    }
  }

  lemma LiveName(cfg: Config, evs: seq<Event>, n: NodeId)
    requires cfg.Valid() && cfg.members != [] && IsUp(Run(cfg, evs), n)
    ensures Run(cfg, evs).nodes[n].voter.me == n
  {
    hide ClusterOk, Run, VoterOk, HistOk;
    var h := ReachableOk(cfg, evs);
    UpVoter(cfg, h, Run(cfg, evs), n);
  }

  /** The term at the end of the longest state machine is what the newest live leader has there. */
  ghost predicate LeaderHolds(nodes: seq<SimNode>) {
    forall i: nat, k: nat :: Heads(nodes, i) && IsLongest(nodes, k) ==>
        LastHeld(nodes[k].applied, nodes[i].voter.value)
  }

  /** There is at most one newest live leader, and all longest state machines are the same. */
  lemma OneVerdict(cfg: Config, evs: seq<Event>, nodes: seq<SimNode>, i: nat, j: nat, k: nat, l: nat)
    requires cfg.Valid() && cfg.members != [] && Diligent(cfg, evs) && Mirrors(cfg, evs, nodes)
    requires Heads(nodes, i) && Heads(nodes, j) && IsLongest(nodes, k) && IsLongest(nodes, l)
    ensures i == j && nodes[k].applied == nodes[l].applied
  {
    hide Run, Applied, Diligent;
    assert evs[..|evs|] == evs;
    ElectionSafety(cfg, evs, |evs|, |evs|, cfg.members[i], cfg.members[j]);
    PrefixChecksPass(cfg, evs, nodes, k);
  }

  lemma LeaderVerdict(cfg: Config, evs: seq<Event>, nodes: seq<SimNode>, i: nat, k: nat)
    requires cfg.Valid() && cfg.members != [] && Diligent(cfg, evs) && Mirrors(cfg, evs, nodes)
    requires Heads(nodes, i) && IsLongest(nodes, k)
    ensures Complete(nodes[k].applied, nodes[i].voter.value) <==> LeaderHolds(nodes)
  {
    hide Run, Applied, Diligent, LastHeld, Complete;
    LeaderCheckExactly(cfg, evs, cfg.members[k], cfg.members[i]);
    forall j: nat, l: nat | Heads(nodes, j) && IsLongest(nodes, l)
      ensures i == j && nodes[k].applied == nodes[l].applied
    {
      OneVerdict(cfg, evs, nodes, i, j, k, l);
    }
  }

  /**
    Every check after any diligent run. The verdict is the last check's alone: it is good exactly
    when the newest live leader's log has the right term where the longest state machine ends.
   */
  method CheckInvariants(ghost cfg: Config, ghost evs: seq<Event>, nodes: seq<SimNode>, monitor: Monitor)
    returns (ok: bool)
    requires cfg.Valid() && cfg.members != [] && Diligent(cfg, evs) && Mirrors(cfg, evs, nodes)
    requires Truthful(cfg, evs, monitor.leaders)
    modifies monitor
    ensures ok <==> LeaderHolds(nodes)
    ensures Truthful(cfg, evs, monitor.leaders)
  {
    hide Run, Applied, Diligent, Mirrors, LastHeld, Complete, Truthful, AllLive, Noted;
    var live := LiveVoters(cfg, evs, nodes);
    var passed := CheckRun(cfg, evs, live, monitor);
    var compacted := CheckCompaction(nodes);
    forall i, j | 0 <= i < |nodes| && 0 <= j < |nodes|
      ensures !Strands(nodes[i], nodes[j])
    {
      CompactionChecksPass(cfg, evs, nodes, i, j);
    }
    NodesExist(cfg, evs, nodes);
    var k := Longest(nodes);
    var prefixes := CheckPrefixes(nodes, nodes[k].applied);
    PrefixChecksPass(cfg, evs, nodes, k);
    var leader := CurrentLeader(nodes);
    var held := true;
    if leader.Some? {
      LeaderVerdict(cfg, evs, nodes, leader.value, k);
      held := CheckLeader(nodes[k].applied, nodes[leader.value].voter.value);
    }
    return passed && compacted && prefixes && held;
  }

  lemma NodesExist(cfg: Config, evs: seq<Event>, nodes: seq<SimNode>)
    requires cfg.members != [] && Mirrors(cfg, evs, nodes)
    ensures nodes != []
  {
  }
}
