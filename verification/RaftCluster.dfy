/**
  A cluster of voters over a network that may lose, duplicate, delay and reorder messages, with
  crashes at any point and restarts from disk. A run is any finite list of events.
 */
module RaftCluster {
  import opened Basics
  import opened RaftTypes
  import opened RaftProtocol
  import opened RaftVoter
  import opened RaftInvariant
  import opened RaftElection
  import opened RaftReplication
  import opened RaftProgress

  datatype Node = Up(voter: Voter) | Down(disk: Persistent)

  /** `net` holds every envelope ever handed to the network; delivery never removes one. */
  datatype Cluster = Cluster(nodes: map<NodeId, Node>, net: set<Envelope>)

  datatype Event =
    | TickNode(n: NodeId, due: bool)
    | Deliver(env: Envelope)
    | ProposeAt(n: NodeId, data: seq<Byte>)
    | BarrierAt(n: NodeId)
    | ReportApplied(n: NodeId, applied: nat)
    | CompactAt(n: NodeId, upTo: nat)
    | DrainOutbox(n: NodeId)
    | TakeEntries(n: NodeId)
    | TakeReads(n: NodeId)
    | Crash(n: NodeId)
    | CrashInside(n: NodeId, input: Input, disk: Persistent)
    | Restart(n: NodeId)

  function Started(members: seq<NodeId>): (r: map<NodeId, Node>)
    ensures forall n :: n in r <==> n in members
    ensures forall n :: n in r ==> r[n] == Up(Boot(n, Persistent(0, None, [], 0, 0)))
  {
    if members == [] then map[]
    else Started(members[1..])[members[0] := Up(Boot(members[0], Persistent(0, None, [], 0, 0)))]
  }

  function Init(cfg: Config): Cluster {
    Cluster(Started(cfg.members), {})
  }

  predicate IsUp(c: Cluster, n: NodeId) {
    n in c.nodes && c.nodes[n].Up?
  }

  /** The node an event acts on. */
  function Actor(ev: Event): NodeId {
    match ev
    case Deliver(env) => env.to
    case TickNode(n, _) => n
    case ProposeAt(n, _) => n
    case BarrierAt(n) => n
    case ReportApplied(n, _) => n
    case CompactAt(n, _) => n
    case DrainOutbox(n) => n
    case TakeEntries(n) => n
    case TakeReads(n) => n
    case Crash(n) => n
    case CrashInside(n, _, _) => n
    case Restart(n) => n
  }

  /** What an event does to the voter it acts on, when that voter is running. */
  function VoterNext(cfg: Config, v: Voter, ev: Event): Voter
    requires cfg.members != []
  {
    match ev
    case TickNode(_, due) => Tick(cfg, v, due)
    case Deliver(env) => Step(cfg, v, env).voter
    case ProposeAt(_, data) => Propose(cfg, v, data).voter
    case BarrierAt(_) => ReadBarrier(cfg, v).voter
    case ReportApplied(_, a) => SetApplied(v, a)
    case CompactAt(_, upTo) => Compact(cfg, v, upTo)
    case DrainOutbox(_) => TakeOutbox(v)
    case TakeEntries(_) => TakeCommitted(v)
    case TakeReads(_) => TakeReadyReads(v)
    case _ => v
  }

  /** One event. Events that do not apply to the current state change nothing. */
  ghost function Next(cfg: Config, c: Cluster, ev: Event): Cluster
    requires cfg.members != []
  {
    var n := Actor(ev);
    if n !in c.nodes || (ev.Deliver? && ev.env !in c.net) then c
    else match c.nodes[n]
      case Down(d) => if ev.Restart? then c.(nodes := c.nodes[n := Up(Boot(n, d))]) else c
      case Up(v) =>
        match ev
        case Restart(_) => c
        case Crash(_) => c.(nodes := c.nodes[n := Down(v.disk)])
        case CrashInside(_, input, d) =>
          if MidStep(cfg, v, input, d) && (input.Receive? ==> input.env in c.net)
          then c.(nodes := c.nodes[n := Down(d)]) else c
        case DrainOutbox(_) =>
          c.(nodes := c.nodes[n := Up(TakeOutbox(v))], net := c.net + set e | e in v.outbox)
        case _ => c.(nodes := c.nodes[n := Up(VoterNext(cfg, v, ev))])
  }

  ghost function Run(cfg: Config, evs: seq<Event>): Cluster
    requires cfg.members != []
  {
    if evs == [] then Init(cfg) else Next(cfg, Run(cfg, evs[..|evs| - 1]), evs[|evs| - 1])
  }

  // ---------------------------------------------------------------------------
  // The invariant of every reachable cluster
  // ---------------------------------------------------------------------------

  ghost predicate NodeOk(cfg: Config, h: Hist, n: NodeId, node: Node) {
    match node
    case Up(v) => v.me == n && VoterOk(cfg, h, v)
    case Down(d) => StoreOk(cfg, h, n, d) && NoneIssued(h, n)
  }

  ghost predicate NetOk(cfg: Config, h: Hist, net: set<Envelope>) {
    forall e {:trigger MessageOk(cfg, h, e)} :: e in net ==> MessageOk(cfg, h, e)
  }

  ghost predicate NodesOk(cfg: Config, h: Hist, nodes: map<NodeId, Node>) {
    && (forall n :: n in nodes <==> n in cfg.members)
    && (forall n {:trigger NodeOk(cfg, h, n, nodes[n])} :: n in nodes ==> NodeOk(cfg, h, n, nodes[n]))
  }

  ghost predicate ClusterOk(cfg: Config, h: Hist, c: Cluster) {
    HistOk(cfg, h) && NodesOk(cfg, h, c.nodes) && NetOk(cfg, h, c.net)
  }

  /** A reported frontier counts only as far as the voter's log goes. */
  ghost function Frontier(v: Voter, applied: nat): nat {
    Min(applied, LastIndex(v))
  }

  /** The frontier the application of `m` reports in this event. */
  ghost function Report(c: Cluster, ev: Event, m: NodeId): nat {
    if ev.ReportApplied? && ev.n == m && IsUp(c, m) then Frontier(c.nodes[m].voter, ev.applied) else 0
  }

  ghost predicate Issues(cfg: Config, c: Cluster, ev: Event, m: NodeId, r: nat) {
    ev == BarrierAt(m) && IsUp(c, m) && ReadBarrier(cfg, c.nodes[m].voter).error == None
    && r == c.nodes[m].voter.readRound + 1
  }

  /** How the parts of the history that name events follow one event. */
  ghost predicate Traced(cfg: Config, h: Hist, h': Hist, c: Cluster, ev: Event) {
    && (forall m :: m in cfg.members ==> m in h.seenApplied && m in h'.seenApplied &&
                                         h'.seenApplied[m] <= Max(h.seenApplied[m], Report(c, ev, m)))
    && (forall m, r :: (m, r) in h'.issued ==>
          if Issues(cfg, c, ev, m, r) then h'.issued[(m, r)] == h.peak
          else (m, r) in h.issued && h'.issued[(m, r)] == h.issued[(m, r)])
  }

  lemma NodeKept(cfg: Config, h: Hist, h': Hist, n: NodeId, m: NodeId, node: Node)
    requires HistGrows(h, h') && OwnedBy(h, h', n) && m != n && NodeOk(cfg, h, m, node)
    ensures NodeOk(cfg, h', m, node)
  {
    match node
    case Up(v) => VoterKept(cfg, h, h', n, v);
    case Down(d) => StoreKept(cfg, h, h', m, d);
  }

  lemma NetKept(cfg: Config, h: Hist, h': Hist, net: set<Envelope>)
    requires HistGrows(h, h') && NetOk(cfg, h, net)
    ensures NetOk(cfg, h', net)
  {
    forall e | e in net
      ensures MessageOk(cfg, h', e)
    {
      assert MessageOk(cfg, h, e);
      MessageKept(cfg, h, h', e);
    }
  }

  /** Replacing one node keeps the cluster invariant. */
  lemma ReplaceNode(cfg: Config, h: Hist, h': Hist, c: Cluster, n: NodeId, node: Node)
    requires ClusterOk(cfg, h, c) && n in c.nodes
    requires HistOk(cfg, h') && HistGrows(h, h') && OwnedBy(h, h', n) && NodeOk(cfg, h', n, node)
    ensures ClusterOk(cfg, h', c.(nodes := c.nodes[n := node]))
  {
    hide HistOk, HistGrows, OwnedBy, MessageOk, NodeOk;
    NetKept(cfg, h, h', c.net);
    var nodes := c.nodes[n := node];
    forall m | m in nodes
      ensures NodeOk(cfg, h', m, nodes[m])
    {
      if m != n {
        assert NodeOk(cfg, h, m, c.nodes[m]);
        NodeKept(cfg, h, h', n, m, c.nodes[m]);
      }
    }
  }

  lemma StepOk(cfg: Config, h: Hist, v: Voter, e: Envelope) returns (h': Hist)
    requires HistOk(cfg, h) && VoterOk(cfg, h, v) && MessageOk(cfg, h, e) && cfg.members != []
    ensures Explained(cfg, h, h', v, Step(cfg, v, e).voter)
    ensures Step(cfg, v, e).error == None
  {
    hide HistOk, VoterOk, HistGrows, OwnedBy, OnRequestVote, OnVoteReply, OnAppend, OnAppendReply;
    if e.to != v.me || e.from !in cfg.members {
      h' := h;
      ExplainedReflexive(cfg, h, v);
    } else {
      match e.msg
      case RequestVote(_, _, _) => h' := RequestVoteOk(cfg, h, v, e);
      case RequestVoteReply(_, _) => h' := VoteReplyOk(cfg, h, v, e);
      case AppendEntries(_, _, _, _, _, _) => h' := AppendOk(cfg, h, v, e);
      case AppendEntriesReply(_, _, _, _, _) => h' := AppendReplyOk(cfg, h, v, e);
    }
  }

  /** Every event at a running voter, other than crashing and draining, is explained. */
  lemma VoterNextOk(cfg: Config, h: Hist, v: Voter, ev: Event) returns (h': Hist)
    requires HistOk(cfg, h) && VoterOk(cfg, h, v) && cfg.members != []
    requires ev.Deliver? ==> MessageOk(cfg, h, ev.env)
    ensures HistOk(cfg, h') && HistGrows(h, h') && OwnedBy(h, h', v.me)
    ensures VoterNext(cfg, v, ev).me == v.me && VoterOk(cfg, h', VoterNext(cfg, v, ev))
    ensures ev.ReportApplied? || h'.seenApplied == h.seenApplied
    ensures ev.ReportApplied? ==> v.me in h.seenApplied && h' == AppliedHist(h, v.me, SetApplied(v, ev.applied).applied)
    ensures if ev.BarrierAt? && ReadBarrier(cfg, v).error == None then h' == IssueHist(cfg, h, v)
            else h'.issued == h.issued
  {
    hide HistOk, VoterOk, HistGrows, OwnedBy, Tick, Step, Propose, ReadBarrier, Compact, MessageOk, SetApplied;
    ExplainedReflexive(cfg, h, v);
    h' := h;
    match ev
    case TickNode(_, due) => h' := TickOk(cfg, h, v, due);
    case Deliver(env) => h' := StepOk(cfg, h, v, env);
    case ProposeAt(_, data) => h' := ProposeOk(cfg, h, v, data);
    case BarrierAt(_) => h' := ReadBarrierOk(cfg, h, v);
    case ReportApplied(_, a) => h' := SetAppliedOk(cfg, h, v, a); SameVoter(cfg, v, a);
    case CompactAt(_, upTo) => CompactOk(cfg, h, v, upTo); SameVoter(cfg, v, upTo);
    case DrainOutbox(_) => TakeOutboxOk(cfg, h, v);
    case TakeEntries(_) => TakeCommittedOk(cfg, h, v);
    case TakeReads(_) => TakeReadyReadsOk(cfg, h, v);
    case _ =>
  }

  lemma {:induction false} SetAppliedBound(cfg: Config, h: Hist, v: Voter, a: nat)
    requires VoterOk(cfg, h, v)
    ensures v.me in h.seenApplied && SetApplied(v, a).applied <= Max(h.seenApplied[v.me], Frontier(v, a))
  {
    hide StoreOk, LeaderOk, CandidateOk, BarriersOk, OutboxOk, Committed, LastIndex;
  }

  lemma SameVoter(cfg: Config, v: Voter, k: nat)
    ensures Compact(cfg, v, k).me == v.me && SetApplied(v, k).me == v.me && TakeOutbox(v).me == v.me
  {
  }

  lemma TracedSame(cfg: Config, h: Hist, c: Cluster, ev: Event)
    requires HistOk(cfg, h)
    requires ev.BarrierAt? && IsUp(c, ev.n) ==> ReadBarrier(cfg, c.nodes[ev.n].voter).error != None
    ensures Traced(cfg, h, h, c, ev)
  {
    hide Safe, ReadBarrier;
  }

  /** Replacing the history by one that keeps frontiers and only loses barriers of the actor. */
  lemma TracedCrash(cfg: Config, h: Hist, h': Hist, c: Cluster, ev: Event, n: NodeId)
    requires HistOk(cfg, h) && OwnedBy(h, h', n) && NoneIssued(h', n)
    requires h'.seenApplied == h.seenApplied && !ev.BarrierAt?
    ensures Traced(cfg, h, h', c, ev)
  {
    hide Safe;
  }

  lemma TracedVoter(cfg: Config, h: Hist, h': Hist, c: Cluster, ev: Event, v: Voter)
    requires HistOk(cfg, h) && VoterOk(cfg, h, v)
    requires Actor(ev) in c.nodes && c.nodes[Actor(ev)] == Up(v) && v.me == Actor(ev)
    requires ev.ReportApplied? || h'.seenApplied == h.seenApplied
    requires ev.ReportApplied? ==>
             v.me in h.seenApplied && h' == AppliedHist(h, v.me, SetApplied(v, ev.applied).applied)
    requires if ev.BarrierAt? && ReadBarrier(cfg, v).error == None then h' == IssueHist(cfg, h, v)
             else h'.issued == h.issued
    ensures Traced(cfg, h, h', c, ev)
  {
    hide Safe, VoterOk, SetApplied, ReadBarrier;
    if ev.ReportApplied? {
      SetAppliedBound(cfg, h, v, ev.applied);
    }
  }

  lemma NextOk(cfg: Config, h: Hist, c: Cluster, ev: Event) returns (h': Hist)
    requires cfg.members != [] && ClusterOk(cfg, h, c)
    ensures ClusterOk(cfg, h', Next(cfg, c, ev)) && HistGrows(h, h')
    ensures Traced(cfg, h, h', c, ev)
  {
    var n := Actor(ev);
    h' := h;
    HistGrowsReflexive(h);
    if n !in c.nodes || (ev.Deliver? && ev.env !in c.net) {
      TracedSame(cfg, h, c, ev);
    }
    if n in c.nodes && (ev.Deliver? ==> ev.env in c.net) {
      assert NodeOk(cfg, h, n, c.nodes[n]);
      h' := ActorOk(cfg, h, c, ev);
    }
  }

  lemma ActorOk(cfg: Config, h: Hist, c: Cluster, ev: Event) returns (h': Hist)
    requires cfg.members != [] && ClusterOk(cfg, h, c)
    requires Actor(ev) in c.nodes && NodeOk(cfg, h, Actor(ev), c.nodes[Actor(ev)])
    requires ev.Deliver? ==> ev.env in c.net
    ensures ClusterOk(cfg, h', Next(cfg, c, ev)) && HistGrows(h, h')
    ensures Traced(cfg, h, h', c, ev)
  {
    hide HistOk, VoterOk, HistGrows, OwnedBy, MessageOk, StoreOk, MidStep, VoterNext, TakeOutbox, ReadBarrier,
         SetApplied,
         NoneIssued, Traced;
    var n := Actor(ev);
    h' := h;
    HistGrowsReflexive(h);
    OwnedReflexive(h, n);
    match c.nodes[n]
    case Down(d) =>
      TracedSame(cfg, h, c, ev);
      if ev.Restart? {
        BootOk(cfg, h, n, d);
        ReplaceNode(cfg, h, h, c, n, Up(Boot(n, d)));
      }
    case Up(v) =>
      if ev.Crash? {
        VoterStore(cfg, h, v);
        h' := CrashHist(h, n);
        CrashHistOk(cfg, h, n, v.disk);
        TracedCrash(cfg, h, h', c, ev, n);
        ReplaceNode(cfg, h, h', c, n, Down(v.disk));
      } else if ev.CrashInside? {
        TracedSame(cfg, h, c, ev);
        if MidStep(cfg, v, ev.input, ev.disk) && (ev.input.Receive? ==> ev.input.env in c.net) {
          h' := CrashMidOk(cfg, h, c, v, ev.input, ev.disk);
          TracedCrash(cfg, h, h', c, ev, n);
          ReplaceNode(cfg, h, h', c, n, Down(ev.disk));
        }
      } else if ev.DrainOutbox? {
        TracedSame(cfg, h, c, ev);
        TakeOutboxOk(cfg, h, v);
        DrainNet(cfg, h, v, c.net);
        SameVoter(cfg, v, 0);
        ReplaceNode(cfg, h, h, c, n, Up(TakeOutbox(v)));
      } else if ev.Restart? {
        TracedSame(cfg, h, c, ev);
      } else {
        h' := VoterNextOk(cfg, h, v, ev);
        TracedVoter(cfg, h, h', c, ev, v);
        ReplaceNode(cfg, h, h', c, n, Up(VoterNext(cfg, v, ev)));
      }
  }

  lemma OwnedReflexive(h: Hist, n: NodeId)
    ensures OwnedBy(h, h, n)
  {
  }

  lemma DrainNet(cfg: Config, h: Hist, v: Voter, net: set<Envelope>)
    requires VoterOk(cfg, h, v) && NetOk(cfg, h, net)
    ensures NetOk(cfg, h, net + set e | e in v.outbox)
  {
    forall e | e in v.outbox
      ensures MessageOk(cfg, h, e)
    {
    }
  }

  lemma CrashMidOk(cfg: Config, h: Hist, c: Cluster, v: Voter, input: Input, d: Persistent) returns (h': Hist)
    requires HistOk(cfg, h) && VoterOk(cfg, h, v) && NetOk(cfg, h, c.net)
    requires MidStep(cfg, v, input, d) && (input.Receive? ==> input.env in c.net)
    ensures HistOk(cfg, h') && HistGrows(h, h') && OwnedBy(h, h', v.me)
    ensures h'.seenApplied == h.seenApplied
    ensures StoreOk(cfg, h', v.me, d) && NoneIssued(h', v.me)
  {
    hide HistOk, VoterOk, HistGrows, OwnedBy, StoreOk, MidStep, NoneIssued;
    var g := MidStepOk(cfg, h, v, input, d);
    h' := CrashHist(g, v.me);
    CrashHistOk(cfg, g, v.me, d);
    HistGrowsTransitive(h, g, h');
    OwnedByTransitive(h, g, h', v.me);
  }

  // ---------------------------------------------------------------------------
  // Histories of runs
  // ---------------------------------------------------------------------------

  ghost function InitHist(cfg: Config): Hist {
    Hist(Proto(Fill<nat>(map[], cfg.members, 0), Fill<seq<Entry>>(map[], cfg.members, []), map[], map[], map[],
               map[], map[]),
         Fill<nat>(map[], cfg.members, 0), 0, map[], map[])
  }

  lemma InitOk(cfg: Config)
    requires cfg.Valid()
    ensures ClusterOk(cfg, InitHist(cfg), Init(cfg))
  {
    hide VoterOk, HistOk;
    var h, c := InitHist(cfg), Init(cfg);
    InitHistOk(cfg);
    forall n | n in c.nodes
      ensures NodeOk(cfg, h, n, c.nodes[n])
    {
      InitVoter(cfg, n);
    }
  }

  lemma InitHistOk(cfg: Config)
    requires cfg.Valid()
    ensures HistOk(cfg, InitHist(cfg))
  {
    forall m | m in cfg.members
      ensures InitAt(cfg, m)
    {
      InitValues(cfg, m);
    }
  }

  ghost predicate InitAt(cfg: Config, m: NodeId) {
    var h := InitHist(cfg);
    && m in h.p.term && h.p.term[m] == 0
    && m in h.p.log && h.p.log[m] == []
    && m in h.seenApplied && h.seenApplied[m] == 0
  }

  lemma InitValues(cfg: Config, m: NodeId)
    requires m in cfg.members
    ensures InitAt(cfg, m)
  {
    FillAt<nat>(map[], cfg.members, 0, m);
    FillAt<seq<Entry>>(map[], cfg.members, [], m);
  }

  lemma InitVoter(cfg: Config, n: NodeId)
    requires cfg.Valid() && n in cfg.members
    ensures VoterOk(cfg, InitHist(cfg), Boot(n, Persistent(0, None, [], 0, 0)))
  {
    hide HistOk;
    forall m | m in cfg.members
      ensures InitAt(cfg, m)
    {
      InitValues(cfg, m);
    }
  }

  ghost predicate HistoryOf(cfg: Config, evs: seq<Event>, hs: seq<Hist>)
    requires cfg.members != []
  {
    && |hs| == |evs| + 1
    && (forall i :: 0 <= i <= |evs| ==> ClusterOk(cfg, hs[i], Run(cfg, evs[..i])))
    && (forall i, j :: 0 <= i <= j <= |evs| ==> HistGrows(hs[i], hs[j]))
    && (forall i :: 0 <= i < |evs| ==> Traced(cfg, hs[i], hs[i + 1], Run(cfg, evs[..i]), evs[i]))
    && hs[0] == InitHist(cfg)
  }

  /** Every run has a history that explains each of its states. */
  lemma {:induction false} Histories(cfg: Config, evs: seq<Event>) returns (hs: seq<Hist>)
    requires cfg.Valid() && cfg.members != []
    ensures HistoryOf(cfg, evs, hs)
  {
    hide ClusterOk, HistGrows, Next, Traced, HistoryOf;
    if evs == [] {
      InitOk(cfg);
      hs := [InitHist(cfg)];
      HistoryStart(cfg);
    } else {
      var k := |evs| - 1;
      var rest := evs[..k];
      var gs := Histories(cfg, rest);
      HistoryAt(cfg, rest, gs);
      var h := NextOk(cfg, gs[k], Run(cfg, rest), evs[k]);
      hs := gs + [h];
      HistoryStep(cfg, evs, gs, h);
    }
  }

  lemma HistoryStart(cfg: Config)
    requires cfg.members != [] && ClusterOk(cfg, InitHist(cfg), Init(cfg))
    ensures HistoryOf(cfg, [], [InitHist(cfg)])
  {
    hide ClusterOk, HistGrows, Traced;
    HistGrowsReflexive(InitHist(cfg));
    var evs: seq<Event> := [];
    assert evs[..0] == [];
  }

  lemma HistoryAt(cfg: Config, evs: seq<Event>, hs: seq<Hist>)
    requires cfg.members != [] && HistoryOf(cfg, evs, hs)
    ensures |hs| == |evs| + 1 && ClusterOk(cfg, hs[|evs|], Run(cfg, evs))
  {
    hide ClusterOk, HistGrows, Traced;
    assert evs[..|evs|] == evs;
  }

  /** One more event extends the history. */
  lemma HistoryStep(cfg: Config, evs: seq<Event>, gs: seq<Hist>, h: Hist)
    requires cfg.members != [] && evs != [] && HistoryOf(cfg, evs[..|evs| - 1], gs)
    requires ClusterOk(cfg, h, Run(cfg, evs)) && HistGrows(gs[|evs| - 1], h)
    requires Traced(cfg, gs[|evs| - 1], h, Run(cfg, evs[..|evs| - 1]), evs[|evs| - 1])
    ensures HistoryOf(cfg, evs, gs + [h])
  {
    hide ClusterOk, HistGrows, Traced, Run;
    var k, hs := |evs| - 1, gs + [h];
    var rest := evs[..k];
    assert evs[..|evs|] == evs;
    assert forall i :: 0 <= i <= k ==> rest[..i] == evs[..i];
    forall i | 0 <= i <= |evs|
      ensures ClusterOk(cfg, hs[i], Run(cfg, evs[..i]))
    {
      if i <= k {
        assert ClusterOk(cfg, gs[i], Run(cfg, rest[..i]));
      }
    }
    forall i | 0 <= i < |evs|
      ensures Traced(cfg, hs[i], hs[i + 1], Run(cfg, evs[..i]), evs[i])
    {
      if i < k {
        assert Traced(cfg, gs[i], gs[i + 1], Run(cfg, rest[..i]), rest[i]);
      }
    }
    forall i, j | 0 <= i <= j <= |evs|
      ensures HistGrows(hs[i], hs[j])
    {
      if j <= k {
        assert HistGrows(gs[i], gs[j]);
      } else if i == j {
        HistGrowsReflexive(h);
      } else {
        assert HistGrows(gs[i], gs[k]);
        HistGrowsTransitive(gs[i], gs[k], h);
      }
    }
  }
}
