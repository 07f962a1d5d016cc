/**
  The leader's side: which reads an acknowledgement completes, what a reply changes, what ticks,
  proposals and barriers send, and how far a compaction reaches.
 */
module RaftServing {
  import opened Basics
  import opened RaftTypes
  import opened RaftVoter
  import opened RaftInvariant
  import opened RaftElection
  import opened RaftCluster
  import opened RaftSafety
  import opened RaftAnswers

  // ---------------------------------------------------------------------------
  // Reads
  // ---------------------------------------------------------------------------

  /** A pending round once `from` has acknowledged `round`. */
  ghost function Acked(r: PendingRead, from: NodeId, round: nat): PendingRead {
    if r.round <= round then PendingRead(r.round, r.index, r.acks + {from}) else r
  }

  /** The acknowledgement completes the round. */
  ghost predicate Completes(cfg: Config, r: PendingRead, from: NodeId, round: nat) {
    r.round <= round && |r.acks + {from}| >= cfg.Quorum()
  }

  lemma {:induction false} AcksExactly(ps: seq<PendingRead>, from: NodeId, round: nat)
    ensures |AckReads(ps, from, round)| == |ps|
    ensures forall i :: 0 <= i < |ps| ==> AckReads(ps, from, round)[i] == Acked(ps[i], from, round)
  {
    if ps != [] {
      AcksExactly(ps[1..], from, round);
    }
  }

  lemma {:induction false} DoneExactly(cfg: Config, ps: seq<PendingRead>, from: NodeId, round: nat, d: ReadIndex)
    ensures d in DoneReads(AckReads(ps, from, round), round, cfg.Quorum())
            <==> exists i :: 0 <= i < |ps| && Completes(cfg, ps[i], from, round)
                             && d == ReadIndex(ps[i].round, ps[i].index)
  {
    if ps != [] {
      DoneExactly(cfg, ps[1..], from, round, d);
      var rest := AckReads(ps[1..], from, round);
      assert AckReads(ps, from, round)[1..] == rest;
      if i :| 0 <= i < |ps| - 1 && Completes(cfg, ps[1..][i], from, round)
              && d == ReadIndex(ps[1..][i].round, ps[1..][i].index)
      {
        assert ps[i + 1] == ps[1..][i];
      }
      if i :| 0 < i < |ps| && Completes(cfg, ps[i], from, round) && d == ReadIndex(ps[i].round, ps[i].index) {
        assert ps[1..][i - 1] == ps[i];
      }
    }
  }

  lemma {:induction false} KeepExactly(ps: seq<PendingRead>, done: seq<ReadIndex>, p: PendingRead)
    ensures p in KeepReads(ps, done) <==> p in ps && forall d :: d in done ==> d.round != p.round
  {
    if ps != [] {
      KeepExactly(ps[1..], done, p);
      assert ps == [ps[0]] + ps[1..];
    }
  }

  /**
    A counted acknowledgement makes ready exactly the rounds it completes, with the index they were
    given; every other round stays pending, with the acknowledgement added.
   */
  lemma ReadsCounted(cfg: Config, v: Voter, from: NodeId, round: nat)
    ensures var w := CountReads(cfg, v, from, round);
            && v.readyReads <= w.readyReads
            && (forall d :: d in w.readyReads[|v.readyReads|..] <==>
                  exists i :: 0 <= i < |v.pendingReads| && Completes(cfg, v.pendingReads[i], from, round)
                         && d == ReadIndex(v.pendingReads[i].round, v.pendingReads[i].index))
            && (forall p :: p in w.pendingReads <==>
                  && (exists i :: 0 <= i < |v.pendingReads| && p == Acked(v.pendingReads[i], from, round))
                  && (forall i :: 0 <= i < |v.pendingReads| && Completes(cfg, v.pendingReads[i], from, round) ==>
                        v.pendingReads[i].round != p.round))
  {
    hide AckReads, DoneReads, KeepReads, Completes, Acked;
    var ps := v.pendingReads;
    var acked := AckReads(ps, from, round);
    var done := DoneReads(acked, round, cfg.Quorum());
    AcksExactly(ps, from, round);
    forall d
      ensures d in done <==> exists i :: 0 <= i < |ps| && Completes(cfg, ps[i], from, round)
                                    && d == ReadIndex(ps[i].round, ps[i].index)
    {
      DoneExactly(cfg, ps, from, round, d);
    }
    forall p
      ensures p in KeepReads(acked, done) <==> p in acked && forall d :: d in done ==> d.round != p.round
    {
      KeepExactly(acked, done, p);
    }
    assert (v.readyReads + done)[|v.readyReads|..] == done;
    forall p: PendingRead
      ensures (forall d :: d in done ==> d.round != p.round)
              <==> forall i :: 0 <= i < |ps| && Completes(cfg, ps[i], from, round) ==> ps[i].round != p.round
    {
      if forall d :: d in done ==> d.round != p.round {
        forall i | 0 <= i < |ps| && Completes(cfg, ps[i], from, round)
          ensures ps[i].round != p.round
        {
          assert ReadIndex(ps[i].round, ps[i].index) in done;
        }
      }
    }
  }

  lemma CountServes(cfg: Config, x: Voter, from: NodeId, round: nat, r: PendingRead)
    requires r in x.pendingReads && Completes(cfg, r, from, round)
    ensures ReadIndex(r.round, r.index) in CountReads(cfg, x, from, round).readyReads
  {
    hide CountReads, Completes;
    ReadsCounted(cfg, x, from, round);
    var i :| 0 <= i < |x.pendingReads| && x.pendingReads[i] == r;
    assert ReadIndex(r.round, r.index) in CountReads(cfg, x, from, round).readyReads[|x.readyReads|..];
  }

  lemma SuccessServes(cfg: Config, v: Voter, from: NodeId, at: nat, round: nat, r: PendingRead)
    requires cfg.members != [] && round > 0 && r in v.pendingReads && Completes(cfg, r, from, round)
    ensures ReadIndex(r.round, r.index) in OnSuccess(cfg, v, from, at, round).readyReads
  {
    hide CountReads, TermAt, LastIndex, AppendMessage, SortDesc, Matches, Completes;
    var w := v.(matchIndex := if at > MatchOf(v, from) then v.matchIndex[from := at] else v.matchIndex,
                nextIndex := v.nextIndex[from := at + 1]);
    CountServes(cfg, AdvanceCommit(cfg, w), from, round, r);
  }

  /** A read whose round a quorum has acknowledged is served by the acknowledgement that completes it. */
  lemma ReadsServed(cfg: Config, v: Voter, env: Envelope, r: PendingRead)
    requires cfg.members != [] && Heard(cfg, v, env) && env.msg.AppendEntriesReply? && env.msg.success
    requires v.role == Leader && env.msg.term == v.term && env.msg.readRound > 0
    requires r in v.pendingReads && Completes(cfg, r, env.from, env.msg.readRound)
    ensures ReadIndex(r.round, r.index) in Step(cfg, v, env).voter.readyReads
  {
    hide OnSuccess, Completes, SendAppend;
    var m := env.msg;
    var u := v.(peerApplied := v.peerApplied[env.from := Max(KnownApplied(v, env.from), m.appliedIndex)]);
    SuccessServes(cfg, u, env.from, m.matchIndex, m.readRound, r);
  }

  // ---------------------------------------------------------------------------
  // Replies
  // ---------------------------------------------------------------------------

  /** `w` knows that `from` has applied up to `at`, and of everyone what `v` knew. */
  ghost predicate Learned(v: Voter, w: Voter, from: NodeId, at: nat) {
    forall k :: KnownApplied(w, k) == if k == from then Max(KnownApplied(v, k), at) else KnownApplied(v, k)
  }

  /** A reply of a higher term deposes; one that is not for this leadership only informs. */
  lemma ReplyElsewhere(cfg: Config, v: Voter, env: Envelope)
    requires cfg.members != [] && Heard(cfg, v, env) && env.msg.AppendEntriesReply?
    requires env.msg.term > v.term || v.role != Leader || env.msg.term != v.term
    ensures var m, w := env.msg, Step(cfg, v, env).voter;
            && w.peerApplied == v.peerApplied[env.from := Max(KnownApplied(v, env.from), m.appliedIndex)]
            && Learned(v, w, env.from, m.appliedIndex)
            && (m.term > v.term ==> w.term == m.term && w.role == Follower && w.votedFor == None)
            && (m.term <= v.term ==> w == v.(peerApplied := w.peerApplied))
  {
  }

  /** The leader's record of a follower is up to date, and the entries it still needs are on their way. */
  ghost predicate Records(v: Voter, w: Voter, from: NodeId, at: nat, success: bool) {
    && w.role == v.role && w.term == v.term && w.me == v.me
    && w.log == v.log && w.snapshotIndex == v.snapshotIndex && w.snapshotTerm == v.snapshotTerm
    && NextFor(w, from) == at + 1
    && MatchOf(w, from) == (if success then Max(MatchOf(v, from), at) else MatchOf(v, from))
    && (forall k :: k != from ==> MatchOf(w, k) == MatchOf(v, k) && NextFor(w, k) == NextFor(v, k))
    && w.outbox == v.outbox + (if at + 1 <= v.snapshotIndex || (success && at + 1 > LastIndex(v)) then []
                               else [Envelope(v.me, from, AppendMessage(w, at + 1, 0))])
  }

  /** Counting changes the commit index and the reads, and nothing else. */
  lemma CountingKeeps(cfg: Config, v: Voter, from: NodeId, round: nat)
    requires cfg.members != []
    ensures var x := AdvanceCommit(cfg, v);
            var y := if round > 0 then CountReads(cfg, x, from, round) else x;
            y == v.(commitIndex := y.commitIndex, pendingReads := y.pendingReads, readyReads := y.readyReads)
  {
    hide TermAt, AckReads, DoneReads, KeepReads, SortDesc, Matches;
  }

  lemma CountedRecords(v: Voter, y: Voter, from: NodeId, at: nat)
    requires y == v.(matchIndex := if at > MatchOf(v, from) then v.matchIndex[from := at] else v.matchIndex,
                     nextIndex := v.nextIndex[from := at + 1], commitIndex := y.commitIndex,
                     pendingReads := y.pendingReads, readyReads := y.readyReads)
    ensures var z := if at + 1 <= LastIndex(y) then SendAppend(y, from, 0) else y;
            Records(v, z, from, at, true) && z.peerApplied == v.peerApplied
  {
    hide TermAt, LastIndex, AppendMessage, SendAppend;
    SameLog(v, y, 0);
    SendKeeps(y, from);
  }

  lemma SuccessRecords(cfg: Config, v: Voter, from: NodeId, at: nat, round: nat)
    requires cfg.members != []
    ensures Records(v, OnSuccess(cfg, v, from, at, round), from, at, true)
    ensures OnSuccess(cfg, v, from, at, round).peerApplied == v.peerApplied
  {
    hide LastIndex, AdvanceCommit, CountReads, SendAppend, Records;
    var w := v.(matchIndex := if at > MatchOf(v, from) then v.matchIndex[from := at] else v.matchIndex,
                nextIndex := v.nextIndex[from := at + 1]);
    var x := AdvanceCommit(cfg, w);
    var y := if round > 0 then CountReads(cfg, x, from, round) else x;
    CountingKeeps(cfg, w, from, round);
    CountedRecords(v, y, from, at);
  }

  lemma SendKeeps(v: Voter, to: NodeId)
    ensures var w := SendAppend(v, to, 0);
            && w == v.(outbox := w.outbox)
            && w.outbox == v.outbox + if NextFor(v, to) <= v.snapshotIndex then []
                                      else [Envelope(v.me, to, AppendMessage(w, NextFor(v, to), 0))]
  {
    hide AppendMessage;
    if NextFor(v, to) > v.snapshotIndex {
      SameAppend(v, SendAppend(v, to, 0).outbox, NextFor(v, to), 0);
    }
  }

  lemma FailureRecords(v: Voter, from: NodeId, at: nat)
    ensures var w := SendAppend(v.(nextIndex := v.nextIndex[from := at + 1]), from, 0);
            Records(v, w, from, at, false) && w.peerApplied == v.peerApplied
  {
    hide LastIndex, AppendMessage, SendAppend;
    SendKeeps(v.(nextIndex := v.nextIndex[from := at + 1]), from);
  }

  /** What a leader does with a reply of its own term. */
  lemma ReplyRecorded(cfg: Config, v: Voter, env: Envelope)
    requires cfg.members != [] && Heard(cfg, v, env) && env.msg.AppendEntriesReply?
    requires v.role == Leader && env.msg.term == v.term
    ensures var m, w := env.msg, Step(cfg, v, env).voter;
            && w.peerApplied == v.peerApplied[env.from := Max(KnownApplied(v, env.from), m.appliedIndex)]
            && Learned(v, w, env.from, m.appliedIndex)
            && Records(v.(peerApplied := w.peerApplied), w, env.from, m.matchIndex, m.success)
  {
    hide Records, OnSuccess, SendAppend;
    var m := env.msg;
    var u := v.(peerApplied := v.peerApplied[env.from := Max(KnownApplied(v, env.from), m.appliedIndex)]);
    if m.success {
      SuccessRecords(cfg, u, env.from, m.matchIndex, m.readRound);
    } else {
      FailureRecords(u, env.from, m.matchIndex);
    }
  }

  // ---------------------------------------------------------------------------
  // Local calls
  // ---------------------------------------------------------------------------

  /** Every peer whose next entry the leader still has is sent it, with everything after it. */
  ghost predicate SentToAll(cfg: Config, v: Voter, w: Voter, round: nat) {
    forall m :: m in cfg.members && m != v.me && NextFor(w, m) > w.snapshotIndex ==>
        Envelope(v.me, m, AppendMessage(w, NextFor(w, m), round)) in w.outbox
  }

  lemma BroadcastReaches(cfg: Config, v: Voter, round: nat)
    ensures SentToAll(cfg, v, Broadcast(v, cfg.members, round), round)
    ensures Broadcast(v, cfg.members, round) == v.(outbox := Broadcast(v, cfg.members, round).outbox)
  {
    hide AppendMessage, Broadcast;
    var w := Broadcast(v, cfg.members, round);
    forall m | m in cfg.members && m != v.me && NextFor(w, m) > w.snapshotIndex
      ensures Envelope(v.me, m, AppendMessage(w, NextFor(w, m), round)) in w.outbox
    {
      BroadcastSends(v, cfg.members, m, round);
      SameAppend(v, w.outbox, NextFor(v, m), round);
    }
    BroadcastKeeps(v, cfg.members, round);
  }

  /** A proposal to a leader is stored as its next entry, in memory and on disk, and sent to every peer. */
  lemma ProposalStored(cfg: Config, v: Voter, data: seq<Byte>)
    ensures var r := Propose(cfg, v, data);
            && (v.role != Leader ==> r == StepResult(v, Some(NotLeader)))
            && (v.role == Leader && data == [] ==> r == StepResult(v, Some(EmptyCommand)))
            && (v.role == Leader && data != [] ==>
                  var e, w := Entry(v.term, LastIndex(v) + 1, data), r.voter;
                  && r.error == None && w.log == v.log + [e] && w.disk == v.disk.(entries := v.disk.entries + [e])
                  && MatchOf(w, v.me) == e.index && w.commitIndex == v.commitIndex && SentToAll(cfg, v, w, 0))
  {
    hide LastIndex, Broadcast, SentToAll;
    BroadcastReaches(cfg, AppendLocal(v, data), 0);
    SentSame(cfg, AppendLocal(v, data), v, Broadcast(AppendLocal(v, data), cfg.members, 0), 0);
  }

  lemma SentSame(cfg: Config, u: Voter, v: Voter, w: Voter, round: nat)
    requires u.me == v.me
    ensures SentToAll(cfg, u, w, round) <==> SentToAll(cfg, v, w, round)
  {
    hide AppendMessage, NextFor;
  }

  /**
    A barrier on a leader that has committed in its own term opens the next round at the commit index,
    with the leader's own acknowledgement, and asks every peer; otherwise it changes nothing.
   */
  lemma BarrierOpened(cfg: Config, v: Voter)
    ensures var r := ReadBarrier(cfg, v);
            && (v.role != Leader ==> r == StepResult(v, Some(NotLeader)))
            && (v.role == Leader && TermAt(v, v.commitIndex) != v.term ==> r == StepResult(v, Some(NotReady)))
            && (v.role == Leader && TermAt(v, v.commitIndex) == v.term ==>
                  var w := r.voter;
                  && r.error == None && w.readRound == v.readRound + 1
                  && w.pendingReads == v.pendingReads + [PendingRead(v.readRound + 1, v.commitIndex, {v.me})]
                  && w.log == v.log && SentToAll(cfg, v, w, v.readRound + 1))
  {
    hide TermAt, Broadcast, SentToAll;
    var round := v.readRound + 1;
    var u := v.(readRound := round, pendingReads := v.pendingReads + [PendingRead(round, v.commitIndex, {v.me})]);
    BroadcastReaches(cfg, u, round);
    SentSame(cfg, u, v, Broadcast(u, cfg.members, round), round);
  }

  /** A leader's timer sends heartbeats; anyone else's starts an election in the next term. */
  lemma TimerFires(cfg: Config, v: Voter, m: NodeId)
    requires m in cfg.members && m != v.me && v.me in cfg.members
    ensures var w := Tick(cfg, v, true);
            && (v.role == Leader ==> w == v.(outbox := w.outbox) && SentToAll(cfg, v, w, 0))
            && (v.role != Leader ==>
                  && w.term == v.term + 1 && w.votedFor == Some(v.me)
                  && w.disk.term == w.term && w.disk.votedFor == Some(v.me)
                  && (cfg.Quorum() > 1 ==> w.role == Candidate && w.votes == {v.me})
                  && Envelope(v.me, m, RequestVote(v.term + 1, LastIndex(v), LastTerm(v))) in w.outbox)
    ensures Tick(cfg, v, false) == v
  {
    hide LastIndex, LastTerm, Broadcast, Solicit, BecomeLeader, SentToAll;
    BroadcastReaches(cfg, v, 0);
    var w := StandForElection(v).(role := Candidate, leader := None, votes := {v.me});
    SolicitSends(w, cfg.members, m);
    SameEnd(v, w);
    if v.role != Leader && cfg.Quorum() <= 1 {
      OfficeKeeps(cfg, Solicit(w, cfg.members), Envelope(v.me, m, RequestVote(v.term + 1, LastIndex(v), LastTerm(v))));
    }
  }

  lemma OfficeKeeps(cfg: Config, v: Voter, e: Envelope)
    requires e in v.outbox
    ensures var w := BecomeLeader(cfg, v);
            && w.term == v.term && w.votedFor == v.votedFor && w.disk == v.disk.(entries := w.disk.entries)
            && e in w.outbox
  {
    hide LastIndex, Broadcast, Fill;
    var u := AppendLocal(InitPeers(cfg, v.(role := Leader, leader := Some(v.me))), []);
    BroadcastSends(u, cfg.members, v.me, 0);
    InPrefix(u.outbox, Broadcast(u, cfg.members, 0).outbox);
  }

  /** `v` has taken office as `w`: with an empty entry of its term, stored and sent, and fresh accounts of its peers. */
  ghost predicate InOffice(cfg: Config, v: Voter, w: Voter) {
    var e := Entry(v.term, LastIndex(v) + 1, []);
    && w.role == Leader && w.leader == Some(v.me) && w.term == v.term && w.me == v.me
    && w.snapshotIndex == v.snapshotIndex && w.snapshotTerm == v.snapshotTerm
    && w.commitIndex == v.commitIndex && w.lastDelivered == v.lastDelivered
    && w.log == v.log + [e] && w.disk == v.disk.(entries := v.disk.entries + [e])
    && (forall m :: m in cfg.members && m != v.me ==> NextFor(w, m) == e.index && MatchOf(w, m) == 0)
    && MatchOf(w, v.me) == e.index && SentToAll(cfg, v, w, 0)
  }

  lemma OfficeEntered(cfg: Config, v: Voter)
    ensures InOffice(cfg, v, BecomeLeader(cfg, v))
  {
    hide LastIndex, Broadcast, Fill, SentToAll;
    var u := AppendLocal(InitPeers(cfg, v.(role := Leader, leader := Some(v.me))), []);
    BroadcastReaches(cfg, u, 0);
    SentSame(cfg, u, v, Broadcast(u, cfg.members, 0), 0);
    SameLast(v, v.(role := Leader, leader := Some(v.me)));
    SameLast(v, InitPeers(cfg, v.(role := Leader, leader := Some(v.me))));
    forall m | m in cfg.members && m != v.me
      ensures NextFor(u, m) == LastIndex(v) + 1 && MatchOf(u, m) == 0
    {
      FillAt<nat>(v.nextIndex, cfg.members, LastIndex(v) + 1, m);
      FillAt<nat>(v.matchIndex, cfg.members, 0, m);
    }
  }

  lemma SameLast(v: Voter, w: Voter)
    requires w.log == v.log && w.snapshotIndex == v.snapshotIndex
    ensures LastIndex(w) == LastIndex(v)
  {
  }

  /** The vote that completes a quorum puts the candidate in office. */
  lemma OfficeTaken(cfg: Config, v: Voter, env: Envelope)
    requires cfg.members != [] && Heard(cfg, v, env) && env.msg.RequestVoteReply?
    requires v.role == Candidate && env.msg.term == v.term && env.msg.granted
    requires |v.votes + {env.from}| >= cfg.Quorum()
    ensures InOffice(cfg, v, Step(cfg, v, env).voter)
  {
    hide BecomeLeader, InOffice;
    var u := v.(votes := v.votes + {env.from});
    OfficeEntered(cfg, u);
    SameOffice(cfg, u, v, BecomeLeader(cfg, u));
  }

  lemma SameOffice(cfg: Config, u: Voter, v: Voter, w: Voter)
    requires u == v.(votes := u.votes)
    ensures InOffice(cfg, u, w) ==> InOffice(cfg, v, w)
  {
    hide SentToAll, NextFor, MatchOf;
    SentSame(cfg, u, v, w, 0);
  }

  /** In every run, what a voter would send a peer is all of its log from the peer's next index on. */
  lemma AppendCarries(cfg: Config, evs: seq<Event>, n: NodeId, next: nat, round: nat)
    requires cfg.Valid() && cfg.members != [] && IsUp(Run(cfg, evs), n)
    requires next > Run(cfg, evs).nodes[n].voter.snapshotIndex
    ensures var v := Run(cfg, evs).nodes[n].voter;
            var m := AppendMessage(v, next, round);
            && m.term == v.term && m.leaderCommit == v.commitIndex && m.readRound == round
            && m.prevLogIndex == next - 1 && m.prevLogTerm == TermAt(v, next - 1)
            && |m.entries| == (if next <= LastIndex(v) then LastIndex(v) + 1 - next else 0)
            && forall k :: 0 <= k < |m.entries| ==> EntryAt(v, next + k) == Some(m.entries[k])
  {
    hide Run, ClusterOk, View;
    var h := ReachableOk(cfg, evs);
    ReplicaLog(cfg, h, Run(cfg, evs), n);
    TailCarried(Run(cfg, evs).nodes[n].voter, h.p.log[n], next, round);
  }

  lemma TailCarried(v: Voter, full: seq<Entry>, next: nat, round: nat)
    requires View(v, full) && next > v.snapshotIndex
    ensures var m := AppendMessage(v, next, round);
            && |m.entries| == (if next <= LastIndex(v) then LastIndex(v) + 1 - next else 0)
            && forall k :: 0 <= k < |m.entries| ==> EntryAt(v, next + k) == Some(m.entries[k])
  {
    hide TermAt, EntryAt;
    ViewEnds(v, full);
    var m := AppendMessage(v, next, round);
    forall k | 0 <= k < |m.entries|
      ensures EntryAt(v, next + k) == Some(m.entries[k])
    {
      ViewAt(v, full, next + k);
    }
  }

  // ---------------------------------------------------------------------------
  // Compaction
  // ---------------------------------------------------------------------------

  /** What everyone is known to have applied, and this voter knows to be committed. */
  ghost predicate Disposable(cfg: Config, v: Voter, t: nat) {
    t <= v.commitIndex && t <= v.applied && forall m :: m in cfg.members && m != v.me ==> t <= KnownApplied(v, m)
  }

  lemma {:induction false} HorizonLeast(v: Voter, peers: seq<NodeId>, h: nat, t: nat)
    ensures t <= PeerHorizon(v, peers, h) <==> t <= h && forall m :: m in peers && m != v.me ==> t <= KnownApplied(v, m)
    decreases |peers|
  {
    hide KnownApplied;
    if peers != [] {
      assert peers == [peers[0]] + peers[1..];
      HorizonLeast(v, peers[1..], if peers[0] == v.me then h else Min(h, KnownApplied(v, peers[0])), t);
    }
  }

  lemma HorizonExactly(cfg: Config, v: Voter, t: nat)
    ensures t <= CompactionHorizon(cfg, v) <==> Disposable(cfg, v, t)
  {
    hide PeerHorizon, KnownApplied;
    HorizonLeast(v, cfg.members, v.applied, t);
  }

  /**
    In every reachable state a compaction moves the base to the highest index asked for that everyone
    is known to have applied, if that is above the old base.
   */
  lemma CompactsExactly(cfg: Config, evs: seq<Event>, n: NodeId, upTo: nat, t: nat)
    requires cfg.Valid() && cfg.members != [] && IsUp(Run(cfg, evs), n)
    ensures var v := Run(cfg, evs).nodes[n].voter;
            t <= Compact(cfg, v, upTo).snapshotIndex <==> t <= v.snapshotIndex || (t <= upTo && Disposable(cfg, v, t))
  {
    hide Run, ClusterOk, Compact, Disposable, VoterOk, HistOk;
    var h := ReachableOk(cfg, evs);
    UpVoter(cfg, h, Run(cfg, evs), n);
    var v := Run(cfg, evs).nodes[n].voter;
    HorizonExactly(cfg, v, t);
    CompactReaches(cfg, h, v, upTo, t);
  }

  lemma CompactReaches(cfg: Config, h: Hist, v: Voter, upTo: nat, t: nat)
    requires HistOk(cfg, h) && VoterOk(cfg, h, v)
    ensures t <= Compact(cfg, v, upTo).snapshotIndex
            <==> t <= v.snapshotIndex || (t <= upTo && t <= CompactionHorizon(cfg, v))
  {
    hide HistOk, StoreOk, LeaderOk, CandidateOk, BarriersOk, OutboxOk, CompactionHorizon, TermAt, LastIndex, View;
    HorizonWithin(cfg, h, v);
    VoterView(cfg, h, v);
    CommittedLength(h.p, v.me, v.commitIndex);
    var g, target := h.p.log[v.me], Min(Min(upTo, CompactionHorizon(cfg, v)), LastIndex(v));
    ViewEnds(v, g);
    ViewAt(v, g, target);
    if target > v.snapshotIndex {
      ViewTerm(v, g, target);
    }
  }

  lemma ViewTerm(v: Voter, full: seq<Entry>, i: nat)
    requires View(v, full) && 0 < i <= |full|
    ensures full[i - 1].term >= 1
  {
  }

  /**
    What the state machine reports as applied counts up to the end of the log and at least up to the base,
    and never goes back. Nothing else changes.
   */
  lemma ReportsExactly(v: Voter, a: nat, t: nat)
    ensures var w := SetApplied(v, a);
            && (t <= w.applied <==> t <= v.applied || t <= v.snapshotIndex || (t <= a && t <= LastIndex(v)))
            && (t <= w.lastDelivered
                <==> t <= v.lastDelivered || t <= v.snapshotIndex || (t <= a && t <= LastIndex(v)))
            && w == v.(applied := w.applied, lastDelivered := w.lastDelivered)
  {
    hide LastIndex;
  }
}
