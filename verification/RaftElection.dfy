/** Elections: every operation that moves terms, votes or leadership keeps the invariant. */
module RaftElection {
  import opened Basics
  import opened RaftTypes
  import opened RaftProtocol
  import opened RaftActions
  import opened RaftVoter
  import opened RaftInvariant

  /** One operation of voter `v` is explained by the history growing from `h` to `h'`. */
  ghost predicate Explained(cfg: Config, h: Hist, h': Hist, v: Voter, v': Voter) {
    && HistOk(cfg, h')
    && HistGrows(h, h')
    && OwnedBy(h, h', v.me)
    && h'.seenApplied == h.seenApplied && h'.issued == h.issued
    && v'.me == v.me
    && VoterOk(cfg, h', v')
  }

  lemma ExplainedTransitive(cfg: Config, a: Hist, b: Hist, c: Hist, u: Voter, v: Voter, w: Voter)
    requires Explained(cfg, a, b, u, v) && Explained(cfg, b, c, v, w)
    ensures Explained(cfg, a, c, u, w)
  {
    HistGrowsTransitive(a, b, c);
    OwnedByTransitive(a, b, c, u.me);
  }

  lemma ProtoStep(cfg: Config, h: Hist, p': Proto)
    requires HistOk(cfg, h) && Safe(cfg, p') && Grows(h.p, p')
    ensures HistOk(cfg, h.(p := p')) && HistGrows(h, h.(p := p'))
  {
    var h' := h.(p := p');
    forall t, r | (t, r) in h'.barriers
      ensures BarrierOk(cfg, p', t, h'.barriers[(t, r)])
    {
      assert BarrierOk(cfg, h.p, t, h.barriers[(t, r)]);
      assert ReignMono(h.p, p', t);
    }
    if h.peak > 0 {
      var t :| t in h.p.commits && h.peak <= h.p.commits[t];
      assert t in p'.commits && h.peak <= p'.commits[t];
    }
  }

  /** Adding a well-formed message to the outbox changes nothing else. */
  lemma SendOk(cfg: Config, h: Hist, v: Voter, to: NodeId, msg: Message)
    requires VoterOk(cfg, h, v) && MessageOk(cfg, h, Envelope(v.me, to, msg))
    ensures VoterOk(cfg, h, Send(v, to, msg))
  {
    var v' := Send(v, to, msg);
    BarriersSteady(cfg, h, h, v, v');
    LeaderSteady(cfg, h, h, v, v');
  }

  // ---------------------------------------------------------------------------
  // Aspects of a voter that an operation leaves alone
  // ---------------------------------------------------------------------------

  /** Barrier bookkeeping survives any step that leaves barriers, role, term and rounds alone. */
  lemma BarriersSteady(cfg: Config, h: Hist, h': Hist, v: Voter, v': Voter)
    requires BarriersOk(cfg, h, v)
    requires h'.barriers == h.barriers && h'.issued == h.issued
    requires v'.me == v.me && v'.role == v.role && v'.term == v.term && v'.readRound == v.readRound
    requires v'.pendingReads == v.pendingReads && v'.readyReads == v.readyReads
    ensures BarriersOk(cfg, h', v')
  {
    forall r | r in v'.pendingReads
      ensures PendingOk(cfg, h', v', r)
    {
      assert PendingOk(cfg, h, v, r);
    }
    forall r | r in v'.readyReads
      ensures ReadyOk(h', v.me, r)
    {
      assert ReadyOk(h, v.me, r);
    }
  }

  /** A voter that does not lead has only its finished barriers to keep. */
  lemma BarriersDropped(cfg: Config, h: Hist, h': Hist, v: Voter, v': Voter)
    requires BarriersOk(cfg, h, v)
    requires h'.barriers == h.barriers && h'.issued == h.issued
    requires v'.me == v.me && v'.role != Leader && v'.readRound == v.readRound
    requires v'.pendingReads == [] && v'.readyReads == v.readyReads
    ensures BarriersOk(cfg, h', v')
  {
    forall r | r in v'.readyReads
      ensures ReadyOk(h', v.me, r)
    {
      assert ReadyOk(h, v.me, r);
    }
  }

  lemma LeaderSteady(cfg: Config, h: Hist, h': Hist, v: Voter, v': Voter)
    requires LeaderOk(cfg, h, v)
    requires v'.me == v.me && v'.role == v.role && v'.term == v.term && v'.matchIndex == v.matchIndex
    requires v.commitIndex <= v'.commitIndex
    requires h'.p.reign == h.p.reign && h'.p.log == h.p.log && h'.p.acked == h.p.acked && h'.p.commits == h.p.commits
    ensures LeaderOk(cfg, h', v')
  {
    if v.role == Leader {
      forall m | m in cfg.members
        ensures MatchOf(v', m) <= AckedUpTo(h'.p, v'.term, m)
      {
        assert MatchOf(v, m) <= AckedUpTo(h.p, v.term, m);
      }
    }
  }

  lemma AppliedSteady(cfg: Config, h: Hist, h': Hist, v: Voter, v': Voter)
    requires AppliedOk(cfg, h, v) && h'.seenApplied == h.seenApplied
    requires v'.me == v.me && v'.applied == v.applied && v'.snapshotIndex == v.snapshotIndex
    requires v'.lastDelivered == v.lastDelivered && v'.peerApplied == v.peerApplied
    ensures AppliedOk(cfg, h', v')
  {
  }

  lemma FollowerSteady(cfg: Config, h: Hist, v: Voter)
    requires v.role == Follower
    ensures LeaderOk(cfg, h, v) && CandidateOk(cfg, h, v)
  {
  }

  lemma CommitSteady(h: Hist, h': Hist, n: NodeId, c: nat)
    requires HistGrows(h, h') && n in h.p.term && n in h.p.log && Committed(h.p, n, c)
    requires n in h'.p.term && n in h'.p.log && h'.p.log[n] == h.p.log[n]
    ensures Committed(h'.p, n, c)
  {
    CommittedLength(h.p, n, c);
    CommittedGrows(h, h', n, c);
  }

  // ---------------------------------------------------------------------------
  // Following
  // ---------------------------------------------------------------------------

  lemma FollowStore(cfg: Config, h: Hist, v: Voter, term: nat, leader: Option<NodeId>)
    requires Safe(cfg, h.p) && VoterOk(cfg, h, v) && term >= v.term
    requires HistGrows(h, h.(p := EnterTerm(h.p, v.me, term)))
    ensures var w := BecomeFollower(v, term, leader);
            && w.term == term && w.me == v.me && Mirrored(w)
            && StoreOk(cfg, h.(p := EnterTerm(h.p, v.me, term)), v.me, w.disk)
  {
    hide Safe, HistGrows, LeaderOk, CandidateOk, BarriersOk, OutboxOk, AppliedOk, Committed;
    var h' := h.(p := EnterTerm(h.p, v.me, term));
    TermBound(cfg, h.p, term, v.me);
    CommitSteady(h, h', v.me, v.snapshotIndex);
  }

  lemma FollowShape(v: Voter, term: nat, leader: Option<NodeId>)
    ensures var w := BecomeFollower(v, term, leader);
            w == v.(term := w.term, votedFor := w.votedFor, disk := w.disk, role := Follower, leader := leader,
                    votes := {}, pendingReads := [])
  {
  }

  lemma EnterOwned(h: Hist, n: NodeId, term: nat)
    ensures OwnedBy(h, h.(p := EnterTerm(h.p, n, term)), n)
  {
  }

  lemma FollowOk(cfg: Config, h: Hist, v: Voter, term: nat, leader: Option<NodeId>) returns (h': Hist)
    requires HistOk(cfg, h) && VoterOk(cfg, h, v) && term >= v.term
    ensures Explained(cfg, h, h', v, BecomeFollower(v, term, leader))
    ensures h' == h.(p := EnterTerm(h.p, v.me, term))
    ensures BecomeFollower(v, term, leader).term == term
  {
    hide Safe, StoreOk, View, HistOk, HistGrows, Committed, BarriersOk, OutboxOk, OwnedBy, AppliedOk, LeaderOk,
         CandidateOk,
         BecomeFollower;
    FollowShape(v, term, leader);
    HistSafe(cfg, h);
    EnterOwned(h, v.me, term);
    var v' := BecomeFollower(v, term, leader);
    var p' := EnterTerm(h.p, v.me, term);
    h' := h.(p := p');
    MemberOf(cfg, h, v);
    EnterTermSafe(cfg, h.p, v.me, term);
    ProtoStep(cfg, h, p');
    FollowStore(cfg, h, v, term, leader);
    CommitSteady(h, h', v.me, v.commitIndex);
    OutboxKept(cfg, h, h', v, v');
    BarriersDropped(cfg, h, h', v, v');
    AppliedSteady(cfg, h, h', v, v');
    FollowerSteady(cfg, h', v');
  }

  lemma MemberOf(cfg: Config, h: Hist, v: Voter)
    requires StoreOk(cfg, h, v.me, v.disk) && Mirrored(v)
    ensures v.me in cfg.members && v.me in h.p.term && v.me in h.p.log && h.p.term[v.me] == v.term
    ensures View(v, h.p.log[v.me])
  {
  }

  // ---------------------------------------------------------------------------
  // Voting
  // ---------------------------------------------------------------------------

  lemma GrantStore(cfg: Config, h: Hist, v: Voter, c: NodeId)
    requires VoterOk(cfg, h, v)
    requires HistGrows(h, h.(p := CastVote(h.p, v.me, v.term, c)))
    ensures var w := PersistTermVote(v.(votedFor := Some(c)));
            && Mirrored(w)
            && StoreOk(cfg, h.(p := CastVote(h.p, v.me, v.term, c)), v.me, w.disk)
  {
    hide HistGrows, LeaderOk, CandidateOk, BarriersOk, OutboxOk, AppliedOk, Committed;
    CommitSteady(h, h.(p := CastVote(h.p, v.me, v.term, c)), v.me, v.snapshotIndex);
  }

  /** Recording a vote in the current term disturbs no other part of the voter. */
  lemma GrantOk(cfg: Config, h: Hist, v: Voter, c: NodeId) returns (h': Hist)
    requires HistOk(cfg, h) && VoterOk(cfg, h, v)
    requires v.votedFor == None || v.votedFor == Some(c)
    requires (v.term, c) in h.p.cand && AtLeast(h.p.cand[(v.term, c)], RankOf(h.p.log[v.me]))
    ensures Explained(cfg, h, h', v, PersistTermVote(v.(votedFor := Some(c))))
    ensures (v.term, v.me) in h'.p.vote && h'.p.vote[(v.term, v.me)] == c
  {
    hide Safe, View, HistOk, StoreOk, HistGrows, Committed, BarriersOk, OutboxOk, OwnedBy, AppliedOk, LeaderOk;
    var v' := PersistTermVote(v.(votedFor := Some(c)));
    var p' := CastVote(h.p, v.me, v.term, c);
    h' := h.(p := p');
    HistSafe(cfg, h);
    MemberOf(cfg, h, v);
    VoteStored(cfg, h, v);
    VoteOwned(h, v.me, v.term, c);
    CastVoteSafe(cfg, h.p, v.me, v.term, c);
    ProtoStep(cfg, h, p');
    GrantStore(cfg, h, v, c);
    CommitSteady(h, h', v.me, v.commitIndex);
    LeaderSteady(cfg, h, h', v, v');
    OutboxKept(cfg, h, h', v, v');
    BarriersSteady(cfg, h, h', v, v');
    AppliedSteady(cfg, h, h', v, v');
  }

  lemma VoteOwned(h: Hist, n: NodeId, t: nat, c: NodeId)
    ensures OwnedBy(h, h.(p := CastVote(h.p, n, t, c)), n)
  {
  }

  lemma VoteStored(cfg: Config, h: Hist, v: Voter)
    requires StoreOk(cfg, h, v.me, v.disk) && Mirrored(v)
    ensures v.votedFor == None <==> (v.term, v.me) !in h.p.vote
    ensures v.votedFor.Some? ==> h.p.vote[(v.term, v.me)] == v.votedFor.value
  {
    hide View, Committed;
  }

  lemma HistSafe(cfg: Config, h: Hist)
    requires HistOk(cfg, h)
    ensures Safe(cfg, h.p)
  {
  }

  lemma RequestVoteOk(cfg: Config, h: Hist, v: Voter, e: Envelope) returns (h': Hist)
    requires HistOk(cfg, h) && VoterOk(cfg, h, v)
    requires e.msg.RequestVote? && MessageOk(cfg, h, e)
    ensures Explained(cfg, h, h', v, OnRequestVote(v, e.from, e.msg.term, e.msg.lastLogIndex, e.msg.lastLogTerm))
  {
    hide HistOk, HistGrows, OwnedBy, VoterOk, EnterTerm, BecomeFollower, LastIndex, LastTerm, View;
    var term, li, lt := e.msg.term, e.msg.lastLogIndex, e.msg.lastLogTerm;
    h' := h;
    var w := v;
    ExplainedReflexive(cfg, h, v);
    if term > v.term {
      h' := FollowOk(cfg, h, v, term, None);
      w := BecomeFollower(v, term, None);
      MessageKept(cfg, h, h', e);
    }
    var grant := term == w.term && UpToDate(w, li, lt) && (w.votedFor == None || w.votedFor == Some(e.from));
    var x := w;
    if grant {
      VoterView(cfg, h', w);
      ViewEnds(w, h'.p.log[w.me]);
      var g := GrantOk(cfg, h', w, e.from);
      x := PersistTermVote(w.(votedFor := Some(e.from)));
      ExplainedTransitive(cfg, h, h', g, v, w, x);
      h' := g;
    }
    VoterView(cfg, h', x);
    SendOk(cfg, h', x, e.from, RequestVoteReply(x.term, grant));
  }

  lemma ExplainedReflexive(cfg: Config, h: Hist, v: Voter)
    requires HistOk(cfg, h) && VoterOk(cfg, h, v)
    ensures Explained(cfg, h, h, v, v)
  {
    HistGrowsReflexive(h);
  }

  lemma VoterView(cfg: Config, h: Hist, v: Voter)
    requires VoterOk(cfg, h, v)
    ensures v.me in cfg.members && v.me in h.p.term && v.me in h.p.log && h.p.term[v.me] == v.term
    ensures View(v, h.p.log[v.me])
  {
  }

  // ---------------------------------------------------------------------------
  // Standing for election
  // ---------------------------------------------------------------------------

  lemma NeverLed(cfg: Config, p: Proto, n: NodeId, t: nat)
    requires Safe(cfg, p) && n in p.term && p.term[n] < t
    ensures t in p.reign ==> p.reign[t].leader != n
  {
    TermBound(cfg, p, t, n);
    if t in p.reign {
      assert ReignOk(cfg, p, t);
    }
  }

  ghost function Candidacy(v: Voter): Voter {
    StandForElection(v).(role := Candidate, leader := None, votes := {v.me})
  }

  lemma StandStore(cfg: Config, h: Hist, v: Voter)
    requires VoterOk(cfg, h, v)
    requires HistGrows(h, h.(p := Stand(h.p, v.me)))
    ensures Mirrored(Candidacy(v))
    ensures StoreOk(cfg, h.(p := Stand(h.p, v.me)), v.me, Candidacy(v).disk)
  {
    hide HistGrows, LeaderOk, CandidateOk, BarriersOk, OutboxOk, AppliedOk, Committed;
    CommitSteady(h, h.(p := Stand(h.p, v.me)), v.me, v.snapshotIndex);
  }

  lemma StandOwned(h: Hist, n: NodeId)
    requires n in h.p.term && n in h.p.log
    ensures OwnedBy(h, h.(p := Stand(h.p, n)), n)
  {
  }

  lemma StandOk(cfg: Config, h: Hist, v: Voter) returns (h': Hist)
    requires HistOk(cfg, h) && VoterOk(cfg, h, v) && v.role != Leader
    ensures Explained(cfg, h, h', v, Candidacy(v))
  {
    hide Safe, View, HistOk, StoreOk, HistGrows, Committed, BarriersOk, OutboxOk, OwnedBy, AppliedOk;
    MemberOf(cfg, h, v);
    HistSafe(cfg, h);
    StandOwned(h, v.me);
    var v' := Candidacy(v);
    var p' := Stand(h.p, v.me);
    h' := h.(p := p');
    StandSafe(cfg, h.p, v.me);
    ProtoStep(cfg, h, p');
    NeverLed(cfg, h.p, v.me, v'.term);
    StandStore(cfg, h, v);
    CommitSteady(h, h', v.me, v.commitIndex);
    OutboxKept(cfg, h, h', v, v');
    NoPending(cfg, h, v);
    BarriersDropped(cfg, h, h', v, v');
    AppliedSteady(cfg, h, h', v, v');
  }

  lemma NoPending(cfg: Config, h: Hist, v: Voter)
    requires BarriersOk(cfg, h, v) && v.role != Leader
    ensures v.pendingReads == []
  {
  }

  lemma {:induction false} SolicitOk(cfg: Config, h: Hist, v: Voter, peers: seq<NodeId>)
    requires VoterOk(cfg, h, v) && v.role == Candidate
    ensures VoterOk(cfg, h, Solicit(v, peers))
    ensures Solicit(v, peers) == v.(outbox := Solicit(v, peers).outbox)
    decreases |peers|
  {
    if peers != [] {
      var ask := RequestVote(v.term, LastIndex(v), LastTerm(v));
      if peers[0] == v.me {
        SolicitOk(cfg, h, v, peers[1..]);
      } else {
        VoterView(cfg, h, v);
        ViewEnds(v, h.p.log[v.me]);
        SendOk(cfg, h, v, peers[0], ask);
        SolicitOk(cfg, h, Send(v, peers[0], ask), peers[1..]);
      }
    }
  }

  // ---------------------------------------------------------------------------
  // Replication messages
  // ---------------------------------------------------------------------------

  /** What a leader sends is a slice of its log, or cannot be matched by anyone. */
  lemma AppendSlice(v: Voter, g: seq<Entry>, next: nat, round: nat)
    requires View(v, g) && next > v.snapshotIndex
    ensures var m := AppendMessage(v, next, round);
            Slice(g, m.prevLogIndex, m.prevLogTerm, m.entries)
            || (m.prevLogIndex > 0 && m.prevLogTerm == 0 && m.entries == [])
  {
    ViewEnds(v, g);
    ViewAt(v, g, next - 1);
    var m := AppendMessage(v, next, round);
    if next <= |g| {
      assert m.entries == g[next - 1..];
    } else if next == |g| + 1 {
      assert m.entries == [] == g[|g|..|g|];
    }
  }

  lemma CommitCarried(p: Proto, n: NodeId, c: nat)
    requires n in p.term && n in p.log && Committed(p, n, c)
    ensures LeaderCommitOk(p, p.term[n], c)
  {
    if c > 0 {
      var t :| CommittedBy(p, n, c, t);
    }
  }

  lemma AppendMessageOk(cfg: Config, h: Hist, v: Voter, to: NodeId, next: nat, round: nat)
    requires VoterOk(cfg, h, v) && v.role == Leader && next > v.snapshotIndex
    requires round == 0 || (v.term, round) in h.barriers
    ensures MessageOk(cfg, h, Envelope(v.me, to, AppendMessage(v, next, round)))
  {
    hide BarriersOk, OutboxOk, AppliedOk, CandidateOk, StoreOk, View, Committed, LeaderCommitOk, Slice;
    MemberOf(cfg, h, v);
    AppendSlice(v, h.p.log[v.me], next, round);
    CommitCarried(h.p, v.me, v.commitIndex);
  }

  lemma SendAppendOk(cfg: Config, h: Hist, v: Voter, to: NodeId, round: nat)
    requires VoterOk(cfg, h, v) && v.role == Leader
    requires round == 0 || (v.term, round) in h.barriers
    ensures VoterOk(cfg, h, SendAppend(v, to, round))
    ensures SendAppend(v, to, round) == v.(outbox := SendAppend(v, to, round).outbox)
  {
    hide VoterOk, MessageOk;
    var next := NextFor(v, to);
    if next > v.snapshotIndex {
      AppendMessageOk(cfg, h, v, to, next, round);
      SendOk(cfg, h, v, to, AppendMessage(v, next, round));
    }
  }

  lemma {:induction false} BroadcastOk(cfg: Config, h: Hist, v: Voter, peers: seq<NodeId>, round: nat)
    requires VoterOk(cfg, h, v) && v.role == Leader
    requires round == 0 || (v.term, round) in h.barriers
    ensures VoterOk(cfg, h, Broadcast(v, peers, round))
    ensures Broadcast(v, peers, round) == v.(outbox := Broadcast(v, peers, round).outbox)
    decreases |peers|
  {
    hide VoterOk, SendAppend;
    if peers != [] {
      if peers[0] == v.me {
        BroadcastOk(cfg, h, v, peers[1..], round);
      } else {
        SendAppendOk(cfg, h, v, peers[0], round);
        BroadcastOk(cfg, h, SendAppend(v, peers[0], round), peers[1..], round);
      }
    }
  }

  // ---------------------------------------------------------------------------
  // Taking office
  // ---------------------------------------------------------------------------

  /** A candidate with a majority of votes is the first to lead its term. */
  lemma FirstToLead(cfg: Config, h: Hist, v: Voter)
    requires Safe(cfg, h.p) && CandidateOk(cfg, h, v) && v.role == Candidate
    requires |v.votes| >= cfg.Quorum()
    ensures cfg.IsQuorum(v.votes) && v.term !in h.p.reign
  {
    assert v.votes <= cfg.Voters();
    if v.term in h.p.reign {
      assert ReignOk(cfg, h.p, v.term);
      var n := QuorumsMeet(cfg, v.votes, h.p.reign[v.term].electors);
    }
  }

  ghost function Inaugurated(cfg: Config, v: Voter): Voter {
    AppendLocal(InitPeers(cfg, v.(role := Leader, leader := Some(v.me))), [])
  }

  lemma InaugurateStore(cfg: Config, h: Hist, v: Voter)
    requires StoreOk(cfg, h, v.me, v.disk) && Mirrored(v) && Committed(h.p, v.me, v.commitIndex) && v.term >= 1
    requires HistGrows(h, h.(p := Elect(h.p, v.me, v.votes)))
    ensures Mirrored(Inaugurated(cfg, v))
    ensures StoreOk(cfg, h.(p := Elect(h.p, v.me, v.votes)), v.me, Inaugurated(cfg, v).disk)
    ensures Committed(Elect(h.p, v.me, v.votes), v.me, v.commitIndex)
  {
    hide View, HistGrows, Committed, LastIndex;
    var h' := h.(p := Elect(h.p, v.me, v.votes));
    MemberOf(cfg, h, v);
    ViewEnds(v, h.p.log[v.me]);
    InaugurateView(cfg, h, v);
    ElectCommitted(h, h', v.me, v.snapshotIndex, v.votes);
    ElectCommitted(h, h', v.me, v.commitIndex, v.votes);
  }

  lemma InaugurateView(cfg: Config, h: Hist, v: Voter)
    requires v.me in h.p.log && View(v, h.p.log[v.me]) && Mirrored(v) && v.term >= 1
    ensures var g := h.p.log[v.me];
            View(Boot(v.me, Inaugurated(cfg, v).disk), g + [Entry(v.term, |g| + 1, [])])
  {
    hide View;
    var g := h.p.log[v.me];
    ViewEnds(v, g);
    ViewAppend(v, Boot(v.me, Inaugurated(cfg, v).disk), g, [Entry(v.term, |g| + 1, [])]);
  }

  lemma ElectCommitted(h: Hist, h': Hist, n: NodeId, c: nat, supporters: set<NodeId>)
    requires n in h.p.term && n in h.p.log && Committed(h.p, n, c)
    requires h' == h.(p := Elect(h.p, n, supporters)) && HistGrows(h, h')
    ensures Committed(h'.p, n, c)
  {
    hide HistGrows;
    CommittedLength(h.p, n, c);
    CommittedGrows(h, h', n, c);
  }

  lemma InaugurateLeader(cfg: Config, h: Hist, v: Voter)
    requires v.me in h.p.term && v.me in h.p.log && v.term == h.p.term[v.me]
    requires LastIndex(v) == |h.p.log[v.me]| && v.term !in h.p.commits
    ensures LeaderOk(cfg, h.(p := Elect(h.p, v.me, v.votes)), Inaugurated(cfg, v))
  {
    var v' := Inaugurated(cfg, v);
    var p' := Elect(h.p, v.me, v.votes);
    forall m | m in cfg.members
      ensures MatchOf(v', m) <= AckedUpTo(p', v.term, m)
    {
      FillAt<nat>(v.matchIndex, cfg.members, 0, m);
    }
  }

  lemma InaugurateBarriers(cfg: Config, h: Hist, v: Voter)
    requires HistOk(cfg, h) && BarriersOk(cfg, h, v) && v.role != Leader && v.term !in h.p.reign
    requires v.me in h.p.term && v.me in h.p.log
    ensures BarriersOk(cfg, h.(p := Elect(h.p, v.me, v.votes)), Inaugurated(cfg, v))
    ensures v.term !in h.p.commits
  {
    hide Safe;
    var h' := h.(p := Elect(h.p, v.me, v.votes));
    var v' := Inaugurated(cfg, v);
    forall r: nat
      ensures (v.term, r) !in h.barriers
    {
      BarrierInReign(cfg, h, v.term, r);
    }
    forall r | r in v'.readyReads
      ensures ReadyOk(h', v.me, r)
    {
      assert ReadyOk(h, v.me, r);
    }
    CommitInReign(cfg, h.p, v.term);
  }

  lemma BarrierInReign(cfg: Config, h: Hist, t: nat, r: nat)
    requires HistOk(cfg, h)
    ensures (t, r) in h.barriers ==> t in h.p.reign
  {
    hide Safe;
    if (t, r) in h.barriers {
      assert BarrierOk(cfg, h.p, t, h.barriers[(t, r)]);
    }
  }

  lemma CommitInReign(cfg: Config, p: Proto, t: nat)
    requires Safe(cfg, p)
    ensures t in p.commits ==> t in p.reign
  {
    if t in p.commits {
      assert Chosen(cfg, p, t, p.commits[t]);
    }
  }

  lemma InaugurateOwned(h: Hist, v: Voter)
    requires v.me in h.p.term && v.me in h.p.log && h.p.term[v.me] !in h.p.reign
    ensures OwnedBy(h, h.(p := Elect(h.p, v.me, v.votes)), v.me)
  {
  }

  lemma InaugurateOk(cfg: Config, h: Hist, v: Voter) returns (h': Hist)
    requires HistOk(cfg, h) && VoterOk(cfg, h, v) && v.role == Candidate
    requires |v.votes| >= cfg.Quorum()
    ensures Explained(cfg, h, h', v, Inaugurated(cfg, v))
  {
    hide Safe, View, HistOk, StoreOk, HistGrows, Committed, BarriersOk, OutboxOk, LeaderOk, OwnedBy;
    MemberOf(cfg, h, v);
    HistSafe(cfg, h);
    FirstToLead(cfg, h, v);
    CandTerm(cfg, h.p, v.term, v.me);
    var v' := Inaugurated(cfg, v);
    var p' := Elect(h.p, v.me, v.votes);
    h' := h.(p := p');
    ElectSafe(cfg, h.p, v.me, v.votes);
    ProtoStep(cfg, h, p');
    InaugurateBarriers(cfg, h, v);
    InaugurateStore(cfg, h, v);
    InaugurateOwned(h, v);
    ViewEnds(v, h.p.log[v.me]);
    InaugurateLeader(cfg, h, v);
    OutboxKept(cfg, h, h', v, v');
  }

  lemma CandTerm(cfg: Config, p: Proto, t: nat, c: NodeId)
    requires Safe(cfg, p) && (t, c) in p.cand
    ensures t >= 1
  {
    assert CandOk(cfg, p, t, c);
  }

  lemma BecomeLeaderOk(cfg: Config, h: Hist, v: Voter) returns (h': Hist)
    requires HistOk(cfg, h) && VoterOk(cfg, h, v) && v.role == Candidate
    requires |v.votes| >= cfg.Quorum()
    ensures Explained(cfg, h, h', v, BecomeLeader(cfg, v))
  {
    hide VoterOk, HistOk, HistGrows, OwnedBy;
    h' := InaugurateOk(cfg, h, v);
    BroadcastOk(cfg, h', Inaugurated(cfg, v), cfg.members, 0);
  }

  lemma BecomeCandidateOk(cfg: Config, h: Hist, v: Voter) returns (h': Hist)
    requires HistOk(cfg, h) && VoterOk(cfg, h, v) && v.role != Leader
    ensures Explained(cfg, h, h', v, BecomeCandidate(cfg, v))
  {
    hide VoterOk, HistOk, HistGrows, OwnedBy, BecomeLeader;
    h' := StandOk(cfg, h, v);
    var w := Candidacy(v);
    SolicitOk(cfg, h', w, cfg.members);
    var x := Solicit(w, cfg.members);
    if |x.votes| >= cfg.Quorum() {
      var g := BecomeLeaderOk(cfg, h', x);
      ExplainedTransitive(cfg, h, h', g, v, x, BecomeLeader(cfg, x));
      h' := g;
    }
  }

  lemma VoteReplyOk(cfg: Config, h: Hist, v: Voter, e: Envelope) returns (h': Hist)
    requires HistOk(cfg, h) && VoterOk(cfg, h, v)
    requires e.msg.RequestVoteReply? && MessageOk(cfg, h, e) && e.to == v.me
    ensures Explained(cfg, h, h', v, OnVoteReply(cfg, v, e.from, e.msg.term, e.msg.granted))
  {
    hide HistOk, HistGrows, OwnedBy, BecomeLeader, VoterOk;
    ExplainedReflexive(cfg, h, v);
    h' := h;
    if e.msg.term > v.term {
      h' := FollowOk(cfg, h, v, e.msg.term, None);
    } else if v.role == Candidate && e.msg.term == v.term && e.msg.granted {
      var w := v.(votes := v.votes + {e.from});
      CountVote(cfg, h, v, e.from);
      if |w.votes| >= cfg.Quorum() {
        h' := BecomeLeaderOk(cfg, h, w);
      }
    }
  }

  lemma CountVote(cfg: Config, h: Hist, v: Voter, from: NodeId)
    requires VoterOk(cfg, h, v) && v.role == Candidate
    requires from in cfg.members && (v.term, from) in h.p.vote && h.p.vote[(v.term, from)] == v.me
    ensures VoterOk(cfg, h, v.(votes := v.votes + {from}))
  {
    BarriersSteady(cfg, h, h, v, v.(votes := v.votes + {from}));
  }

  /** The leader appends one command to its log. */
  lemma AppendLocalStore(cfg: Config, h: Hist, v: Voter, data: seq<Byte>)
    requires VoterOk(cfg, h, v) && v.role == Leader && v.term >= 1
    requires HistGrows(h, h.(p := Extend(h.p, v.me, data)))
    ensures Mirrored(AppendLocal(v, data))
    ensures StoreOk(cfg, h.(p := Extend(h.p, v.me, data)), v.me, AppendLocal(v, data).disk)
    ensures Committed(Extend(h.p, v.me, data), v.me, v.commitIndex)
  {
    hide View, HistGrows, Committed, BarriersOk, OutboxOk;
    var h' := h.(p := Extend(h.p, v.me, data));
    var g := h.p.log[v.me];
    var e := Entry(v.term, |g| + 1, data);
    var v' := AppendLocal(v, data);
    MemberOf(cfg, h, v);
    ViewEnds(v, g);
    ViewAppend(v, Boot(v.me, v'.disk), g, [e]);
    CommittedLength(h.p, v.me, v.snapshotIndex);
    CommittedGrows(h, h', v.me, v.snapshotIndex);
    CommittedLength(h.p, v.me, v.commitIndex);
    CommittedGrows(h, h', v.me, v.commitIndex);
  }

  lemma AppendLocalLeader(cfg: Config, h: Hist, v: Voter, data: seq<Byte>)
    requires VoterOk(cfg, h, v) && v.role == Leader
    ensures LeaderOk(cfg, h.(p := Extend(h.p, v.me, data)), AppendLocal(v, data))
  {
    hide BarriersOk, OutboxOk, CandidateOk, AppliedOk;
    ViewEnds(v, h.p.log[v.me]);
    var v' := AppendLocal(v, data);
    forall m | m in cfg.members
      ensures MatchOf(v', m) <= AckedUpTo(Extend(h.p, v.me, data), v.term, m)
    {
      assert MatchOf(v, m) <= AckedUpTo(h.p, v.term, m);
    }
  }

  lemma AppendLocalOk(cfg: Config, h: Hist, v: Voter, data: seq<Byte>) returns (h': Hist)
    requires HistOk(cfg, h) && VoterOk(cfg, h, v) && v.role == Leader
    ensures Explained(cfg, h, h', v, AppendLocal(v, data))
  {
    hide Safe, View, HistOk, StoreOk, HistGrows, Committed, BarriersOk, OutboxOk;
    MemberOf(cfg, h, v);
    HistSafe(cfg, h);
    ReignTerm(cfg, h.p, v.term);
    var v' := AppendLocal(v, data);
    var p' := Extend(h.p, v.me, data);
    h' := h.(p := p');
    ExtendSafe(cfg, h.p, v.me, data);
    ProtoStep(cfg, h, p');
    AppendLocalStore(cfg, h, v, data);
    AppendLocalLeader(cfg, h, v, data);
    BarriersSteady(cfg, h, h', v, v');
    OutboxKept(cfg, h, h', v, v');
  }

  lemma ReignTerm(cfg: Config, p: Proto, t: nat)
    requires Safe(cfg, p) && t in p.reign
    ensures t >= 1
  {
    assert ReignOk(cfg, p, t);
  }

  lemma ProposeOk(cfg: Config, h: Hist, v: Voter, data: seq<Byte>) returns (h': Hist)
    requires HistOk(cfg, h) && VoterOk(cfg, h, v)
    ensures Explained(cfg, h, h', v, Propose(cfg, v, data).voter)
  {
    hide VoterOk, HistOk, HistGrows, OwnedBy;
    ExplainedReflexive(cfg, h, v);
    h' := h;
    if v.role == Leader && data != [] {
      h' := AppendLocalOk(cfg, h, v, data);
      BroadcastOk(cfg, h', AppendLocal(v, data), cfg.members, 0);
    }
  }

  lemma TickOk(cfg: Config, h: Hist, v: Voter, due: bool) returns (h': Hist)
    requires HistOk(cfg, h) && VoterOk(cfg, h, v)
    ensures Explained(cfg, h, h', v, Tick(cfg, v, due))
  {
    hide VoterOk, HistOk, HistGrows, OwnedBy, BecomeCandidate;
    ExplainedReflexive(cfg, h, v);
    h' := h;
    if due {
      if v.role == Leader {
        BroadcastOk(cfg, h, v, cfg.members, 0);
      } else {
        h' := BecomeCandidateOk(cfg, h, v);
      }
    }
  }
}
