/** Commit counting, read barriers, the applied frontier and compaction keep the invariant. */
module RaftProgress {
  import opened Basics
  import opened RaftTypes
  import opened RaftProtocol
  import opened RaftActions
  import opened RaftVoter
  import opened RaftInvariant
  import opened RaftElection

  // ---------------------------------------------------------------------------
  // Counting
  // ---------------------------------------------------------------------------

  ghost function CountGe(s: seq<nat>, q: nat): nat {
    if s == [] then 0 else (if s[0] >= q then 1 else 0) + CountGe(s[1..], q)
  }

  ghost predicate Descending(s: seq<nat>) {
    forall i, j :: 0 <= i < j < |s| ==> s[i] >= s[j]
  }

  lemma {:induction false} InsertSorts(x: nat, s: seq<nat>, q: nat)
    requires Descending(s)
    ensures Descending(Insert(x, s))
    ensures CountGe(Insert(x, s), q) == (if x >= q then 1 else 0) + CountGe(s, q)
    ensures forall y :: y in Insert(x, s) ==> y == x || y in s
  {
    if s == [] || x >= s[0] {
      assert ([x] + s)[1..] == s;
    } else {
      InsertSorts(x, s[1..], q);
      var r := Insert(x, s[1..]);
      assert ([s[0]] + r)[1..] == r;
      forall y | y in r
        ensures y <= s[0]
      {
        if y != x {
          var i :| 0 <= i < |s[1..]| && s[1..][i] == y;
        }
      }
    }
  }

  lemma {:induction false} SortCounts(s: seq<nat>, q: nat)
    ensures Descending(SortDesc(s))
    ensures CountGe(SortDesc(s), q) == CountGe(s, q)
  {
    if s != [] {
      SortCounts(s[1..], q);
      InsertSorts(s[0], SortDesc(s[1..]), q);
    }
  }

  lemma {:induction false} RankCounts(s: seq<nat>, k: nat)
    requires Descending(s) && 1 <= k <= |s|
    ensures CountGe(s, s[k - 1]) >= k
  {
    if k > 1 {
      RankCounts(s[1..], k - 1);
      assert s[1..][k - 2] == s[k - 1];
    }
  }

  /** At least a quorum of match indices reaches the value the commit rule picks. */
  lemma QuorumReached(cfg: Config, v: Voter)
    requires cfg.members != []
    ensures var q := SortDesc(Matches(v, cfg.members))[cfg.Quorum() - 1];
            CountGe(Matches(v, cfg.members), q) >= cfg.Quorum()
  {
    var s := Matches(v, cfg.members);
    var q := SortDesc(s)[cfg.Quorum() - 1];
    SortCounts(s, q);
    RankCounts(SortDesc(s), cfg.Quorum());
  }

  lemma {:induction false} CountIsCardinality(v: Voter, members: seq<NodeId>, q: nat, s: set<NodeId>)
    requires forall i, j :: 0 <= i < j < |members| ==> members[i] < members[j]
    requires forall x :: x in s <==> x in members && MatchOf(v, x) >= q
    ensures CountGe(Matches(v, members), q) == |s|
  {
    hide MatchOf;
    if members == [] {
      assert s == {};
    } else {
      var m, rest := members[0], members[1..];
      assert members == [m] + rest && m !in rest;
      CountIsCardinality(v, rest, q, s - {m});
      assert Matches(v, members)[1..] == Matches(v, rest);
      assert m in s ==> |s| == |s - {m}| + 1;
      assert m !in s ==> s - {m} == s;
    }
  }

  // ---------------------------------------------------------------------------
  // Commit
  // ---------------------------------------------------------------------------

  /** The index the leader advances to was acknowledged in its term by a majority. */
  lemma AdvanceChosen(cfg: Config, h: Hist, v: Voter)
    requires cfg.Valid() && cfg.members != [] && LeaderOk(cfg, h, v) && v.role == Leader && v.term >= 1
    requires View(v, h.p.log[v.me])
    requires AdvanceCommit(cfg, v) != v
    ensures var q := AdvanceCommit(cfg, v).commitIndex;
            q > v.commitIndex && AdvanceCommit(cfg, v) == v.(commitIndex := q) && Chosen(cfg, h.p, v.term, q)
  {
    hide View;
    var q := AdvanceCommit(cfg, v).commitIndex;
    ViewAt(v, h.p.log[v.me], q);
    QuorumReached(cfg, v);
    var s := set m | m in cfg.members && MatchOf(v, m) >= q;
    CountIsCardinality(v, cfg.members, q, s);
    assert s <= AckSet(cfg, h.p, v.term, q);
    SubsetCount(s, AckSet(cfg, h.p, v.term, q));
  }

  ghost function CommitHist(h: Hist, t: nat, q: nat): Hist {
    h.(p := Commit(h.p, t, q), peak := Max(h.peak, q))
  }

  lemma CommitHistOk(cfg: Config, h: Hist, t: nat, q: nat)
    requires HistOk(cfg, h) && Chosen(cfg, h.p, t, q)
    ensures HistOk(cfg, CommitHist(h, t, q)) && HistGrows(h, CommitHist(h, t, q))
    ensures OwnedBy(h, CommitHist(h, t, q), h.p.reign[t].leader)
  {
    hide Safe;
    CommitSafe(cfg, h.p, t, q);
    ProtoStep(cfg, h, Commit(h.p, t, q));
    var h' := CommitHist(h, t, q);
    forall s, r | (s, r) in h'.barriers
      ensures BarrierOk(cfg, h'.p, s, h'.barriers[(s, r)])
    {
      assert BarrierOk(cfg, h.p, s, h.barriers[(s, r)]);
    }
    assert t in h'.p.commits && q <= h'.p.commits[t];
  }

  lemma AdvanceOk(cfg: Config, h: Hist, v: Voter) returns (h': Hist)
    requires HistOk(cfg, h) && VoterOk(cfg, h, v) && v.role == Leader && cfg.members != []
    ensures Explained(cfg, h, h', v, AdvanceCommit(cfg, v))
    ensures h'.barriers == h.barriers && h'.p.term == h.p.term
  {
    hide Safe, StoreOk, View, HistOk, HistGrows, OwnedBy, Committed, BarriersOk, OutboxOk, Chosen, AdvanceCommit;
    var v' := AdvanceCommit(cfg, v);
    if v' == v {
      h' := h;
      ExplainedReflexive(cfg, h, v);
    } else {
      HistSafe(cfg, h);
      MemberOf(cfg, h, v);
      ReignTerm(cfg, h.p, v.term);
      ConfigValid(cfg, h.p);
      AdvanceChosen(cfg, h, v);
      var q := v'.commitIndex;
      h' := CommitHist(h, v.term, q);
      CommitHistOk(cfg, h, v.term, q);
      AdvanceCommitted(cfg, h, v, q);
      StoreKept(cfg, h, h', v.me, v.disk);
      BarriersSteady(cfg, h, h', v, v');
      OutboxKept(cfg, h, h', v, v');
    }
  }

  lemma ConfigValid(cfg: Config, p: Proto)
    requires Safe(cfg, p)
    ensures cfg.Valid()
  {
  }

  lemma AdvanceCommitted(cfg: Config, h: Hist, v: Voter, q: nat)
    requires LeaderOk(cfg, h, v) && v.role == Leader && v.me in h.p.term && v.term == h.p.term[v.me]
    requires Chosen(cfg, h.p, v.term, q) && q > v.commitIndex
    ensures Committed(CommitHist(h, v.term, q).p, v.me, q)
    ensures LeaderOk(cfg, CommitHist(h, v.term, q), v.(commitIndex := q))
  {
    var h' := CommitHist(h, v.term, q);
    assert CommittedBy(h'.p, v.me, q, v.term);
    var v' := v.(commitIndex := q);
    forall m | m in cfg.members
      ensures MatchOf(v', m) <= AckedUpTo(h'.p, v.term, m)
    {
      assert MatchOf(v, m) <= AckedUpTo(h.p, v.term, m);
    }
  }

  // ---------------------------------------------------------------------------
  // Read barriers
  // ---------------------------------------------------------------------------

  lemma {:induction false} AckReadsOk(cfg: Config, h: Hist, v: Voter, ps: seq<PendingRead>, from: NodeId, round: nat)
    requires forall r :: r in ps ==> PendingOk(cfg, h, v, r)
    requires from in cfg.members
    requires forall r: nat :: r <= round && (v.term, r) in h.barriers ==> from !in h.barriers[(v.term, r)].ahead
    ensures forall r :: r in AckReads(ps, from, round) ==> PendingOk(cfg, h, v, r)
  {
    if ps != [] {
      assert PendingOk(cfg, h, v, ps[0]);
      AckReadsOk(cfg, h, v, ps[1..], from, round);
      var first := AckReads(ps, from, round)[0];
      assert PendingOk(cfg, h, v, first);
      assert AckReads(ps, from, round) == [first] + AckReads(ps[1..], from, round);
    }
  }

  /** A barrier acknowledged by a majority covers every commit that preceded it. */
  lemma BarrierReady(cfg: Config, h: Hist, v: Voter, r: PendingRead)
    requires HistOk(cfg, h) && PendingOk(cfg, h, v, r) && |r.acks| >= cfg.Quorum()
    ensures ReadyOk(h, v.me, ReadIndex(r.round, r.index))
  {
    hide Safe;
    HistSafe(cfg, h);
    ConfigValid(cfg, h.p);
    var b := h.barriers[(v.term, r.round)];
    assert BarrierOk(cfg, h.p, v.term, b);
    if b.peak > b.index {
      var n := QuorumsMeet(cfg, r.acks, b.ahead);
    }
  }

  lemma {:induction false} DoneReadsOk(cfg: Config, h: Hist, v: Voter, ps: seq<PendingRead>, round: nat)
    requires HistOk(cfg, h)
    requires forall r :: r in ps ==> PendingOk(cfg, h, v, r)
    ensures forall d :: d in DoneReads(ps, round, cfg.Quorum()) ==> ReadyOk(h, v.me, d)
  {
    hide HistOk;
    if ps != [] {
      DoneReadsOk(cfg, h, v, ps[1..], round);
      if |ps[0].acks| >= cfg.Quorum() {
        BarrierReady(cfg, h, v, ps[0]);
      }
    }
  }

  lemma {:induction false} KeepReadsSubset(ps: seq<PendingRead>, done: seq<ReadIndex>)
    ensures forall r :: r in KeepReads(ps, done) ==> r in ps
  {
    if ps != [] {
      KeepReadsSubset(ps[1..], done);
    }
  }

  lemma CountReadsOk(cfg: Config, h: Hist, v: Voter, from: NodeId, round: nat)
    requires HistOk(cfg, h) && VoterOk(cfg, h, v) && v.role == Leader && from in cfg.members
    requires forall r: nat :: r <= round && (v.term, r) in h.barriers ==> from !in h.barriers[(v.term, r)].ahead
    ensures VoterOk(cfg, h, CountReads(cfg, v, from, round))
  {
    hide HistOk, StoreOk, Committed;
    var v' := CountReads(cfg, v, from, round);
    var ps := AckReads(v.pendingReads, from, round);
    var done := DoneReads(ps, round, cfg.Quorum());
    forall r | r in v.pendingReads
      ensures PendingOk(cfg, h, v, r)
    {
    }
    AckReadsOk(cfg, h, v, v.pendingReads, from, round);
    DoneReadsOk(cfg, h, v, ps, round);
    KeepReadsSubset(ps, done);
    CountBarriers(cfg, h, v, v', ps, done);
    LeaderSteady(cfg, h, h, v, v');
  }

  lemma CountBarriers(cfg: Config, h: Hist, v: Voter, v': Voter, ps: seq<PendingRead>, done: seq<ReadIndex>)
    requires BarriersOk(cfg, h, v) && v.role == Leader
    requires forall r :: r in ps ==> PendingOk(cfg, h, v, r)
    requires forall d :: d in done ==> ReadyOk(h, v.me, d)
    requires forall r :: r in v'.pendingReads ==> r in ps
    requires v' == v.(pendingReads := v'.pendingReads, readyReads := v.readyReads + done)
    ensures BarriersOk(cfg, h, v')
  {
    forall r | r in v'.pendingReads
      ensures PendingOk(cfg, h, v', r)
    {
      assert PendingOk(cfg, h, v, r);
    }
    forall r | r in v'.readyReads
      ensures ReadyOk(h, v.me, r)
    {
      assert r in v.readyReads ==> ReadyOk(h, v.me, r);
    }
  }

  ghost function Ahead(cfg: Config, p: Proto, t: nat): set<NodeId> {
    set n | n in cfg.members && n in p.term && p.term[n] > t
  }

  /** The members that elected a later leader have all left term `t`. */
  lemma LaterLeaderAhead(cfg: Config, p: Proto, t: nat, u: nat)
    requires Safe(cfg, p) && u in p.reign && t < u
    ensures cfg.IsQuorum(Ahead(cfg, p, t))
  {
    assert ReignOk(cfg, p, u);
    var e := p.reign[u].electors;
    forall n | n in e
      ensures n in Ahead(cfg, p, t)
    {
      assert VoteOk(cfg, p, u, n);
    }
    SubsetCount(e, Ahead(cfg, p, t));
  }

  /** An earlier commit ends before any entry of a later leader's own term. */
  lemma CommitBefore(cfg: Config, p: Proto, s: nat, t: nat, c: nat)
    requires Safe(cfg, p) && s in p.commits && t in p.reign && s < t
    requires Has(p.reign[t].log, t, c)
    ensures p.commits[s] < c
  {
    assert Chosen(cfg, p, s, p.commits[s]);
    LeaderCompleteness(cfg, p, s, p.commits[s], t);
    assert ReignOk(cfg, p, t);
    SortedOrder(p.reign[t].log, p.commits[s] - 1, c - 1);
  }

  lemma BarrierCovers(cfg: Config, h: Hist, v: Voter)
    requires HistOk(cfg, h) && LeaderOk(cfg, h, v) && v.role == Leader
    requires Has(h.p.reign[v.term].log, v.term, v.commitIndex)
    ensures h.peak <= v.commitIndex || cfg.IsQuorum(Ahead(cfg, h.p, v.term))
  {
    hide Safe;
    HistSafe(cfg, h);
    if h.peak > 0 {
      var s :| s in h.p.commits && h.peak <= h.p.commits[s];
      CommitInReign(cfg, h.p, s);
      if s > v.term {
        LaterLeaderAhead(cfg, h.p, v.term, s);
      } else if s < v.term {
        CommitBefore(cfg, h.p, s, v.term, v.commitIndex);
      }
    }
  }

  ghost function IssueHist(cfg: Config, h: Hist, v: Voter): Hist {
    var round := v.readRound + 1;
    h.(barriers := h.barriers[(v.term, round) := Barrier(v.commitIndex, h.peak, Ahead(cfg, h.p, v.term))],
       issued := h.issued[(v.me, round) := h.peak])
  }

  ghost function Issued(v: Voter): Voter {
    var round := v.readRound + 1;
    v.(readRound := round, pendingReads := v.pendingReads + [PendingRead(round, v.commitIndex, {v.me})])
  }

  lemma IssueHistOk(cfg: Config, h: Hist, v: Voter)
    requires HistOk(cfg, h) && LeaderOk(cfg, h, v) && v.role == Leader && BarriersOk(cfg, h, v)
    requires Has(h.p.reign[v.term].log, v.term, v.commitIndex)
    ensures HistOk(cfg, IssueHist(cfg, h, v)) && HistGrows(h, IssueHist(cfg, h, v))
    ensures OwnedBy(h, IssueHist(cfg, h, v), v.me)
  {
    hide Safe;
    var h' := IssueHist(cfg, h, v);
    BarrierCovers(cfg, h, v);
    SteadyGrows(h.p, h.p);
    forall t, r | (t, r) in h'.barriers
      ensures BarrierOk(cfg, h'.p, t, h'.barriers[(t, r)])
    {
      if (t, r) in h.barriers {
        assert BarrierOk(cfg, h.p, t, h.barriers[(t, r)]);
      }
    }
  }

  lemma IssueBarriers(cfg: Config, h: Hist, v: Voter)
    requires BarriersOk(cfg, h, v) && v.role == Leader
    requires v.me in cfg.members && v.me in h.p.term && h.p.term[v.me] == v.term
    ensures BarriersOk(cfg, IssueHist(cfg, h, v), Issued(v))
  {
    var h', v' := IssueHist(cfg, h, v), Issued(v);
    forall r | r in v'.pendingReads
      ensures PendingOk(cfg, h', v', r)
    {
      if r in v.pendingReads {
        assert PendingOk(cfg, h, v, r);
      }
    }
    forall r | r in v'.readyReads
      ensures ReadyOk(h', v.me, r)
    {
      assert ReadyOk(h, v.me, r);
    }
  }

  lemma IssueOk(cfg: Config, h: Hist, v: Voter) returns (h': Hist)
    requires HistOk(cfg, h) && VoterOk(cfg, h, v) && v.role == Leader
    requires TermAt(v, v.commitIndex) == v.term
    ensures h' == IssueHist(cfg, h, v)
    ensures HistOk(cfg, h') && HistGrows(h, h') && OwnedBy(h, h', v.me) && VoterOk(cfg, h', Issued(v))
  {
    hide Safe, StoreOk, View, HistOk, HistGrows, OwnedBy, Committed, BarriersOk, OutboxOk;
    h' := IssueHist(cfg, h, v);
    var v' := Issued(v);
    HistSafe(cfg, h);
    MemberOf(cfg, h, v);
    ReignTerm(cfg, h.p, v.term);
    ViewAt(v, h.p.log[v.me], v.commitIndex);
    IssueHistOk(cfg, h, v);
    IssueBarriers(cfg, h, v);
    StoreKept(cfg, h, h', v.me, v.disk);
    LeaderSteady(cfg, h, h', v, v');
    OutboxKept(cfg, h, h', v, v');
  }

  lemma ReadBarrierOk(cfg: Config, h: Hist, v: Voter) returns (h': Hist)
    requires HistOk(cfg, h) && VoterOk(cfg, h, v)
    ensures HistOk(cfg, h') && HistGrows(h, h') && OwnedBy(h, h', v.me)
    ensures ReadBarrier(cfg, v).voter.me == v.me && VoterOk(cfg, h', ReadBarrier(cfg, v).voter)
    ensures h' == if ReadBarrier(cfg, v).error == None then IssueHist(cfg, h, v) else h
  {
    hide VoterOk, HistOk, HistGrows, OwnedBy;
    ExplainedReflexive(cfg, h, v);
    h' := h;
    if v.role == Leader && TermAt(v, v.commitIndex) == v.term {
      h' := IssueOk(cfg, h, v);
      BroadcastOk(cfg, h', Issued(v), cfg.members, v.readRound + 1);
    }
  }

  // ---------------------------------------------------------------------------
  // Replies
  // ---------------------------------------------------------------------------

  lemma PeerAppliedOk(cfg: Config, h: Hist, v: Voter, from: NodeId, a: nat)
    requires VoterOk(cfg, h, v) && from in h.seenApplied && a <= h.seenApplied[from]
    ensures VoterOk(cfg, h, v.(peerApplied := v.peerApplied[from := Max(KnownApplied(v, from), a)]))
  {
    hide StoreOk, Committed, BarriersOk;
    var v' := v.(peerApplied := v.peerApplied[from := Max(KnownApplied(v, from), a)]);
    BarriersSteady(cfg, h, h, v, v');
    LeaderSteady(cfg, h, h, v, v');
  }

  lemma RecordMatch(cfg: Config, h: Hist, v: Voter, from: NodeId, m: nat)
    requires VoterOk(cfg, h, v) && v.role == Leader && m <= AckedUpTo(h.p, v.term, from)
    ensures VoterOk(cfg, h, v.(matchIndex := if m > MatchOf(v, from) then v.matchIndex[from := m] else v.matchIndex,
                               nextIndex := v.nextIndex[from := m + 1]))
  {
    hide StoreOk, Committed, BarriersOk;
    var v' := v.(matchIndex := if m > MatchOf(v, from) then v.matchIndex[from := m] else v.matchIndex,
                 nextIndex := v.nextIndex[from := m + 1]);
    BarriersSteady(cfg, h, h, v, v');
    forall x | x in cfg.members
      ensures MatchOf(v', x) <= AckedUpTo(h.p, v.term, x)
    {
      assert MatchOf(v, x) <= AckedUpTo(h.p, v.term, x);
    }
  }

  lemma SuccessOk(cfg: Config, h: Hist, v: Voter, from: NodeId, m: nat, round: nat) returns (h': Hist)
    requires HistOk(cfg, h) && VoterOk(cfg, h, v) && v.role == Leader && from in cfg.members
    requires m <= AckedUpTo(h.p, v.term, from)
    requires round > 0 ==> forall r: nat :: r <= round && (v.term, r) in h.barriers ==>
                                              from !in h.barriers[(v.term, r)].ahead
    ensures Explained(cfg, h, h', v, OnSuccess(cfg, v, from, m, round))
  {
    hide VoterOk, HistOk, HistGrows, OwnedBy, AckedUpTo, AdvanceCommit, CountReads, SendAppend;
    var w := v.(matchIndex := if m > MatchOf(v, from) then v.matchIndex[from := m] else v.matchIndex,
                nextIndex := v.nextIndex[from := m + 1]);
    RecordMatch(cfg, h, v, from, m);
    h' := AdvanceOk(cfg, h, w);
    var x := AdvanceCommit(cfg, w);
    AdvanceSteady(cfg, w);
    if round > 0 {
      CountReadsOk(cfg, h', x, from, round);
      CountSteady(cfg, x, from, round);
    }
    var y := if round > 0 then CountReads(cfg, x, from, round) else x;
    if y.nextIndex[from] <= LastIndex(y) {
      SendAppendOk(cfg, h', y, from, 0);
    }
  }

  lemma AdvanceSteady(cfg: Config, v: Voter)
    requires cfg.members != []
    ensures AdvanceCommit(cfg, v) == v.(commitIndex := AdvanceCommit(cfg, v).commitIndex)
  {
  }

  lemma CountSteady(cfg: Config, v: Voter, from: NodeId, round: nat)
    ensures var w := CountReads(cfg, v, from, round);
            w == v.(pendingReads := w.pendingReads, readyReads := w.readyReads)
  {
  }

  lemma RetryOk(cfg: Config, h: Hist, v: Voter, from: NodeId, next: nat)
    requires VoterOk(cfg, h, v) && v.role == Leader
    ensures VoterOk(cfg, h, SendAppend(v.(nextIndex := v.nextIndex[from := next]), from, 0))
    ensures SendAppend(v.(nextIndex := v.nextIndex[from := next]), from, 0).me == v.me
  {
    hide StoreOk, Committed, BarriersOk;
    var w := v.(nextIndex := v.nextIndex[from := next]);
    BarriersSteady(cfg, h, h, v, w);
    LeaderSteady(cfg, h, h, v, w);
    SendAppendOk(cfg, h, w, from, 0);
  }

  lemma AppendReplyOk(cfg: Config, h: Hist, v: Voter, e: Envelope) returns (h': Hist)
    requires HistOk(cfg, h) && VoterOk(cfg, h, v) && cfg.members != []
    requires e.msg.AppendEntriesReply? && MessageOk(cfg, h, e)
    ensures Explained(cfg, h, h', v, OnAppendReply(cfg, v, e.from, e.msg))
  {
    hide VoterOk, HistOk, HistGrows, OwnedBy, AckedUpTo, OnSuccess, SendAppend, KnownApplied, BecomeFollower, EnterTerm;
    var m := e.msg;
    var w := v.(peerApplied := v.peerApplied[e.from := Max(KnownApplied(v, e.from), m.appliedIndex)]);
    PeerAppliedOk(cfg, h, v, e.from, m.appliedIndex);
    ExplainedReflexive(cfg, h, w);
    h' := h;
    if m.term > w.term {
      h' := FollowOk(cfg, h, w, m.term, None);
    } else if w.role == Leader && m.term == w.term {
      if m.success {
        h' := SuccessOk(cfg, h, w, e.from, m.matchIndex, m.readRound);
      } else {
        RetryOk(cfg, h, w, e.from, m.matchIndex + 1);
      }
    }
  }

  // ---------------------------------------------------------------------------
  // Applied frontier, delivery and compaction
  // ---------------------------------------------------------------------------

  ghost function AppliedHist(h: Hist, n: NodeId, a: nat): Hist
    requires n in h.seenApplied
  {
    h.(seenApplied := h.seenApplied[n := Max(h.seenApplied[n], a)])
  }

  lemma AppliedHistOk(cfg: Config, h: Hist, n: NodeId, a: nat)
    requires HistOk(cfg, h) && n in h.seenApplied
    ensures HistOk(cfg, AppliedHist(h, n, a)) && HistGrows(h, AppliedHist(h, n, a)) &&
            OwnedBy(h, AppliedHist(h, n, a), n)
  {
    hide Safe;
    SteadyGrows(h.p, h.p);
    var h' := AppliedHist(h, n, a);
    forall t, r | (t, r) in h'.barriers
      ensures BarrierOk(cfg, h'.p, t, h'.barriers[(t, r)])
    {
      assert BarrierOk(cfg, h.p, t, h.barriers[(t, r)]);
    }
  }

  lemma SetAppliedOk(cfg: Config, h: Hist, v: Voter, a: nat) returns (h': Hist)
    requires HistOk(cfg, h) && VoterOk(cfg, h, v)
    ensures v.me in h.seenApplied
    ensures HistOk(cfg, h') && HistGrows(h, h') && OwnedBy(h, h', v.me) && VoterOk(cfg, h', SetApplied(v, a))
    ensures h' == AppliedHist(h, v.me, SetApplied(v, a).applied)
  {
    hide Safe, View, Committed, BarriersOk, LastIndex, OutboxOk, HistOk, HistGrows, OwnedBy, StoreOk;
    var v' := SetApplied(v, a);
    h' := AppliedHist(h, v.me, v'.applied);
    AppliedHistOk(cfg, h, v.me, v'.applied);
    MemberOf(cfg, h, v);
    StoreKept(cfg, h, h', v.me, v.disk);
    LeaderSteady(cfg, h, h', v, v');
    BarriersSteady(cfg, h, h', v, v');
    OutboxKept(cfg, h, h', v, v');
  }

  lemma {:induction false} HorizonBound(v: Voter, peers: seq<NodeId>, h: nat)
    ensures PeerHorizon(v, peers, h) <= h
    ensures forall m :: m in peers && m != v.me ==> PeerHorizon(v, peers, h) <= KnownApplied(v, m)
    decreases |peers|
  {
    if peers != [] {
      HorizonBound(v, peers[1..], if peers[0] == v.me then h else Min(h, KnownApplied(v, peers[0])));
      assert peers == [peers[0]] + peers[1..];
    }
  }

  /** The horizon is within what every voter has reported applied, and committed. */
  lemma HorizonOk(cfg: Config, h: Hist, v: Voter)
    requires AppliedOk(cfg, h, v) && forall m :: m in cfg.members ==> m in h.seenApplied
    ensures CompactionHorizon(cfg, v) <= v.commitIndex && CompactionHorizon(cfg, v) <= v.applied
    ensures forall m :: m in cfg.members ==> CompactionHorizon(cfg, v) <= h.seenApplied[m]
  {
    HorizonBound(v, cfg.members, v.applied);
    forall m | m in cfg.members
      ensures CompactionHorizon(cfg, v) <= h.seenApplied[m]
    {
      if m != v.me {
        assert CompactionHorizon(cfg, v) <= KnownApplied(v, m);
      }
    }
  }

  lemma {:induction false} AboveIsSuffix(es: seq<Entry>, base: nat, k: nat)
    requires forall i :: 0 <= i < |es| ==> es[i].index == base + i + 1
    requires k <= |es|
    ensures Above(es, base + k) == es[k..]
  {
    if k == 0 {
      AboveAll(es, base);
    } else {
      var rest := es[1..];
      forall i | 0 <= i < |rest|
        ensures rest[i].index == base + 1 + i + 1
      {
        assert rest[i] == es[i + 1];
      }
      AboveIsSuffix(rest, base + 1, k - 1);
    }
  }

  lemma CommittedShorter(p: Proto, n: NodeId, c: nat, c': nat)
    requires n in p.term && n in p.log && Committed(p, n, c) && c' <= c
    ensures Committed(p, n, c')
  {
    if c' > 0 {
      var t :| CommittedBy(p, n, c, t);
      assert CommittedBy(p, n, c', t);
    }
  }

  /** Cutting the log moves the base and nothing a reader of the log can observe above it. */
  lemma CutView(v: Voter, full: seq<Entry>, target: nat)
    requires View(v, full) && Mirrored(v) && v.snapshotIndex < target <= |full|
    ensures var w := CutAt(v, target, full[target - 1].term);
            View(w, full) && Mirrored(w)
  {
    var w := CutAt(v, target, full[target - 1].term);
    AboveIsSuffix(v.log, v.snapshotIndex, target - v.snapshotIndex);
    assert w.log == full[target..];
  }

  lemma CutStore(cfg: Config, h: Hist, v: Voter, target: nat)
    requires StoreOk(cfg, h, v.me, v.disk) && Mirrored(v) && Committed(h.p, v.me, v.commitIndex)
    requires v.snapshotIndex < target <= v.commitIndex && target <= |h.p.log[v.me]|
    requires forall m :: m in cfg.members ==> m in h.seenApplied && target <= h.seenApplied[m]
    ensures var w := CutAt(v, target, h.p.log[v.me][target - 1].term);
            Mirrored(w) && StoreOk(cfg, h, v.me, w.disk)
  {
    hide Committed;
    CutView(v, h.p.log[v.me], target);
    CommittedShorter(h.p, v.me, v.commitIndex, target);
  }

  lemma CompactOk(cfg: Config, h: Hist, v: Voter, upTo: nat)
    requires HistOk(cfg, h) && VoterOk(cfg, h, v)
    ensures VoterOk(cfg, h, Compact(cfg, v, upTo))
  {
    hide Safe, StoreOk, View, Committed, BarriersOk, OutboxOk, CompactionHorizon;
    var target := Min(Min(upTo, CompactionHorizon(cfg, v)), LastIndex(v));
    if target > v.snapshotIndex && TermAt(v, target) != 0 {
      var v' := CutAt(v, target, TermAt(v, target));
      MemberOf(cfg, h, v);
      ViewEnds(v, h.p.log[v.me]);
      ViewAt(v, h.p.log[v.me], target);
      HorizonOk(cfg, h, v);
      CutStore(cfg, h, v, target);
      LeaderSteady(cfg, h, h, v, v');
      BarriersSteady(cfg, h, h, v, v');
      HistGrowsReflexive(h);
      OutboxKept(cfg, h, h, v, v');
    }
  }

  lemma TakeCommittedOk(cfg: Config, h: Hist, v: Voter)
    requires VoterOk(cfg, h, v)
    ensures VoterOk(cfg, h, TakeCommitted(v))
  {
    hide StoreOk, Committed, BarriersOk;
    var v' := TakeCommitted(v);
    LeaderSteady(cfg, h, h, v, v');
    BarriersSteady(cfg, h, h, v, v');
  }

  lemma TakeOutboxOk(cfg: Config, h: Hist, v: Voter)
    requires VoterOk(cfg, h, v)
    ensures VoterOk(cfg, h, TakeOutbox(v))
  {
    hide StoreOk, Committed, BarriersOk;
    var v' := TakeOutbox(v);
    LeaderSteady(cfg, h, h, v, v');
    BarriersSteady(cfg, h, h, v, v');
  }

  lemma TakeReadyReadsOk(cfg: Config, h: Hist, v: Voter)
    requires VoterOk(cfg, h, v)
    ensures VoterOk(cfg, h, TakeReadyReads(v))
  {
    hide StoreOk, Committed;
    var v' := TakeReadyReads(v);
    LeaderSteady(cfg, h, h, v, v');
    forall r | r in v'.pendingReads
      ensures PendingOk(cfg, h, v', r)
    {
      assert PendingOk(cfg, h, v, r);
    }
  }

  // ---------------------------------------------------------------------------
  // Crash and restart
  // ---------------------------------------------------------------------------

  ghost predicate NoneIssued(h: Hist, n: NodeId) {
    forall r: nat :: (n, r) !in h.issued
  }

  /** A crash forgets the barriers of the process that died. */
  ghost function CrashHist(h: Hist, n: NodeId): Hist {
    h.(issued := h.issued - set k | k in h.issued && k.0 == n)
  }

  lemma CrashHistOk(cfg: Config, h: Hist, n: NodeId, d: Persistent)
    requires HistOk(cfg, h) && StoreOk(cfg, h, n, d)
    ensures HistOk(cfg, CrashHist(h, n)) && HistGrows(h, CrashHist(h, n)) && OwnedBy(h, CrashHist(h, n), n)
    ensures StoreOk(cfg, CrashHist(h, n), n, d) && NoneIssued(CrashHist(h, n), n)
  {
    hide Safe, View;
    var h' := CrashHist(h, n);
    SteadyGrows(h.p, h.p);
    forall t, r | (t, r) in h'.barriers
      ensures BarrierOk(cfg, h'.p, t, h'.barriers[(t, r)])
    {
      assert BarrierOk(cfg, h.p, t, h.barriers[(t, r)]);
    }
  }

  lemma BootOk(cfg: Config, h: Hist, n: NodeId, d: Persistent)
    requires HistOk(cfg, h) && StoreOk(cfg, h, n, d) && NoneIssued(h, n)
    ensures VoterOk(cfg, h, Boot(n, d))
  {
    hide Safe, View;
  }
}
