/**
  How a voter's concrete state and the messages in flight relate to the protocol history, and
  why neither is disturbed when the history grows somewhere else.
 */
module RaftInvariant {
  import opened Basics
  import opened RaftTypes
  import opened RaftProtocol
  import opened RaftActions
  import opened RaftVoter

  /** What was true when the leader of a term issued a read barrier. */
  datatype Barrier = Barrier(index: nat, peak: nat, ahead: set<NodeId>)

  datatype Hist = Hist(
    p: Proto,
    seenApplied: map<NodeId, nat>,      // highest frontier each application ever reported
    peak: nat,                          // highest commit index any voter ever reached
    barriers: map<(nat, nat), Barrier>,    // by term and round
    issued: map<(NodeId, nat), nat>)    // by voter (current process) and round: peak when issued

  // ---------------------------------------------------------------------------
  // Logs as voters store them
  // ---------------------------------------------------------------------------

  /** `v` stores the part of `full` above its base. */
  ghost predicate View(v: Voter, full: seq<Entry>) {
    && v.snapshotIndex <= |full|
    && v.log == full[v.snapshotIndex..]
    && v.snapshotTerm == (if v.snapshotIndex == 0 then 0 else full[v.snapshotIndex - 1].term)
    && (forall i :: 0 <= i < |full| ==> full[i].index == i + 1 && full[i].term >= 1)
  }

  lemma ViewEnds(v: Voter, full: seq<Entry>)
    requires View(v, full)
    ensures LastIndex(v) == |full|
    ensures Rank(LastTerm(v), LastIndex(v)) == RankOf(full)
  {
  }

  lemma ViewAt(v: Voter, full: seq<Entry>, i: nat)
    requires View(v, full)
    ensures EntryAt(v, i) == if v.snapshotIndex < i <= |full| then Some(full[i - 1]) else None
    ensures TermAt(v, i) == if i == 0 || i < v.snapshotIndex || i > |full| then 0 else full[i - 1].term
  {
  }

  lemma ViewAppend(v: Voter, v': Voter, full: seq<Entry>, es: seq<Entry>)
    requires View(v, full)
    requires v'.snapshotIndex == v.snapshotIndex && v'.snapshotTerm == v.snapshotTerm && v'.log == v.log + es
    requires forall i :: 0 <= i < |es| ==> es[i].index == |full| + i + 1 && es[i].term >= 1
    ensures View(v', full + es)
  {
  }

  // ---------------------------------------------------------------------------
  // Voters
  // ---------------------------------------------------------------------------

  /** The first `c` entries of `n`'s log were committed by a leader of a term it has reached. */
  ghost predicate Committed(p: Proto, n: NodeId, c: nat)
    requires n in p.term && n in p.log
  {
    c == 0 || exists t :: CommittedBy(p, n, c, t)
  }

  ghost predicate Stored(p: Proto, n: NodeId, d: Persistent)
    requires n in p.term && n in p.log
  {
    && d.term == p.term[n]
    && (d.votedFor == None <==> (d.term, n) !in p.vote)
    && (d.votedFor.Some? ==> p.vote[(d.term, n)] == d.votedFor.value)
    && View(Boot(n, d), p.log[n])
    && Committed(p, n, d.snapshotIndex)
  }

  /** The state of a voter that survives a crash matches the history. */
  ghost predicate StoreOk(cfg: Config, h: Hist, n: NodeId, d: Persistent) {
    && n in cfg.members && n in h.p.term && n in h.p.log
    && Stored(h.p, n, d)
    && (forall m :: m in cfg.members ==> m in h.seenApplied && d.snapshotIndex <= h.seenApplied[m])
  }

  ghost predicate Mirrored(v: Voter) {
    v.disk == Persistent(v.term, v.votedFor, v.log, v.snapshotIndex, v.snapshotTerm)
  }

  ghost function AckedUpTo(p: Proto, t: nat, n: NodeId): nat {
    if (t, n) in p.acked then p.acked[(t, n)] else 0
  }

  ghost predicate LeaderOk(cfg: Config, h: Hist, v: Voter) {
    v.role == Leader ==>
      && v.term in h.p.reign && h.p.reign[v.term].leader == v.me
      && v.me in h.p.log && h.p.log[v.me] == h.p.reign[v.term].log
      && (forall m :: m in cfg.members ==> MatchOf(v, m) <= AckedUpTo(h.p, v.term, m))
      && (v.term in h.p.commits ==> h.p.commits[v.term] <= v.commitIndex)
  }

  ghost predicate CandidateOk(cfg: Config, h: Hist, v: Voter) {
    v.role == Candidate ==>
      && v.me in h.p.log
      && (v.term, v.me) in h.p.cand && h.p.cand[(v.term, v.me)] == RankOf(h.p.log[v.me])
      && v.me in v.votes
      && (forall m :: m in v.votes ==>
                        m in cfg.members && (v.term, m) in h.p.vote && h.p.vote[(v.term, m)] == v.me)
      && (v.term in h.p.reign ==> h.p.reign[v.term].leader != v.me)
  }

  ghost predicate AppliedOk(cfg: Config, h: Hist, v: Voter) {
    && v.me in h.seenApplied && v.applied <= h.seenApplied[v.me]
    && v.snapshotIndex <= v.applied <= v.lastDelivered
    && (forall m :: m in v.peerApplied ==> m in h.seenApplied && v.peerApplied[m] <= h.seenApplied[m])
  }

  ghost predicate PendingOk(cfg: Config, h: Hist, v: Voter, r: PendingRead) {
    && (v.term, r.round) in h.barriers && (v.me, r.round) in h.issued
    && h.barriers[(v.term, r.round)].index == r.index
    && h.barriers[(v.term, r.round)].peak == h.issued[(v.me, r.round)]
    && r.acks <= cfg.Voters() - h.barriers[(v.term, r.round)].ahead
  }

  ghost predicate ReadyOk(h: Hist, n: NodeId, r: ReadIndex) {
    (n, r.round) in h.issued && h.issued[(n, r.round)] <= r.index
  }

  ghost predicate BarriersOk(cfg: Config, h: Hist, v: Voter) {
    && (v.role != Leader ==> v.pendingReads == [])
    && (v.role == Leader ==> forall r: nat :: (v.term, r) in h.barriers ==> r <= v.readRound)
    && (forall r: nat :: (v.me, r) in h.issued ==> r <= v.readRound)
    && (forall r {:trigger PendingOk(cfg, h, v, r)} :: r in v.pendingReads ==> PendingOk(cfg, h, v, r))
    && (forall r {:trigger ReadyOk(h, v.me, r)} :: r in v.readyReads ==> ReadyOk(h, v.me, r))
  }

  ghost predicate OutboxOk(cfg: Config, h: Hist, v: Voter) {
    forall e {:trigger MessageOk(cfg, h, e)} :: e in v.outbox ==> MessageOk(cfg, h, e)
  }

  ghost predicate VoterOk(cfg: Config, h: Hist, v: Voter) {
    && Mirrored(v)
    && StoreOk(cfg, h, v.me, v.disk)
    && Committed(h.p, v.me, v.commitIndex) && v.commitIndex <= h.peak
    && LeaderOk(cfg, h, v)
    && CandidateOk(cfg, h, v)
    && AppliedOk(cfg, h, v)
    && BarriersOk(cfg, h, v)
    && OutboxOk(cfg, h, v)
  }

  // ---------------------------------------------------------------------------
  // Messages
  // ---------------------------------------------------------------------------

  ghost predicate Slice(g: seq<Entry>, prev: nat, prevTerm: nat, entries: seq<Entry>) {
    && prev + |entries| <= |g|
    && (prev == 0 || g[prev - 1].term == prevTerm)
    && entries == g[prev..prev + |entries|]
  }

  ghost predicate LeaderCommitOk(p: Proto, t: nat, c: nat) {
    c == 0 || exists s :: s in p.commits && s <= t && c <= p.commits[s]
  }

  ghost predicate MessageOk(cfg: Config, h: Hist, e: Envelope) {
    && e.from in cfg.members
    && match e.msg
       case RequestVote(t, li, lt) =>
         (t, e.from) in h.p.cand && h.p.cand[(t, e.from)] == Rank(lt, li)
       case RequestVoteReply(t, granted) =>
         granted ==> (t, e.from) in h.p.vote && h.p.vote[(t, e.from)] == e.to
       case AppendEntries(t, prev, prevTerm, entries, c, round) =>
         && t in h.p.reign
         && (Slice(h.p.reign[t].log, prev, prevTerm, entries) || (prev > 0 && prevTerm == 0 && entries == []))
         && LeaderCommitOk(h.p, t, c) && c <= h.peak
         && (round == 0 || (t, round) in h.barriers)
       case AppendEntriesReply(t, success, m, round, a) =>
         && e.from in h.seenApplied && a <= h.seenApplied[e.from]
         && (success ==> m <= AckedUpTo(h.p, t, e.from))
         && (success && round > 0 ==> (t, round) in h.barriers)
         && (success && round > 0 ==> forall r: nat :: r <= round && (t, r) in h.barriers ==>
             e.from !in h.barriers[(t, r)].ahead)
  }

  // ---------------------------------------------------------------------------
  // History
  // ---------------------------------------------------------------------------

  /** Either the barrier covers every commit made so far, or a majority had already moved on. */
  ghost predicate BarrierOk(cfg: Config, p: Proto, t: nat, b: Barrier) {
    && t in p.reign
    && (b.peak <= b.index || cfg.IsQuorum(b.ahead))
    && (forall n :: n in b.ahead ==> n in cfg.members && n in p.term && p.term[n] > t)
  }

  ghost predicate HistOk(cfg: Config, h: Hist) {
    && Safe(cfg, h.p)
    && (h.peak == 0 || exists t :: t in h.p.commits && h.peak <= h.p.commits[t])
    && (forall t, r {:trigger BarrierOk(cfg, h.p, t, h.barriers[(t, r)])} ::
          (t, r) in h.barriers ==> BarrierOk(cfg, h.p, t, h.barriers[(t, r)]))
    && (forall m :: m in cfg.members ==> m in h.seenApplied)
  }

  ghost predicate HistGrows(h: Hist, h': Hist) {
    && Grows(h.p, h'.p)
    && h.peak <= h'.peak
    && (forall n :: n in h.seenApplied ==> n in h'.seenApplied && h.seenApplied[n] <= h'.seenApplied[n])
    && (forall k :: k in h.barriers ==> k in h'.barriers && h'.barriers[k] == h.barriers[k])
    && (forall t, r, r' :: (t, r) in h.barriers && (t, r') in h'.barriers && (t, r') !in h.barriers ==> r < r')
  }

  /** Only what voter `n` owns changed. */
  ghost predicate OwnedBy(h: Hist, h': Hist, n: NodeId) {
    && (forall m :: m != n ==> (m in h.p.term <==> m in h'.p.term) && (m in h.p.log <==> m in h'.p.log))
    && (forall m :: m != n && m in h.p.term ==> h'.p.term[m] == h.p.term[m])
    && (forall m :: m != n && m in h.p.log ==> h'.p.log[m] == h.p.log[m])
    && (forall t, m :: m != n && (t, m) in h'.p.vote ==> (t, m) in h.p.vote)
    && (forall t :: t in h.p.reign && h.p.reign[t].leader != n ==> t in h'.p.reign && h'.p.reign[t] == h.p.reign[t])
    && (forall t :: t in h'.p.reign && h'.p.reign[t].leader != n ==> t in h.p.reign)
    && (forall t :: t in h'.p.reign && h'.p.reign[t].leader != n && t in h'.p.commits ==>
                      t in h.p.commits && h'.p.commits[t] == h.p.commits[t])
    && (forall t, r :: t in h'.p.reign && h'.p.reign[t].leader != n && (t, r) in h'.barriers ==> (t, r) in h.barriers)
    && (forall m, r :: m != n ==> ((m, r) in h.issued <==> (m, r) in h'.issued))
    && (forall m, r :: m != n && (m, r) in h.issued ==> h'.issued[(m, r)] == h.issued[(m, r)])
  }

  lemma HistGrowsTransitive(a: Hist, b: Hist, c: Hist)
    requires HistGrows(a, b) && HistGrows(b, c)
    ensures HistGrows(a, c)
  {
    GrowsTransitive(a.p, b.p, c.p);
  }

  lemma HistGrowsReflexive(h: Hist)
    ensures HistGrows(h, h)
  {
    SteadyGrows(h.p, h.p);
  }

  lemma OwnedByTransitive(a: Hist, b: Hist, c: Hist, n: NodeId)
    requires OwnedBy(a, b, n) && OwnedBy(b, c, n) && HistGrows(a, b) && HistGrows(b, c)
    ensures OwnedBy(a, c, n)
  {
    forall t | t in b.p.reign
      ensures t in c.p.reign && c.p.reign[t].leader == b.p.reign[t].leader
    {
      assert ReignMono(b.p, c.p, t);
    }
  }

  // ---------------------------------------------------------------------------
  // Frames
  // ---------------------------------------------------------------------------

  lemma CommittedGrows(h: Hist, h': Hist, n: NodeId, c: nat)
    requires HistGrows(h, h')
    requires n in h.p.term && n in h.p.log && n in h'.p.term && n in h'.p.log
    requires Agree(h.p.log[n], h'.p.log[n], c)
    requires Committed(h.p, n, c)
    ensures Committed(h'.p, n, c)
  {
    if c > 0 {
      var t :| CommittedBy(h.p, n, c, t);
      assert ReignMono(h.p, h'.p, t);
      assert CommittedBy(h'.p, n, c, t);
    }
  }

  lemma CommittedLength(p: Proto, n: NodeId, c: nat)
    requires n in p.term && n in p.log && Committed(p, n, c)
    ensures c <= |p.log[n]|
  {
  }

  lemma StoreKept(cfg: Config, h: Hist, h': Hist, n: NodeId, d: Persistent)
    requires HistGrows(h, h') && StoreOk(cfg, h, n, d)
    requires n in h'.p.term && n in h'.p.log && h'.p.term[n] == h.p.term[n] && h'.p.log[n] == h.p.log[n]
    requires (d.term, n) in h'.p.vote ==> (d.term, n) in h.p.vote
    ensures StoreOk(cfg, h', n, d)
  {
    CommittedLength(h.p, n, d.snapshotIndex);
    CommittedGrows(h, h', n, d.snapshotIndex);
  }

  lemma MessageKept(cfg: Config, h: Hist, h': Hist, e: Envelope)
    requires HistGrows(h, h') && MessageOk(cfg, h, e)
    ensures MessageOk(cfg, h', e)
  {
    match e.msg
    case RequestVote(_, _, _) =>
    case RequestVoteReply(_, _) =>
    case AppendEntries(t, prev, prevTerm, entries, c, round) =>
      assert ReignMono(h.p, h'.p, t);
      if Slice(h.p.reign[t].log, prev, prevTerm, entries) {
        assert Slice(h'.p.reign[t].log, prev, prevTerm, entries);
      }
      if c > 0 {
        var s :| s in h.p.commits && s <= t && c <= h.p.commits[s];
        assert s in h'.p.commits && c <= h'.p.commits[s];
      }
      assert LeaderCommitOk(h'.p, t, c);
    case AppendEntriesReply(t, success, m, round, a) =>
      assert AckMono(h.p, h'.p, t, e.from);
      assert m <= AckedUpTo(h.p, t, e.from) ==> m <= AckedUpTo(h'.p, t, e.from);
  }

  lemma OutboxKept(cfg: Config, h: Hist, h': Hist, v: Voter, v': Voter)
    requires HistGrows(h, h') && OutboxOk(cfg, h, v) && v'.outbox == v.outbox
    ensures OutboxOk(cfg, h', v')
  {
    forall e | e in v'.outbox
      ensures MessageOk(cfg, h', e)
    {
      assert MessageOk(cfg, h, e);
      MessageKept(cfg, h, h', e);
    }
  }

  lemma LeaderKept(cfg: Config, h: Hist, h': Hist, n: NodeId, v: Voter)
    requires HistGrows(h, h') && OwnedBy(h, h', n) && v.me != n && LeaderOk(cfg, h, v)
    ensures LeaderOk(cfg, h', v)
  {
    if v.role == Leader {
      forall m | m in cfg.members
        ensures MatchOf(v, m) <= AckedUpTo(h'.p, v.term, m)
      {
        assert AckMono(h.p, h'.p, v.term, m);
      }
    }
  }

  lemma CandidateKept(cfg: Config, h: Hist, h': Hist, n: NodeId, v: Voter)
    requires HistGrows(h, h') && OwnedBy(h, h', n) && v.me != n && CandidateOk(cfg, h, v)
    ensures CandidateOk(cfg, h', v)
  {
    if v.role == Candidate && v.term in h.p.reign {
      assert ReignMono(h.p, h'.p, v.term);
    }
  }

  lemma BarriersKept(cfg: Config, h: Hist, h': Hist, n: NodeId, v: Voter)
    requires HistGrows(h, h') && OwnedBy(h, h', n) && v.me != n && LeaderOk(cfg, h, v) && BarriersOk(cfg, h, v)
    ensures BarriersOk(cfg, h', v)
  {
    forall r | r in v.pendingReads
      ensures PendingOk(cfg, h', v, r)
    {
      assert PendingOk(cfg, h, v, r);
    }
    forall r | r in v.readyReads
      ensures ReadyOk(h', v.me, r)
    {
      assert ReadyOk(h, v.me, r);
    }
  }

  /** A voter is undisturbed by what another voter does. */
  lemma VoterKept(cfg: Config, h: Hist, h': Hist, n: NodeId, v: Voter)
    requires HistGrows(h, h') && OwnedBy(h, h', n) && v.me != n && VoterOk(cfg, h, v)
    ensures VoterOk(cfg, h', v)
  {
    StoreKept(cfg, h, h', v.me, v.disk);
    CommittedLength(h.p, v.me, v.commitIndex);
    CommittedGrows(h, h', v.me, v.commitIndex);
    LeaderKept(cfg, h, h', n, v);
    CandidateKept(cfg, h, h', n, v);
    BarriersKept(cfg, h, h', n, v);
    OutboxKept(cfg, h, h', v, v);
  }
}
