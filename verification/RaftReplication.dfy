/** Replication: AppendEntries and its replies keep the invariant. */
module RaftReplication {
  import opened Basics
  import opened RaftTypes
  import opened RaftProtocol
  import opened RaftActions
  import opened RaftVoter
  import opened RaftInvariant
  import opened RaftElection

  // ---------------------------------------------------------------------------
  // A follower against the log of its leader
  // ---------------------------------------------------------------------------

  /** What a voter knows to be committed, the leader of its term holds as well. */
  lemma CommittedPrefix(cfg: Config, p: Proto, n: NodeId, c: nat)
    requires Safe(cfg, p) && n in p.term && n in p.log && Committed(p, n, c)
    requires p.term[n] in p.reign
    ensures Agree(p.log[n], p.reign[p.term[n]].log, c)
  {
    if c > 0 {
      var t :| CommittedBy(p, n, c, t);
      CommitsAgree(cfg, p, t, p.term[n]);
    }
  }

  /** When the consistency check passes, the follower holds the leader's log up to `prev`. */
  lemma PrevAgrees(p: Proto, v: Voter, f: seq<Entry>, g: seq<Entry>, m: Message)
    requires m.AppendEntries? && View(v, f) && Shape(p, f) && Shape(p, g)
    requires Agree(f, g, v.snapshotIndex)
    requires Slice(g, m.prevLogIndex, m.prevLogTerm, m.entries)
             || (m.prevLogIndex > 0 && m.prevLogTerm == 0 && m.entries == [])
    requires !Mismatch(v, m.prevLogIndex, m.prevLogTerm)
    ensures Agree(f, g, m.prevLogIndex)
    ensures Slice(g, m.prevLogIndex, m.prevLogTerm, m.entries) || m.entries == []
  {
    var prev := m.prevLogIndex;
    ViewEnds(v, f);
    ViewAt(v, f, prev);
    if prev > v.snapshotIndex {
      LogMatching(p, f, g, f[prev - 1].term, prev);
    }
  }

  /** The scan stops exactly where the follower's log leaves the leader's. */
  lemma {:induction false} ScanFinds(p: Proto, v: Voter, f: seq<Entry>, g: seq<Entry>, prev: nat,
                                     entries: seq<Entry>, i: nat)
    requires View(v, f) && Shape(p, f) && Shape(p, g)
    requires prev + |entries| <= |g| && forall j :: 0 <= j < |entries| ==> entries[j] == g[prev + j]
    requires forall j :: 0 <= j < |g| ==> g[j].index == j + 1
    requires i <= |entries| && Agree(f, g, prev + i)
    requires Agree(f, g, v.snapshotIndex) && Agree(f, g, v.commitIndex)
    ensures ScanOutcome(v, f, g, prev, entries, ScanFrom(v, entries, i))
    decreases |entries| - i
  {
    hide View, Shape, EntryAt;
    if i < |entries| {
      var k := prev + i;
      var e := entries[i];
      assert e == g[k];
      ViewEnds(v, f);
      ViewAt(v, f, e.index);
      if e.index <= v.snapshotIndex {
        ScanFinds(p, v, f, g, prev, entries, i + 1);
      } else if k < |f| && f[k].term == e.term {
        LogMatching(p, f, g, e.term, k + 1);
        ScanFinds(p, v, f, g, prev, entries, i + 1);
      }
    }
  }

  ghost predicate ScanOutcome(v: Voter, f: seq<Entry>, g: seq<Entry>, prev: nat, entries: seq<Entry>, s: Scan) {
    && !s.Refused?
    && (s.Matched? ==> Agree(f, g, prev + |entries|))
    && (s.Splice? ==>
          && prev + |entries| <= |g| && s.at < |entries|
          && Spliceable(v, f, g, prev + s.at, prev + |entries|)
          && (s.conflict <==> prev + s.at < |f|))
  }

  // ---------------------------------------------------------------------------
  // Splicing
  // ---------------------------------------------------------------------------

  lemma {:induction false} BelowIsPrefix(es: seq<Entry>, base: nat, k: nat)
    requires forall i :: 0 <= i < |es| ==> es[i].index == base + i + 1
    requires k <= |es|
    ensures Below(es, base + k + 1) == es[..k]
  {
    if es != [] {
      forall i | 0 <= i < |es[1..]|
        ensures es[1..][i].index == base + 1 + i + 1
      {
        assert es[1..][i] == es[i + 1];
      }
      if k == 0 {
        BelowNone(es[1..], base + 1);
      } else {
        BelowIsPrefix(es[1..], base + 1, k - 1);
        assert es[..k] == [es[0]] + es[1..][..k - 1];
      }
    }
  }

  lemma {:induction false} BelowNone(es: seq<Entry>, from: nat)
    requires forall i :: 0 <= i < |es| ==> es[i].index >= from
    ensures Below(es, from) == []
  {
    if es != [] {
      BelowNone(es[1..], from);
    }
  }

  /** Dropping from an index keeps disk and memory equal. */
  lemma DropMirrored(v: Voter, f: seq<Entry>, k: nat)
    requires Mirrored(v) && View(v, f) && v.snapshotIndex <= k < |f|
    ensures Mirrored(DropFrom(v, k + 1))
    ensures DropFrom(v, k + 1).log == f[v.snapshotIndex..k]
  {
    BelowIsPrefix(v.log, v.snapshotIndex, k - v.snapshotIndex);
    assert v.log[..k - v.snapshotIndex] == f[v.snapshotIndex..k];
  }

  /** The log a follower ends up with (`m` entries of the leader's) once it kept its first `k`. */
  ghost predicate Spliceable(v: Voter, f: seq<Entry>, g: seq<Entry>, k: nat, m: nat) {
    && v.snapshotIndex <= k <= m <= |g| && v.commitIndex <= k
    && Agree(f, g, k)
    && (k == |f| || (k < |f| && k < |g| && f[k].term != g[k].term))
  }

  /** Disk contents holding `m` entries of the leader's log. */
  ghost function SplicedDisk(v: Voter, g: seq<Entry>, m: nat): Persistent
    requires v.snapshotIndex <= m <= |g|
  {
    v.disk.(entries := g[v.snapshotIndex..m])
  }

  lemma AdoptStore(cfg: Config, h: Hist, v: Voter, k: nat, m: nat)
    requires StoreOk(cfg, h, v.me, v.disk) && Mirrored(v) && Committed(h.p, v.me, v.commitIndex)
    requires v.term in h.p.reign && Spliceable(v, h.p.log[v.me], h.p.reign[v.term].log, k, m)
    requires HistGrows(h, h.(p := Adopt(h.p, v.me, v.term, m)))
    requires forall i :: 0 <= i < |h.p.reign[v.term].log| ==>
                           h.p.reign[v.term].log[i].index == i + 1 && h.p.reign[v.term].log[i].term >= 1
    ensures StoreOk(cfg, h.(p := Adopt(h.p, v.me, v.term, m)), v.me, SplicedDisk(v, h.p.reign[v.term].log, m))
    ensures Committed(Adopt(h.p, v.me, v.term, m), v.me, v.commitIndex)
  {
    hide HistGrows, Committed;
    var h' := h.(p := Adopt(h.p, v.me, v.term, m));
    var g := h.p.reign[v.term].log;
    var d := SplicedDisk(v, g, m);
    assert g[..m][v.snapshotIndex..] == g[v.snapshotIndex..m];
    assert View(Boot(v.me, d), g[..m]);
    CommittedGrows(h, h', v.me, v.snapshotIndex);
    CommittedGrows(h, h', v.me, v.commitIndex);
  }

  /** A follower's log, on disk and in memory, becomes a prefix of its leader's log. */
  lemma AdoptOk(cfg: Config, h: Hist, v: Voter, k: nat, m: nat) returns (h': Hist)
    requires HistOk(cfg, h) && VoterOk(cfg, h, v) && v.role == Follower
    requires v.term in h.p.reign && Spliceable(v, h.p.log[v.me], h.p.reign[v.term].log, k, m)
    ensures var g := h.p.reign[v.term].log;
            && Explained(cfg, h, h', v, v.(disk := SplicedDisk(v, g, m), log := g[v.snapshotIndex..m]))
            && v.term in h'.p.reign && h'.p.reign[v.term].log == g
            && v.me in h'.p.log && h'.p.log[v.me] == g[..m]
            && h'.barriers == h.barriers && h'.seenApplied == h.seenApplied
  {
    hide Safe, View, HistOk, StoreOk, HistGrows, Committed, BarriersOk, OutboxOk, OwnedBy, AppliedOk, LeaderOk,
         CandidateOk;
    MemberOf(cfg, h, v);
    HistSafe(cfg, h);
    var g := h.p.reign[v.term].log;
    var v' := v.(disk := SplicedDisk(v, g, m), log := g[v.snapshotIndex..m]);
    h' := h.(p := Adopt(h.p, v.me, v.term, m));
    assert Adoptable(h.p, v.me, v.term, m);
    AdoptSafe(cfg, h.p, v.me, m);
    ProtoStep(cfg, h, h'.p);
    ReignLog(cfg, h.p, v.term);
    AdoptStore(cfg, h, v, k, m);
    AdoptOwned(h, v.me, v.term, m);
    BarriersSteady(cfg, h, h', v, v');
    OutboxKept(cfg, h, h', v, v');
    AppliedSteady(cfg, h, h', v, v');
    FollowerSteady(cfg, h', v');
  }

  lemma AdoptOwned(h: Hist, n: NodeId, t: nat, m: nat)
    requires n in h.p.log && t in h.p.reign && m <= |h.p.reign[t].log|
    ensures OwnedBy(h, h.(p := Adopt(h.p, n, t, m)), n)
  {
  }

  lemma ReignLog(cfg: Config, p: Proto, t: nat)
    requires Safe(cfg, p) && t in p.reign
    ensures forall i :: 0 <= i < |p.reign[t].log| ==> p.reign[t].log[i].index == i + 1 && p.reign[t].log[i].term >= 1
    ensures Shape(p, p.reign[t].log)
  {
    assert ReignOk(cfg, p, t);
    ShapeSorted(cfg, p, p.reign[t].log);
  }

  lemma VoterShape(cfg: Config, p: Proto, n: NodeId)
    requires Safe(cfg, p) && n in cfg.members
    ensures n in p.log && n in p.term && Shape(p, p.log[n])
  {
    assert LogOk(p, n);
  }

  // ---------------------------------------------------------------------------
  // AppendEntries
  // ---------------------------------------------------------------------------

  lemma HeedOk(cfg: Config, h: Hist, v: Voter, from: NodeId, term: nat) returns (h': Hist)
    requires HistOk(cfg, h) && VoterOk(cfg, h, v) && term >= v.term
    ensures Explained(cfg, h, h', v, Acknowledges(v, from, term))
    ensures Acknowledges(v, from, term).role == Follower && Acknowledges(v, from, term).term == term
  {
    hide HistOk, HistGrows, OwnedBy, EnterTerm;
    if term > v.term || v.role != Follower {
      h' := FollowOk(cfg, h, v, term, Some(from));
    } else {
      h' := h;
      ExplainedReflexive(cfg, h, v);
      BarriersSteady(cfg, h, h, v, v.(leader := Some(from)));
    }
  }

  /** The follower and its leader, and the message between them, once the check has passed. */
  ghost predicate Matching(h: Hist, v: Voter, m: Message) {
    && m.AppendEntries? && v.role == Follower && v.term == m.term && v.term in h.p.reign
    && v.me in h.p.log
    && View(v, h.p.log[v.me])
    && Shape(h.p, h.p.log[v.me]) && Shape(h.p, h.p.reign[v.term].log)
    && Agree(h.p.log[v.me], h.p.reign[v.term].log, v.snapshotIndex)
    && Agree(h.p.log[v.me], h.p.reign[v.term].log, v.commitIndex)
    && Agree(h.p.log[v.me], h.p.reign[v.term].log, m.prevLogIndex)
    && (Slice(h.p.reign[v.term].log, m.prevLogIndex, m.prevLogTerm, m.entries) || m.entries == [])
  }

  lemma MatchingHolds(cfg: Config, h: Hist, v: Voter, e: Envelope)
    requires HistOk(cfg, h) && VoterOk(cfg, h, v) && v.role == Follower
    requires e.msg.AppendEntries? && MessageOk(cfg, h, e) && v.term == e.msg.term
    requires !Mismatch(v, e.msg.prevLogIndex, e.msg.prevLogTerm)
    ensures Matching(h, v, e.msg)
  {
    hide Safe, HistOk, View, Shape, Mismatch, Slice, BarriersOk, OutboxOk;
    HistSafe(cfg, h);
    MemberOf(cfg, h, v);
    VoterShape(cfg, h.p, v.me);
    ReignLog(cfg, h.p, v.term);
    CommittedPrefix(cfg, h.p, v.me, v.snapshotIndex);
    CommittedPrefix(cfg, h.p, v.me, v.commitIndex);
    PrevAgrees(h.p, v, h.p.log[v.me], h.p.reign[v.term].log, e.msg);
  }

  lemma ScanMatching(h: Hist, v: Voter, m: Message)
    requires Matching(h, v, m)
    ensures ScanOutcome(v, h.p.log[v.me], h.p.reign[v.term].log, m.prevLogIndex, m.entries, ScanFrom(v, m.entries, 0))
    ensures LastNew(m.prevLogIndex, m.entries) == m.prevLogIndex + |m.entries|
  {
    hide View;
    var f, g := h.p.log[v.me], h.p.reign[v.term].log;
    if m.entries == [] {
      assert ScanFrom(v, m.entries, 0) == Matched;
    } else {
      ScanFinds(h.p, v, f, g, m.prevLogIndex, m.entries, 0);
    }
  }

  lemma SplicePartIs(v: Voter, f: seq<Entry>, g: seq<Entry>, prev: nat, entries: seq<Entry>, s: Scan, upTo: nat)
    requires View(v, f) && Mirrored(v) && s.Splice? && ScanOutcome(v, f, g, prev, entries, s)
    requires s.at <= upTo <= |entries|
    requires entries == g[prev..prev + |entries|] && g[prev + s.at].index == prev + s.at + 1
    ensures var n := prev + upTo;
            SplicePart(v, entries, s, upTo) == v.(disk := SplicedDisk(v, g, n), log := g[v.snapshotIndex..n])
  {
    hide View, DropFrom;
    var k, n := prev + s.at, prev + upTo;
    SliceOfSlice(g, prev, prev + |entries|, s.at, upTo);
    ViewLog(v, f);
    if s.conflict {
      DropMirrored(v, f, k);
      DropSteady(v, k + 1);
    }
    assert f[v.snapshotIndex..k] == g[v.snapshotIndex..k];
    SliceJoin(g, v.snapshotIndex, k, n);
  }

  lemma SliceJoin<T>(g: seq<T>, a: nat, b: nat, c: nat)
    requires a <= b <= c <= |g|
    ensures g[a..b] + g[b..c] == g[a..c]
  {
  }

  lemma SliceOfSlice<T>(g: seq<T>, a: nat, b: nat, c: nat, d: nat)
    requires a <= b <= |g| && c <= d <= b - a
    ensures g[a..b][c..d] == g[a + c..a + d]
  {
    var s := g[a..b];
    forall i | 0 <= i < d - c
      ensures s[c..d][i] == g[a + c..a + d][i]
    {
      assert s[c + i] == g[a + c + i];
    }
  }

  lemma DropSteady(v: Voter, from: nat)
    ensures DropFrom(v, from) == v.(disk := DropFrom(v, from).disk, log := DropFrom(v, from).log)
  {
  }

  /** What a splice up to `upTo` leaves in memory and on disk is a prefix of the leader's log. */
  lemma SpliceResult(h: Hist, v: Voter, m: Message, upTo: nat)
    requires Matching(h, v, m) && Mirrored(v)
    requires ScanFrom(v, m.entries, 0).Splice? && ScanFrom(v, m.entries, 0).at <= upTo <= |m.entries|
    ensures var g := h.p.reign[v.term].log;
            var n := m.prevLogIndex + upTo;
            && v.snapshotIndex <= n <= |g|
            && SplicePart(v, m.entries, ScanFrom(v, m.entries, 0), upTo)
               == v.(disk := SplicedDisk(v, g, n), log := g[v.snapshotIndex..n])
  {
    hide View, Shape, ScanFrom, SplicePart, Mirrored, Agree;
    ScanMatching(h, v, m);
    var f, g := h.p.log[v.me], h.p.reign[v.term].log;
    var s := ScanFrom(v, m.entries, 0);
    ShapeIndex(h.p, g, m.prevLogIndex + s.at);
    SplicePartIs(v, f, g, m.prevLogIndex, m.entries, s, upTo);
  }

  lemma ViewLog(v: Voter, f: seq<Entry>)
    requires View(v, f)
    ensures v.snapshotIndex <= |f| && v.log == f[v.snapshotIndex..|f|]
  {
  }

  lemma ShapeIndex(p: Proto, g: seq<Entry>, k: nat)
    requires Shape(p, g) && k < |g|
    ensures g[k].index == k + 1
  {
  }

  lemma SpliceOk(cfg: Config, h: Hist, v: Voter, m: Message) returns (h': Hist)
    requires HistOk(cfg, h) && VoterOk(cfg, h, v) && Matching(h, v, m)
    ensures var s := ScanFrom(v, m.entries, 0);
            var n := m.prevLogIndex + |m.entries|;
            && !s.Refused?
            && Explained(cfg, h, h', v, SpliceIn(v, m.entries, s))
            && v.term in h'.p.reign && v.me in h'.p.log && Agree(h'.p.log[v.me], h'.p.reign[v.term].log, n)
            && h'.barriers == h.barriers
  {
    hide HistOk, HistGrows, OwnedBy, View, Shape, ScanFrom, LeaderOk, CandidateOk, BarriersOk, OutboxOk, Committed,
         StoreOk, Explained, SplicedDisk;
    var s := ScanFrom(v, m.entries, 0);
    var g := h.p.reign[v.term].log;
    var n := m.prevLogIndex + |m.entries|;
    ScanMatching(h, v, m);
    h' := h;
    ExplainedReflexive(cfg, h, v);
    if s.Splice? {
      SpliceResult(h, v, m, |m.entries|);
      h' := AdoptOk(cfg, h, v, m.prevLogIndex + s.at, n);
    }
  }

  /** The follower acknowledges and moves its commit index behind the leader's. */
  lemma FollowCommitHolds(cfg: Config, p: Proto, n: NodeId, c: nat, lc: nat, m: nat)
    requires Safe(cfg, p) && n in cfg.members && n in p.term && n in p.log && Committed(p, n, c)
    requires p.term[n] in p.reign && Agree(p.log[n], p.reign[p.term[n]].log, m)
    requires LeaderCommitOk(p, p.term[n], lc)
    ensures Committed(p, n, Max(Min(lc, m), c))
  {
    var x := Min(lc, m);
    if x > c {
      var s :| s in p.commits && s <= p.term[n] && lc <= p.commits[s];
      CommitsAgree(cfg, p, s, p.term[n]);
      assert CommittedBy(p, n, x, s);
    }
  }

  lemma AckOwned(h: Hist, n: NodeId, m: nat)
    requires n in h.p.term
    ensures OwnedBy(h, h.(p := Acknowledge(h.p, n, m)), n)
    ensures m <= AckedUpTo(Acknowledge(h.p, n, m), h.p.term[n], n)
  {
  }

  lemma AckOk(cfg: Config, h: Hist, v: Voter, m: nat) returns (h': Hist)
    requires HistOk(cfg, h) && VoterOk(cfg, h, v) && v.role == Follower
    requires v.term in h.p.reign && Agree(h.p.log[v.me], h.p.reign[v.term].log, m)
    ensures Explained(cfg, h, h', v, v)
    ensures m <= AckedUpTo(h'.p, v.term, v.me)
    ensures h' == h.(p := Acknowledge(h.p, v.me, m))
  {
    hide Safe, StoreOk, View, HistOk, HistGrows, Committed, BarriersOk, OutboxOk, OwnedBy, Agree, AckedUpTo;
    MemberOf(cfg, h, v);
    AckOwned(h, v.me, m);
    HistSafe(cfg, h);
    h' := h.(p := Acknowledge(h.p, v.me, m));
    AcknowledgeSafe(cfg, h.p, v.me, m);
    ProtoStep(cfg, h, h'.p);
    CommitSteady(h, h', v.me, v.commitIndex);
    StoreKept(cfg, h, h', v.me, v.disk);
    BarriersSteady(cfg, h, h', v, v);
    OutboxKept(cfg, h, h', v, v);
  }

  lemma CommitOk(cfg: Config, h: Hist, v: Voter, lc: nat, m: nat)
    requires HistOk(cfg, h) && VoterOk(cfg, h, v) && v.role == Follower
    requires v.term in h.p.reign && Agree(h.p.log[v.me], h.p.reign[v.term].log, m)
    requires LeaderCommitOk(h.p, v.term, lc) && lc <= h.peak
    ensures VoterOk(cfg, h, FollowCommit(v, lc, m))
  {
    hide Safe, StoreOk, View, HistOk, Committed, BarriersOk, OutboxOk, LeaderCommitOk;
    MemberOf(cfg, h, v);
    HistSafe(cfg, h);
    var v' := FollowCommit(v, lc, m);
    FollowCommitHolds(cfg, h.p, v.me, v.commitIndex, lc, m);
    BarriersSteady(cfg, h, h, v, v');
    HistGrowsReflexive(h);
    OutboxKept(cfg, h, h, v, v');
  }

  /** No voter the barrier counted as gone ahead can still be in the barrier's term. */
  lemma NotAhead(cfg: Config, h: Hist, n: NodeId, t: nat)
    requires HistOk(cfg, h) && n in h.p.term && h.p.term[n] <= t
    ensures forall r: nat :: (t, r) in h.barriers ==> n !in h.barriers[(t, r)].ahead
  {
    hide Safe;
    forall r: nat | (t, r) in h.barriers
      ensures n !in h.barriers[(t, r)].ahead
    {
      assert BarrierOk(cfg, h.p, t, h.barriers[(t, r)]);
    }
  }

  lemma ReplyOk(cfg: Config, h: Hist, v: Voter, to: NodeId, success: bool, m: nat, round: nat)
    requires HistOk(cfg, h) && VoterOk(cfg, h, v)
    requires success ==> m <= AckedUpTo(h.p, v.term, v.me)
    requires success && round > 0 ==> (v.term, round) in h.barriers
    ensures VoterOk(cfg, h, Send(v, to, AppendEntriesReply(v.term, success, m, round, v.applied)))
  {
    hide HistOk, BarriersOk, OutboxOk, View;
    MemberOf(cfg, h, v);
    NotAhead(cfg, h, v.me, v.term);
    SendOk(cfg, h, v, to, AppendEntriesReply(v.term, success, m, round, v.applied));
  }

  lemma AppendOk(cfg: Config, h: Hist, v: Voter, e: Envelope) returns (h': Hist)
    requires HistOk(cfg, h) && VoterOk(cfg, h, v)
    requires e.msg.AppendEntries? && MessageOk(cfg, h, e)
    ensures Explained(cfg, h, h', v, OnAppend(v, e.from, e.msg).voter)
    ensures OnAppend(v, e.from, e.msg).error == None
  {
    hide HistOk, HistGrows, OwnedBy, VoterOk, Mismatch, ScanFrom, SpliceIn, Acknowledges, Hint;
    var m := e.msg;
    ExplainedReflexive(cfg, h, v);
    if m.term < v.term {
      h' := h;
      ReplyOk(cfg, h, v, e.from, false, LastIndex(v), m.readRound);
    } else {
      var w := Acknowledges(v, e.from, m.term);
      h' := HeedOk(cfg, h, v, e.from, m.term);
      MessageKept(cfg, h, h', e);
      if Mismatch(w, m.prevLogIndex, m.prevLogTerm) {
        ReplyOk(cfg, h', w, e.from, false, Hint(w, m.prevLogIndex), m.readRound);
      } else {
        var g := AcceptOk(cfg, h', w, e);
        ExplainedTransitive(cfg, h, h', g, v, w, OnAppend(v, e.from, m).voter);
        h' := g;
      }
    }
  }

  /** The accepting path, from the follower already in the leader's term. */
  lemma AcceptOk(cfg: Config, h: Hist, w: Voter, e: Envelope) returns (h': Hist)
    requires HistOk(cfg, h) && VoterOk(cfg, h, w) && w.role == Follower
    requires e.msg.AppendEntries? && MessageOk(cfg, h, e) && w.term == e.msg.term
    requires !Mismatch(w, e.msg.prevLogIndex, e.msg.prevLogTerm)
    ensures var m := e.msg;
            var s := ScanFrom(w, m.entries, 0);
            var lastNew := LastNew(m.prevLogIndex, m.entries);
            && !s.Refused?
            && var x := FollowCommit(SpliceIn(w, m.entries, s), m.leaderCommit, lastNew);
            Explained(cfg, h, h', w, Send(x, e.from, AppendEntriesReply(x.term, true, lastNew, m.readRound, x.applied)))
  {
    hide HistOk, HistGrows, OwnedBy, VoterOk, Mismatch, ScanFrom, Matching, Agree, FollowCommit, SpliceIn;
    var m := e.msg;
    MatchingHolds(cfg, h, w, e);
    ScanMatching(h, w, m);
    var lastNew := LastNew(m.prevLogIndex, m.entries);
    var h1 := SpliceOk(cfg, h, w, m);
    var x := SpliceIn(w, m.entries, ScanFrom(w, m.entries, 0));
    SpliceSteady(w, m.entries, ScanFrom(w, m.entries, 0));
    MessageKept(cfg, h, h1, e);
    h' := AcceptTail(cfg, h1, x, e, lastNew);
    ExplainedTransitive(cfg, h, h1, h', w, x, Accepted(x, e, lastNew));
  }

  lemma SpliceSteady(v: Voter, entries: seq<Entry>, s: Scan)
    requires s.Splice? ==> s.at < |entries|
    ensures SpliceIn(v, entries, s).role == v.role && SpliceIn(v, entries, s).term == v.term
    ensures SpliceIn(v, entries, s).me == v.me
  {
  }

  ghost function Accepted(x: Voter, e: Envelope, lastNew: nat): Voter
    requires e.msg.AppendEntries?
  {
    var y := FollowCommit(x, e.msg.leaderCommit, lastNew);
    Send(y, e.from, AppendEntriesReply(y.term, true, lastNew, e.msg.readRound, y.applied))
  }

  /** Acknowledging what was spliced in and following the leader's commit index. */
  lemma AcceptTail(cfg: Config, h: Hist, x: Voter, e: Envelope, lastNew: nat) returns (h': Hist)
    requires HistOk(cfg, h) && VoterOk(cfg, h, x) && x.role == Follower
    requires e.msg.AppendEntries? && MessageOk(cfg, h, e) && x.term == e.msg.term
    requires x.me in h.p.log && Agree(h.p.log[x.me], h.p.reign[x.term].log, lastNew)
    ensures Explained(cfg, h, h', x, Accepted(x, e, lastNew))
  {
    hide HistOk, HistGrows, OwnedBy, VoterOk, Agree, AckedUpTo, LeaderCommitOk, Slice;
    h' := AckOk(cfg, h, x, lastNew);
    MessageKept(cfg, h, h', e);
    CommitOk(cfg, h', x, e.msg.leaderCommit, lastNew);
    ReplyOk(cfg, h', FollowCommit(x, e.msg.leaderCommit, lastNew), e.from, true, lastNew, e.msg.readRound);
  }

  // ---------------------------------------------------------------------------
  // Crashes inside an operation
  // ---------------------------------------------------------------------------

  /** What a crash in the middle of an operation leaves on disk is explained by the history too. */
  ghost predicate DiskExplained(cfg: Config, h: Hist, h': Hist, n: NodeId, d: Persistent) {
    && HistOk(cfg, h')
    && HistGrows(h, h')
    && OwnedBy(h, h', n)
    && h'.seenApplied == h.seenApplied
    && StoreOk(cfg, h', n, d)
  }

  lemma MidStepOk(cfg: Config, h: Hist, v: Voter, input: Input, d: Persistent) returns (h': Hist)
    requires HistOk(cfg, h) && VoterOk(cfg, h, v)
    requires input.Receive? ==> MessageOk(cfg, h, input.env)
    requires MidStep(cfg, v, input, d)
    ensures DiskExplained(cfg, h, h', v.me, d)
  {
    hide HistOk, HistGrows, OwnedBy, EnterTerm, BecomeFollower, ScanFrom, Acknowledges, Mismatch, StandForElection,
         VoterOk, StoreOk;
    match input
    case Timer(_) =>
      h' := StandOk(cfg, h, v);
      VoterStore(cfg, h', Candidacy(v));
    case Receive(env) =>
      if env.msg.RequestVote? {
        h' := FollowOk(cfg, h, v, env.msg.term, None);
        VoterStore(cfg, h', BecomeFollower(v, env.msg.term, None));
      } else {
        var w := Acknowledges(v, env.from, env.msg.term);
        h' := HeedOk(cfg, h, v, env.from, env.msg.term);
        if d == w.disk {
          VoterStore(cfg, h', w);
        } else {
          MessageKept(cfg, h, h', env);
          var g := MidSplice(cfg, h', w, env, d);
          HistGrowsTransitive(h, h', g);
          OwnedByTransitive(h, h', g, v.me);
          h' := g;
        }
      }
  }

  lemma VoterStore(cfg: Config, h: Hist, v: Voter)
    requires VoterOk(cfg, h, v)
    ensures StoreOk(cfg, h, v.me, v.disk)
  {
  }

  lemma MidSplice(cfg: Config, h: Hist, w: Voter, e: Envelope, d: Persistent) returns (h': Hist)
    requires HistOk(cfg, h) && VoterOk(cfg, h, w) && w.role == Follower
    requires e.msg.AppendEntries? && MessageOk(cfg, h, e) && w.term == e.msg.term
    requires !Mismatch(w, e.msg.prevLogIndex, e.msg.prevLogTerm)
    requires var s := ScanFrom(w, e.msg.entries, 0);
             s.Splice? && exists k :: s.at <= k <= |e.msg.entries| && d == SplicePart(w, e.msg.entries, s, k).disk
    ensures DiskExplained(cfg, h, h', w.me, d)
  {
    hide HistOk, HistGrows, OwnedBy, Mismatch, ScanFrom, StoreOk, Committed, BarriersOk, OutboxOk, View, Shape,
         SplicePart,
         Slice, LeaderOk, CandidateOk, AppliedOk;
    var m := e.msg;
    var s := ScanFrom(w, m.entries, 0);
    var k :| s.at <= k <= |m.entries| && d == SplicePart(w, m.entries, s, k).disk;
    MatchingHolds(cfg, h, w, e);
    ScanMatching(h, w, m);
    SpliceResult(h, w, m, k);
    h' := AdoptOk(cfg, h, w, m.prevLogIndex + s.at, m.prevLogIndex + k);
  }
}
