/**
  What every run of the cluster guarantees, stated on the states of the voters alone: no theorem
  here mentions the protocol history used to prove it.
 */
module RaftSafety {
  import opened Basics
  import opened RaftTypes
  import opened RaftProtocol
  import opened RaftActions
  import opened RaftVoter
  import opened RaftInvariant
  import opened RaftElection
  import opened RaftReplication
  import opened RaftProgress
  import opened RaftCluster

  /** The voter as it runs, or as it would restart. */
  ghost function Replica(c: Cluster, n: NodeId): Voter
    requires n in c.nodes
  {
    match c.nodes[n]
    case Up(v) => v
    case Down(d) => Boot(n, d)
  }

  ghost predicate Leads(c: Cluster, n: NodeId) {
    IsUp(c, n) && c.nodes[n].voter.role == Leader
  }

  /** Entry `e` is within the prefix that running voter `n` knows to be committed. */
  ghost predicate HoldsCommitted(c: Cluster, n: NodeId, e: Entry) {
    && IsUp(c, n)
    && e.index <= c.nodes[n].voter.commitIndex
    && EntryAt(c.nodes[n].voter, e.index) == Some(e)
  }

  // ---------------------------------------------------------------------------
  // What the invariant says about one state
  // ---------------------------------------------------------------------------

  lemma UpVoter(cfg: Config, h: Hist, c: Cluster, n: NodeId)
    requires ClusterOk(cfg, h, c) && IsUp(c, n)
    ensures n in cfg.members && c.nodes[n].voter.me == n && VoterOk(cfg, h, c.nodes[n].voter) && HistOk(cfg, h)
  {
    hide VoterOk, HistOk, NetOk;
    assert NodeOk(cfg, h, n, c.nodes[n]);
  }

  lemma ReplicaLog(cfg: Config, h: Hist, c: Cluster, n: NodeId)
    requires ClusterOk(cfg, h, c) && n in c.nodes
    ensures n in h.p.log && n in h.p.term && View(Replica(c, n), h.p.log[n]) && Shape(h.p, h.p.log[n])
    ensures Safe(cfg, h.p)
    ensures forall m :: m in cfg.members ==> m in h.seenApplied && Replica(c, n).snapshotIndex <= h.seenApplied[m]
  {
    hide View, LeaderOk, CandidateOk, BarriersOk, OutboxOk, Committed, NetOk, Safe;
    assert NodeOk(cfg, h, n, c.nodes[n]);
    match c.nodes[n]
    case Up(v) =>
      VoterView(cfg, h, v);
      VoterShape(cfg, h.p, n);
    case Down(d) =>
      VoterShape(cfg, h.p, n);
  }

  /** A log whose first `c` entries some leader committed. */
  ghost predicate CommittedLog(p: Proto, g: seq<Entry>, c: nat, hi: nat) {
    c == 0 || exists t :: CommittedIn(p, g, c, hi, t)
  }

  ghost predicate CommittedIn(p: Proto, g: seq<Entry>, c: nat, hi: nat, t: nat) {
    t in p.commits && t <= hi && c <= p.commits[t] && t in p.reign && Agree(g, p.reign[t].log, c)
  }

  lemma CommittedLogGrows(p: Proto, p': Proto, g: seq<Entry>, c: nat, hi: nat)
    requires Grows(p, p') && CommittedLog(p, g, c, hi)
    ensures CommittedLog(p', g, c, hi)
  {
    if c > 0 {
      var t :| CommittedIn(p, g, c, hi, t);
      assert ReignMono(p, p', t);
      assert CommittedIn(p', g, c, hi, t);
    }
  }

  lemma VoterCommitted(cfg: Config, h: Hist, c: Cluster, n: NodeId)
    requires ClusterOk(cfg, h, c) && IsUp(c, n)
    ensures n in h.p.log && CommittedLog(h.p, h.p.log[n], c.nodes[n].voter.commitIndex, c.nodes[n].voter.term)
  {
    hide NetOk, HistOk, LeaderOk, CandidateOk, BarriersOk, OutboxOk;
    UpVoter(cfg, h, c, n);
    var v := c.nodes[n].voter;
    if v.commitIndex > 0 {
      var t :| CommittedBy(h.p, n, v.commitIndex, t);
      assert CommittedIn(h.p, h.p.log[n], v.commitIndex, v.term, t);
    }
  }

  /** A voter's committed entry, in terms of the history of any later state. */
  lemma CommittedEntry(cfg: Config, h: Hist, h': Hist, c: Cluster, n: NodeId, e: Entry)
    requires ClusterOk(cfg, h, c) && HoldsCommitted(c, n, e) && HistGrows(h, h')
    ensures exists g :: |g| >= e.index > 0 && g[e.index - 1] == e
                        && CommittedLog(h'.p, g, e.index, c.nodes[n].voter.term)
  {
    hide ClusterOk, View, Shape, Safe;
    VoterCommitted(cfg, h, c, n);
    ReplicaLog(cfg, h, c, n);
    var v, g := c.nodes[n].voter, h.p.log[n];
    ViewAt(v, g, e.index);
    CommittedLogGrows(h.p, h'.p, g, v.commitIndex, v.term);
    if v.commitIndex > 0 {
      var t :| CommittedIn(h'.p, g, v.commitIndex, v.term, t);
      assert CommittedIn(h'.p, g, e.index, v.term, t);
    }
  }

  /** Two committed prefixes agree wherever both reach. */
  lemma CommittedLogsAgree(cfg: Config, p: Proto, a: seq<Entry>, x: nat, s: nat, b: seq<Entry>, y: nat, t: nat)
    requires Safe(cfg, p) && CommittedLog(p, a, x, s) && CommittedLog(p, b, y, t)
    ensures Agree(a, b, Min(x, y))
  {
    hide Votes, Cands, Logs, Acks;
    if x > 0 && y > 0 {
      var i :| CommittedIn(p, a, x, s, i);
      var j :| CommittedIn(p, b, y, t, j);
      if i <= j {
        CommitsAgree(cfg, p, i, j);
      } else {
        CommitsAgree(cfg, p, j, i);
      }
    }
  }

  // ---------------------------------------------------------------------------
  // Elections and logs
  // ---------------------------------------------------------------------------

  lemma LeaderReign(cfg: Config, h: Hist, c: Cluster, n: NodeId)
    requires ClusterOk(cfg, h, c) && Leads(c, n)
    ensures var v := c.nodes[n].voter;
            && v.term in h.p.reign && h.p.reign[v.term].leader == n
            && n in h.p.log && h.p.log[n] == h.p.reign[v.term].log
  {
    hide StoreOk, NetOk, HistOk, CandidateOk, BarriersOk, OutboxOk;
    UpVoter(cfg, h, c, n);
  }

  /** At most one voter ever leads a term, at whatever points of a run it is seen leading. */
  lemma ElectionSafety(cfg: Config, evs: seq<Event>, i: nat, j: nat, a: NodeId, b: NodeId)
    requires cfg.Valid() && cfg.members != [] && i <= |evs| && j <= |evs|
    requires Leads(Run(cfg, evs[..i]), a) && Leads(Run(cfg, evs[..j]), b)
    requires Run(cfg, evs[..i]).nodes[a].voter.term == Run(cfg, evs[..j]).nodes[b].voter.term
    ensures a == b
  {
    hide ClusterOk, Run;
    var hs := Histories(cfg, evs);
    LeaderReign(cfg, hs[i], Run(cfg, evs[..i]), a);
    LeaderReign(cfg, hs[j], Run(cfg, evs[..j]), b);
    var t := Run(cfg, evs[..i]).nodes[a].voter.term;
    assert HistGrows(hs[i], hs[|evs|]) && HistGrows(hs[j], hs[|evs|]);
    assert ReignMono(hs[i].p, hs[|evs|].p, t) && ReignMono(hs[j].p, hs[|evs|].p, t);
  }

  lemma ViewsMatch(p: Proto, v: Voter, f: seq<Entry>, w: Voter, g: seq<Entry>, q: nat, k: nat)
    requires View(v, f) && View(w, g) && Shape(p, f) && Shape(p, g)
    requires TermAt(v, q) == TermAt(w, q) != 0 && k <= q
    ensures EntryAt(v, k).Some? && EntryAt(w, k).Some? ==> EntryAt(v, k) == EntryAt(w, k)
  {
    hide View, Shape;
    ViewAt(v, f, q);
    ViewAt(w, g, q);
    LogMatching(p, f, g, f[q - 1].term, q);
    ViewAt(v, f, k);
    ViewAt(w, g, k);
  }

  /**
    Two voters, running or crashed, at any two points of a run: if they agree on the term at an
    index, they agree on every entry at or below it that both still store.
   */
  lemma LogsMatch(cfg: Config, evs: seq<Event>, i: nat, j: nat, a: NodeId, b: NodeId, q: nat, k: nat)
    requires cfg.Valid() && cfg.members != [] && i <= |evs| && j <= |evs|
    requires a in Run(cfg, evs[..i]).nodes && b in Run(cfg, evs[..j]).nodes && k <= q
    requires var v, w := Replica(Run(cfg, evs[..i]), a), Replica(Run(cfg, evs[..j]), b);
             TermAt(v, q) == TermAt(w, q) != 0
    ensures var v, w := Replica(Run(cfg, evs[..i]), a), Replica(Run(cfg, evs[..j]), b);
            EntryAt(v, k).Some? && EntryAt(w, k).Some? ==> EntryAt(v, k) == EntryAt(w, k)
  {
    hide ClusterOk, Run, View, Shape, Safe, Replica;
    var hs := Histories(cfg, evs);
    var c, d, h := Run(cfg, evs[..i]), Run(cfg, evs[..j]), hs[|evs|];
    ReplicaLog(cfg, hs[i], c, a);
    ReplicaLog(cfg, hs[j], d, b);
    assert HistGrows(hs[i], h) && HistGrows(hs[j], h);
    ShapeGrows(hs[i].p, h.p, hs[i].p.log[a]);
    ShapeGrows(hs[j].p, h.p, hs[j].p.log[b]);
    ViewsMatch(h.p, Replica(c, a), hs[i].p.log[a], Replica(d, b), hs[j].p.log[b], q, k);
  }

  // ---------------------------------------------------------------------------
  // Committed entries
  // ---------------------------------------------------------------------------

  /** No two voters, at any two points of a run, know different entries to be committed at one index. */
  lemma StateMachineSafety(cfg: Config, evs: seq<Event>, i: nat, j: nat, a: NodeId, b: NodeId, d: Entry, e: Entry)
    requires cfg.Valid() && cfg.members != [] && i <= |evs| && j <= |evs|
    requires HoldsCommitted(Run(cfg, evs[..i]), a, d) && HoldsCommitted(Run(cfg, evs[..j]), b, e)
    requires d.index == e.index
    ensures d == e
  {
    hide ClusterOk, Run, CommittedLog, Safe, HistGrows;
    var hs := Histories(cfg, evs);
    var x, y, h := Run(cfg, evs[..i]), Run(cfg, evs[..j]), hs[|evs|];
    assert HistGrows(hs[i], h) && HistGrows(hs[j], h);
    CommittedEntry(cfg, hs[i], h, x, a, d);
    CommittedEntry(cfg, hs[j], h, y, b, e);
    var f :| |f| >= d.index > 0 && f[d.index - 1] == d && CommittedLog(h.p, f, d.index, x.nodes[a].voter.term);
    var g :| |g| >= e.index > 0 && g[e.index - 1] == e && CommittedLog(h.p, g, e.index, y.nodes[b].voter.term);
    ClusterSafe(cfg, h, Run(cfg, evs[..|evs|]));
    CommittedLogsAgree(cfg, h.p, f, d.index, x.nodes[a].voter.term, g, e.index, y.nodes[b].voter.term);
  }

  lemma ClusterSafe(cfg: Config, h: Hist, c: Cluster)
    requires ClusterOk(cfg, h, c)
    ensures Safe(cfg, h.p) && HistOk(cfg, h)
  {
  }

  /** What a leader's log starts with is committed in every later history. */
  lemma CommitReaches(cfg: Config, p: Proto, g: seq<Entry>, q: nat, hi: nat, u: nat)
    requires Safe(cfg, p) && CommittedLog(p, g, q, hi) && q > 0 && u in p.reign && hi <= u
    ensures Agree(g, p.reign[u].log, q)
    ensures hi < u ==> q <= p.reign[u].start
  {
    hide Votes, Cands, Logs, Acks;
    var t :| CommittedIn(p, g, q, hi, t);
    CommitsAgree(cfg, p, t, u);
    assert ReignOk(cfg, p, u) && ReignOk(cfg, p, t);
    assert Agree(g, p.reign[u].log, q);
    assert p.reign[u].log[q - 1] == p.reign[t].log[q - 1];
  }

  /**
    A leader holds every entry committed at a lower term, whenever that happens, and every entry
    committed before in its own term: it stores the entry, or the entry is under its base.
   */
  lemma LeadersAreComplete(cfg: Config, evs: seq<Event>, i: nat, j: nat, a: NodeId, b: NodeId, e: Entry)
    requires cfg.Valid() && cfg.members != [] && i <= |evs| && j <= |evs|
    requires HoldsCommitted(Run(cfg, evs[..i]), a, e) && Leads(Run(cfg, evs[..j]), b)
    requires var s, t := Run(cfg, evs[..i]).nodes[a].voter.term, Run(cfg, evs[..j]).nodes[b].voter.term;
             s < t || (s == t && i <= j)
    ensures var w := Run(cfg, evs[..j]).nodes[b].voter;
            e.index <= w.snapshotIndex || EntryAt(w, e.index) == Some(e)
  {
    hide ClusterOk, Run, CommittedLog, Safe, View, Shape, Grows, Traced;
    var hs := Histories(cfg, evs);
    var x, y := Run(cfg, evs[..i]), Run(cfg, evs[..j]);
    var s, w := x.nodes[a].voter.term, y.nodes[b].voter;
    var k := if i <= j then j else i;
    var h := hs[k];
    assert HistGrows(hs[i], h) && HistGrows(hs[j], h);
    CommittedEntry(cfg, hs[i], h, x, a, e);
    var g :| |g| >= e.index > 0 && g[e.index - 1] == e && CommittedLog(h.p, g, e.index, s);
    LeaderReign(cfg, hs[j], y, b);
    ClusterSafe(cfg, h, Run(cfg, evs[..k]));
    ClusterSafe(cfg, hs[j], y);
    ReignReaches(cfg, hs[j].p, h.p, g, e.index, s, w.term);
    ReplicaLog(cfg, hs[j], y, b);
    ViewAt(w, hs[j].p.log[b], e.index);
  }

  /** The same against the leader's log as it was at an earlier point of its reign. */
  lemma ReignReaches(cfg: Config, p: Proto, p': Proto, g: seq<Entry>, q: nat, hi: nat, u: nat)
    requires Safe(cfg, p) && Safe(cfg, p') && Grows(p, p')
    requires CommittedLog(p', g, q, hi) && q > 0 && u in p.reign && (hi < u || (hi == u && p == p'))
    ensures Agree(g, p.reign[u].log, q)
  {
    hide Safe, CommittedLog;
    assert ReignMono(p, p', u);
    CommitReaches(cfg, p', g, q, hi, u);
    ReignStart(cfg, p, u);
  }

  lemma ReignStart(cfg: Config, p: Proto, t: nat)
    requires Safe(cfg, p) && t in p.reign
    ensures p.reign[t].start < |p.reign[t].log|
  {
    assert ReignOk(cfg, p, t);
  }

  /** The same log, later: it still starts with what was committed in it. */
  lemma CommitRetained(cfg: Config, h: Hist, h': Hist, c: Cluster, n: NodeId, q: nat)
    requires ClusterOk(cfg, h, c) && IsUp(c, n) && HistGrows(h, h') && 0 < q <= c.nodes[n].voter.commitIndex
    ensures n in h.p.log && n in h'.p.log && Agree(h.p.log[n], h'.p.log[n], q)
  {
    hide NetOk, HistOk, LeaderOk, CandidateOk, BarriersOk, OutboxOk, Grows;
    UpVoter(cfg, h, c, n);
    var t :| CommittedBy(h.p, n, c.nodes[n].voter.commitIndex, t);
    CommittedByGrows(h.p, h'.p, n, c.nodes[n].voter.commitIndex, t);
  }

  /**
    A voter never loses an entry it knew to be committed, whatever happens to it later: running or
    crashed at any point, it stores the entry, or the entry is under its base.
   */
  lemma CommitsAreDurable(cfg: Config, evs: seq<Event>, i: nat, j: nat, n: NodeId, e: Entry)
    requires cfg.Valid() && cfg.members != [] && i <= j <= |evs|
    requires HoldsCommitted(Run(cfg, evs[..i]), n, e)
    ensures n in Run(cfg, evs[..j]).nodes
    ensures var w := Replica(Run(cfg, evs[..j]), n);
            e.index <= w.snapshotIndex || EntryAt(w, e.index) == Some(e)
  {
    hide ClusterOk, Run, View, Shape, Safe, HistGrows, Traced;
    var hs := Histories(cfg, evs);
    var c, d := Run(cfg, evs[..i]), Run(cfg, evs[..j]);
    assert HistGrows(hs[i], hs[j]);
    UpVoter(cfg, hs[i], c, n);
    MemberNode(cfg, hs[j], d, n);
    CommitRetained(cfg, hs[i], hs[j], c, n, e.index);
    ReplicaLog(cfg, hs[i], c, n);
    ReplicaLog(cfg, hs[j], d, n);
    ViewAt(c.nodes[n].voter, hs[i].p.log[n], e.index);
    ViewAt(Replica(d, n), hs[j].p.log[n], e.index);
  }

  lemma MemberNode(cfg: Config, h: Hist, c: Cluster, n: NodeId)
    requires ClusterOk(cfg, h, c) && n in cfg.members
    ensures n in c.nodes
  {
    hide HistOk, NetOk, NodeOk;
  }

  /** Delivering any message that was ever sent never contradicts a committed entry. */
  lemma NoCorruption(cfg: Config, evs: seq<Event>, n: NodeId, env: Envelope)
    requires cfg.Valid() && cfg.members != []
    requires IsUp(Run(cfg, evs), n) && env in Run(cfg, evs).net
    ensures Step(cfg, Run(cfg, evs).nodes[n].voter, env).error == None
  {
    hide ClusterOk, Run, VoterOk, HistOk, MessageOk, Step, HistGrows, OwnedBy, Traced;
    var hs := Histories(cfg, evs);
    assert evs[..|evs|] == evs;
    var c, h := Run(cfg, evs), hs[|evs|];
    assert ClusterOk(cfg, h, c);
    UpVoter(cfg, h, c, n);
    Sent(cfg, h, c, env);
    var h' := StepOk(cfg, h, c.nodes[n].voter, env);
  }

  lemma Sent(cfg: Config, h: Hist, c: Cluster, env: Envelope)
    requires ClusterOk(cfg, h, c) && env in c.net
    ensures MessageOk(cfg, h, env)
  {
    hide MessageOk;
  }

  // ---------------------------------------------------------------------------
  // Read barriers
  // ---------------------------------------------------------------------------

  /** Voter `n` did not crash from position `i` to position `j` of the run. */
  ghost predicate StaysUp(cfg: Config, evs: seq<Event>, n: NodeId, i: nat, j: nat)
    requires cfg.members != [] && j <= |evs|
  {
    forall k :: i <= k <= j ==> IsUp(Run(cfg, evs[..k]), n)
  }

  /** Event `k` of the run is the successful barrier call of `n` that was given `round`. */
  ghost predicate IssuedAt(cfg: Config, evs: seq<Event>, n: NodeId, round: nat, k: nat)
    requires cfg.members != [] && k < |evs|
  {
    Issues(cfg, Run(cfg, evs[..k]), evs[k], n, round)
  }

  /** No voter had committed above `index` at any point up to position `k`. */
  ghost predicate CoversCommits(cfg: Config, evs: seq<Event>, k: nat, index: nat)
    requires cfg.members != [] && k <= |evs|
  {
    forall i, m :: 0 <= i <= k && IsUp(Run(cfg, evs[..i]), m) ==> Run(cfg, evs[..i]).nodes[m].voter.commitIndex <= index
  }

  lemma PeakCovers(cfg: Config, evs: seq<Event>, hs: seq<Hist>, k: nat, index: nat)
    requires cfg.members != [] && HistoryOf(cfg, evs, hs) && k <= |evs| && hs[k].peak <= index
    ensures CoversCommits(cfg, evs, k, index)
  {
    hide ClusterOk, Run, Traced;
    forall i, m | 0 <= i <= k && IsUp(Run(cfg, evs[..i]), m)
      ensures Run(cfg, evs[..i]).nodes[m].voter.commitIndex <= index
    {
      UpVoter(cfg, hs[i], Run(cfg, evs[..i]), m);
      assert HistGrows(hs[i], hs[k]);
    }
  }

  lemma IssuedUp(cfg: Config, h: Hist, c: Cluster, n: NodeId, round: nat)
    requires ClusterOk(cfg, h, c) && (n, round) in h.issued && n in cfg.members
    ensures IsUp(c, n)
  {
    hide HistOk, NetOk, VoterOk, StoreOk;
    assert NodeOk(cfg, h, n, c.nodes[n]);
  }

  /** Every barrier the history knows of was issued by an event, and its process is still alive. */
  lemma {:induction false} IssuingEvent(cfg: Config, evs: seq<Event>, hs: seq<Hist>, j: nat, n: NodeId, round: nat)
    returns (k: nat)
    requires cfg.members != [] && HistoryOf(cfg, evs, hs) && j <= |evs|
    requires (n, round) in hs[j].issued && n in cfg.members
    ensures k < j && IssuedAt(cfg, evs, n, round, k) && StaysUp(cfg, evs, n, k, j)
    ensures hs[k].peak == hs[j].issued[(n, round)]
    decreases j
  {
    hide ClusterOk, Run, HistGrows, Issues;
    assert hs[0].issued == map[];
    IssuedUp(cfg, hs[j], Run(cfg, evs[..j]), n, round);
    assert Traced(cfg, hs[j - 1], hs[j], Run(cfg, evs[..j - 1]), evs[j - 1]);
    if Issues(cfg, Run(cfg, evs[..j - 1]), evs[j - 1], n, round) {
      k := j - 1;
      IssuerUp(cfg, Run(cfg, evs[..k]), evs[k], n, round);
    } else {
      k := IssuingEvent(cfg, evs, hs, j - 1, n, round);
    }
  }

  lemma IssuerUp(cfg: Config, c: Cluster, ev: Event, n: NodeId, round: nat)
    requires Issues(cfg, c, ev, n, round)
    ensures IsUp(c, n)
  {
  }

  /**
    Every finished barrier of a voter was issued by one of its own calls in the same process, and
    its index covers every commit index any voter had reached by then.
   */
  lemma LinearizableReads(cfg: Config, evs: seq<Event>, n: NodeId, r: ReadIndex) returns (k: nat)
    requires cfg.Valid() && cfg.members != []
    requires IsUp(Run(cfg, evs), n) && r in Run(cfg, evs).nodes[n].voter.readyReads
    ensures k < |evs| && IssuedAt(cfg, evs, n, r.round, k) && StaysUp(cfg, evs, n, k, |evs|)
    ensures CoversCommits(cfg, evs, k, r.index)
  {
    hide ClusterOk, Run, HistGrows, Traced, IssuedAt, StaysUp, CoversCommits;
    var hs := Histories(cfg, evs);
    assert evs[..|evs|] == evs;
    var h := hs[|evs|];
    assert ClusterOk(cfg, h, Run(cfg, evs));
    ReadyIssued(cfg, h, Run(cfg, evs), n, r);
    k := IssuingEvent(cfg, evs, hs, |evs|, n, r.round);
    PeakCovers(cfg, evs, hs, k, r.index);
  }

  lemma ReadyIssued(cfg: Config, h: Hist, c: Cluster, n: NodeId, r: ReadIndex)
    requires ClusterOk(cfg, h, c) && IsUp(c, n) && r in c.nodes[n].voter.readyReads
    ensures n in cfg.members && (n, r.round) in h.issued && h.issued[(n, r.round)] <= r.index
  {
    hide HistOk, NetOk, StoreOk, LeaderOk, CandidateOk, OutboxOk, Committed;
    UpVoter(cfg, h, c, n);
    assert ReadyOk(h, n, r);
  }

  // ---------------------------------------------------------------------------
  // Compaction
  // ---------------------------------------------------------------------------

  /** The highest frontier the application of `m` reported to its running voter. */
  ghost function Reported(cfg: Config, evs: seq<Event>, m: NodeId): nat
    requires cfg.members != []
  {
    if evs == [] then 0
    else
      var rest := evs[..|evs| - 1];
      Max(Reported(cfg, rest, m), Report(Run(cfg, rest), evs[|evs| - 1], m))
  }

  lemma {:induction false} SeenReported(cfg: Config, evs: seq<Event>, hs: seq<Hist>, j: nat, m: NodeId)
    requires cfg.members != [] && HistoryOf(cfg, evs, hs) && j <= |evs| && m in cfg.members
    ensures m in hs[j].seenApplied && hs[j].seenApplied[m] <= Reported(cfg, evs[..j], m)
    decreases j
  {
    hide ClusterOk, Run, HistGrows, Report;
    InitValues(cfg, m);
    if j > 0 {
      SeenReported(cfg, evs, hs, j - 1, m);
      assert Traced(cfg, hs[j - 1], hs[j], Run(cfg, evs[..j - 1]), evs[j - 1]);
      assert evs[..j][..j - 1] == evs[..j - 1];
    }
  }

  /** No voter, running or crashed, ever has a base above what any application has reported applied. */
  lemma CompactionSafety(cfg: Config, evs: seq<Event>, n: NodeId, m: NodeId)
    requires cfg.Valid() && cfg.members != []
    requires n in Run(cfg, evs).nodes && m in cfg.members
    ensures Replica(Run(cfg, evs), n).snapshotIndex <= Reported(cfg, evs, m)
  {
    hide ClusterOk, Run, HistGrows, Traced, View, Shape, Safe, Reported;
    var hs := Histories(cfg, evs);
    assert evs[..|evs|] == evs;
    assert ClusterOk(cfg, hs[|evs|], Run(cfg, evs));
    ReplicaLog(cfg, hs[|evs|], Run(cfg, evs), n);
    SeenReported(cfg, evs, hs, |evs|, m);
  }

  /** Everything a voter can observe of its log above the base. */
  ghost predicate SameAbove(v: Voter, w: Voter) {
    && LastIndex(w) == LastIndex(v) && LastTerm(w) == LastTerm(v)
    && (forall k: nat :: k >= w.snapshotIndex ==> TermAt(w, k) == TermAt(v, k))
    && (forall k: nat :: k > w.snapshotIndex ==> EntryAt(w, k) == EntryAt(v, k))
  }

  lemma ViewsSameAbove(v: Voter, w: Voter, full: seq<Entry>)
    requires View(v, full) && View(w, full) && v.snapshotIndex <= w.snapshotIndex
    ensures SameAbove(v, w)
  {
    hide View, EntryAt, TermAt;
    ViewEnds(v, full);
    ViewEnds(w, full);
    forall k: nat
      ensures k >= w.snapshotIndex ==> TermAt(w, k) == TermAt(v, k)
      ensures k > w.snapshotIndex ==> EntryAt(w, k) == EntryAt(v, k)
    {
      ViewAt(v, full, k);
      ViewAt(w, full, k);
    }
  }

  /** Compaction in a reachable state changes the base and the entries under it, and nothing else. */
  lemma CompactionInvisible(cfg: Config, evs: seq<Event>, n: NodeId, upTo: nat)
    requires cfg.Valid() && cfg.members != [] && IsUp(Run(cfg, evs), n)
    ensures var v := Run(cfg, evs).nodes[n].voter;
            var w := Compact(cfg, v, upTo);
            && SameAbove(v, w)
            && v.snapshotIndex <= w.snapshotIndex <= Max(v.snapshotIndex, Min(upTo, v.commitIndex))
            && w == v.(log := w.log, snapshotIndex := w.snapshotIndex, snapshotTerm := w.snapshotTerm, disk := w.disk)
            && Deliveries(w) == Deliveries(v)
  {
    hide ClusterOk, Run, HistGrows, Traced;
    var hs := Histories(cfg, evs);
    assert evs[..|evs|] == evs;
    var h, v := hs[|evs|], Run(cfg, evs).nodes[n].voter;
    assert ClusterOk(cfg, h, Run(cfg, evs));
    UpVoter(cfg, h, Run(cfg, evs), n);
    CompactOk(cfg, h, v, upTo);
    CompactVoter(cfg, h, v, upTo);
  }

  lemma CompactVoter(cfg: Config, h: Hist, v: Voter, upTo: nat)
    requires HistOk(cfg, h) && VoterOk(cfg, h, v) && VoterOk(cfg, h, Compact(cfg, v, upTo))
    ensures var w := Compact(cfg, v, upTo);
            && SameAbove(v, w)
            && v.snapshotIndex <= w.snapshotIndex <= Max(v.snapshotIndex, Min(upTo, v.commitIndex))
            && w == v.(log := w.log, snapshotIndex := w.snapshotIndex, snapshotTerm := w.snapshotTerm, disk := w.disk)
            && Deliveries(w) == Deliveries(v)
  {
    hide HistOk, VoterOk, View, SameAbove, Compact, Deliveries;
    var w := Compact(cfg, v, upTo);
    CompactShape(cfg, h, v, upTo);
    VoterView(cfg, h, v);
    VoterView(cfg, h, w);
    ViewsSameAbove(v, w, h.p.log[v.me]);
    DeliveriesSame(v, w);
  }

  lemma CompactShape(cfg: Config, h: Hist, v: Voter, upTo: nat)
    requires HistOk(cfg, h) && VoterOk(cfg, h, v)
    ensures var w := Compact(cfg, v, upTo);
            && v.snapshotIndex <= w.snapshotIndex <= Max(v.snapshotIndex, Min(upTo, v.commitIndex))
            && w == v.(log := w.log, snapshotIndex := w.snapshotIndex, snapshotTerm := w.snapshotTerm, disk := w.disk)
            && w.snapshotIndex <= w.lastDelivered
  {
    hide HistOk, StoreOk, LeaderOk, CandidateOk, BarriersOk, OutboxOk, Committed, CompactionHorizon, TermAt, LastIndex;
    HorizonWithin(cfg, h, v);
  }

  lemma HorizonWithin(cfg: Config, h: Hist, v: Voter)
    requires HistOk(cfg, h) && VoterOk(cfg, h, v)
    ensures CompactionHorizon(cfg, v) <= v.commitIndex && CompactionHorizon(cfg, v) <= v.applied
  {
    HorizonOk(cfg, h, v);
  }

  lemma {:induction false} DeliveriesSame(v: Voter, w: Voter)
    requires SameAbove(v, w) && w.snapshotIndex <= w.lastDelivered
    requires w == v.(log := w.log, snapshotIndex := w.snapshotIndex, snapshotTerm := w.snapshotTerm, disk := w.disk)
    ensures Deliveries(w) == Deliveries(v)
    decreases v.commitIndex - v.lastDelivered
  {
    if v.lastDelivered < v.commitIndex && EntryAt(v, v.lastDelivered + 1).Some? {
      var v', w' := v.(lastDelivered := v.lastDelivered + 1), w.(lastDelivered := w.lastDelivered + 1);
      forall k: nat
        ensures k > w.snapshotIndex ==> EntryAt(w', k) == EntryAt(v', k)
        ensures k >= w.snapshotIndex ==> TermAt(w', k) == TermAt(v', k)
      {
        assert EntryAt(w', k) == EntryAt(w, k) && EntryAt(v', k) == EntryAt(v, k);
        assert TermAt(w', k) == TermAt(w, k) && TermAt(v', k) == TermAt(v, k);
      }
      DeliveriesSame(v', w');
    }
  }

  // ---------------------------------------------------------------------------
  // Delivery
  // ---------------------------------------------------------------------------

  /** One delivery hands over exactly the committed entries not handed over before, in order. */
  lemma {:induction false} DeliveriesExact(v: Voter, full: seq<Entry>)
    requires View(v, full) && v.commitIndex <= |full| && v.snapshotIndex <= v.lastDelivered
    ensures Deliveries(v) == if v.lastDelivered < v.commitIndex then full[v.lastDelivered..v.commitIndex] else []
    decreases v.commitIndex - v.lastDelivered
  {
    hide View, EntryAt;
    if v.lastDelivered < v.commitIndex {
      ViewAt(v, full, v.lastDelivered + 1);
      var w := v.(lastDelivered := v.lastDelivered + 1);
      assert View(w, full) by { ViewMoved(v, w, full); }
      DeliveriesExact(w, full);
      assert full[v.lastDelivered..v.commitIndex] == [full[v.lastDelivered]] + full[v.lastDelivered + 1..v.commitIndex];
    }
  }

  lemma ViewMoved(v: Voter, w: Voter, full: seq<Entry>)
    requires View(v, full) && w == v.(lastDelivered := w.lastDelivered)
    ensures View(w, full)
  {
  }

  lemma {:induction false} BroadcastSteady(v: Voter, peers: seq<NodeId>, round: nat)
    ensures Broadcast(v, peers, round).lastDelivered == v.lastDelivered
    decreases |peers|
  {
    if peers != [] {
      BroadcastSteady(if peers[0] == v.me then v else SendAppend(v, peers[0], round), peers[1..], round);
    }
  }

  lemma {:induction false} SolicitSteady(v: Voter, peers: seq<NodeId>)
    ensures Solicit(v, peers).lastDelivered == v.lastDelivered
    decreases |peers|
  {
    if peers != [] {
      var ask := RequestVote(v.term, LastIndex(v), LastTerm(v));
      SolicitSteady(if peers[0] == v.me then v else Send(v, peers[0], ask), peers[1..]);
    }
  }

  lemma LeaderDelivers(cfg: Config, v: Voter)
    ensures BecomeLeader(cfg, v).lastDelivered == v.lastDelivered
  {
    hide LastIndex, Broadcast;
    BroadcastSteady(AppendLocal(InitPeers(cfg, v.(role := Leader, leader := Some(v.me))), []), cfg.members, 0);
  }

  lemma TimerDelivers(cfg: Config, v: Voter, due: bool)
    ensures Tick(cfg, v, due).lastDelivered == v.lastDelivered
  {
    hide Broadcast, Solicit, BecomeLeader;
    BroadcastSteady(v, cfg.members, 0);
    var w := StandForElection(v).(role := Candidate, leader := None, votes := {v.me});
    SolicitSteady(w, cfg.members);
    LeaderDelivers(cfg, Solicit(w, cfg.members));
  }

  lemma CallDelivers(cfg: Config, v: Voter, data: seq<Byte>)
    ensures Propose(cfg, v, data).voter.lastDelivered == v.lastDelivered
    ensures ReadBarrier(cfg, v).voter.lastDelivered == v.lastDelivered
  {
    hide Broadcast, TermAt, LastIndex;
    BroadcastSteady(AppendLocal(v, data), cfg.members, 0);
    var round := v.readRound + 1;
    var asked := PendingRead(round, v.commitIndex, {v.me});
    BroadcastSteady(v.(readRound := round, pendingReads := v.pendingReads + [asked]),
                    cfg.members, round);
  }

  lemma AppendDelivers(v: Voter, from: NodeId, m: Message)
    requires m.AppendEntries?
    ensures OnAppend(v, from, m).voter.lastDelivered == v.lastDelivered
  {
    hide ScanFrom, TermAt, LastIndex, SpliceIn, Acknowledges;
    var w := Acknowledges(v, from, m.term);
    HeedDelivers(v, from, m.term);
    if !ScanFrom(w, m.entries, 0).Refused? {
      SpliceDelivers(w, m.entries, ScanFrom(w, m.entries, 0));
    }
  }

  lemma HeedDelivers(v: Voter, from: NodeId, t: nat)
    ensures Acknowledges(v, from, t).lastDelivered == v.lastDelivered
  {
  }

  lemma SpliceDelivers(v: Voter, entries: seq<Entry>, s: Scan)
    requires s.Splice? ==> s.at < |entries|
    ensures SpliceIn(v, entries, s).lastDelivered == v.lastDelivered
  {
  }

  lemma ReplyDelivers(cfg: Config, v: Voter, from: NodeId, m: Message)
    requires m.AppendEntriesReply? && cfg.members != []
    ensures OnAppendReply(cfg, v, from, m).lastDelivered == v.lastDelivered
  {
    hide TermAt, LastIndex, AppendMessage, AckReads, DoneReads, KeepReads, SortDesc, Matches;
  }

  lemma StepDelivers(cfg: Config, v: Voter, env: Envelope)
    requires cfg.members != []
    ensures Step(cfg, v, env).voter.lastDelivered == v.lastDelivered
  {
    hide OnAppend, OnAppendReply, BecomeLeader, LastIndex, LastTerm;
    match env.msg
    case RequestVote(_, _, _) =>
    case RequestVoteReply(_, _) => LeaderDelivers(cfg, v.(votes := v.votes + {env.from}));
    case AppendEntries(_, _, _, _, _, _) => AppendDelivers(v, env.from, env.msg);
    case AppendEntriesReply(_, _, _, _, _) => ReplyDelivers(cfg, v, env.from, env.msg);
  }

  /** How one event moves the delivery point of a running voter. */
  lemma EventDelivers(cfg: Config, h: Hist, v: Voter, ev: Event)
    requires HistOk(cfg, h) && VoterOk(cfg, h, v) && cfg.members != []
    ensures var w := VoterNext(cfg, v, ev);
            && v.lastDelivered <= w.lastDelivered
            && w.lastDelivered == (if ev.TakeEntries? then v.lastDelivered + |Deliveries(v)|
                                   else if ev.ReportApplied? then w.lastDelivered
                                   else v.lastDelivered)
            && (ev.ReportApplied? ==> w.lastDelivered <= Max(v.lastDelivered, Frontier(v, ev.applied)))
  {
    hide HistOk, VoterOk, Tick, Step, Propose, ReadBarrier, Compact, Deliveries;
    match ev
    case TickNode(_, due) => TimerDelivers(cfg, v, due);
    case Deliver(env) => StepDelivers(cfg, v, env);
    case ProposeAt(_, data) => CallDelivers(cfg, v, data);
    case BarrierAt(_) => CallDelivers(cfg, v, []);
    case CompactAt(_, upTo) => CompactShape(cfg, h, v, upTo);
    case ReportApplied(_, _) => BaseDelivered(cfg, h, v);
    case _ =>
  }

  lemma BaseDelivered(cfg: Config, h: Hist, v: Voter)
    requires VoterOk(cfg, h, v)
    ensures v.snapshotIndex <= v.lastDelivered
  {
    hide StoreOk, LeaderOk, CandidateOk, BarriersOk, OutboxOk, Committed;
  }

  /** All entries handed over by the current process of voter `n`, in order. */
  ghost function Handed(cfg: Config, evs: seq<Event>, n: NodeId): seq<Entry>
    requires cfg.members != []
  {
    if evs == [] then []
    else
      var rest, ev := evs[..|evs| - 1], evs[|evs| - 1];
      if !IsUp(Run(cfg, rest), n) || !IsUp(Run(cfg, evs), n) then []
      else Handed(cfg, rest, n) + if ev == TakeEntries(n) then Deliveries(Run(cfg, rest).nodes[n].voter) else []
  }

  /** The base its process started from, or the highest frontier reported to it since. */
  ghost function Skipped(cfg: Config, evs: seq<Event>, n: NodeId): nat
    requires cfg.members != []
  {
    if evs == [] || !IsUp(Run(cfg, evs), n) then 0
    else
      var rest, ev := evs[..|evs| - 1], evs[|evs| - 1];
      if !IsUp(Run(cfg, rest), n) then Run(cfg, evs).nodes[n].voter.snapshotIndex
      else Max(Skipped(cfg, rest, n), Report(Run(cfg, rest), ev, n))
  }

  ghost predicate Ascending(es: seq<Entry>) {
    forall i, j :: 0 <= i < j < |es| ==> es[i].index < es[j].index
  }

  ghost predicate Hands(es: seq<Entry>, k: nat) {
    exists e :: e in es && e.index == k
  }

  /** `es` hands over, once each and in order, all indices up to `last` that are above `skipped`. */
  ghost predicate Covers(es: seq<Entry>, skipped: nat, last: nat) {
    && Ascending(es)
    && (forall e :: e in es ==> e.index <= last)
    && (forall k: nat :: skipped < k <= last ==> Hands(es, k))
  }

  lemma CoversMore(es: seq<Entry>, skipped: nat, last: nat, skipped': nat, last': nat)
    requires Covers(es, skipped, last) && skipped <= skipped' && last <= last' <= Max(last, skipped')
    ensures Covers(es, skipped', last')
  {
  }

  lemma CoversTaken(es: seq<Entry>, skipped: nat, last: nat, full: seq<Entry>, c: nat)
    requires Covers(es, skipped, last) && last <= c <= |full|
    requires forall i :: 0 <= i < |full| ==> full[i].index == i + 1
    ensures Covers(es + full[last..c], skipped, c)
  {
    var more := full[last..c];
    forall k: nat | skipped < k <= c
      ensures Hands(es + more, k)
    {
      if k <= last {
        assert Hands(es, k);
      } else {
        assert more[k - 1 - last] in more;
      }
    }
  }

  /** What the next state of a voter that stays up is. */
  lemma NextVoter(cfg: Config, c: Cluster, ev: Event, n: NodeId)
    requires cfg.members != [] && IsUp(c, n) && IsUp(Next(cfg, c, ev), n)
    ensures var v := c.nodes[n].voter;
            Next(cfg, c, ev).nodes[n].voter == v
            || (Actor(ev) == n && Next(cfg, c, ev).nodes[n].voter == VoterNext(cfg, v, ev))
    ensures ev == TakeEntries(n) ==> Next(cfg, c, ev).nodes[n].voter == VoterNext(cfg, c.nodes[n].voter, ev)
  {
    hide Step, Tick, Propose, ReadBarrier, Compact, SetApplied, TakeCommitted, TakeReadyReads, MidStep;
  }

  lemma TakenExactly(cfg: Config, h: Hist, v: Voter)
    requires HistOk(cfg, h) && VoterOk(cfg, h, v)
    ensures v.me in h.p.log && View(v, h.p.log[v.me]) && v.commitIndex <= |h.p.log[v.me]|
    ensures Deliveries(v) == if v.lastDelivered < v.commitIndex then h.p.log[v.me][v.lastDelivered..v.commitIndex]
                             else []
  {
    hide HistOk, View, StoreOk, LeaderOk, CandidateOk, BarriersOk, OutboxOk, Committed, Deliveries;
    VoterView(cfg, h, v);
    CommittedLength(h.p, v.me, v.commitIndex);
    DeliveriesExact(v, h.p.log[v.me]);
  }

  lemma DeliveryStep(cfg: Config, h: Hist, v: Voter, ev: Event, es: seq<Entry>, skipped: nat)
    requires HistOk(cfg, h) && VoterOk(cfg, h, v) && cfg.members != [] && Covers(es, skipped, v.lastDelivered)
    ensures Covers(es + if ev.TakeEntries? then Deliveries(v) else [],
                   Max(skipped, if ev.ReportApplied? then Frontier(v, ev.applied) else 0),
                   VoterNext(cfg, v, ev).lastDelivered)
  {
    hide HistOk, VoterOk, VoterNext, Covers, Deliveries;
    EventDelivers(cfg, h, v, ev);
    assert es + [] == es;
    if ev.TakeEntries? {
      TakenExactly(cfg, h, v);
      if v.lastDelivered < v.commitIndex {
        CoversTaken(es, skipped, v.lastDelivered, h.p.log[v.me], v.commitIndex);
      }
    } else {
      var w := VoterNext(cfg, v, ev);
      CoversMore(es, skipped, v.lastDelivered,
                 Max(skipped, if ev.ReportApplied? then Frontier(v, ev.applied) else 0), w.lastDelivered);
    }
  }

  /**
    Every process of every voter hands over committed entries without gaps, without duplicates and
    in index order, apart from indices under its starting base or reported applied to it.
   */
  lemma {:induction false} GapFreeDelivery(cfg: Config, evs: seq<Event>, n: NodeId)
    requires cfg.Valid() && cfg.members != [] && IsUp(Run(cfg, evs), n)
    ensures Covers(Handed(cfg, evs, n), Skipped(cfg, evs, n), Run(cfg, evs).nodes[n].voter.lastDelivered)
  {
    hide Covers, Next, VoterNext, Deliveries;
    if evs != [] {
      var k := |evs| - 1;
      var rest, ev := evs[..k], evs[k];
      var c := Run(cfg, rest);
      if IsUp(c, n) {
        GapFreeDelivery(cfg, rest, n);
        var h := ReachableOk(cfg, rest);
        UpVoter(cfg, h, c, n);
        NextVoter(cfg, c, ev, n);
        var es, skipped, v := Handed(cfg, rest, n), Skipped(cfg, rest, n), c.nodes[n].voter;
        if Run(cfg, evs).nodes[n].voter == v && ev != TakeEntries(n) {
          assert es + [] == es;
          assert Covers(es, Max(skipped, Report(c, ev, n)), v.lastDelivered) by {
            CoversMore(es, skipped, v.lastDelivered, Max(skipped, Report(c, ev, n)), v.lastDelivered);
          }
        } else {
          DeliveryStep(cfg, h, v, ev, es, skipped);
        }
      } else {
        FreshVoter(cfg, c, ev, n);
        assert Covers([], Skipped(cfg, evs, n), Skipped(cfg, evs, n)) by { CoversNothing(Skipped(cfg, evs, n)); }
      }
    } else {
      CoversNothing(0);
    }
  }

  lemma CoversNothing(k: nat)
    ensures Covers([], k, k)
  {
  }

  lemma FreshVoter(cfg: Config, c: Cluster, ev: Event, n: NodeId)
    requires cfg.members != [] && !IsUp(c, n) && IsUp(Next(cfg, c, ev), n)
    ensures var v := Next(cfg, c, ev).nodes[n].voter; v.lastDelivered == v.snapshotIndex
  {
    hide Step, Tick, Propose, ReadBarrier, Compact, SetApplied, TakeCommitted, TakeReadyReads, MidStep, VoterNext;
  }

  lemma ReachableOk(cfg: Config, evs: seq<Event>) returns (h: Hist)
    requires cfg.Valid() && cfg.members != []
    ensures ClusterOk(cfg, h, Run(cfg, evs))
  {
    hide ClusterOk, Run, HistGrows, Traced;
    var hs := Histories(cfg, evs);
    assert evs[..|evs|] == evs;
    h := hs[|evs|];
  }

  /** Whatever a process hands over, its voter knew to be committed at that moment. */
  lemma {:induction false} HandedCommitted(cfg: Config, evs: seq<Event>, n: NodeId, e: Entry) returns (i: nat)
    requires cfg.Valid() && cfg.members != [] && e in Handed(cfg, evs, n)
    ensures i <= |evs| && HoldsCommitted(Run(cfg, evs[..i]), n, e)
  {
    hide Run, Deliveries;
    var k := |evs| - 1;
    var rest, ev := evs[..k], evs[k];
    if e in Handed(cfg, rest, n) {
      i := HandedCommitted(cfg, rest, n, e);
      assert rest[..i] == evs[..i];
    } else {
      i := k;
      var c := Run(cfg, rest);
      var h := ReachableOk(cfg, rest);
      UpVoter(cfg, h, c, n);
      DeliveredHeld(cfg, h, c.nodes[n].voter, e);
    }
  }

  lemma DeliveredHeld(cfg: Config, h: Hist, v: Voter, e: Entry)
    requires HistOk(cfg, h) && VoterOk(cfg, h, v) && e in Deliveries(v)
    ensures e.index <= v.commitIndex && EntryAt(v, e.index) == Some(e)
  {
    hide HistOk, VoterOk, Deliveries;
    TakenExactly(cfg, h, v);
    BaseDelivered(cfg, h, v);
    var g := h.p.log[v.me];
    var k :| 0 <= k < |Deliveries(v)| && Deliveries(v)[k] == e;
    assert e == g[v.lastDelivered + k];
    ViewAt(v, g, e.index);
  }

  /** Any two voters that hand over an index, in any of their processes, hand over the same entry. */
  lemma DeliveriesAgree(cfg: Config, evs: seq<Event>, i: nat, j: nat, a: NodeId, b: NodeId, d: Entry, e: Entry)
    requires cfg.Valid() && cfg.members != [] && i <= |evs| && j <= |evs|
    requires d in Handed(cfg, evs[..i], a) && e in Handed(cfg, evs[..j], b) && d.index == e.index
    ensures d == e
  {
    hide Run, Handed, HoldsCommitted;
    var x := HandedCommitted(cfg, evs[..i], a, d);
    var y := HandedCommitted(cfg, evs[..j], b, e);
    assert evs[..i][..x] == evs[..x] && evs[..j][..y] == evs[..y];
    StateMachineSafety(cfg, evs, x, y, a, b, d, e);
  }
}
