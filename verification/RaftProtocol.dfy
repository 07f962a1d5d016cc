/**
  The protocol-level history of a cluster: what was voted, who led each term with which
  (uncompacted) log, what every voter acknowledged, and what was committed. The atomic actions
  below are the only ways the history grows; each keeps `Safe`, from which election safety,
  log matching and leader completeness follow for every term.
 */
module RaftProtocol {
  import opened RaftTypes

  /** The leadership of one term: its leader, its whole log, and who elected it. */
  datatype Reign = Reign(leader: NodeId, log: seq<Entry>, start: nat, electors: set<NodeId>)

  datatype Rank = Rank(lastTerm: nat, lastIndex: nat)

  datatype Proto = Proto(
    term: map<NodeId, nat>,
    log: map<NodeId, seq<Entry>>,
    vote: map<(nat, NodeId), NodeId>,
    cand: map<(nat, NodeId), Rank>,
    reign: map<nat, Reign>,
    acked: map<(nat, NodeId), nat>,
    commits: map<nat, nat>)

  // ---------------------------------------------------------------------------
  // Logs
  // ---------------------------------------------------------------------------

  ghost predicate Agree(a: seq<Entry>, b: seq<Entry>, k: nat) {
    k <= |a| && k <= |b| && forall j :: 0 <= j < k ==> a[j] == b[j]
  }

  /** Log `g` holds an entry of term `t` at index `q`. */
  ghost predicate Has(g: seq<Entry>, t: nat, q: nat) {
    1 <= q <= |g| && g[q - 1].term == t
  }

  ghost function RankOf(g: seq<Entry>): Rank {
    if g == [] then Rank(0, 0) else Rank(g[|g| - 1].term, |g|)
  }

  ghost predicate AtLeast(a: Rank, b: Rank) {
    a.lastTerm > b.lastTerm || (a.lastTerm == b.lastTerm && a.lastIndex >= b.lastIndex)
  }

  /** Every entry carries the whole prefix of the leader that created it. */
  ghost predicate Shape(p: Proto, g: seq<Entry>) {
    forall i :: 0 <= i < |g| ==>
                  && g[i].index == i + 1
                  && g[i].term in p.reign
                  && Agree(g, p.reign[g[i].term].log, i + 1)
  }

  ghost predicate Sorted(g: seq<Entry>) {
    forall i, j :: 0 <= i < j < |g| ==> g[i].term <= g[j].term
  }

  // ---------------------------------------------------------------------------
  // Invariant
  // ---------------------------------------------------------------------------

  ghost predicate Acked(p: Proto, t: nat, n: NodeId, q: nat) {
    (t, n) in p.acked && q <= p.acked[(t, n)] && t in p.reign && Has(p.reign[t].log, t, q)
  }

  /** Some leader of a term in `(t, hi]` does not hold the entry `(t, q)`. */
  ghost predicate Overtaken(p: Proto, t: nat, q: nat, hi: nat) {
    exists u :: t < u <= hi && u in p.reign && !Has(p.reign[u].log, t, q)
  }

  /** What a vote of `n` in term `t` for a candidate of rank `r` promises. */
  ghost predicate VoteSafe(p: Proto, t: nat, n: NodeId, r: Rank) {
    forall s: nat, q: nat :: s < t && Acked(p, s, n, q) ==>
                     AtLeast(r, Rank(s, q)) || Overtaken(p, s, q, t - 1)
  }

  ghost predicate ReignOk(cfg: Config, p: Proto, t: nat)
    requires t in p.reign
  {
    var r := p.reign[t];
    && 1 <= t
    && r.leader in cfg.members
    && r.start < |r.log|
    && Shape(p, r.log)
    && Sorted(r.log)
    && (forall i :: 0 <= i < |r.log| ==> (r.log[i].term == t <==> r.start <= i) && r.log[i].term <= t)
    && (t, r.leader) in p.cand
    && p.cand[(t, r.leader)] == RankOf(r.log[..r.start])
    && cfg.IsQuorum(r.electors)
    && (forall n :: n in r.electors ==> (t, n) in p.vote && p.vote[(t, n)] == r.leader)
    && (forall n :: n in r.electors ==> VoteSafe(p, t, n, p.cand[(t, r.leader)]))
    && (t, r.leader) in p.vote && p.vote[(t, r.leader)] == r.leader
  }

  ghost predicate Reigns(cfg: Config, p: Proto) {
    forall t {:trigger ReignOk(cfg, p, t)} :: t in p.reign ==> ReignOk(cfg, p, t)
  }

  ghost predicate Domains(cfg: Config, p: Proto) {
    forall n :: n in cfg.members ==> n in p.term && n in p.log
  }

  ghost predicate VoteOk(cfg: Config, p: Proto, t: nat, n: NodeId)
    requires (t, n) in p.vote
  {
    && n in cfg.members
    && n in p.term && t <= p.term[n]
    && (t, p.vote[(t, n)]) in p.cand
    && (t in p.reign || VoteSafe(p, t, n, p.cand[(t, p.vote[(t, n)])]))
  }

  ghost predicate Votes(cfg: Config, p: Proto) {
    forall t, n {:trigger VoteOk(cfg, p, t, n)} :: (t, n) in p.vote ==> VoteOk(cfg, p, t, n)
  }

  ghost predicate CandOk(cfg: Config, p: Proto, t: nat, c: NodeId)
    requires (t, c) in p.cand
  {
    && c in cfg.members
    && c in p.term && t <= p.term[c]
    && p.cand[(t, c)].lastTerm < t
  }

  ghost predicate Cands(cfg: Config, p: Proto) {
    forall t, c {:trigger CandOk(cfg, p, t, c)} :: (t, c) in p.cand ==> CandOk(cfg, p, t, c)
  }

  ghost predicate LogOk(p: Proto, n: NodeId)
    requires n in p.log && n in p.term
  {
    && Shape(p, p.log[n])
    && (forall i :: 0 <= i < |p.log[n]| ==> p.log[n][i].term <= p.term[n])
  }

  ghost predicate Logs(cfg: Config, p: Proto) {
    forall n {:trigger LogOk(p, n)} :: n in cfg.members && n in p.log && n in p.term ==> LogOk(p, n)
  }

  ghost predicate AckOk(cfg: Config, p: Proto, t: nat, n: NodeId)
    requires (t, n) in p.acked
  {
    && n in cfg.members && n in p.term && n in p.log
    && t <= p.term[n] && t in p.reign && p.acked[(t, n)] <= |p.reign[t].log|
  }

  ghost predicate Acks(cfg: Config, p: Proto) {
    && (forall t, n {:trigger AckOk(cfg, p, t, n)} :: (t, n) in p.acked ==> AckOk(cfg, p, t, n))
    && (forall t, n, q :: Acked(p, t, n, q) ==>
                            n in p.log && n in p.term &&
                            (Has(p.log[n], t, q) || Overtaken(p, t, q, p.term[n])))
  }

  ghost function AckSet(cfg: Config, p: Proto, t: nat, q: nat): set<NodeId> {
    set n | n in cfg.members && (t, n) in p.acked && q <= p.acked[(t, n)]
  }

  /** The entry `(t, q)` was created in term `t` and acknowledged in that term by a majority. */
  ghost predicate Chosen(cfg: Config, p: Proto, t: nat, q: nat) {
    t in p.reign && Has(p.reign[t].log, t, q) && |AckSet(cfg, p, t, q)| >= cfg.Quorum()
  }

  ghost predicate Commits(cfg: Config, p: Proto) {
    forall t {:trigger Chosen(cfg, p, t, p.commits[t])} :: t in p.commits ==> Chosen(cfg, p, t, p.commits[t])
  }

  ghost predicate Safe(cfg: Config, p: Proto) {
    && cfg.Valid()
    && Domains(cfg, p)
    && Reigns(cfg, p)
    && Votes(cfg, p)
    && Cands(cfg, p)
    && Logs(cfg, p)
    && Acks(cfg, p)
    && Commits(cfg, p)
  }

  // ---------------------------------------------------------------------------
  // Consequences of the invariant
  // ---------------------------------------------------------------------------

  /** Two logs of the expected shape that agree on the term at an index agree up to it. */
  lemma LogMatching(p: Proto, a: seq<Entry>, b: seq<Entry>, t: nat, q: nat)
    requires Shape(p, a) && Shape(p, b)
    requires Has(a, t, q) && Has(b, t, q)
    ensures Agree(a, b, q)
  {
    assert Agree(a, p.reign[a[q - 1].term].log, q);
    assert Agree(b, p.reign[b[q - 1].term].log, q);
  }

  /** A log of the expected shape has sorted terms. */
  lemma ShapeSorted(cfg: Config, p: Proto, g: seq<Entry>)
    requires Reigns(cfg, p) && Shape(p, g)
    ensures Sorted(g)
    ensures forall i :: 0 <= i < |g| ==> 1 <= g[i].term
  {
    forall i | 0 <= i < |g|
      ensures 1 <= g[i].term
    {
      assert ReignOk(cfg, p, g[i].term);
    }
    forall i, j | 0 <= i < j < |g|
      ensures g[i].term <= g[j].term
    {
      var r := p.reign[g[j].term].log;
      assert ReignOk(cfg, p, g[j].term);
      assert Agree(g, r, j + 1);
      assert r[i].term <= r[j].term;
    }
  }

  /** An entry chosen in term `t` is in the log of the leader of every later term. */
  lemma {:induction false} LeaderCompleteness(cfg: Config, p: Proto, t: nat, q: nat, u: nat)
    requires cfg.Valid() && Reigns(cfg, p)
    requires Chosen(cfg, p, t, q)
    requires t < u && u in p.reign
    ensures Has(p.reign[u].log, t, q)
    ensures Agree(p.reign[u].log, p.reign[t].log, q)
    decreases u
  {
    var r := p.reign[u];
    assert ReignOk(cfg, p, u) && ReignOk(cfg, p, t);
    var n := QuorumsMeet(cfg, AckSet(cfg, p, t, q), r.electors);
    var rank := p.cand[(u, r.leader)];
    assert VoteSafe(p, u, n, rank) && Acked(p, t, n, q);
    forall w | t < w < u && w in p.reign
      ensures Has(p.reign[w].log, t, q)
    {
      LeaderCompleteness(cfg, p, t, q, w);
    }
    assert !Overtaken(p, t, q, u - 1);
    assert AtLeast(rank, Rank(t, q));
    RankHolds(cfg, p, u, t, q);
    LogMatching(p, r.log, p.reign[t].log, t, q);
  }

  lemma SortedOrder(g: seq<Entry>, i: nat, j: nat)
    requires Sorted(g) && i < |g| && j < |g| && g[i].term < g[j].term
    ensures i < j
  {
  }

  /** A leader whose starting rank covers `(t, q)` holds it, when every leader in between does. */
  lemma RankHolds(cfg: Config, p: Proto, u: nat, t: nat, q: nat)
    requires Reigns(cfg, p) && t in p.reign && u in p.reign && t < u
    requires Has(p.reign[t].log, t, q)
    requires (u, p.reign[u].leader) in p.cand && AtLeast(p.cand[(u, p.reign[u].leader)], Rank(t, q))
    requires forall w :: t < w < u && w in p.reign ==> Has(p.reign[w].log, t, q)
    ensures Has(p.reign[u].log, t, q)
  {
    var r := p.reign[u];
    assert ReignOk(cfg, p, u);
    var g := r.log[..r.start];
    if g != [] {
      var w := g[|g| - 1].term;
      assert Agree(r.log, p.reign[w].log, r.start);
      assert ReignOk(cfg, p, w);
      if w > t {
        SortedOrder(p.reign[w].log, q - 1, r.start - 1);
      }
    }
  }

  /** Any two committed prefixes are comparable. */
  lemma CommitsAgree(cfg: Config, p: Proto, t: nat, u: nat)
    requires cfg.Valid() && Reigns(cfg, p) && Commits(cfg, p)
    requires t in p.commits && u in p.reign && t <= u
    ensures p.commits[t] <= |p.reign[u].log|
    ensures t in p.reign && Agree(p.reign[u].log, p.reign[t].log, p.commits[t])
  {
    assert Chosen(cfg, p, t, p.commits[t]);
    if t < u {
      LeaderCompleteness(cfg, p, t, p.commits[t], u);
    }
  }
}
