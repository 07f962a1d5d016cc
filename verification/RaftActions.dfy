/** The atomic actions of the protocol history, and the proof that each of them keeps `Safe`. */
module RaftActions {
  import opened Basics
  import opened RaftTypes
  import opened RaftProtocol

  // ---------------------------------------------------------------------------
  // Growth: what no action ever takes back
  // ---------------------------------------------------------------------------

  ghost predicate ReignGrows(t: nat, a: Reign, b: Reign) {
    && a.leader == b.leader && a.start == b.start && a.electors == b.electors
    && Agree(a.log, b.log, |a.log|)
    && (forall i :: |a.log| <= i < |b.log| ==> b.log[i].term == t)
  }

  ghost predicate ReignMono(p: Proto, p': Proto, t: nat)
    requires t in p.reign
  {
    t in p'.reign && ReignGrows(t, p.reign[t], p'.reign[t])
  }

  ghost predicate AckMono(p: Proto, p': Proto, t: nat, n: NodeId) {
    && ((t, n) in p.acked ==> (t, n) in p'.acked && p.acked[(t, n)] <= p'.acked[(t, n)])
    && ((t, n) in p'.acked && n in p.term && t < p.term[n] ==>
          (t, n) in p.acked && p'.acked[(t, n)] == p.acked[(t, n)])
  }

  /** The first `c` entries of voter `n`'s log were committed in a term it has seen. */
  ghost predicate CommittedBy(p: Proto, n: NodeId, c: nat, t: nat)
    requires n in p.term && n in p.log
  {
    && t in p.commits && t <= p.term[n] && c <= p.commits[t]
    && t in p.reign && Agree(p.log[n], p.reign[t].log, c)
  }

  /** No voter gives up what was committed in its log. */
  ghost predicate LogMono(p: Proto, p': Proto, n: NodeId, c: nat)
    requires n in p.log
  {
    n in p'.log && Agree(p.log[n], p'.log[n], c)
  }

  ghost predicate Retains(p: Proto, p': Proto) {
    forall n, c, t {:trigger CommittedBy(p, n, c, t)} ::
      n in p.term && n in p.log && CommittedBy(p, n, c, t) ==> LogMono(p, p', n, c)
  }

  ghost predicate Grows(p: Proto, p': Proto) {
    && (forall n :: n in p.term ==> n in p'.term && p.term[n] <= p'.term[n])
    && (forall t {:trigger ReignMono(p, p', t)} :: t in p.reign ==> ReignMono(p, p', t))
    && (forall k :: k in p.vote ==> k in p'.vote && p'.vote[k] == p.vote[k])
    && (forall k :: k in p.cand ==> k in p'.cand && p'.cand[k] == p.cand[k])
    && (forall t, n {:trigger AckMono(p, p', t, n)} :: AckMono(p, p', t, n))
    && (forall t :: t in p.commits ==> t in p'.commits && p.commits[t] <= p'.commits[t])
    && Retains(p, p')
  }

  /** What was committed in a voter's log stays committed in it. */
  lemma CommittedByGrows(p: Proto, p': Proto, n: NodeId, c: nat, t: nat)
    requires Grows(p, p') && n in p.term && n in p.log && CommittedBy(p, n, c, t)
    ensures n in p'.term && n in p'.log && CommittedBy(p', n, c, t) && Agree(p.log[n], p'.log[n], c)
  {
    assert LogMono(p, p', n, c) && ReignMono(p, p', t);
  }

  lemma RetainsTransitive(p: Proto, q: Proto, r: Proto)
    requires Grows(p, q) && Grows(q, r)
    ensures Retains(p, r)
  {
    hide Grows;
    forall n, c, t | n in p.term && n in p.log && CommittedBy(p, n, c, t)
      ensures LogMono(p, r, n, c)
    {
      CommittedByGrows(p, q, n, c, t);
      CommittedByGrows(q, r, n, c, t);
    }
  }

  lemma GrowsTransitive(p: Proto, q: Proto, r: Proto)
    requires Grows(p, q) && Grows(q, r)
    ensures Grows(p, r)
  {
    RetainsTransitive(p, q, r);
    forall t | t in p.reign
      ensures ReignMono(p, r, t)
    {
      assert ReignMono(p, q, t) && ReignMono(q, r, t);
    }
    forall t: nat, n: NodeId
      ensures AckMono(p, r, t, n)
    {
      assert AckMono(p, q, t, n) && AckMono(q, r, t, n);
    }
  }

  lemma ShapeGrows(p: Proto, p': Proto, g: seq<Entry>)
    requires Grows(p, p') && Shape(p, g)
    ensures Shape(p', g)
  {
    forall i | 0 <= i < |g|
      ensures g[i].index == i + 1 && g[i].term in p'.reign && Agree(g, p'.reign[g[i].term].log, i + 1)
    {
      var t := g[i].term;
      assert Agree(g, p.reign[t].log, i + 1) && ReignMono(p, p', t);
    }
  }

  lemma OvertakenGrows(p: Proto, p': Proto, s: nat, q: nat, hi: nat, hi': nat)
    requires Grows(p, p') && Overtaken(p, s, q, hi) && hi <= hi'
    ensures Overtaken(p', s, q, hi')
  {
    var u :| s < u <= hi && u in p.reign && !Has(p.reign[u].log, s, q);
    assert ReignMono(p, p', u);
    assert !Has(p'.reign[u].log, s, q);
  }

  /** Acknowledgements of terms a voter has left behind are frozen. */
  lemma AckedBack(cfg: Config, p: Proto, p': Proto, s: nat, n: NodeId, q: nat)
    requires Grows(p, p') && Acks(cfg, p)
    requires n in p.term && s < p.term[n] && Acked(p', s, n, q)
    ensures Acked(p, s, n, q)
  {
    assert AckMono(p, p', s, n);
    assert AckOk(cfg, p, s, n);
    assert ReignMono(p, p', s);
  }

  lemma VoteSafeGrows(cfg: Config, p: Proto, p': Proto, t: nat, n: NodeId, r: Rank)
    requires Grows(p, p') && Acks(cfg, p)
    requires n in p.term && t <= p.term[n] && VoteSafe(p, t, n, r)
    ensures VoteSafe(p', t, n, r)
  {
    forall s: nat, q: nat | s < t && Acked(p', s, n, q)
      ensures AtLeast(r, Rank(s, q)) || Overtaken(p', s, q, t - 1)
    {
      AckedBack(cfg, p, p', s, n, q);
      if Overtaken(p, s, q, t - 1) {
        OvertakenGrows(p, p', s, q, t - 1, t - 1);
      }
    }
  }

  lemma ChosenGrows(cfg: Config, p: Proto, p': Proto, t: nat, q: nat)
    requires Grows(p, p') && Chosen(cfg, p, t, q)
    ensures Chosen(cfg, p', t, q)
  {
    assert ReignMono(p, p', t);
    forall n | n in AckSet(cfg, p, t, q)
      ensures n in AckSet(cfg, p', t, q)
    {
      assert AckMono(p, p', t, n);
    }
    SubsetCount(AckSet(cfg, p, t, q), AckSet(cfg, p', t, q));
  }

  /** A reign stays well formed while the history grows, also when its leader appends. */
  lemma ReignKept(cfg: Config, p: Proto, p': Proto, t: nat)
    requires Grows(p, p') && Votes(cfg, p) && Acks(cfg, p)
    requires t in p.reign && ReignOk(cfg, p, t) && t in p'.reign
    requires forall i :: |p.reign[t].log| <= i < |p'.reign[t].log| ==> p'.reign[t].log[i].index == i + 1
    ensures ReignOk(cfg, p', t)
  {
    var r, r' := p.reign[t], p'.reign[t];
    assert ReignMono(p, p', t);
    assert r.log[..r.start] == r'.log[..r'.start];
    ShapeGrows(p, p', r.log);
    forall i | 0 <= i < |r'.log|
      ensures r'.log[i].index == i + 1 && r'.log[i].term in p'.reign
      ensures Agree(r'.log, p'.reign[r'.log[i].term].log, i + 1)
    {
      if i < |r.log| {
        assert Agree(r.log, p'.reign[r.log[i].term].log, i + 1);
      }
    }
    forall n | n in r'.electors
      ensures VoteSafe(p', t, n, p'.cand[(t, r'.leader)])
    {
      assert VoteOk(cfg, p, t, n);
      VoteSafeGrows(cfg, p, p', t, n, p.cand[(t, r.leader)]);
    }
  }

  lemma RankCovers(cfg: Config, p: Proto, g: seq<Entry>, s: nat, q: nat)
    requires Reigns(cfg, p) && Shape(p, g) && Has(g, s, q)
    ensures AtLeast(RankOf(g), Rank(s, q))
  {
    ShapeSorted(cfg, p, g);
  }

  // ---------------------------------------------------------------------------
  // Components of the invariant that one action leaves alone
  // ---------------------------------------------------------------------------

  lemma ReignsKept(cfg: Config, p: Proto, p': Proto)
    requires Grows(p, p') && Reigns(cfg, p) && Votes(cfg, p) && Acks(cfg, p)
    requires p'.reign == p.reign
    ensures Reigns(cfg, p')
  {
    forall t | t in p'.reign
      ensures ReignOk(cfg, p', t)
    {
      assert ReignOk(cfg, p, t);
      ReignKept(cfg, p, p', t);
    }
  }

  lemma VoteKept(cfg: Config, p: Proto, p': Proto, t: nat, n: NodeId)
    requires Grows(p, p') && Votes(cfg, p) && Acks(cfg, p)
    requires (t, n) in p.vote && (t, n) in p'.vote
    ensures VoteOk(cfg, p', t, n)
  {
    assert VoteOk(cfg, p, t, n);
    if t in p.reign {
      assert ReignMono(p, p', t);
    } else {
      VoteSafeGrows(cfg, p, p', t, n, p.cand[(t, p.vote[(t, n)])]);
    }
  }

  lemma VotesKept(cfg: Config, p: Proto, p': Proto)
    requires Grows(p, p') && Votes(cfg, p) && Acks(cfg, p)
    requires p'.vote == p.vote
    ensures Votes(cfg, p')
  {
    forall t, n | (t, n) in p'.vote
      ensures VoteOk(cfg, p', t, n)
    {
      VoteKept(cfg, p, p', t, n);
    }
  }

  lemma CandsKept(cfg: Config, p: Proto, p': Proto)
    requires Grows(p, p') && Cands(cfg, p)
    requires p'.cand == p.cand
    ensures Cands(cfg, p')
  {
    forall t, n | (t, n) in p'.cand
      ensures CandOk(cfg, p', t, n)
    {
      assert CandOk(cfg, p, t, n);
    }
  }

  lemma LogsKept(cfg: Config, p: Proto, p': Proto, except: NodeId)
    requires Grows(p, p') && Domains(cfg, p) && Logs(cfg, p) && Domains(cfg, p')
    requires forall n :: n in cfg.members && n != except ==> p'.log[n] == p.log[n]
    requires except in cfg.members ==> LogOk(p', except)
    ensures Logs(cfg, p')
  {
    forall n | n in cfg.members && n != except
      ensures LogOk(p', n)
    {
      assert LogOk(p, n);
      ShapeGrows(p, p', p.log[n]);
    }
  }

  /** A voter whose log did not change keeps a well-formed log. */
  lemma LogKept(cfg: Config, p: Proto, p': Proto, n: NodeId)
    requires Grows(p, p') && Domains(cfg, p) && Logs(cfg, p) && Domains(cfg, p')
    requires n in cfg.members && p'.log[n] == p.log[n]
    ensures LogOk(p', n)
  {
    assert LogOk(p, n);
    ShapeGrows(p, p', p.log[n]);
  }

  /** Acknowledgements stay covered for every voter whose log only keeps or extends what it held. */
  lemma AcksKept(cfg: Config, p: Proto, p': Proto)
    requires Grows(p, p') && Acks(cfg, p)
    requires p'.acked == p.acked
    requires forall n :: n in p.log ==> n in p'.log && Agree(p.log[n], p'.log[n], |p.log[n]|)
    ensures Acks(cfg, p')
  {
    forall t, n | (t, n) in p'.acked
      ensures AckOk(cfg, p', t, n)
    {
      assert AckOk(cfg, p, t, n);
      assert ReignMono(p, p', t);
    }
    forall t, n, q | Acked(p', t, n, q)
      ensures n in p'.log && n in p'.term
      ensures Has(p'.log[n], t, q) || Overtaken(p', t, q, p'.term[n])
    {
      assert AckOk(cfg, p, t, n);
      assert ReignMono(p, p', t);
      assert Acked(p, t, n, q);
      if !Has(p.log[n], t, q) {
        OvertakenGrows(p, p', t, q, p.term[n], p'.term[n]);
      }
    }
  }

  lemma CommitsKept(cfg: Config, p: Proto, p': Proto)
    requires Grows(p, p') && Commits(cfg, p) && p'.commits == p.commits
    ensures Commits(cfg, p')
  {
    forall t | t in p'.commits
      ensures Chosen(cfg, p', t, p'.commits[t])
    {
      assert Chosen(cfg, p, t, p.commits[t]);
      ChosenGrows(cfg, p, p', t, p.commits[t]);
    }
  }

  // ---------------------------------------------------------------------------
  // Actions
  // ---------------------------------------------------------------------------

  /** A voter learns of a higher term. */
  ghost function EnterTerm(p: Proto, n: NodeId, t: nat): Proto {
    p.(term := p.term[n := t])
  }

  lemma EnterTermSafe(cfg: Config, p: Proto, n: NodeId, t: nat)
    requires Safe(cfg, p) && n in cfg.members && p.term[n] <= t
    ensures Safe(cfg, EnterTerm(p, n, t)) && Grows(p, EnterTerm(p, n, t))
  {
    var p' := EnterTerm(p, n, t);
    SteadyGrows(p, p');
    Reassemble(cfg, p, p', n);
  }

  lemma SteadyGrows(p: Proto, p': Proto)
    requires p'.reign == p.reign && p'.acked == p.acked && p'.commits == p.commits && Retains(p, p')
    requires forall n :: n in p.term ==> n in p'.term && p.term[n] <= p'.term[n]
    requires forall k :: k in p.vote ==> k in p'.vote && p'.vote[k] == p.vote[k]
    requires forall k :: k in p.cand ==> k in p'.cand && p'.cand[k] == p.cand[k]
    ensures Grows(p, p')
  {
  }

  /** An action that only moves terms keeps the invariant. */
  lemma Reassemble(cfg: Config, p: Proto, p': Proto, n: NodeId)
    requires Safe(cfg, p) && Grows(p, p') && Domains(cfg, p') && n in cfg.members
    requires p' == p.(term := p'.term)
    ensures Safe(cfg, p')
  {
    ReignsKept(cfg, p, p');
    VotesKept(cfg, p, p');
    CandsKept(cfg, p, p');
    LogKept(cfg, p, p', n);
    LogsKept(cfg, p, p', n);
    AcksKept(cfg, p, p');
    CommitsKept(cfg, p, p');
  }

  /** A voter grants its one vote of term `t` to a candidate whose log is at least as up to date. */
  ghost function CastVote(p: Proto, n: NodeId, t: nat, c: NodeId): Proto {
    p.(vote := p.vote[(t, n) := c])
  }

  lemma CastVoteSafe(cfg: Config, p: Proto, n: NodeId, t: nat, c: NodeId)
    requires Safe(cfg, p) && n in cfg.members && p.term[n] == t
    requires (t, n) !in p.vote || p.vote[(t, n)] == c
    requires (t, c) in p.cand && AtLeast(p.cand[(t, c)], RankOf(p.log[n]))
    ensures Safe(cfg, CastVote(p, n, t, c)) && Grows(p, CastVote(p, n, t, c))
  {
    var p' := CastVote(p, n, t, c);
    SteadyGrows(p, p');
    ReignsKept(cfg, p, p');
    forall s: nat, m: NodeId | (s, m) in p'.vote
      ensures VoteOk(cfg, p', s, m)
    {
      if (s, m) != (t, n) {
        VoteKept(cfg, p, p', s, m);
      } else if t !in p.reign {
        BallotSafe(cfg, p, n, t, p.cand[(t, c)]);
        VoteSafeGrows(cfg, p, p', t, n, p.cand[(t, c)]);
      }
    }
    CandsKept(cfg, p, p');
    LogKept(cfg, p, p', n);
    LogsKept(cfg, p, p', n);
    AcksKept(cfg, p, p');
    CommitsKept(cfg, p, p');
  }

  /** Everything `n` acknowledged before term `t` is covered by a rank at least that of its log. */
  lemma BallotSafe(cfg: Config, p: Proto, n: NodeId, t: nat, r: Rank)
    requires Domains(cfg, p) && Reigns(cfg, p) && Acks(cfg, p) && Logs(cfg, p)
    requires n in cfg.members && (p.term[n] < t || (p.term[n] == t && t !in p.reign))
    requires AtLeast(r, RankOf(p.log[n]))
    ensures VoteSafe(p, t, n, r)
  {
    forall s: nat, q: nat | s < t && Acked(p, s, n, q)
      ensures AtLeast(r, Rank(s, q)) || Overtaken(p, s, q, t - 1)
    {
      if Has(p.log[n], s, q) {
        assert LogOk(p, n);
        RankCovers(cfg, p, p.log[n], s, q);
      } else {
        var u :| s < u <= p.term[n] && u in p.reign && !Has(p.reign[u].log, s, q);
        assert u <= t - 1;
      }
    }
  }

  /** A voter has voted and stood only in terms up to its own. */
  lemma TermBound(cfg: Config, p: Proto, t: nat, n: NodeId)
    requires Safe(cfg, p) && n in p.term
    ensures (t, n) in p.vote ==> t <= p.term[n]
    ensures (t, n) in p.cand ==> t <= p.term[n]
  {
    if (t, n) in p.vote { assert VoteOk(cfg, p, t, n); }
    if (t, n) in p.cand { assert CandOk(cfg, p, t, n); }
  }

  /** A voter starts an election in the next term. */
  ghost function Stand(p: Proto, n: NodeId): Proto
    requires n in p.term && n in p.log
  {
    var t := p.term[n] + 1;
    p.(term := p.term[n := t], cand := p.cand[(t, n) := RankOf(p.log[n])], vote := p.vote[(t, n) := n])
  }

  lemma StandSafe(cfg: Config, p: Proto, n: NodeId)
    requires Safe(cfg, p) && n in cfg.members
    ensures Safe(cfg, Stand(p, n)) && Grows(p, Stand(p, n))
    ensures (p.term[n] + 1, n) !in p.vote && (p.term[n] + 1, n) !in p.cand
  {
    var p' := Stand(p, n);
    var t := p.term[n] + 1;
    TermBound(cfg, p, t, n);
    SteadyGrows(p, p');
    ReignsKept(cfg, p, p');
    forall s: nat, m: NodeId | (s, m) in p'.vote
      ensures VoteOk(cfg, p', s, m)
    {
      if (s, m) == (t, n) {
        BallotSafe(cfg, p, n, t, RankOf(p.log[n]));
        BallotGrows(cfg, p, p', t, n, RankOf(p.log[n]));
      } else {
        VoteKept(cfg, p, p', s, m);
      }
    }
    forall s: nat, m: NodeId | (s, m) in p'.cand
      ensures CandOk(cfg, p', s, m)
    {
      if (s, m) == (t, n) {
        assert LogOk(p, n);
      } else {
        assert CandOk(cfg, p, s, m);
      }
    }
    LogKept(cfg, p, p', n);
    LogsKept(cfg, p, p', n);
    AcksKept(cfg, p, p');
    CommitsKept(cfg, p, p');
  }

  lemma BallotGrows(cfg: Config, p: Proto, p': Proto, t: nat, n: NodeId, r: Rank)
    requires p'.acked == p.acked && p'.reign == p.reign
    requires VoteSafe(p, t, n, r)
    ensures VoteSafe(p', t, n, r)
  {
    forall s: nat, q: nat | s < t && Acked(p', s, n, q)
      ensures AtLeast(r, Rank(s, q)) || Overtaken(p', s, q, t - 1)
    {
      assert Acked(p, s, n, q);
    }
  }

  /** A candidate supported by a majority starts its reign with its own log and a term no-op. */
  ghost function Elect(p: Proto, c: NodeId, supporters: set<NodeId>): Proto
    requires c in p.term && c in p.log
  {
    var t := p.term[c];
    var g := p.log[c] + [Entry(t, |p.log[c]| + 1, [])];
    p.(reign := p.reign[t := Reign(c, g, |p.log[c]|, supporters)],
       log := p.log[c := g],
       acked := p.acked[(t, c) := |g|])
  }

  lemma AckedInReign(cfg: Config, p: Proto, t: nat, n: NodeId)
    requires Acks(cfg, p)
    ensures (t, n) in p.acked ==> t in p.reign
  {
    if (t, n) in p.acked {
      assert AckOk(cfg, p, t, n);
    }
  }

  lemma ElectGrows(cfg: Config, p: Proto, c: NodeId, supporters: set<NodeId>)
    requires Domains(cfg, p) && Acks(cfg, p) && c in cfg.members && p.term[c] !in p.reign
    ensures Grows(p, Elect(p, c, supporters))
    ensures (p.term[c], c) !in p.acked
  {
    var t := p.term[c];
    var p' := Elect(p, c, supporters);
    AckedInReign(cfg, p, t, c);
    forall s: nat, m: NodeId
      ensures AckMono(p, p', s, m)
    {
    }
    forall s | s in p.reign
      ensures ReignMono(p, p', s)
    {
    }
  }

  lemma ElectShape(cfg: Config, p: Proto, c: NodeId, supporters: set<NodeId>)
    requires Domains(cfg, p) && Reigns(cfg, p) && Cands(cfg, p) && Logs(cfg, p) && Acks(cfg, p)
    requires c in cfg.members && p.term[c] !in p.reign
    requires (p.term[c], c) in p.cand && p.cand[(p.term[c], c)] == RankOf(p.log[c])
    ensures LogOk(Elect(p, c, supporters), c)
    ensures Sorted(Elect(p, c, supporters).log[c])
    ensures forall i :: 0 <= i < |p.log[c]| ==> p.log[c][i].term < p.term[c]
    ensures 1 <= p.term[c]
  {
    var t := p.term[c];
    var p' := Elect(p, c, supporters);
    var g, g' := p.log[c], p'.log[c];
    ElectGrows(cfg, p, c, supporters);
    assert CandOk(cfg, p, t, c) && LogOk(p, c);
    ShapeSorted(cfg, p, g);
    ShapeGrows(p, p', g);
    forall i | 0 <= i < |g'|
      ensures g'[i].index == i + 1 && g'[i].term in p'.reign && Agree(g', p'.reign[g'[i].term].log, i + 1)
    {
      if i < |g| {
        assert Agree(g, p'.reign[g[i].term].log, i + 1);
      }
    }
  }

  lemma ElectReign(cfg: Config, p: Proto, c: NodeId, supporters: set<NodeId>)
    requires Domains(cfg, p) && Reigns(cfg, p) && Votes(cfg, p) && Cands(cfg, p) && Logs(cfg, p) && Acks(cfg, p)
    requires c in cfg.members && p.term[c] !in p.reign
    requires (p.term[c], c) in p.cand && p.cand[(p.term[c], c)] == RankOf(p.log[c])
    requires cfg.IsQuorum(supporters) && c in supporters
    requires forall n :: n in supporters ==> (p.term[c], n) in p.vote && p.vote[(p.term[c], n)] == c
    ensures ReignOk(cfg, Elect(p, c, supporters), p.term[c])
    ensures LogOk(Elect(p, c, supporters), c)
  {
    var t := p.term[c];
    var p' := Elect(p, c, supporters);
    ElectGrows(cfg, p, c, supporters);
    ElectShape(cfg, p, c, supporters);
    assert p'.log[c][..|p.log[c]|] == p.log[c];
    forall n | n in supporters
      ensures VoteSafe(p', t, n, p'.cand[(t, c)])
    {
      assert VoteOk(cfg, p, t, n);
      VoteSafeGrows(cfg, p, p', t, n, p.cand[(t, c)]);
    }
  }

  lemma ElectSafe(cfg: Config, p: Proto, c: NodeId, supporters: set<NodeId>)
    requires Safe(cfg, p)
    requires c in cfg.members && p.term[c] !in p.reign
    requires (p.term[c], c) in p.cand && p.cand[(p.term[c], c)] == RankOf(p.log[c])
    requires cfg.IsQuorum(supporters) && c in supporters
    requires forall n :: n in supporters ==> (p.term[c], n) in p.vote && p.vote[(p.term[c], n)] == c
    ensures Safe(cfg, Elect(p, c, supporters)) && Grows(p, Elect(p, c, supporters))
  {
    hide Shape, Sorted, VoteSafe, Overtaken, Grows, VoteOk, CandOk, AckOk, Chosen, AckMono, Has, ReignOk;
    var t := p.term[c];
    var p' := Elect(p, c, supporters);
    ElectGrows(cfg, p, c, supporters);
    ElectReign(cfg, p, c, supporters);
    forall s | s in p'.reign
      ensures ReignOk(cfg, p', s)
    {
      if s != t {
        assert ReignOk(cfg, p, s);
        ReignKept(cfg, p, p', s);
      }
    }
    VotesKept(cfg, p, p');
    CandsKept(cfg, p, p');
    LogsKept(cfg, p, p', c);
    LeaderAcksKept(cfg, p, p', c);
    CommitsKept(cfg, p, p');
  }

  /** The leader's own log acknowledges itself as it grows. */
  lemma LeaderAcksKept(cfg: Config, p: Proto, p': Proto, c: NodeId)
    requires Domains(cfg, p) && Domains(cfg, p') && Acks(cfg, p) && Grows(p, p')
    requires c in cfg.members && p'.term[c] in p'.reign && p'.log[c] == p'.reign[p'.term[c]].log
    requires p'.acked == p.acked[(p'.term[c], c) := |p'.log[c]|]
    requires forall n :: n in p.log ==> n in p'.log && Agree(p.log[n], p'.log[n], |p.log[n]|)
    ensures Acks(cfg, p')
  {
    var t := p'.term[c];
    forall s, n | (s, n) in p'.acked
      ensures AckOk(cfg, p', s, n)
    {
      if (s, n) != (t, c) {
        assert AckOk(cfg, p, s, n);
        assert ReignMono(p, p', s);
      }
    }
    forall s: nat, n: NodeId, q: nat | Acked(p', s, n, q)
      ensures n in p'.log && n in p'.term
      ensures Has(p'.log[n], s, q) || Overtaken(p', s, q, p'.term[n])
    {
      if (s, n) != (t, c) {
        assert AckOk(cfg, p, s, n);
        assert ReignMono(p, p', s);
        assert Acked(p, s, n, q);
        if !Has(p.log[n], s, q) {
          OvertakenGrows(p, p', s, q, p.term[n], p'.term[n]);
        }
      }
    }
  }

  /** The leader of a term appends one entry. */
  ghost function Extend(p: Proto, c: NodeId, data: seq<Byte>): Proto
    requires c in p.term && p.term[c] in p.reign
  {
    var t := p.term[c];
    var r := p.reign[t];
    var g := r.log + [Entry(t, |r.log| + 1, data)];
    p.(reign := p.reign[t := r.(log := g)], log := p.log[c := g], acked := p.acked[(t, c) := |g|])
  }

  lemma ExtendGrows(cfg: Config, p: Proto, c: NodeId, data: seq<Byte>)
    requires Domains(cfg, p) && Acks(cfg, p) && c in cfg.members
    requires p.term[c] in p.reign && p.log[c] == p.reign[p.term[c]].log
    ensures Grows(p, Extend(p, c, data))
  {
    var t := p.term[c];
    var p' := Extend(p, c, data);
    if (t, c) in p.acked {
      assert AckOk(cfg, p, t, c);
    }
    forall s: nat, m: NodeId
      ensures AckMono(p, p', s, m)
    {
    }
    forall s | s in p.reign
      ensures ReignMono(p, p', s)
    {
    }
  }

  lemma ExtendSafe(cfg: Config, p: Proto, c: NodeId, data: seq<Byte>)
    requires Safe(cfg, p)
    requires c in cfg.members && p.term[c] in p.reign && p.log[c] == p.reign[p.term[c]].log
    ensures Safe(cfg, Extend(p, c, data)) && Grows(p, Extend(p, c, data))
  {
    hide Shape, Sorted, VoteSafe, Overtaken, Grows, VoteOk, CandOk, AckOk, Chosen, AckMono, Has;
    var t := p.term[c];
    var p' := Extend(p, c, data);
    ExtendGrows(cfg, p, c, data);
    forall s | s in p'.reign
      ensures ReignOk(cfg, p', s)
    {
      assert ReignOk(cfg, p, s);
      ReignKept(cfg, p, p', s);
    }
    VotesKept(cfg, p, p');
    CandsKept(cfg, p, p');
    assert LogOk(p', c) by {
      assert ReignOk(cfg, p', t);
    }
    LogsKept(cfg, p, p', c);
    LeaderAcksKept(cfg, p, p', c);
    CommitsKept(cfg, p, p');
  }

  /**
    A follower's log becomes a prefix of its leader's log. It may lose entries only from the first
    place where it contradicts that leader; a crash between dropping and re-adding entries is
    covered, because nothing is asked of the length that remains.
   */
  ghost predicate Adoptable(p: Proto, n: NodeId, t: nat, m: nat)
    requires n in p.log && t in p.reign
  {
    var g, r := p.log[n], p.reign[t].log;
    && m <= |r|
    && ((|g| <= m && Agree(g, r, |g|)) || exists k :: 0 <= k <= m && k < |g| && k < |r| && g[k].term != r[k].term)
  }

  ghost function Adopt(p: Proto, n: NodeId, t: nat, m: nat): Proto
    requires t in p.reign && m <= |p.reign[t].log|
  {
    p.(log := p.log[n := p.reign[t].log[..m]])
  }

  lemma AdoptAcks(cfg: Config, p: Proto, n: NodeId, m: nat)
    requires Safe(cfg, p) && n in cfg.members && p.term[n] in p.reign && Adoptable(p, n, p.term[n], m)
    ensures Acks(cfg, Adopt(p, n, p.term[n], m))
  {
    var t := p.term[n];
    var p' := Adopt(p, n, t, m);
    var g, r := p.log[n], p.reign[t].log;
    forall s, k | (s, k) in p'.acked
      ensures AckOk(cfg, p', s, k)
    {
      assert AckOk(cfg, p, s, k);
    }
    forall s: nat, k: NodeId, q: nat | Acked(p', s, k, q)
      ensures k in p'.log && k in p'.term
      ensures Has(p'.log[k], s, q) || Overtaken(p', s, q, p'.term[k])
    {
      assert AckOk(cfg, p, s, k);
      assert Acked(p, s, k, q);
      if k == n && Has(g, s, q) && !Has(p'.log[n], s, q) {
        assert LogOk(p, n) && ReignOk(cfg, p, t);
        LostIsOvertaken(p, g, r, s, q, t, m);
      }
    }
  }

  /** An entry that adoption drops is missing from the log of the leader that made it drop. */
  lemma LostIsOvertaken(p: Proto, g: seq<Entry>, r: seq<Entry>, s: nat, q: nat, t: nat, m: nat)
    requires Shape(p, g) && t in p.reign && r == p.reign[t].log && Shape(p, r) && m <= |r|
    requires (|g| <= m && Agree(g, r, |g|)) || exists k :: 0 <= k <= m && k < |g| && k < |r| && g[k].term != r[k].term
    requires forall i :: 0 <= i < |g| ==> g[i].term <= t
    requires Has(g, s, q) && !Has(r[..m], s, q)
    ensures Overtaken(p, s, q, t)
  {
    var k :| 0 <= k <= m && k < |g| && k < |r| && g[k].term != r[k].term;
    if Has(r, s, q) {
      LogMatching(p, g, r, s, q);
    }
    assert s != t by {
      assert Agree(g, p.reign[s].log, q);
    }
  }

  /** The leader of the voter's term holds what was committed in its log, so adoption keeps it. */
  lemma AdoptRetains(cfg: Config, p: Proto, n: NodeId, m: nat)
    requires Safe(cfg, p) && n in cfg.members && p.term[n] in p.reign && Adoptable(p, n, p.term[n], m)
    ensures Retains(p, Adopt(p, n, p.term[n], m))
  {
    hide Votes, Cands, Logs, Acks;
    var p' := Adopt(p, n, p.term[n], m);
    forall k, c, t | k in p.term && k in p.log && CommittedBy(p, k, c, t)
      ensures LogMono(p, p', k, c)
    {
      if k == n {
        CommitsAgree(cfg, p, t, p.term[n]);
      }
    }
  }

  lemma AdoptSafe(cfg: Config, p: Proto, n: NodeId, m: nat)
    requires Safe(cfg, p) && n in cfg.members && p.term[n] in p.reign && Adoptable(p, n, p.term[n], m)
    ensures Safe(cfg, Adopt(p, n, p.term[n], m)) && Grows(p, Adopt(p, n, p.term[n], m))
  {
    var t := p.term[n];
    var p' := Adopt(p, n, t, m);
    AdoptRetains(cfg, p, n, m);
    SteadyGrows(p, p');
    ReignsKept(cfg, p, p');
    VotesKept(cfg, p, p');
    CandsKept(cfg, p, p');
    assert LogOk(p', n) by {
      assert ReignOk(cfg, p', t);
      var r := p.reign[t].log;
      forall i | 0 <= i < m
        ensures Agree(r[..m], p'.reign[r[i].term].log, i + 1)
      {
        assert Agree(r, p'.reign[r[i].term].log, i + 1);
      }
    }
    LogsKept(cfg, p, p', n);
    AdoptAcks(cfg, p, n, m);
    CommitsKept(cfg, p, p');
  }

  /** A follower acknowledges, in its current term, a prefix it shares with the leader. */
  ghost function Acknowledge(p: Proto, n: NodeId, m: nat): Proto
    requires n in p.term
  {
    var k := (p.term[n], n);
    if k in p.acked && m <= p.acked[k] then p else p.(acked := p.acked[k := m])
  }

  lemma AcknowledgeSafe(cfg: Config, p: Proto, n: NodeId, m: nat)
    requires Safe(cfg, p) && n in cfg.members && p.term[n] in p.reign
    requires Agree(p.log[n], p.reign[p.term[n]].log, m)
    ensures Safe(cfg, Acknowledge(p, n, m)) && Grows(p, Acknowledge(p, n, m))
  {
    var t := p.term[n];
    var p' := Acknowledge(p, n, m);
    forall s: nat, k: NodeId
      ensures AckMono(p, p', s, k)
    {
    }
    assert Grows(p, p');
    ReignsKept(cfg, p, p');
    VotesKept(cfg, p, p');
    CandsKept(cfg, p, p');
    LogKept(cfg, p, p', n);
    LogsKept(cfg, p, p', n);
    AcknowledgeAcks(cfg, p, p', n, m);
    CommitsKept(cfg, p, p');
  }

  lemma AcknowledgeAcks(cfg: Config, p: Proto, p': Proto, n: NodeId, m: nat)
    requires Domains(cfg, p) && Acks(cfg, p) && n in cfg.members && p.term[n] in p.reign
    requires Agree(p.log[n], p.reign[p.term[n]].log, m)
    requires p' == p.(acked := p.acked[(p.term[n], n) := m]) || p' == p
    ensures Acks(cfg, p')
  {
    forall s, k | (s, k) in p'.acked
      ensures AckOk(cfg, p', s, k)
    {
      if (s, k) in p.acked {
        assert AckOk(cfg, p, s, k);
      }
    }
    forall s: nat, k: NodeId, q: nat | Acked(p', s, k, q)
      ensures k in p'.log && k in p'.term
      ensures Has(p'.log[k], s, q) || Overtaken(p', s, q, p'.term[k])
    {
      if Acked(p, s, k, q) {
      } else {
        assert (s, k) == (p.term[n], n) && q <= m;
      }
    }
  }

  /** The leader of term `t` counts a majority for index `q`. */
  ghost function Commit(p: Proto, t: nat, q: nat): Proto {
    if t in p.commits && q <= p.commits[t] then p else p.(commits := p.commits[t := q])
  }

  lemma CommitSafe(cfg: Config, p: Proto, t: nat, q: nat)
    requires Safe(cfg, p) && Chosen(cfg, p, t, q)
    ensures Safe(cfg, Commit(p, t, q)) && Grows(p, Commit(p, t, q))
  {
    var p' := Commit(p, t, q);
    if p' != p {
      forall s: nat, k: NodeId
        ensures AckMono(p, p', s, k)
      {
      }
      assert Grows(p, p');
      ReignsKept(cfg, p, p');
      VotesKept(cfg, p, p');
      CandsKept(cfg, p, p');
      if cfg.members != [] {
        LogKept(cfg, p, p', cfg.members[0]);
        LogsKept(cfg, p, p', cfg.members[0]);
      }
      AcksKept(cfg, p, p');
      forall s | s in p'.commits
        ensures Chosen(cfg, p', s, p'.commits[s])
      {
        if s != t {
          assert Chosen(cfg, p, s, p.commits[s]);
        }
        ChosenGrows(cfg, p, p', s, p'.commits[s]);
      }
    }
  }
}
