/**
  What a voter does for others: when it grants a vote, what an accepted append teaches it, when a
  leader commits and when a read is served. Safety bounds these from above; here they are pinned from
  below, first for any voter and any message, then for every run.
 */
module RaftAnswers {
  import opened Basics
  import opened RaftTypes
  import opened RaftProtocol
  import opened RaftVoter
  import opened RaftInvariant
  import opened RaftElection
  import opened RaftProgress
  import opened RaftCluster
  import opened RaftSafety

  /** The message is one this voter listens to. */
  ghost predicate Heard(cfg: Config, v: Voter, env: Envelope) {
    env.to == v.me && env.from in cfg.members
  }

  // ---------------------------------------------------------------------------
  // Votes
  // ---------------------------------------------------------------------------

  /** The candidate's log is at least as up to date, and no one else has this term's vote. */
  ghost predicate Deserves(v: Voter, from: NodeId, term: nat, lastIndex: nat, lastTerm: nat) {
    && term >= v.term
    && (lastTerm > LastTerm(v) || (lastTerm == LastTerm(v) && lastIndex >= LastIndex(v)))
    && (term > v.term || v.votedFor == None || v.votedFor == Some(from))
  }

  /** A vote request moves the voter to its term, is granted exactly when deserved, and is always answered. */
  lemma VoteAnswered(cfg: Config, v: Voter, env: Envelope)
    requires cfg.members != [] && Heard(cfg, v, env) && env.msg.RequestVote?
    ensures var m := env.msg;
            var yes := Deserves(v, env.from, m.term, m.lastLogIndex, m.lastLogTerm);
            var w := Step(cfg, v, env).voter;
            && w.term == Max(v.term, m.term)
            && w.votedFor == (if yes then Some(env.from) else if m.term > v.term then None else v.votedFor)
            && (w.term != v.term || w.votedFor != v.votedFor ==>
                  w.disk == v.disk.(term := w.term, votedFor := w.votedFor))
            && w.outbox == v.outbox + [Envelope(v.me, env.from, RequestVoteReply(w.term, yes))]
            && w.role == (if m.term > v.term then Follower else v.role)
            && w.log == v.log && w.commitIndex == v.commitIndex
  {
    hide LastIndex, LastTerm;
    SameEnd(v, BecomeFollower(v, env.msg.term, None));
  }

  lemma SameEnd(v: Voter, w: Voter)
    requires w.log == v.log && w.snapshotIndex == v.snapshotIndex && w.snapshotTerm == v.snapshotTerm
    ensures LastIndex(w) == LastIndex(v) && LastTerm(w) == LastTerm(v)
  {
  }

  /** A candidate takes office exactly when a granted vote of its term completes a quorum. */
  lemma VoteCounted(cfg: Config, v: Voter, env: Envelope)
    requires cfg.members != [] && Heard(cfg, v, env) && env.msg.RequestVoteReply?
    ensures var m := env.msg;
            var w := Step(cfg, v, env).voter;
            var counts := v.role == Candidate && m.term == v.term && m.granted;
            && w.term == Max(v.term, m.term)
            && (w.role == Leader && v.role != Leader <==> counts && |v.votes + {env.from}| >= cfg.Quorum())
            && (counts ==> w.votes == v.votes + {env.from})
            && (m.term > v.term ==> w.role == Follower && w.votedFor == None)
            && (m.term <= v.term && !counts ==> w == v)
  {
    hide LastIndex, Broadcast, Fill;
    var w := InitPeers(cfg, v.(votes := v.votes + {env.from}, role := Leader, leader := Some(v.me)));
    BroadcastKeeps(AppendLocal(w, []), cfg.members, 0);
  }

  lemma {:induction false} BroadcastKeeps(v: Voter, peers: seq<NodeId>, round: nat)
    ensures Broadcast(v, peers, round) == v.(outbox := Broadcast(v, peers, round).outbox)
    decreases |peers|
  {
    hide AppendMessage;
    if peers != [] {
      BroadcastKeeps(if peers[0] == v.me then v else SendAppend(v, peers[0], round), peers[1..], round);
    }
  }

  // ---------------------------------------------------------------------------
  // Appends
  // ---------------------------------------------------------------------------

  /** The entry before the message's entries is one the voter has, or there is none before them. */
  ghost predicate PrevHeld(v: Voter, m: Message)
    requires m.AppendEntries?
  {
    m.prevLogIndex == 0 || (m.prevLogIndex <= LastIndex(v) && TermAt(v, m.prevLogIndex) == m.prevLogTerm)
  }

  /** The last index the message speaks for. */
  ghost function Reach(m: Message): nat
    requires m.AppendEntries?
  {
    if m.entries == [] then m.prevLogIndex else m.entries[|m.entries| - 1].index
  }

  /** How a commit index follows the leader's, as far as the message reaches. */
  ghost predicate Learns(before: nat, after: nat, leaderCommit: nat, reach: nat) {
    && after >= before
    && (leaderCommit <= after || reach <= after)
    && (after == before || (after <= leaderCommit && after <= reach))
  }

  lemma SpliceKeeps(v: Voter, entries: seq<Entry>, s: Scan)
    requires s.Splice? ==> s.at < |entries|
    ensures var w := SpliceIn(v, entries, s); w == v.(log := w.log, disk := w.disk)
  {
  }

  lemma HeedKeeps(v: Voter, from: NodeId, term: nat)
    requires term >= v.term
    ensures var w := Acknowledges(v, from, term);
            && w.term == term && w.role == Follower && w.leader == Some(from)
            && w.log == v.log && w.snapshotIndex == v.snapshotIndex && w.snapshotTerm == v.snapshotTerm
            && w.commitIndex == v.commitIndex && w.outbox == v.outbox && w.applied == v.applied && w.me == v.me
  {
  }

  lemma SameLog(v: Voter, w: Voter, i: nat)
    requires w.log == v.log && w.snapshotIndex == v.snapshotIndex && w.snapshotTerm == v.snapshotTerm
    ensures LastIndex(w) == LastIndex(v) && TermAt(w, i) == TermAt(v, i)
  {
  }

  /** The answer to an append, and what it does to the commit index. */
  ghost predicate Answers(v: Voter, w: Voter, from: NodeId, m: Message, success: bool, at: nat)
    requires m.AppendEntries?
  {
    w.outbox == v.outbox + [Envelope(v.me, from, AppendEntriesReply(w.term, success, at, m.readRound, v.applied))]
  }

  lemma StaleAppend(cfg: Config, v: Voter, env: Envelope)
    requires cfg.members != [] && Heard(cfg, v, env) && env.msg.AppendEntries? && env.msg.term < v.term
    ensures var r := Step(cfg, v, env);
            && r.error == None && r.voter == v.(outbox := r.voter.outbox)
            && Answers(v, r.voter, env.from, env.msg, false, LastIndex(v))
  {
  }

  /** An append that does not connect makes its sender the leader and is answered with a lower index. */
  lemma MismatchedAppend(cfg: Config, v: Voter, env: Envelope)
    requires cfg.members != [] && Heard(cfg, v, env) && env.msg.AppendEntries?
    requires env.msg.term >= v.term && !PrevHeld(v, env.msg)
    ensures var r, w := Step(cfg, v, env), Step(cfg, v, env).voter;
            && r.error == None && w.term == env.msg.term && w.role == Follower && w.leader == Some(env.from)
            && w.log == v.log && w.commitIndex == v.commitIndex
            && exists hint: nat ::
                 && Answers(v, w, env.from, env.msg, false, hint)
                 && v.snapshotIndex <= hint
                 && (hint > v.snapshotIndex ==> hint < env.msg.prevLogIndex && hint <= LastIndex(v))
                 && (env.msg.prevLogIndex <= hint + 1 || LastIndex(v) <= hint)
  {
    hide ScanFrom, TermAt, LastIndex, Acknowledges;
    var m := env.msg;
    var w := Acknowledges(v, env.from, m.term);
    HeedKeeps(v, env.from, m.term);
    SameLog(v, w, m.prevLogIndex);
    assert Answers(v, Step(cfg, v, env).voter, env.from, m, false, Hint(w, m.prevLogIndex));
  }

  /**
    An accepted append teaches the follower everything the leader has committed, as far as the message
    reaches, and nothing beyond; the answer says how far that is.
   */
  lemma AcceptedAppend(cfg: Config, v: Voter, env: Envelope)
    requires cfg.members != [] && Heard(cfg, v, env) && env.msg.AppendEntries?
    requires env.msg.term >= v.term && PrevHeld(v, env.msg) && Step(cfg, v, env).error == None
    ensures var m, w := env.msg, Step(cfg, v, env).voter;
            && w.term == m.term && w.role == Follower && w.leader == Some(env.from)
            && Learns(v.commitIndex, w.commitIndex, m.leaderCommit, Reach(m))
            && Answers(v, w, env.from, m, true, Reach(m))
  {
    hide ScanFrom, TermAt, LastIndex, Acknowledges, SpliceIn;
    var m := env.msg;
    var w := Acknowledges(v, env.from, m.term);
    HeedKeeps(v, env.from, m.term);
    SameLog(v, w, m.prevLogIndex);
    if !ScanFrom(w, m.entries, 0).Refused? {
      SpliceKeeps(w, m.entries, ScanFrom(w, m.entries, 0));
    }
  }

  // ---------------------------------------------------------------------------
  // Followers learn, in every run
  // ---------------------------------------------------------------------------

  /** Index `i` is behind the delivery mark, or its entry comes with the next delivery. */
  ghost predicate Served(w: Voter, i: nat) {
    i <= w.lastDelivered || exists e :: e in Deliveries(w) && e.index == i && EntryAt(w, i) == Some(e)
  }

  lemma CommitServed(cfg: Config, h: Hist, w: Voter, i: nat)
    requires HistOk(cfg, h) && VoterOk(cfg, h, w) && 0 < i <= w.commitIndex
    ensures Served(w, i)
  {
    hide HistOk, VoterOk, Deliveries, View;
    TakenExactly(cfg, h, w);
    BaseDelivered(cfg, h, w);
    if i > w.lastDelivered {
      var g := h.p.log[w.me];
      ViewAt(w, g, i);
      ViewIndex(w, g, i);
      assert Deliveries(w)[i - 1 - w.lastDelivered] == g[i - 1];
      assert g[i - 1] in Deliveries(w);
    }
  }

  lemma ViewIndex(v: Voter, full: seq<Entry>, i: nat)
    requires View(v, full) && 0 < i <= |full|
    ensures full[i - 1].index == i
  {
  }

  /**
    In every run: once a follower has taken in an append that connects to its log, everything its
    leader had committed, as far as the message reaches, is delivered or about to be.
   */
  lemma FollowersLearn(cfg: Config, evs: seq<Event>, env: Envelope, i: nat)
    requires cfg.Valid() && cfg.members != [] && env in Run(cfg, evs).net && IsUp(Run(cfg, evs), env.to)
    requires env.from in cfg.members && env.msg.AppendEntries?
    requires env.msg.term >= Run(cfg, evs).nodes[env.to].voter.term
    requires PrevHeld(Run(cfg, evs).nodes[env.to].voter, env.msg)
    requires 0 < i && i <= env.msg.leaderCommit && i <= Reach(env.msg)
    ensures IsUp(Run(cfg, evs + [Deliver(env)]), env.to)
    ensures Served(Run(cfg, evs + [Deliver(env)]).nodes[env.to].voter, i)
  {
    hide Run, Step, Served, PrevHeld, ClusterOk, VoterOk, HistOk;
    var c, all := Run(cfg, evs), evs + [Deliver(env)];
    assert all[..|evs|] == evs && all[|evs|] == Deliver(env);
    RunLast(cfg, all);
    var h := ReachableOk(cfg, evs);
    UpVoter(cfg, h, c, env.to);
    NoCorruption(cfg, evs, env.to, env);
    AcceptedAppend(cfg, c.nodes[env.to].voter, env);
    var h' := ReachableOk(cfg, all);
    DeliverNext(cfg, c, env);
    UpVoter(cfg, h', Run(cfg, all), env.to);
    CommitServed(cfg, h', Run(cfg, all).nodes[env.to].voter, i);
  }

  lemma RunLast(cfg: Config, evs: seq<Event>)
    requires cfg.members != [] && evs != []
    ensures Run(cfg, evs) == Next(cfg, Run(cfg, evs[..|evs| - 1]), evs[|evs| - 1])
  {
    hide Next;
  }

  lemma DeliverNext(cfg: Config, c: Cluster, env: Envelope)
    requires cfg.members != [] && env in c.net && IsUp(c, env.to)
    ensures Next(cfg, c, Deliver(env)).nodes == c.nodes[env.to := Up(Step(cfg, c.nodes[env.to].voter, env).voter)]
  {
    hide Step;
  }

  // ---------------------------------------------------------------------------
  // Leaders commit
  // ---------------------------------------------------------------------------

  lemma {:induction false} RankReached(s: seq<nat>, k: nat, i: nat)
    requires Descending(s) && 1 <= k <= |s| && CountGe(s, i) >= k
    ensures s[k - 1] >= i
  {
    if s[0] < i {
      CountNone(s, i);
    } else if k > 1 {
      RankReached(s[1..], k - 1, i);
      assert s[1..][k - 2] == s[k - 1];
    }
  }

  lemma {:induction false} CountNone(s: seq<nat>, i: nat)
    requires Descending(s) && (s == [] || s[0] < i)
    ensures CountGe(s, i) == 0
  {
    if s != [] {
      CountNone(s[1..], i);
    }
  }

  /** The commit rule picks an index at least as high as any a quorum holds. */
  lemma QuorumCounts(cfg: Config, v: Voter, q: set<NodeId>, i: nat)
    requires cfg.Valid() && cfg.members != [] && cfg.IsQuorum(q) && forall m :: m in q ==> MatchOf(v, m) >= i
    ensures SortDesc(Matches(v, cfg.members))[cfg.Quorum() - 1] >= i
  {
    hide MatchOf, SortDesc, Matches;
    var s := Matches(v, cfg.members);
    var holders := set m | m in cfg.members && MatchOf(v, m) >= i;
    CountIsCardinality(v, cfg.members, i, holders);
    assert q <= holders;
    SubsetCount(q, holders);
    SortCounts(s, i);
    RankReached(SortDesc(s), cfg.Quorum(), i);
  }

  lemma {:induction false} RankMember(s: seq<nat>, k: nat)
    requires k < |s|
    ensures SortDesc(s)[k] in s
  {
    SortMembers(s);
    assert SortDesc(s)[k] in SortDesc(s);
  }

  lemma {:induction false} SortMembers(s: seq<nat>)
    ensures forall x :: x in SortDesc(s) ==> x in s
  {
    if s != [] {
      SortMembers(s[1..]);
      SortCounts(s[1..], 0);
      InsertSorts(s[0], SortDesc(s[1..]), 0);
    }
  }

  lemma {:induction false} MatchMembers(v: Voter, members: seq<NodeId>, x: nat)
    requires x in Matches(v, members)
    ensures exists m :: m in members && MatchOf(v, m) == x
  {
    hide MatchOf;
    if MatchOf(v, members[0]) == x {
      assert members[0] in members;
    } else {
      MatchMembers(v, members[1..], x);
    }
  }

  /** The index the commit rule looks at. */
  ghost function Pivot(cfg: Config, v: Voter): nat
    requires cfg.members != []
  {
    SortDesc(Matches(v, cfg.members))[cfg.Quorum() - 1]
  }

  lemma {:induction false} SameMatches(v: Voter, w: Voter, members: seq<NodeId>)
    requires v.matchIndex == w.matchIndex
    ensures Matches(v, members) == Matches(w, members)
  {
    if members != [] {
      SameMatches(v, w, members[1..]);
    }
  }

  /** After a success the commit index has reached the pivot, unless the entry there is of an older term. */
  lemma SuccessCommits(cfg: Config, v: Voter, from: NodeId, at: nat, round: nat)
    requires cfg.members != []
    ensures var w := OnSuccess(cfg, v, from, at, round);
            && w.commitIndex >= v.commitIndex && w.log == v.log && w.term == v.term && w.role == v.role && w.me == v.me
            && w.snapshotIndex == v.snapshotIndex && w.snapshotTerm == v.snapshotTerm
            && (Pivot(cfg, w) <= w.commitIndex || TermAt(w, Pivot(cfg, w)) != w.term)
  {
    hide TermAt, LastIndex, AppendMessage, AckReads, DoneReads, KeepReads, SortDesc, Matches;
    var u := v.(matchIndex := if at > MatchOf(v, from) then v.matchIndex[from := at] else v.matchIndex,
                nextIndex := v.nextIndex[from := at + 1]);
    var w := OnSuccess(cfg, v, from, at, round);
    SameMatches(u, w, cfg.members);
    SameLog(u, w, Pivot(cfg, w));
  }

  /** In a reachable leader, every index up to the pivot and from its first own entry on is of its term. */
  lemma PivotTerm(cfg: Config, h: Hist, w: Voter, i: nat)
    requires HistOk(cfg, h) && VoterOk(cfg, h, w) && w.role == Leader && cfg.members != []
    requires TermAt(w, i) == w.term && i <= Pivot(cfg, w)
    ensures TermAt(w, Pivot(cfg, w)) == w.term
  {
    hide Safe, View, StoreOk, Committed, CandidateOk, AppliedOk, BarriersOk, OutboxOk, SortDesc, Matches, MatchOf,
         TermAt;
    HistSafe(cfg, h);
    MemberOf(cfg, h, w);
    VoterView(cfg, h, w);
    ReignTerm(cfg, h.p, w.term);
    var g, q := h.p.log[w.me], Pivot(cfg, w);
    RankMember(Matches(w, cfg.members), cfg.Quorum() - 1);
    MatchMembers(w, cfg.members, q);
    var m :| m in cfg.members && MatchOf(w, m) == q;
    AckBound(cfg, h.p, w.term, m);
    ViewAt(w, g, i);
    ViewAt(w, g, q);
    OwnTail(cfg, h.p, w.term, i, q);
  }

  lemma AckBound(cfg: Config, p: Proto, t: nat, m: NodeId)
    requires Safe(cfg, p) && t in p.reign
    ensures AckedUpTo(p, t, m) <= |p.reign[t].log|
  {
    if (t, m) in p.acked {
      assert RaftProtocol.AckOk(cfg, p, t, m);
    }
  }

  lemma OwnTail(cfg: Config, p: Proto, t: nat, i: nat, q: nat)
    requires Safe(cfg, p) && t in p.reign && 0 < i <= q <= |p.reign[t].log| && p.reign[t].log[i - 1].term == t
    ensures p.reign[t].log[q - 1].term == t
  {
    assert ReignOk(cfg, p, t);
  }

  /** A success reply of the leader's own term. */
  ghost predicate Acknowledged(c: Cluster, env: Envelope) {
    && env in c.net && Leads(c, env.to) && env.msg.AppendEntriesReply? && env.msg.success
    && env.msg.term == c.nodes[env.to].voter.term
  }

  /**
    In every run: when a leader has counted an acknowledgement, every entry of its term that a quorum is
    known to hold is committed.
   */
  lemma LeadersCommit(cfg: Config, evs: seq<Event>, env: Envelope, q: set<NodeId>, i: nat)
    requires cfg.Valid() && cfg.members != [] && env.from in cfg.members && Acknowledged(Run(cfg, evs), env)
    requires cfg.IsQuorum(q) && IsUp(Run(cfg, evs + [Deliver(env)]), env.to)
    requires var w := Run(cfg, evs + [Deliver(env)]).nodes[env.to].voter;
             TermAt(w, i) == w.term && forall m :: m in q ==> MatchOf(w, m) >= i
    ensures i <= Run(cfg, evs + [Deliver(env)]).nodes[env.to].voter.commitIndex
  {
    hide Run, OnSuccess, ClusterOk, VoterOk, HistOk, MatchOf, TermAt, SortDesc, Matches;
    var c, all := Run(cfg, evs), evs + [Deliver(env)];
    assert all[..|evs|] == evs && all[|evs|] == Deliver(env);
    RunLast(cfg, all);
    DeliverNext(cfg, c, env);
    var h := ReachableOk(cfg, evs);
    UpVoter(cfg, h, c, env.to);
    var v, w := c.nodes[env.to].voter, Run(cfg, all).nodes[env.to].voter;
    var u := v.(peerApplied := v.peerApplied[env.from := Max(KnownApplied(v, env.from), env.msg.appliedIndex)]);
    assert w == OnSuccess(cfg, u, env.from, env.msg.matchIndex, env.msg.readRound);
    SuccessCommits(cfg, u, env.from, env.msg.matchIndex, env.msg.readRound);
    QuorumCounts(cfg, w, q, i);
    var h' := ReachableOk(cfg, all);
    UpVoter(cfg, h', Run(cfg, all), env.to);
    PivotTerm(cfg, h', w, i);
  }

  // ---------------------------------------------------------------------------
  // A sole voter
  // ---------------------------------------------------------------------------

  /** Nothing is sent, nothing is committed. */
  ghost predicate Mute(c: Cluster) {
    c.net == {} && forall n :: IsUp(c, n) ==> c.nodes[n].voter.commitIndex == 0 && c.nodes[n].voter.outbox == []
  }

  /** Who broadcasts or solicits during a local event, and in which state. */
  lemma MuteVoter(cfg: Config, v: Voter, ev: Event)
    requires cfg.members == [v.me] && v.commitIndex == 0 && v.outbox == [] && !ev.Deliver?
    ensures VoterNext(cfg, v, ev).commitIndex == 0 && VoterNext(cfg, v, ev).outbox == []
    ensures VoterNext(cfg, v, ev).me == v.me
  {
    hide LastIndex, LastTerm, TermAt, Deliveries, Fill, Broadcast, Solicit;
    match ev
    case TickNode(_, _) =>
      AloneSends(v, 0);
      var w := StandForElection(v).(role := Candidate, leader := None, votes := {v.me});
      AloneSends(w, 0);
      AloneSends(AppendLocal(InitPeers(cfg, w.(role := Leader, leader := Some(v.me))), []), 0);
    case ProposeAt(_, data) => AloneSends(AppendLocal(v, data), 0);
    case BarrierAt(_) =>
      var round := v.readRound + 1;
      var asked := PendingRead(round, v.commitIndex, {v.me});
      AloneSends(v.(readRound := round, pendingReads := v.pendingReads + [asked]), round);
    case _ =>
  }

  lemma AloneSends(v: Voter, round: nat)
    ensures Broadcast(v, [v.me], round) == v && Solicit(v, [v.me]) == v
  {
    assert [v.me][1..] == [];
  }

  /**
    A cluster of one voter elects it, and its log is a quorum's, but commits are only counted when an
    acknowledgement arrives, and it sends none to itself: nothing is ever committed.
   */
  lemma {:induction false} SoleVoterNeverCommits(cfg: Config, evs: seq<Event>, n: NodeId)
    requires cfg.members == [n]
    ensures Mute(Run(cfg, evs))
    ensures forall m :: m in Run(cfg, evs).nodes ==>
                          m == n && (IsUp(Run(cfg, evs), m) ==> Run(cfg, evs).nodes[m].voter.me == n)
  {
    hide Next, VoterNext, Boot;
    if evs == [] {
      MuteStart(cfg, n);
    } else {
      SoleVoterNeverCommits(cfg, evs[..|evs| - 1], n);
      MuteNext(cfg, Run(cfg, evs[..|evs| - 1]), evs[|evs| - 1], n);
    }
  }

  lemma MuteStart(cfg: Config, n: NodeId)
    requires cfg.members == [n]
    ensures Mute(Init(cfg))
    ensures forall m :: m in Init(cfg).nodes ==>
                          m == n && Init(cfg).nodes[m].Up? && Init(cfg).nodes[m].voter.me == n
  {
  }

  lemma MuteNext(cfg: Config, c: Cluster, ev: Event, n: NodeId)
    requires cfg.members == [n] && Mute(c)
    requires forall m :: m in c.nodes ==> m == n && (IsUp(c, m) ==> c.nodes[m].voter.me == n)
    ensures var d := Next(cfg, c, ev);
            Mute(d) && forall m :: m in d.nodes ==> m == n && (IsUp(d, m) ==> d.nodes[m].voter.me == n)
  {
    hide VoterNext, MidStep;
    var k := Actor(ev);
    if IsUp(c, k) && !ev.Deliver? {
      MuteVoter(cfg, c.nodes[k].voter, ev);
    }
  }

  // ---------------------------------------------------------------------------
  // What is sent
  // ---------------------------------------------------------------------------

  lemma InPrefix(a: seq<Envelope>, b: seq<Envelope>)
    requires a <= b
    ensures forall e :: e in a ==> e in b
  {
    assert forall i :: 0 <= i < |a| ==> a[i] == b[i];
  }

  lemma {:induction false} SolicitSends(v: Voter, peers: seq<NodeId>, m: NodeId)
    ensures var w := Solicit(v, peers);
            && w == v.(outbox := w.outbox) && v.outbox <= w.outbox
            && (m in peers && m != v.me ==>
                Envelope(v.me, m, RequestVote(v.term, LastIndex(v), LastTerm(v))) in w.outbox)
    decreases |peers|
  {
    if peers != [] {
      var ask := RequestVote(v.term, LastIndex(v), LastTerm(v));
      var u := if peers[0] == v.me then v else Send(v, peers[0], ask);
      SolicitSends(u, peers[1..], m);
      InPrefix(u.outbox, Solicit(u, peers[1..]).outbox);
    }
  }

  lemma SameAppend(v: Voter, outbox: seq<Envelope>, next: nat, round: nat)
    requires next > v.snapshotIndex
    ensures AppendMessage(v.(outbox := outbox), next, round) == AppendMessage(v, next, round)
  {
  }

  lemma {:induction false} BroadcastSends(v: Voter, peers: seq<NodeId>, m: NodeId, round: nat)
    ensures var w := Broadcast(v, peers, round);
            && w == v.(outbox := w.outbox) && v.outbox <= w.outbox
            && (m in peers && m != v.me && NextFor(v, m) > v.snapshotIndex ==>
                Envelope(v.me, m, AppendMessage(v, NextFor(v, m), round)) in w.outbox)
    decreases |peers|
  {
    hide AppendMessage;
    if peers != [] {
      var u := if peers[0] == v.me then v else SendAppend(v, peers[0], round);
      if NextFor(v, m) > v.snapshotIndex {
        SameAppend(v, u.outbox, NextFor(v, m), round);
      }
      BroadcastSends(u, peers[1..], m, round);
      InPrefix(u.outbox, Broadcast(u, peers[1..], round).outbox);
    }
  }
}
