/**
  A run on which the simulator's leader completeness check fails although nothing went wrong:
  voter 1 leads term 1 and hears no more; voters 2 and 3 elect voter 2 in term 2, which commits and
  applies its first entry and crashes. The newest live leader is then voter 1.
 */
module RaftStale {
  import opened Basics
  import opened RaftTypes
  import opened RaftVoter
  import opened RaftCluster
  import opened RaftAnswers
  import opened RaftServing
  import opened RaftApplied
  import opened RaftChecks

  const TRIO := Config([1, 2, 3])

  // ---------------------------------------------------------------------------
  // Single steps
  // ---------------------------------------------------------------------------

  /** A voter that has stored nothing but a term and a vote. */
  function Blank(n: NodeId, term: nat, vote: Option<NodeId>): Voter {
    Boot(n, Persistent(term, vote, [], 0, 0))
  }

  function Running(n: NodeId, term: nat): Voter {
    Blank(n, term, Some(n)).(role := Candidate, votes := {n})
  }

  lemma Stands(n: NodeId, term: nat, vote: Option<NodeId>, m: NodeId)
    requires n in TRIO.members && m in TRIO.members && m != n
    ensures var w := Tick(TRIO, Blank(n, term, vote), true);
            w == Running(n, term + 1).(outbox := w.outbox)
            && Envelope(n, m, RequestVote(term + 1, 0, 0)) in w.outbox
  {
    hide Solicit, BecomeLeader;
    SolicitSends(Running(n, term + 1), TRIO.members, m);
  }

  lemma Grants(n: NodeId, term: nat, vote: Option<NodeId>, m: NodeId, t: nat)
    requires m in TRIO.members && t > term
    ensures Step(TRIO, Blank(n, term, vote), Envelope(m, n, RequestVote(t, 0, 0))).voter
            == Blank(n, t, Some(m)).(outbox := [Envelope(n, m, RequestVoteReply(t, true))])
  {
  }

  /** A leader of term `t` that holds only the entry it started with. */
  ghost predicate Inaugurated(w: Voter, n: NodeId, t: nat) {
    && w.me == n && w.term == t && w.role == Leader && w.log == [Entry(t, 1, [])]
    && w.snapshotIndex == 0 && w.commitIndex == 0 && w.lastDelivered == 0
    && forall m :: m in TRIO.members ==> MatchOf(w, m) == if m == n then 1 else 0
  }

  lemma FirstAppend(w: Voter, n: NodeId, t: nat)
    requires Inaugurated(w, n, t) && w.snapshotTerm == 0
    ensures AppendMessage(w, 1, 0) == AppendEntries(t, 0, 0, [Entry(t, 1, [])], 0, 0)
  {
  }

  lemma Wins(n: NodeId, t: nat, m: NodeId)
    requires n in TRIO.members && m in TRIO.members && m != n
    ensures var w := Step(TRIO, Running(n, t), Envelope(m, n, RequestVoteReply(t, true))).voter;
            Inaugurated(w, n, t)
            && Envelope(n, m, AppendEntries(t, 0, 0, [Entry(t, 1, [])], 0, 0)) in w.outbox
  {
    hide Step, NextFor, MatchOf, AppendMessage;
    var v, env := Running(n, t), Envelope(m, n, RequestVoteReply(t, true));
    assert |{n} + {m}| == 2;
    OfficeTaken(TRIO, v, env);
    FirstAppend(Step(TRIO, v, env).voter, n, t);
  }

  lemma Follows(n: NodeId, t: nat, m: NodeId)
    requires m in TRIO.members && t >= 1
    ensures Envelope(n, m, AppendEntriesReply(t, true, 1, 0, 0))
            in Step(TRIO, Blank(n, t, Some(m)),
                    Envelope(m, n, AppendEntries(t, 0, 0, [Entry(t, 1, [])], 0, 0))).voter.outbox
    ensures Step(TRIO, Blank(n, t, Some(m)),
                 Envelope(m, n, AppendEntries(t, 0, 0, [Entry(t, 1, [])], 0, 0))).voter.role == Follower
  {
    var v := Acknowledges(Blank(n, t, Some(m)), m, t);
    assert ScanFrom(v, [Entry(t, 1, [])], 0) == Splice(0, false);
  }

  lemma Commits(w: Voter, t: nat)
    requires Inaugurated(w, 2, t) && t >= 1
    ensures var x := Step(TRIO, w.(outbox := []), Envelope(3, 2, AppendEntriesReply(t, true, 1, 0, 0))).voter;
            Deliveries(x) == [Entry(t, 1, [])] && x.snapshotIndex == 0 && LastIndex(x) == 1 && x.lastDelivered == 0
  {
    hide Deliveries, Matches, SortDesc, AppendMessage, EntryAt;
    var v := w.(outbox := [], peerApplied := w.peerApplied[3 := Max(KnownApplied(w, 3), 0)],
                matchIndex := w.matchIndex[3 := 1], nextIndex := w.nextIndex[3 := 2]);
    assert 1 in TRIO.members && 2 in TRIO.members && 3 in TRIO.members;
    Majority(v);
    FirstEntry(v, t);
    FirstEntry(v.(commitIndex := 1), t);
  }

  lemma FirstEntry(v: Voter, t: nat)
    requires v.log == [Entry(t, 1, [])] && v.snapshotIndex == 0 && v.lastDelivered == 0
    ensures TermAt(v, 1) == t && LastIndex(v) == 1
    ensures v.commitIndex == 1 ==> Deliveries(v) == [Entry(t, 1, [])]
  {
  }

  lemma Majority(v: Voter)
    requires MatchOf(v, 1) == 0 && MatchOf(v, 2) == 1 && MatchOf(v, 3) == 1
    ensures SortDesc(Matches(v, TRIO.members))[TRIO.Quorum() - 1] == 1
  {
    assert TRIO.members[1..] == [2, 3] && [2, 3][1..] == [3];
    assert Matches(v, [3]) == [1];
    assert Matches(v, [2, 3]) == [1, 1];
    assert Matches(v, TRIO.members) == [0, 1, 1];
    assert SortDesc([1]) == [1];
    assert [1, 1][1..] == [1] && [0, 1, 1][1..] == [1, 1];
    assert SortDesc([1, 1]) == [1, 1];
    assert Insert(0, [1, 1]) == [1, 1, 0];
  }

  // ---------------------------------------------------------------------------
  // The run
  // ---------------------------------------------------------------------------

  /** A voter hands its messages to the network, and one of them arrives. */
  function Exchange(env: Envelope): seq<Event> {
    [DrainOutbox(env.from), Deliver(env)]
  }

  /** Voter `n` stands in term `t` and wins with the vote of `m`. */
  function Election(n: NodeId, m: NodeId, t: nat): seq<Event> {
    [TickNode(n, true)] + Exchange(Envelope(n, m, RequestVote(t, 0, 0)))
    + Exchange(Envelope(m, n, RequestVoteReply(t, true)))
  }

  /** Voter `n` gets its first entry to `m` and hears that it arrived. */
  function Replication(n: NodeId, m: NodeId, t: nat): seq<Event> {
    Exchange(Envelope(n, m, AppendEntries(t, 0, 0, [Entry(t, 1, [])], 0, 0)))
    + Exchange(Envelope(m, n, AppendEntriesReply(t, true, 1, 0, 0)))
  }

  function Opening(): seq<Event> {
    Election(1, 2, 1) + Election(2, 3, 2) + Replication(2, 3, 2)
  }

  function StaleRun(): seq<Event> {
    Opening() + [TakeEntries(2), ReportApplied(2, 1), Crash(2)]
  }

  lemma RunNext(evs: seq<Event>, ev: Event)
    ensures Run(TRIO, evs + [ev]) == Next(TRIO, Run(TRIO, evs), ev)
  {
    var all := evs + [ev];
    assert all[..|all| - 1] == evs && all[|all| - 1] == ev;
  }

  lemma Exchanged(evs: seq<Event>, env: Envelope)
    requires env.from != env.to && IsUp(Run(TRIO, evs), env.from) && IsUp(Run(TRIO, evs), env.to)
    requires env in Run(TRIO, evs).nodes[env.from].voter.outbox
    ensures var nodes := Run(TRIO, evs).nodes;
            Run(TRIO, evs + Exchange(env)).nodes
            == nodes[env.from := Up(TakeOutbox(nodes[env.from].voter))]
                    [env.to := Up(Step(TRIO, nodes[env.to].voter, env).voter)]
  {
    hide Run, Step;
    assert evs + Exchange(env) == evs + [DrainOutbox(env.from)] + [Deliver(env)];
    RunNext(evs, DrainOutbox(env.from));
    RunNext(evs + [DrainOutbox(env.from)], Deliver(env));
  }

  lemma Elected(evs: seq<Event>, n: NodeId, m: NodeId, vote: Option<NodeId>, t: nat, s: nat, other: Option<NodeId>)
    requires n in TRIO.members && m in TRIO.members && m != n && s <= t
    requires n in Run(TRIO, evs).nodes && Run(TRIO, evs).nodes[n] == Up(Blank(n, t, vote))
    requires m in Run(TRIO, evs).nodes && Run(TRIO, evs).nodes[m] == Up(Blank(m, s, other))
    ensures var nodes := Run(TRIO, evs + Election(n, m, t + 1)).nodes;
            && IsUp(Run(TRIO, evs + Election(n, m, t + 1)), n) && Inaugurated(nodes[n].voter, n, t + 1)
            && Envelope(n, m, AppendEntries(t + 1, 0, 0, [Entry(t + 1, 1, [])], 0, 0)) in nodes[n].voter.outbox
            && nodes == Run(TRIO, evs).nodes[m := Up(Blank(m, t + 1, Some(n)))][n := nodes[n]]
  {
    hide Run, Step, Next, Tick, Inaugurated;
    var c, tick := Run(TRIO, evs), TickNode(n, true);
    var ask := Envelope(n, m, RequestVote(t + 1, 0, 0));
    var reply := Envelope(m, n, RequestVoteReply(t + 1, true));
    assert evs + Election(n, m, t + 1) == evs + [tick] + Exchange(ask) + Exchange(reply);
    RunNext(evs, tick);
    TickNext(c, n);
    Stands(n, t, vote, m);
    Exchanged(evs + [tick], ask);
    Grants(m, s, other, n, t + 1);
    Exchanged(evs + [tick] + Exchange(ask), reply);
    Wins(n, t + 1, m);
  }

  lemma TickNext(c: Cluster, n: NodeId)
    requires IsUp(c, n)
    ensures Next(TRIO, c, TickNode(n, true)).nodes == c.nodes[n := Up(Tick(TRIO, c.nodes[n].voter, true))]
  {
    hide Tick;
  }

  /** Where the opening leaves the voters. */
  lemma Opened()
    ensures var c := Run(TRIO, Opening());
            && IsUp(c, 1) && Inaugurated(c.nodes[1].voter, 1, 1)
            && IsUp(c, 2) && Deliveries(c.nodes[2].voter) == [Entry(2, 1, [])] && c.nodes[2].voter.lastDelivered == 0
            && IsUp(c, 3) && c.nodes[3].voter.role == Follower && c.nodes.Keys == {1, 2, 3}
  {
    hide Run, Step, Inaugurated, Deliveries;
    FirstNodes();
    var one := Election(1, 2, 1);
    assert [] + one == one;
    Elected([], 1, 2, None, 0, 0, None);
    Elected(one, 2, 3, Some(1), 1, 0, None);
    var two := one + Election(2, 3, 2);
    var entry := Envelope(2, 3, AppendEntries(2, 0, 0, [Entry(2, 1, [])], 0, 0));
    var reply := Envelope(3, 2, AppendEntriesReply(2, true, 1, 0, 0));
    var w := Run(TRIO, two).nodes[2].voter;
    assert Opening() == two + Exchange(entry) + Exchange(reply);
    Exchanged(two, entry);
    Follows(3, 2, 2);
    Exchanged(two + Exchange(entry), reply);
    Commits(w, 2);
  }

  lemma FirstNodes()
    ensures Run(TRIO, []).nodes.Keys == {1, 2, 3}
    ensures forall n :: n in Run(TRIO, []).nodes ==> Run(TRIO, []).nodes[n] == Up(Blank(n, 0, None))
  {
  }

  lemma Recount(evs: seq<Event>, ev: Event, n: NodeId)
    ensures Applied(TRIO, evs + [ev], n)
            == Applied(TRIO, evs, n) + if ev == TakeEntries(n) && IsUp(Run(TRIO, evs), n)
                                       then Deliveries(Run(TRIO, evs).nodes[n].voter) else []
    ensures Diligent(TRIO, evs + [ev]) <==> Diligent(TRIO, evs) && Accurate(TRIO, evs, ev)
    ensures !ev.Restart? ==> !Restarted(TRIO, evs + [ev], n)
  {
    hide Run, Deliveries;
    var all := evs + [ev];
    assert all[..|all| - 1] == evs && all[|all| - 1] == ev;
  }

  /** Events that touch no state machine and restart nothing. */
  ghost predicate Quiet(evs: seq<Event>) {
    forall i :: 0 <= i < |evs| ==> !evs[i].TakeEntries? && !evs[i].ReportApplied? && !evs[i].Restart?
  }

  lemma {:induction false} QuietDiligent(evs: seq<Event>)
    requires Quiet(evs)
    ensures Diligent(TRIO, evs)
    ensures forall n :: Applied(TRIO, evs, n) == [] && !Restarted(TRIO, evs, n)
  {
    hide Run, Deliveries;
    if evs != [] {
      QuietDiligent(evs[..|evs| - 1]);
    }
  }

  /** The last three events: voter 2 applies its entry, reports it, and crashes. */
  lemma Finished()
    ensures var c := Run(TRIO, StaleRun());
            && IsUp(c, 1) && Inaugurated(c.nodes[1].voter, 1, 1)
            && !IsUp(c, 2) && IsUp(c, 3) && c.nodes[3].voter.role == Follower
    ensures Diligent(TRIO, StaleRun())
    ensures Applied(TRIO, StaleRun(), 1) == [] && Applied(TRIO, StaleRun(), 3) == []
    ensures Applied(TRIO, StaleRun(), 2) == [Entry(2, 1, [])]
  {
    hide Run, VoterNext, Inaugurated, Deliveries, Applied, Diligent, Restarted;
    Opened();
    var a := Opening();
    var b := a + [TakeEntries(2)];
    var c := b + [ReportApplied(2, 1)];
    assert StaleRun() == c + [Crash(2)];
    RunNext(a, TakeEntries(2));
    RunNext(b, ReportApplied(2, 1));
    RunNext(c, Crash(2));
    OpeningQuiet();
    QuietDiligent(a);
    forall n
      ensures Applied(TRIO, b, n) == if n == 2 then [Entry(2, 1, [])] else []
      ensures Applied(TRIO, c, n) == Applied(TRIO, b, n) && Applied(TRIO, StaleRun(), n) == Applied(TRIO, c, n)
      ensures !Restarted(TRIO, b, n) && !Restarted(TRIO, c, n)
    {
      Recount(a, TakeEntries(2), n);
      Recount(b, ReportApplied(2, 1), n);
      Recount(c, Crash(2), n);
    }
    Recount(a, TakeEntries(2), 2);
    Recount(b, ReportApplied(2, 1), 2);
    Recount(c, Crash(2), 2);
  }

  lemma OpeningQuiet()
    ensures Quiet(Opening())
  {
  }

  /** Nothing but a stale leader is live, and it lacks the entry that was applied: the check fails. */
  lemma StaleLeaderFails() returns (nodes: seq<SimNode>)
    ensures TRIO.Valid() && Diligent(TRIO, StaleRun()) && Mirrors(TRIO, StaleRun(), nodes)
    ensures Heads(nodes, 0) && nodes[0].voter.value.term == 1 && nodes[0].voter.value.log == [Entry(1, 1, [])]
    ensures IsLongest(nodes, 1) && nodes[1].applied == [Entry(2, 1, [])]
    ensures !LeaderHolds(nodes)
  {
    hide Run, Applied, Diligent, StaleRun;
    Finished();
    var c := Run(TRIO, StaleRun());
    nodes := [SimNode(LiveVoter(c, 1), []), SimNode(None, [Entry(2, 1, [])]), SimNode(LiveVoter(c, 3), [])];
    assert !LastHeld(nodes[1].applied, nodes[0].voter.value);
  }
}
