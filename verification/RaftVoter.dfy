/**
  One voter as a deterministic state machine on values: the specification of every operation of
  the `Raft` class, total on every message a network could deliver.
 */
module RaftVoter {
  import opened Basics
  import opened RaftTypes

  datatype Voter = Voter(
    me: NodeId,
    disk: Persistent,
    term: nat,
    votedFor: Option<NodeId>,
    log: seq<Entry>,
    snapshotIndex: nat,
    snapshotTerm: nat,
    commitIndex: nat,
    lastDelivered: nat,
    role: Role,
    leader: Option<NodeId>,
    votes: set<NodeId>,
    nextIndex: map<NodeId, nat>,
    matchIndex: map<NodeId, nat>,
    outbox: seq<Envelope>,
    readRound: nat,
    applied: nat,
    peerApplied: map<NodeId, nat>,
    pendingReads: seq<PendingRead>,
    readyReads: seq<ReadIndex>)

  datatype Error = NotLeader | EmptyCommand | NotReady | Corruption

  datatype StepResult = StepResult(voter: Voter, error: Option<Error>)

  // ---------------------------------------------------------------------------
  // Storage
  // ---------------------------------------------------------------------------

  /** Entries with an index below `from`, in order. */
  function Below(es: seq<Entry>, from: nat): seq<Entry> {
    if es == [] then [] else (if es[0].index < from then [es[0]] else []) + Below(es[1..], from)
  }

  /** Entries with an index above `index`, in order. */
  function Above(es: seq<Entry>, index: nat): seq<Entry> {
    if es == [] then [] else (if es[0].index > index then [es[0]] else []) + Above(es[1..], index)
  }

  lemma {:induction false} AboveAll(es: seq<Entry>, index: nat)
    requires forall i :: 0 <= i < |es| ==> es[i].index > index
    ensures Above(es, index) == es
    decreases |es|
  {
    if es != [] {
      AboveAll(es[1..], index);
    }
  }

  function SaveTermVote(d: Persistent, term: nat, votedFor: Option<NodeId>): Persistent {
    d.(term := term, votedFor := votedFor)
  }

  function AppendTo(d: Persistent, es: seq<Entry>): Persistent {
    d.(entries := d.entries + es)
  }

  function TruncateFrom(d: Persistent, from: nat): Persistent {
    d.(entries := Below(d.entries, from))
  }

  function CompactTo(d: Persistent, index: nat, term: nat): Persistent {
    d.(snapshotIndex := index, snapshotTerm := term, entries := Above(d.entries, index))
  }

  // ---------------------------------------------------------------------------
  // Log access
  // ---------------------------------------------------------------------------

  function LastIndex(v: Voter): nat {
    if v.log == [] then v.snapshotIndex else v.log[|v.log| - 1].index
  }

  function LastTerm(v: Voter): nat {
    if v.log == [] then v.snapshotTerm else v.log[|v.log| - 1].term
  }

  function LogPos(v: Voter, index: nat): Option<nat> {
    if index <= v.snapshotIndex then None else Some(index - v.snapshotIndex - 1)
  }

  function EntryAt(v: Voter, index: nat): Option<Entry> {
    if index == 0 || index > LastIndex(v) then None
    else match LogPos(v, index)
      case None => None
      case Some(pos) => if pos < |v.log| then Some(v.log[pos]) else None
  }

  function TermAt(v: Voter, index: nat): nat {
    if index == v.snapshotIndex then v.snapshotTerm
    else match EntryAt(v, index)
      case None => 0
      case Some(e) => e.term
  }

  // ---------------------------------------------------------------------------
  // Life cycle
  // ---------------------------------------------------------------------------

  /** The volatile state a process starts from, given what its disk holds. */
  function Boot(me: NodeId, d: Persistent): Voter {
    Voter(me, d, d.term, d.votedFor, d.entries, d.snapshotIndex, d.snapshotTerm, 0, d.snapshotIndex,
          Follower, None, {}, map[], map[], [], 0, d.snapshotIndex, map[], [], [])
  }

  function Send(v: Voter, to: NodeId, msg: Message): Voter {
    v.(outbox := v.outbox + [Envelope(v.me, to, msg)])
  }

  function PersistTermVote(v: Voter): Voter {
    v.(disk := SaveTermVote(v.disk, v.term, v.votedFor))
  }

  function BecomeFollower(v: Voter, term: nat, leader: Option<NodeId>): Voter {
    var w := if term > v.term then PersistTermVote(v.(term := term, votedFor := None)) else v;
    w.(role := Follower, leader := leader, votes := {}, pendingReads := [])
  }

  function AppendLocal(v: Voter, data: seq<Byte>): Voter {
    var e := Entry(v.term, LastIndex(v) + 1, data);
    v.(disk := AppendTo(v.disk, [e]), log := v.log + [e], matchIndex := v.matchIndex[v.me := e.index])
  }

  function NextFor(v: Voter, to: NodeId): nat {
    if to in v.nextIndex then v.nextIndex[to] else v.snapshotIndex + 1
  }

  /** The AppendEntries a leader has for a peer whose next index is above the leader's base. */
  function AppendMessage(v: Voter, next: nat, readRound: nat): Message
    requires next > v.snapshotIndex
  {
    var entries := if next <= LastIndex(v) && next - v.snapshotIndex - 1 <= |v.log|
                   then v.log[next - v.snapshotIndex - 1..] else [];
    AppendEntries(v.term, next - 1, TermAt(v, next - 1), entries, v.commitIndex, readRound)
  }

  function SendAppend(v: Voter, to: NodeId, readRound: nat): Voter {
    var next := NextFor(v, to);
    if next <= v.snapshotIndex then v else Send(v, to, AppendMessage(v, next, readRound))
  }

  function Broadcast(v: Voter, peers: seq<NodeId>, readRound: nat): Voter
    decreases |peers|
  {
    if peers == [] then v
    else Broadcast(if peers[0] == v.me then v else SendAppend(v, peers[0], readRound), peers[1..], readRound)
  }

  function Solicit(v: Voter, peers: seq<NodeId>): Voter
    decreases |peers|
  {
    if peers == [] then v
    else
      var ask := RequestVote(v.term, LastIndex(v), LastTerm(v));
      Solicit(if peers[0] == v.me then v else Send(v, peers[0], ask), peers[1..])
  }

  function InitPeers(cfg: Config, v: Voter): Voter {
    v.(nextIndex := Fill<nat>(v.nextIndex, cfg.members, LastIndex(v) + 1),
       matchIndex := Fill<nat>(v.matchIndex, cfg.members, 0)[v.me := LastIndex(v)])
  }

  function BecomeLeader(cfg: Config, v: Voter): Voter {
    var w := InitPeers(cfg, v.(role := Leader, leader := Some(v.me)));
    Broadcast(AppendLocal(w, []), cfg.members, 0)
  }

  /** Up to the point where the new term and the vote for itself are durable. */
  function StandForElection(v: Voter): Voter {
    PersistTermVote(v.(term := v.term + 1, votedFor := Some(v.me)))
  }

  function BecomeCandidate(cfg: Config, v: Voter): Voter {
    var w := StandForElection(v).(role := Candidate, leader := None, votes := {v.me});
    var x := Solicit(w, cfg.members);
    if |x.votes| >= cfg.Quorum() then BecomeLeader(cfg, x) else x
  }

  // ---------------------------------------------------------------------------
  // Commit rule
  // ---------------------------------------------------------------------------

  function Insert(x: nat, s: seq<nat>): (r: seq<nat>)
    ensures |r| == |s| + 1
  {
    if s == [] || x >= s[0] then [x] + s else [s[0]] + Insert(x, s[1..])
  }

  function SortDesc(s: seq<nat>): (r: seq<nat>)
    ensures |r| == |s|
  {
    if s == [] then [] else Insert(s[0], SortDesc(s[1..]))
  }

  function MatchOf(v: Voter, m: NodeId): nat {
    if m in v.matchIndex then v.matchIndex[m] else 0
  }

  function Matches(v: Voter, members: seq<NodeId>): (r: seq<nat>)
    ensures |r| == |members|
  {
    if members == [] then [] else [MatchOf(v, members[0])] + Matches(v, members[1..])
  }

  function AdvanceCommit(cfg: Config, v: Voter): Voter
    requires cfg.members != []
  {
    var q := SortDesc(Matches(v, cfg.members))[cfg.Quorum() - 1];
    if q > v.commitIndex && TermAt(v, q) == v.term then v.(commitIndex := q) else v
  }

  // ---------------------------------------------------------------------------
  // Read barriers
  // ---------------------------------------------------------------------------

  function AckReads(ps: seq<PendingRead>, from: NodeId, round: nat): (r: seq<PendingRead>) {
    if ps == [] then []
    else [if ps[0].round <= round then ps[0].(acks := ps[0].acks + {from}) else ps[0]]
         + AckReads(ps[1..], from, round)
  }

  function DoneReads(ps: seq<PendingRead>, round: nat, quorum: nat): seq<ReadIndex> {
    if ps == [] then []
    else (if ps[0].round <= round && |ps[0].acks| >= quorum then [ReadIndex(ps[0].round, ps[0].index)] else [])
         + DoneReads(ps[1..], round, quorum)
  }

  predicate Completed(done: seq<ReadIndex>, round: nat) {
    exists d :: d in done && d.round == round
  }

  function KeepReads(ps: seq<PendingRead>, done: seq<ReadIndex>): seq<PendingRead> {
    if ps == [] then []
    else (if Completed(done, ps[0].round) then [] else [ps[0]]) + KeepReads(ps[1..], done)
  }

  function CountReads(cfg: Config, v: Voter, from: NodeId, round: nat): Voter {
    var ps := AckReads(v.pendingReads, from, round);
    var done := DoneReads(ps, round, cfg.Quorum());
    v.(pendingReads := KeepReads(ps, done), readyReads := v.readyReads + done)
  }

  // ---------------------------------------------------------------------------
  // Message handlers
  // ---------------------------------------------------------------------------

  predicate UpToDate(v: Voter, lastLogIndex: nat, lastLogTerm: nat) {
    lastLogTerm > LastTerm(v) || (lastLogTerm == LastTerm(v) && lastLogIndex >= LastIndex(v))
  }

  function OnRequestVote(v: Voter, from: NodeId, term: nat, lastLogIndex: nat, lastLogTerm: nat): Voter {
    var w := if term > v.term then BecomeFollower(v, term, None) else v;
    var grant := term == w.term && UpToDate(w, lastLogIndex, lastLogTerm)
                 && (w.votedFor == None || w.votedFor == Some(from));
    var x := if grant then PersistTermVote(w.(votedFor := Some(from))) else w;
    Send(x, from, RequestVoteReply(x.term, grant))
  }

  function OnVoteReply(cfg: Config, v: Voter, from: NodeId, term: nat, granted: bool): Voter {
    if term > v.term then BecomeFollower(v, term, None)
    else if v.role == Candidate && term == v.term && granted then
      var w := v.(votes := v.votes + {from});
      if |w.votes| >= cfg.Quorum() then BecomeLeader(cfg, w) else w
    else v
  }

  datatype Scan = Matched | Splice(at: nat, conflict: bool) | Refused

  /** The first message entry this voter does not hold, or a contradiction of its committed prefix. */
  function ScanFrom(v: Voter, entries: seq<Entry>, i: nat): (r: Scan)
    requires i <= |entries|
    ensures r.Splice? ==> i <= r.at < |entries|
    decreases |entries| - i
  {
    if i == |entries| then Matched
    else if entries[i].index <= v.snapshotIndex then ScanFrom(v, entries, i + 1)
    else match EntryAt(v, entries[i].index)
      case None => Splice(i, false)
      case Some(mine) =>
        if mine.term == entries[i].term then ScanFrom(v, entries, i + 1)
        else if entries[i].index <= v.commitIndex then Refused
        else Splice(i, true)
  }

  function DropFrom(v: Voter, from: nat): Voter {
    var w := v.(disk := TruncateFrom(v.disk, from));
    match LogPos(v, from)
    case None => w
    case Some(pos) => if pos < |v.log| then w.(log := v.log[..pos]) else w
  }

  function AppendAll(v: Voter, es: seq<Entry>): Voter {
    v.(disk := AppendTo(v.disk, es), log := v.log + es)
  }

  /** A heartbeat of the current or a later term makes its sender the leader. */
  function Acknowledges(v: Voter, from: NodeId, term: nat): Voter {
    if term > v.term || v.role != Follower then BecomeFollower(v, term, Some(from))
    else v.(leader := Some(from))
  }

  predicate Mismatch(v: Voter, prev: nat, prevTerm: nat) {
    prev > 0 && (prev > LastIndex(v) || TermAt(v, prev) != prevTerm)
  }

  function Min(a: nat, b: nat): nat { if a <= b then a else b }
  function Max(a: nat, b: nat): nat { if a >= b then a else b }

  function Hint(v: Voter, prev: nat): nat {
    Max(Min(LastIndex(v), if prev > 0 then prev - 1 else 0), v.snapshotIndex)
  }

  function LastNew(prev: nat, entries: seq<Entry>): nat {
    if entries == [] then prev else entries[|entries| - 1].index
  }

  /** The log once the message entries from the splice point up to `upTo` are in. */
  function SplicePart(v: Voter, entries: seq<Entry>, s: Scan, upTo: nat): Voter
    requires s.Splice? && s.at < |entries| && s.at <= upTo <= |entries|
  {
    AppendAll(if s.conflict then DropFrom(v, entries[s.at].index) else v, entries[s.at..upTo])
  }

  function SpliceIn(v: Voter, entries: seq<Entry>, s: Scan): Voter
    requires s.Splice? ==> s.at < |entries|
  {
    if s.Splice? then SplicePart(v, entries, s, |entries|) else v
  }

  function FollowCommit(v: Voter, leaderCommit: nat, lastNew: nat): Voter {
    if leaderCommit > v.commitIndex
    then v.(commitIndex := Max(Min(leaderCommit, lastNew), v.commitIndex))
    else v
  }

  function OnAppend(v: Voter, from: NodeId, m: Message): StepResult
    requires m.AppendEntries?
  {
    if m.term < v.term then
      StepResult(Send(v, from, AppendEntriesReply(v.term, false, LastIndex(v), m.readRound, v.applied)), None)
    else
      var w := Acknowledges(v, from, m.term);
      if Mismatch(w, m.prevLogIndex, m.prevLogTerm) then
        StepResult(Send(w, from, AppendEntriesReply(w.term, false, Hint(w, m.prevLogIndex), m.readRound, w.applied)),
                   None)
      else
        var s := ScanFrom(w, m.entries, 0);
        if s.Refused? then StepResult(w, Some(Corruption))
        else
          var lastNew := LastNew(m.prevLogIndex, m.entries);
          var x := FollowCommit(SpliceIn(w, m.entries, s), m.leaderCommit, lastNew);
          StepResult(Send(x, from, AppendEntriesReply(x.term, true, lastNew, m.readRound, x.applied)), None)
  }

  function KnownApplied(v: Voter, m: NodeId): nat {
    if m in v.peerApplied then v.peerApplied[m] else 0
  }

  function OnSuccess(cfg: Config, v: Voter, from: NodeId, matchIndex: nat, readRound: nat): Voter
    requires cfg.members != []
  {
    var w := v.(matchIndex := if matchIndex > MatchOf(v, from) then v.matchIndex[from := matchIndex] else v.matchIndex,
                nextIndex := v.nextIndex[from := matchIndex + 1]);
    var x := AdvanceCommit(cfg, w);
    var y := if readRound > 0 then CountReads(cfg, x, from, readRound) else x;
    if y.nextIndex[from] <= LastIndex(y) then SendAppend(y, from, 0) else y
  }

  function OnAppendReply(cfg: Config, v: Voter, from: NodeId, m: Message): Voter
    requires m.AppendEntriesReply? && cfg.members != []
  {
    var w := v.(peerApplied := v.peerApplied[from := Max(KnownApplied(v, from), m.appliedIndex)]);
    if m.term > w.term then BecomeFollower(w, m.term, None)
    else if w.role != Leader || m.term != w.term then w
    else if m.success then OnSuccess(cfg, w, from, m.matchIndex, m.readRound)
    else SendAppend(w.(nextIndex := w.nextIndex[from := m.matchIndex + 1]), from, 0)
  }

  function Step(cfg: Config, v: Voter, env: Envelope): StepResult
    requires cfg.members != []
  {
    if env.to != v.me || env.from !in cfg.members then StepResult(v, None)
    else match env.msg
      case RequestVote(term, li, lt) => StepResult(OnRequestVote(v, env.from, term, li, lt), None)
      case RequestVoteReply(term, granted) => StepResult(OnVoteReply(cfg, v, env.from, term, granted), None)
      case AppendEntries(_, _, _, _, _, _) => OnAppend(v, env.from, env.msg)
      case AppendEntriesReply(_, _, _, _, _) => StepResult(OnAppendReply(cfg, v, env.from, env.msg), None)
  }

  // ---------------------------------------------------------------------------
  // Local operations
  // ---------------------------------------------------------------------------

  /** `due` says whether the role's tick counter has reached its timeout. */
  function Tick(cfg: Config, v: Voter, due: bool): Voter {
    if !due then v
    else if v.role == Leader then Broadcast(v, cfg.members, 0)
    else BecomeCandidate(cfg, v)
  }

  function Propose(cfg: Config, v: Voter, data: seq<Byte>): StepResult {
    if v.role != Leader then StepResult(v, Some(NotLeader))
    else if data == [] then StepResult(v, Some(EmptyCommand))
    else StepResult(Broadcast(AppendLocal(v, data), cfg.members, 0), None)
  }

  function ReadBarrier(cfg: Config, v: Voter): StepResult {
    if v.role != Leader then StepResult(v, Some(NotLeader))
    else if TermAt(v, v.commitIndex) != v.term then StepResult(v, Some(NotReady))
    else
      var round := v.readRound + 1;
      var w := v.(readRound := round, pendingReads := v.pendingReads + [PendingRead(round, v.commitIndex, {v.me})]);
      StepResult(Broadcast(w, cfg.members, round), None)
  }

  function SetApplied(v: Voter, applied: nat): Voter {
    var reported := Max(Min(applied, LastIndex(v)), v.snapshotIndex);
    v.(lastDelivered := Max(v.lastDelivered, reported), applied := Max(v.applied, reported))
  }

  function PeerHorizon(v: Voter, peers: seq<NodeId>, h: nat): nat
    decreases |peers|
  {
    if peers == [] then h
    else PeerHorizon(v, peers[1..], if peers[0] == v.me then h else Min(h, KnownApplied(v, peers[0])))
  }

  function CompactionHorizon(cfg: Config, v: Voter): nat {
    Min(PeerHorizon(v, cfg.members, v.applied), v.commitIndex)
  }

  function CutAt(v: Voter, target: nat, term: nat): Voter
    requires target > v.snapshotIndex
  {
    var keep := Min(target - v.snapshotIndex, |v.log|);
    v.(disk := CompactTo(v.disk, target, term), log := v.log[keep..],
       snapshotIndex := target, snapshotTerm := term,
       lastDelivered := Max(v.lastDelivered, target), applied := Max(v.applied, target))
  }

  function Compact(cfg: Config, v: Voter, upTo: nat): Voter {
    var target := Min(Min(upTo, CompactionHorizon(cfg, v)), LastIndex(v));
    if target <= v.snapshotIndex || TermAt(v, target) == 0 then v
    else CutAt(v, target, TermAt(v, target))
  }

  /** Entries to deliver, and the voter that has delivered them. */
  function Deliveries(v: Voter): seq<Entry>
    decreases v.commitIndex - v.lastDelivered
  {
    if v.lastDelivered >= v.commitIndex then []
    else match EntryAt(v, v.lastDelivered + 1)
      case None => []
      case Some(e) => [e] + Deliveries(v.(lastDelivered := v.lastDelivered + 1))
  }

  function TakeCommitted(v: Voter): Voter {
    v.(lastDelivered := v.lastDelivered + |Deliveries(v)|)
  }

  function TakeOutbox(v: Voter): Voter { v.(outbox := []) }

  function TakeReadyReads(v: Voter): Voter { v.(readyReads := []) }

  // ---------------------------------------------------------------------------
  // Crashes inside an operation
  // ---------------------------------------------------------------------------

  datatype Input = Timer(due: bool) | Receive(env: Envelope)

  /**
    Disk images a crash can leave after some, but not all, storage calls of an operation: the new
    term without the vote, the dropped conflict without the new entries, or only a prefix of them.
   */
  ghost predicate MidStep(cfg: Config, v: Voter, input: Input, d: Persistent) {
    match input
    case Timer(due) => due && v.role != Leader && d == StandForElection(v).disk
    case Receive(env) =>
      && env.to == v.me && env.from in cfg.members
      && match env.msg
         case RequestVote(term, _, _) => term > v.term && d == BecomeFollower(v, term, None).disk
         case AppendEntries(term, prev, prevTerm, entries, _, _) =>
           && term >= v.term
           && var w := Acknowledges(v, env.from, term);
              (d == w.disk ||
               (&& !Mismatch(w, prev, prevTerm)
                && var s := ScanFrom(w, entries, 0);
                   s.Splice? && exists k :: s.at <= k <= |entries| && d == SplicePart(w, entries, s, k).disk))
         case _ => false
  }
}
