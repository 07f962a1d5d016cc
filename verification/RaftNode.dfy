/**
  The voter as the object that runs: fields updated in place, loops over members, log entries and
  pending reads. Every method is proved to move the abstract value `V()` exactly as the operation
  of the same name in `RaftVoter`, so all results about runs apply to it.
 */
module RaftNode {
  import opened Basics
  import opened RaftTypes
  import RV = RaftVoter

  /** What is delivered when `k` is the last index delivered before. */
  ghost function DeliveredFrom(v: RV.Voter, k: nat): seq<Entry> {
    RV.Deliveries(v.(lastDelivered := k))
  }

  lemma DeliveredAll(v: RV.Voter)
    ensures DeliveredFrom(v, v.lastDelivered) == RV.Deliveries(v)
  {
    assert v.(lastDelivered := v.lastDelivered) == v;
  }

  lemma DeliverNext(v: RV.Voter, w: RV.Voter, k: nat)
    requires w == v.(lastDelivered := w.lastDelivered)
    ensures k >= v.commitIndex ==> DeliveredFrom(v, k) == []
    ensures k < v.commitIndex ==>
              DeliveredFrom(v, k) == match RV.EntryAt(w, k + 1)
                                     case None => []
                                     case Some(e) => [e] + DeliveredFrom(v, k + 1)
  {
    assert RV.EntryAt(v.(lastDelivered := k), k + 1) == RV.EntryAt(w, k + 1);
  }

  lemma Push<T>(a: seq<T>, x: T, b: seq<T>)
    ensures (a + [x]) + b == a + ([x] + b)
  {
  }

  lemma AckNext(ps: seq<PendingRead>, i: nat, from: NodeId, round: nat, quorum: nat)
    requires i < |ps|
    ensures var r := if ps[i].round <= round then ps[i].(acks := ps[i].acks + {from}) else ps[i];
            var rest := RV.AckReads(ps[i + 1..], from, round);
            && RV.AckReads(ps[i..], from, round) == [r] + rest
            && RV.DoneReads(RV.AckReads(ps[i..], from, round), round, quorum)
               == if r.round <= round && |r.acks| >= quorum
                  then [ReadIndex(r.round, r.index)] + RV.DoneReads(rest, round, quorum)
                  else RV.DoneReads(rest, round, quorum)
  {
    assert ps[i..][1..] == ps[i + 1..];
    var r := if ps[i].round <= round then ps[i].(acks := ps[i].acks + {from}) else ps[i];
    assert ([r] + RV.AckReads(ps[i + 1..], from, round))[1..] == RV.AckReads(ps[i + 1..], from, round);
  }

  lemma KeepNext(ps: seq<PendingRead>, i: nat, done: seq<ReadIndex>)
    requires i < |ps|
    ensures RV.KeepReads(ps[i..], done) ==
            if RV.Completed(done, ps[i].round) then RV.KeepReads(ps[i + 1..], done)
            else [ps[i]] + RV.KeepReads(ps[i + 1..], done)
  {
    assert ps[i..][1..] == ps[i + 1..];
  }

  class Raft {
    const me: NodeId
    const cfg: Config
    var disk: Persistent
    var term: nat
    var votedFor: Option<NodeId>
    var log: seq<Entry>
    var snapshotIndex: nat
    var snapshotTerm: nat
    var commitIndex: nat
    var lastDelivered: nat
    var role: Role
    var leader: Option<NodeId>
    var votes: set<NodeId>
    var nextIndex: map<NodeId, nat>
    var matchIndex: map<NodeId, nat>
    var outbox: seq<Envelope>
    var readRound: nat
    var applied: nat
    var peerApplied: map<NodeId, nat>
    var pendingReads: seq<PendingRead>
    var readyReads: seq<ReadIndex>

    /** The voter this object represents. */
    ghost function V(): RV.Voter
      reads this
    {
      RV.Voter(me, disk, term, votedFor, log, snapshotIndex, snapshotTerm, commitIndex, lastDelivered, role, leader,
               votes, nextIndex, matchIndex, outbox, readRound, applied, peerApplied, pendingReads, readyReads)
    }

    constructor (me: NodeId, cfg: Config, stored: Persistent)
      ensures this.me == me && this.cfg == cfg && V() == RV.Boot(me, stored)
    {
      this.me, this.cfg := me, cfg;
      disk := stored;
      term, votedFor, log := stored.term, stored.votedFor, stored.entries;
      snapshotIndex, snapshotTerm := stored.snapshotIndex, stored.snapshotTerm;
      commitIndex, lastDelivered, applied := 0, stored.snapshotIndex, stored.snapshotIndex;
      role, leader, votes := Follower, None, {};
      nextIndex, matchIndex, outbox := map[], map[], [];
      readRound, peerApplied, pendingReads, readyReads := 0, map[], [], [];
    }

    /** Refuses a node that is not a configured voter. */
    static method New(me: NodeId, cfg: Config, stored: Persistent) returns (r: Raft?)
      ensures r == null <==> me !in cfg.members
      ensures r != null ==> fresh(r) && r.me == me && r.cfg == cfg && r.V() == RV.Boot(me, stored)
    {
      if me !in cfg.members {
        return null;
      }
      r := new Raft(me, cfg, stored);
    }

    // -------------------------------------------------------------------------
    // Log access
    // -------------------------------------------------------------------------

    function LastIndex(): (r: nat)
      reads this
      ensures r == RV.LastIndex(V())
    {
      if log == [] then snapshotIndex else log[|log| - 1].index
    }

    function LastTerm(): (r: nat)
      reads this
      ensures r == RV.LastTerm(V())
    {
      if log == [] then snapshotTerm else log[|log| - 1].term
    }

    function EntryAt(index: nat): (r: Option<Entry>)
      reads this
      ensures r == RV.EntryAt(V(), index)
    {
      if index == 0 || index > LastIndex() || index <= snapshotIndex then None
      else
        var pos := index - snapshotIndex - 1;
        if pos < |log| then Some(log[pos]) else None
    }

    function TermAt(index: nat): (r: nat)
      reads this
      ensures r == RV.TermAt(V(), index)
    {
      if index == snapshotIndex then snapshotTerm
      else match EntryAt(index)
        case None => 0
        case Some(e) => e.term
    }

    // -------------------------------------------------------------------------
    // Delivery and compaction
    // -------------------------------------------------------------------------

    method TakeOutbox() returns (out: seq<Envelope>)
      modifies this
      ensures out == old(outbox) && V() == RV.TakeOutbox(old(V()))
    {
      out := outbox;
      outbox := [];
    }

    method TakeReadyReads() returns (out: seq<ReadIndex>)
      modifies this
      ensures out == old(readyReads) && V() == RV.TakeReadyReads(old(V()))
    {
      out := readyReads;
      readyReads := [];
    }

    method TakeCommitted() returns (out: seq<Entry>)
      modifies this`lastDelivered
      ensures out == RV.Deliveries(old(V())) && V() == RV.TakeCommitted(old(V()))
    {
      hide RV.Deliveries, RV.EntryAt, DeliveredFrom;
      out := [];
      ghost var v := V();
      DeliveredAll(v);
      while lastDelivered < commitIndex
        invariant lastDelivered == v.lastDelivered + |out|
        invariant out + DeliveredFrom(v, lastDelivered) == DeliveredFrom(v, v.lastDelivered)
        decreases commitIndex - lastDelivered
      {
        var e := EntryAt(lastDelivered + 1);
        DeliverNext(v, V(), lastDelivered);
        if e == None {
          break;
        }
        Push(out, e.value, DeliveredFrom(v, lastDelivered + 1));
        out := out + [e.value];
        lastDelivered := lastDelivered + 1;
      }
      DeliverNext(v, V(), lastDelivered);
    }

    method SetApplied(a: nat)
      modifies this
      ensures V() == RV.SetApplied(old(V()), a)
    {
      var reported := RV.Max(RV.Min(a, LastIndex()), snapshotIndex);
      lastDelivered := RV.Max(lastDelivered, reported);
      applied := RV.Max(applied, reported);
    }

    method CompactionHorizon() returns (h: nat)
      ensures h == RV.CompactionHorizon(cfg, V())
    {
      h := applied;
      ghost var v := V();
      for i := 0 to |cfg.members|
        invariant RV.PeerHorizon(v, cfg.members[i..], h) == RV.PeerHorizon(v, cfg.members, applied)
      {
        var m := cfg.members[i];
        assert cfg.members[i..][1..] == cfg.members[i + 1..];
        if m != me {
          h := RV.Min(h, if m in peerApplied then peerApplied[m] else 0);
        }
      }
      h := RV.Min(h, commitIndex);
    }

    method Compact(upTo: nat) returns (base: nat)
      modifies this
      ensures V() == RV.Compact(cfg, old(V()), upTo) && base == snapshotIndex
    {
      hide RV.CompactionHorizon, RV.LastIndex, RV.TermAt, RV.CutAt;
      var h := CompactionHorizon();
      var target := RV.Min(RV.Min(upTo, h), LastIndex());
      if target <= snapshotIndex {
        return snapshotIndex;
      }
      var t := TermAt(target);
      if t == 0 {
        return snapshotIndex;
      }
      CutAt(target, t);
      base := target;
    }

    method CutAt(target: nat, t: nat)
      requires target > snapshotIndex
      modifies this
      ensures V() == RV.CutAt(old(V()), target, t) && snapshotIndex == target
    {
      disk := RV.CompactTo(disk, target, t);
      MoveBase(target, t);
      lastDelivered := RV.Max(lastDelivered, target);
      applied := RV.Max(applied, target);
    }

    method MoveBase(target: nat, t: nat)
      requires target > snapshotIndex
      modifies this
      ensures V() == old(V()).(log := old(log)[RV.Min(target - old(snapshotIndex), |old(log)|)..],
                               snapshotIndex := target, snapshotTerm := t)
    {
      var keep := RV.Min(target - snapshotIndex, |log|);
      log := log[keep..];
      snapshotIndex := target;
      snapshotTerm := t;
    }

    // -------------------------------------------------------------------------
    // Roles
    // -------------------------------------------------------------------------

    method Send(to: NodeId, msg: Message)
      modifies this`outbox
      ensures V() == RV.Send(old(V()), to, msg)
    {
      outbox := outbox + [Envelope(me, to, msg)];
    }

    method PersistTermVote()
      modifies this`disk
      ensures V() == RV.PersistTermVote(old(V()))
    {
      disk := RV.SaveTermVote(disk, term, votedFor);
    }

    method BecomeFollower(t: nat, l: Option<NodeId>)
      modifies this
      ensures V() == RV.BecomeFollower(old(V()), t, l)
    {
      EnterTerm(t);
      role := Follower;
      leader := l;
      votes := {};
      pendingReads := [];
    }

    method EnterTerm(t: nat)
      modifies this
      ensures var v := old(V());
              V() == if t > v.term then RV.PersistTermVote(v.(term := t, votedFor := None)) else v
    {
      if t > term {
        term := t;
        votedFor := None;
        PersistTermVote();
      }
    }

    method AppendLocal(data: seq<Byte>) returns (index: nat)
      modifies this
      ensures V() == RV.AppendLocal(old(V()), data) && index == old(LastIndex()) + 1
    {
      var e := Entry(term, LastIndex() + 1, data);
      disk := RV.AppendTo(disk, [e]);
      log := log + [e];
      index := e.index;
      matchIndex := matchIndex[me := index];
    }

    method SendAppend(to: NodeId, round: nat)
      modifies this`outbox
      ensures V() == RV.SendAppend(old(V()), to, round)
    {
      var next := if to in nextIndex then nextIndex[to] else snapshotIndex + 1;
      if next <= snapshotIndex {
        return;
      }
      var pos := next - snapshotIndex - 1;
      var entries := if next <= LastIndex() && pos <= |log| then log[pos..] else [];
      Send(to, AppendEntries(term, next - 1, TermAt(next - 1), entries, commitIndex, round));
    }

    method BroadcastAppend(round: nat)
      modifies this`outbox
      ensures V() == RV.Broadcast(old(V()), cfg.members, round)
    {
      ghost var v := V();
      for i := 0 to |cfg.members|
        invariant RV.Broadcast(V(), cfg.members[i..], round) == RV.Broadcast(v, cfg.members, round)
      {
        assert cfg.members[i..][1..] == cfg.members[i + 1..];
        if cfg.members[i] != me {
          SendAppend(cfg.members[i], round);
        }
      }
    }

    method InitPeers()
      modifies this`nextIndex, this`matchIndex
      ensures V() == RV.InitPeers(cfg, old(V()))
    {
      ghost var v := V();
      var next := LastIndex() + 1;
      for i := 0 to |cfg.members|
        invariant Fill<nat>(nextIndex, cfg.members[i..], next) == Fill<nat>(v.nextIndex, cfg.members, next)
        invariant Fill<nat>(matchIndex, cfg.members[i..], 0) == Fill<nat>(v.matchIndex, cfg.members, 0)
      {
        assert cfg.members[i..][1..] == cfg.members[i + 1..];
        nextIndex := nextIndex[cfg.members[i] := next];
        matchIndex := matchIndex[cfg.members[i] := 0];
      }
      matchIndex := matchIndex[me := LastIndex()];
    }

    method BecomeLeader()
      modifies this
      ensures V() == RV.BecomeLeader(cfg, old(V()))
    {
      role := Leader;
      leader := Some(me);
      InitPeers();
      var index := AppendLocal([]);
      BroadcastAppend(0);
    }

    method BecomeCandidate()
      modifies this
      ensures V() == RV.BecomeCandidate(cfg, old(V()))
    {
      hide RV.Solicit, RV.BecomeLeader, RV.StandForElection;
      Stand();
      role := Candidate;
      leader := None;
      votes := {me};
      Solicit();
      if |votes| >= cfg.Quorum() {
        BecomeLeader();
      }
    }

    method Stand()
      modifies this
      ensures V() == RV.StandForElection(old(V()))
    {
      term := term + 1;
      votedFor := Some(me);
      PersistTermVote();
    }

    method Solicit()
      modifies this`outbox
      ensures V() == RV.Solicit(old(V()), cfg.members)
    {
      ghost var w := V();
      var ask := RequestVote(term, LastIndex(), LastTerm());
      for i := 0 to |cfg.members|
        invariant V() == w.(outbox := outbox)
        invariant RV.Solicit(V(), cfg.members[i..]) == RV.Solicit(w, cfg.members)
      {
        assert cfg.members[i..][1..] == cfg.members[i + 1..];
        if cfg.members[i] != me {
          Send(cfg.members[i], ask);
        }
      }
    }

    method Tick(due: bool)
      modifies this
      ensures V() == RV.Tick(cfg, old(V()), due)
    {
      if due {
        if role == Leader {
          BroadcastAppend(0);
        } else {
          BecomeCandidate();
        }
      }
    }

    method Propose(data: seq<Byte>) returns (index: nat, error: Option<RV.Error>)
      modifies this
      ensures RV.StepResult(V(), error) == RV.Propose(cfg, old(V()), data)
      ensures error == None ==> index == old(LastIndex()) + 1
    {
      if role != Leader {
        return 0, Some(RV.NotLeader);
      }
      if data == [] {
        return 0, Some(RV.EmptyCommand);
      }
      index := AppendLocal(data);
      BroadcastAppend(0);
      error := None;
    }

    method ReadBarrier() returns (round: nat, error: Option<RV.Error>)
      modifies this
      ensures RV.StepResult(V(), error) == RV.ReadBarrier(cfg, old(V()))
      ensures error == None ==> round == old(readRound) + 1
    {
      if role != Leader {
        return 0, Some(RV.NotLeader);
      }
      if TermAt(commitIndex) != term {
        return 0, Some(RV.NotReady);
      }
      readRound := readRound + 1;
      round := readRound;
      pendingReads := pendingReads + [PendingRead(round, commitIndex, {me})];
      BroadcastAppend(round);
      error := None;
    }

    // -------------------------------------------------------------------------
    // Messages
    // -------------------------------------------------------------------------

    method OnRequestVote(from: NodeId, t: nat, lastLogIndex: nat, lastLogTerm: nat)
      modifies this
      ensures V() == RV.OnRequestVote(old(V()), from, t, lastLogIndex, lastLogTerm)
    {
      if t > term {
        BecomeFollower(t, None);
      }
      var upToDate := lastLogTerm > LastTerm() || (lastLogTerm == LastTerm() && lastLogIndex >= LastIndex());
      var grant := t == term && upToDate && (votedFor == None || votedFor == Some(from));
      if grant {
        votedFor := Some(from);
        PersistTermVote();
      }
      Send(from, RequestVoteReply(term, grant));
    }

    method OnVoteReply(from: NodeId, t: nat, granted: bool)
      modifies this
      ensures V() == RV.OnVoteReply(cfg, old(V()), from, t, granted)
    {
      if t > term {
        BecomeFollower(t, None);
        return;
      }
      if role == Candidate && t == term && granted {
        votes := votes + {from};
        if |votes| >= cfg.Quorum() {
          BecomeLeader();
        }
      }
    }

    /** Finds where the message leaves this log, dropping a conflicting tail on the way. */
    method Scan(entries: seq<Entry>) returns (firstNew: Option<nat>, refused: bool)
      modifies this
      ensures var v := old(V());
              var s := RV.ScanFrom(v, entries, 0);
              && refused == s.Refused?
              && firstNew == (if s.Splice? then Some(s.at) else None)
              && V() == if s.Splice? && s.conflict then RV.DropFrom(v, entries[s.at].index) else v
    {
      firstNew, refused := None, false;
      ghost var v := V();
      var i := 0;
      while i < |entries|
        invariant i <= |entries| && V() == v && firstNew == None && !refused
        invariant RV.ScanFrom(v, entries, 0) == RV.ScanFrom(v, entries, i)
      {
        var e := entries[i];
        if e.index > snapshotIndex {
          var mine := EntryAt(e.index);
          if mine == None {
            return Some(i), false;
          }
          if mine.value.term != e.term {
            if e.index <= commitIndex {
              return None, true;
            }
            disk := RV.TruncateFrom(disk, e.index);
            var pos := e.index - snapshotIndex - 1;
            if pos < |log| {
              log := log[..pos];
            }
            return Some(i), false;
          }
        }
        i := i + 1;
      }
    }

    method Splice(entries: seq<Entry>) returns (refused: bool)
      modifies this
      ensures var v := old(V());
              var s := RV.ScanFrom(v, entries, 0);
              refused == s.Refused? && V() == RV.SpliceIn(v, entries, s)
    {
      ghost var v := V();
      var firstNew;
      firstNew, refused := Scan(entries);
      if firstNew.Some? {
        assert entries[firstNew.value..|entries|] == entries[firstNew.value..];
        disk := RV.AppendTo(disk, entries[firstNew.value..]);
        log := log + entries[firstNew.value..];
      }
    }

    method Heed(from: NodeId, t: nat)
      modifies this
      ensures V() == RV.Acknowledges(old(V()), from, t)
    {
      if t > term || role != Follower {
        BecomeFollower(t, Some(from));
      } else {
        leader := Some(from);
      }
    }

    method OnAppend(from: NodeId, m: Message) returns (error: Option<RV.Error>)
      requires m.AppendEntries?
      modifies this
      ensures RV.StepResult(V(), error) == RV.OnAppend(old(V()), from, m)
    {
      error := None;
      if m.term < term {
        Send(from, AppendEntriesReply(term, false, LastIndex(), m.readRound, applied));
        return;
      }
      Heed(from, m.term);
      ghost var w := V();
      var prev := m.prevLogIndex;
      if prev > 0 && (prev > LastIndex() || TermAt(prev) != m.prevLogTerm) {
        var hint := RV.Max(RV.Min(LastIndex(), prev - 1), snapshotIndex);
        Send(from, AppendEntriesReply(term, false, hint, m.readRound, applied));
        return;
      }
      var refused := Splice(m.entries);
      if refused {
        return Some(RV.Corruption);
      }
      var lastNew := if m.entries == [] then prev else m.entries[|m.entries| - 1].index;
      if m.leaderCommit > commitIndex {
        commitIndex := RV.Max(RV.Min(m.leaderCommit, lastNew), commitIndex);
      }
      Send(from, AppendEntriesReply(term, true, lastNew, m.readRound, applied));
    }

    method MatchIndices() returns (indices: seq<nat>)
      ensures indices == RV.Matches(V(), cfg.members)
    {
      indices := [];
      ghost var v := V();
      for i := 0 to |cfg.members|
        invariant indices + RV.Matches(v, cfg.members[i..]) == RV.Matches(v, cfg.members)
      {
        assert cfg.members[i..][1..] == cfg.members[i + 1..];
        indices := indices + [if cfg.members[i] in matchIndex then matchIndex[cfg.members[i]] else 0];
      }
    }

    method AdvanceCommit()
      requires cfg.members != []
      modifies this`commitIndex
      ensures V() == RV.AdvanceCommit(cfg, old(V()))
    {
      var indices := MatchIndices();
      var q := RV.SortDesc(indices)[cfg.Quorum() - 1];
      if q > commitIndex && TermAt(q) == term {
        commitIndex := q;
      }
    }

    method CountReads(from: NodeId, round: nat)
      modifies this`pendingReads, this`readyReads
      ensures V() == RV.CountReads(cfg, old(V()), from, round)
    {
      var acked, done := CountAcks(pendingReads, from, round, cfg.Quorum());
      Retain(acked, done);
      readyReads := readyReads + done;
    }

    static method CountAcks(pending: seq<PendingRead>, from: NodeId, round: nat, quorum: nat)
      returns (acked: seq<PendingRead>, done: seq<ReadIndex>)
      ensures acked == RV.AckReads(pending, from, round)
      ensures done == RV.DoneReads(acked, round, quorum)
    {
      acked, done := [], [];
      ghost var ps := RV.AckReads(pending, from, round);
      for i := 0 to |pending|
        invariant acked + RV.AckReads(pending[i..], from, round) == ps
        invariant done + RV.DoneReads(RV.AckReads(pending[i..], from, round), round, quorum)
                  == RV.DoneReads(ps, round, quorum)
      {
        hide RV.AckReads, RV.DoneReads;
        var r := pending[i];
        AckNext(pending, i, from, round, quorum);
        if r.round <= round {
          r := r.(acks := r.acks + {from});
          if |r.acks| >= quorum {
            Push(done, ReadIndex(r.round, r.index),
                 RV.DoneReads(RV.AckReads(pending[i + 1..], from, round), round, quorum));
            done := done + [ReadIndex(r.round, r.index)];
          }
        }
        Push(acked, r, RV.AckReads(pending[i + 1..], from, round));
        acked := acked + [r];
      }
    }

    method Retain(acked: seq<PendingRead>, done: seq<ReadIndex>)
      modifies this`pendingReads
      ensures pendingReads == RV.KeepReads(acked, done)
    {
      var kept: seq<PendingRead> := [];
      for i := 0 to |acked|
        invariant kept + RV.KeepReads(acked[i..], done) == RV.KeepReads(acked, done)
      {
        hide RV.KeepReads, RV.Completed;
        KeepNext(acked, i, done);
        if !RV.Completed(done, acked[i].round) {
          Push(kept, acked[i], RV.KeepReads(acked[i + 1..], done));
          kept := kept + [acked[i]];
        }
      }
      pendingReads := kept;
    }

    method OnSuccess(from: NodeId, match_: nat, round: nat)
      requires cfg.members != []
      modifies this
      ensures V() == RV.OnSuccess(cfg, old(V()), from, match_, round)
    {
      hide RV.AdvanceCommit, RV.CountReads, RV.SendAppend, RV.LastIndex;
      var cur := if from in matchIndex then matchIndex[from] else 0;
      if match_ > cur {
        matchIndex := matchIndex[from := match_];
      }
      nextIndex := nextIndex[from := match_ + 1];
      AdvanceCommit();
      if round > 0 {
        CountReads(from, round);
      }
      if nextIndex[from] <= LastIndex() {
        SendAppend(from, 0);
      }
    }

    method OnAppendReply(from: NodeId, m: Message)
      requires m.AppendEntriesReply? && cfg.members != []
      modifies this
      ensures V() == RV.OnAppendReply(cfg, old(V()), from, m)
    {
      hide RV.OnSuccess, RV.SendAppend, RV.BecomeFollower;
      var known := if from in peerApplied then peerApplied[from] else 0;
      peerApplied := peerApplied[from := RV.Max(known, m.appliedIndex)];
      if m.term > term {
        BecomeFollower(m.term, None);
        return;
      }
      if role != Leader || m.term != term {
        return;
      }
      if m.success {
        OnSuccess(from, m.matchIndex, m.readRound);
      } else {
        nextIndex := nextIndex[from := m.matchIndex + 1];
        SendAppend(from, 0);
      }
    }

    method Step(env: Envelope) returns (error: Option<RV.Error>)
      requires cfg.members != []
      modifies this
      ensures RV.StepResult(V(), error) == RV.Step(cfg, old(V()), env)
    {
      error := None;
      if env.to != me || env.from !in cfg.members {
        return;
      }
      match env.msg
      case RequestVote(t, li, lt) => OnRequestVote(env.from, t, li, lt);
      case RequestVoteReply(t, granted) => OnVoteReply(env.from, t, granted);
      case AppendEntries(_, _, _, _, _, _) => error := OnAppend(env.from, env.msg);
      case AppendEntriesReply(_, _, _, _, _) => OnAppendReply(env.from, env.msg);
    }
  }
}
