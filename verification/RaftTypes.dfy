/** Wire and storage vocabulary of the replicated log, and the arithmetic of quorums. */
module RaftTypes {
  import opened Basics

  type NodeId = nat

  datatype Entry = Entry(term: nat, index: nat, data: seq<Byte>)

  datatype Message =
    | RequestVote(term: nat, lastLogIndex: nat, lastLogTerm: nat)
    | RequestVoteReply(term: nat, granted: bool)
    | AppendEntries(term: nat, prevLogIndex: nat, prevLogTerm: nat, entries: seq<Entry>,
                    leaderCommit: nat, readRound: nat)
    | AppendEntriesReply(term: nat, success: bool, matchIndex: nat, readRound: nat, appliedIndex: nat)

  datatype Envelope = Envelope(from: NodeId, to: NodeId, msg: Message)

  datatype Role = Follower | Candidate | Leader

  /** A completed read barrier. */
  datatype ReadIndex = ReadIndex(round: nat, index: nat)

  datatype PendingRead = PendingRead(round: nat, index: nat, acks: set<NodeId>)

  /** What a voter keeps across a crash. */
  datatype Persistent = Persistent(term: nat, votedFor: Option<NodeId>, entries: seq<Entry>,
                                   snapshotIndex: nat, snapshotTerm: nat)

  /** Fixed voter set, sorted and without duplicates. */
  datatype Config = Config(members: seq<NodeId>) {

    ghost predicate Valid() {
      forall i, j :: 0 <= i < j < |members| ==> members[i] < members[j]
    }

    function Quorum(): nat {
      |members| / 2 + 1
    }

    ghost function Voters(): set<NodeId> {
      set m | m in members
    }

    ghost predicate IsQuorum(s: set<NodeId>) {
      s <= Voters() && |s| >= Quorum()
    }
  }

  /** `base` with every member set to `value`. */
  function Fill<T>(base: map<NodeId, T>, members: seq<NodeId>, value: T): map<NodeId, T>
    decreases |members|
  {
    if members == [] then base else Fill(base[members[0] := value], members[1..], value)
  }

  lemma {:induction false} FillAt<T>(base: map<NodeId, T>, members: seq<NodeId>, value: T, m: NodeId)
    ensures m in Fill(base, members, value) <==> m in base || m in members
    ensures m in members ==> Fill(base, members, value)[m] == value
    ensures m in base && m !in members ==> Fill(base, members, value)[m] == base[m]
    decreases |members|
  {
    if members != [] {
      assert members == [members[0]] + members[1..];
      FillAt(base[members[0] := value], members[1..], value, m);
    }
  }

  ghost predicate Rising(s: seq<NodeId>) {
    forall i, j :: 0 <= i < j < |s| ==> s[i] < s[j]
  }

  ghost function AsSet(s: seq<NodeId>): set<NodeId> {
    set m | m in s
  }

  lemma LastIsNew(s: seq<NodeId>, k: nat)
    requires Rising(s) && |s| == k + 1
    ensures Rising(s[..k]) && s[k] !in s[..k]
    ensures AsSet(s) == AsSet(s[..k]) + {s[k]}
  {
    assert s == s[..k] + [s[k]];
  }

  lemma {:induction false} DistinctCount(s: seq<NodeId>)
    requires Rising(s)
    ensures |AsSet(s)| == |s|
  {
    if s != [] {
      var k := |s| - 1;
      LastIsNew(s, k);
      DistinctCount(s[..k]);
    }
  }

  /** Any two majorities of the fixed voter set share a voter. */
  lemma QuorumsMeet(cfg: Config, a: set<NodeId>, b: set<NodeId>) returns (n: NodeId)
    requires cfg.Valid() && cfg.IsQuorum(a) && cfg.IsQuorum(b)
    ensures n in a && n in b
  {
    DistinctCount(cfg.members);
    assert AsSet(cfg.members) == cfg.Voters();
    SubsetCount(a + b, cfg.Voters());
    assert |a + b| == |a| + |b| - |a * b|;
    assert a * b != {};
    n :| n in a * b;
  }
}
