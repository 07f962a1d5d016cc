# CarolinaDB: verified core

CarolinaDB is a database whose compiler decides, from declared invariants, which operations must be
ordered together, and whose replicas agree through a Raft log and a catalog of compare-and-set
commands. This project models the parts of it that everything else leans on, and proves what they
promise. `dafny verify dfyconfig.toml` checks it all.

**Consensus.** `RaftVoter` gives every operation of a voter as a function; `RaftNode` is the voter as
a class, each method with its loops proved equal to its function. `RaftCluster` runs any number of
voters on a network that loses, delays, duplicates and reorders, with crashes between and inside
steps, restarts and compaction; a run is any list of events. `RaftSafety` states what holds of every
run, on voter states alone. The proof goes through a history of the run (`RaftProtocol`,
`RaftActions`): who led which term with which log, who voted, what was acknowledged and committed.
`RaftElection`, `RaftReplication` and `RaftProgress` show that each operation of the code is a
sequence of safe steps of that history. Safety alone would let a voter do nothing, so `RaftAnswers` and
`RaftServing` say what each step does: when a vote is granted, what an append teaches, when an index is
committed, when a read is served, what is sent to whom. `RaftSim` has the simulator's own checks of
elections and logs, which no run fails; `RaftApplied` its state machines, kept across crashes;
`RaftChecks` its whole round of checks, with the exact condition of its last one, which a stale leader
fails (`RaftStale`). `RaftFiles` is the file storage: while appended entries are within the decoder's
limits, every image a crash can leave reopens.

**Language and compiler.** `LangEval` is the reference interpreter as functions and `LangExec` the
interpreter as it runs. What they compute is stated apart from them: `LangOrder` relates comparisons to
the order of numbers and bytes, `LangMeaning` evaluation to a lexical meaning, `LangEffects` every effect
to the places it changes, `LangLaws` and `LangTotals` each kind of invariant to a statement about rows and
sums, and `LangOutcome` a whole operation to its stages. `SemanticClosure` holds the union-find classes and
the fixed-point closure;
`ScopedEvaluation` shows that checking only an operation's own invariants on only its own records
changes no outcome, and `ScopedAgreement` exactly when scoped and full evaluation agree. `Replay` and
`ReplayExec` cover effect replay and the concurrent explorer, `ReplayOutcome` exactly when it finds a
counterexample, `Escrow` conservation of reserved amounts, `Selection` joint template selection.

**Catalog.** `CatalogModel` is the state machine, `CatalogMachine` the object updated in place,
`CatalogSafety` what every log keeps.

**Codecs.** `Canon` is the canonical JSON subset (sections 3, 4, 5 and 7 of RFC 8259, no numbers),
`CanonJson` relates it to the JSON grammar, and
`KeyCodec` the order-preserving key encoding.

Values that only pass through are kept abstract. Hashes are injective and stand for what they hash;
UTF-8 validity, the checksum and the codec of a log entry are parameters. Error texts become error codes.

Where something promised or expected is not true of the code, the model follows the code and the
exact condition is proved:

- A closed grant is documented never to become active again. `AdvancePointer` may overwrite any live
  key, so it can (`CatalogSafety.ClosedCanReopen`); `CatalogSafety.ReopenedExactly` says exactly when.
- The file storage and the in-memory storage implement one interface, but differ for a compaction at
  or below the base (`RaftFiles.CompactionsDiffer`); `RaftFiles.CompactionsAgree` says exactly when they
  agree. A voter never asks for such a compaction.
- A log entry can be appended whatever its size, but the decoder that reopens the log has limits: after
  an oversized entry the whole log fails to reopen, earlier entries included
  (`RaftFiles.OversizedIsLost`). `RaftFiles.ReopenFailsExactly` says exactly which appends have that
  effect, and `RaftFiles.AppendSurvivesExactly` exactly which survive.
- The simulator checks that the live leader of the highest term holds everything applied. A leader
  never steps down by itself, so one that was replaced without hearing of it fails the check once its
  successor crashes (`RaftStale.StaleLeaderFails`). `RaftChecks.LeaderCheckExactly` says exactly when the
  check passes; it does for leaders at least as new as the terms the entries were taken in
  (`RaftChecks.LeaderCheckPasses`).
- Scoped evaluation can accept what full evaluation rejects (`ScopedAgreement.ScopedCanDiffer`), because
  of a violation the operation has nothing to do with; `ScopedAgreement.AgreeExactly` says, for every
  outcome, exactly when they agree.

- A proposal is documented to be committed once a quorum has it durably. Commits are counted only when an
  acknowledgement arrives, so a cluster of one voter elects it and never commits
  (`RaftAnswers.SoleVoterNeverCommits`); `RaftAnswers.LeadersCommit` is the promise wherever one arrives.
- A sum removes its variable from the environment, so one over a variable already bound unbinds it
  (`LangMeaning.ReuseUnbinds`). `LangMeaning.EvalIsMeaning` gives evaluation its lexical meaning for the
  expressions lowering makes, which bind fresh variables.

## Model

| member | source | states |
|---|---|---|
| `RaftSafety.ElectionSafety` | crates/carolina-consensus/src/lib.rs:485-543 | In every run (any events, any two points) two voters that lead the same term are the same voter, across crashes, crashes inside a step and restarts. |
| `RaftSafety.LogsMatch` | crates/carolina-consensus/src/lib.rs:702-809 | At any two points of any run, two replicas (running or as they would restart) that agree on the non-zero term at an index agree on every entry at or below it that both still store. |
| `RaftSafety.StateMachineSafety` | crates/carolina-consensus/src/lib.rs:657-877 | Any two voters, at any two points of any run, that hold an entry of the same index inside their committed prefix hold the same entry. |
| `RaftSafety.LeadersAreComplete` | crates/carolina-consensus/src/lib.rs:528-543 | A leader of a later term, or a later state of the same term, stores every entry any voter has known committed, or has it under its base. |
| `RaftSafety.CommitsAreDurable` | crates/carolina-consensus/src/lib.rs:754-789 | An entry a voter has known committed is, at every later point of any run, still stored by that voter or under its base, running or as it would restart, although a restart forgets the commit index that guards the truncation of conflicts. |
| `RaftSafety.NoCorruption` | crates/carolina-consensus/src/lib.rs:763-771 | No envelope that was ever sent makes `step` fail in any reachable state: the "leader conflicts with a committed entry" error cannot happen. |
| `RaftSafety.LinearizableReads` | crates/carolina-consensus/src/lib.rs:577-598 | Whenever a round is in the ready reads there is a successful barrier call in the run that was given that round by the still running process, and the index is at least every commit index of every voter at and before that call. |
| `RaftSafety.CompactionSafety` | crates/carolina-consensus/src/lib.rs:445-475 | In every run the base of every replica, running or down, is at most the highest applied frontier each voter's application has reported, a report counting only as far as that voter's log went. |
| `RaftSafety.CompactionInvisible` | crates/carolina-consensus/src/lib.rs:458-475 | In every reachable state `compact` keeps last index, last term, terms at and above the new base, entries above it, what will be delivered and every other field; the base only grows and stays within the request and the commit index. |
| `RaftSafety.GapFreeDelivery` | crates/carolina-consensus/src/lib.rs:410-433 | What a process hands to its application over any run is strictly ascending, and holds every index up to the delivery mark except those at or below the base it started from or a frontier its application reported. |
| `RaftSafety.DeliveriesAgree` | crates/carolina-consensus/src/lib.rs:410-421 | Any two voters that hand over an index at any time in any run hand over the same entry. |
| `RaftSafety.HandedCommitted` | crates/carolina-consensus/src/lib.rs:410-421 | Every handed-over entry was in the committed prefix of that voter at an earlier point of the run. |
| `RaftProtocol.LogMatching` | crates/carolina-consensus/src/lib.rs:702-809 | In the history of a run two well-shaped logs that hold one index with one term agree up to it. |
| `RaftProtocol.LeaderCompleteness` | crates/carolina-consensus/src/lib.rs:499-543 | In every safe history the log a later term starts from holds every committed prefix; strong induction over the terms in between. |
| `RaftProtocol.CommitsAgree` | crates/carolina-consensus/src/lib.rs:864-877 | What a term has committed is held, entry for entry, by the log of every later term. |
| `RaftActions.StandSafe` | crates/carolina-consensus/src/lib.rs:499-526 | Standing for election keeps the history safe. |
| `RaftActions.CastVoteSafe` | crates/carolina-consensus/src/lib.rs:663-689 | Granting a vote by the code's rule keeps the history safe. |
| `RaftActions.ElectSafe` | crates/carolina-consensus/src/lib.rs:528-543 | Winning with a majority of granted votes starts a reign whose log holds all earlier commits, and keeps the history safe. |
| `RaftActions.ExtendSafe` | crates/carolina-consensus/src/lib.rs:545-556 | A leader appending to its own log keeps the history safe. |
| `RaftActions.AdoptSafe` | crates/carolina-consensus/src/lib.rs:754-789 | A follower replacing its log by part of a leader's log keeps the history safe, whatever tail it loses. |
| `RaftActions.AdoptRetains` | crates/carolina-consensus/src/lib.rs:754-789 | Adopting part of the log of the leader of its term never takes a committed entry from a follower. |
| `RaftActions.AcknowledgeSafe` | crates/carolina-consensus/src/lib.rs:790-809 | Acknowledging a matched prefix keeps the history safe. |
| `RaftActions.CommitSafe` | crates/carolina-consensus/src/lib.rs:864-877 | Committing an index of the current term held by a majority keeps the history safe. |
| `RaftTypes.QuorumsMeet` | crates/carolina-consensus/src/lib.rs:219-231 | Any two quorums of the fixed voter set share a voter. |
| `RaftElection.RequestVoteOk` | crates/carolina-consensus/src/lib.rs:663-689 | Handling a vote request from any sent message is explained by safe protocol steps and keeps the voter, its disk and its outbox consistent with the history. |
| `RaftElection.VoteReplyOk` | crates/carolina-consensus/src/lib.rs:690-701 | Counting a vote reply, and becoming leader on a majority, is explained by safe protocol steps. |
| `RaftElection.BecomeCandidateOk` | crates/carolina-consensus/src/lib.rs:499-526 | The candidacy code, single-voter election included, is explained by safe protocol steps. |
| `RaftElection.BecomeLeaderOk` | crates/carolina-consensus/src/lib.rs:528-543 | Taking office, appending the no-op and broadcasting is explained by safe protocol steps. |
| `RaftElection.TickOk` | crates/carolina-consensus/src/lib.rs:639-655 | A tick, with the election timer due or not, is explained by safe protocol steps. |
| `RaftElection.ProposeOk` | crates/carolina-consensus/src/lib.rs:560-573 | A proposal is explained by safe protocol steps. |
| `RaftReplication.AppendOk` | crates/carolina-consensus/src/lib.rs:702-809 | Handling AppendEntries (stale term, missing previous entry, conflict truncation, entries under the base, commit advance) is explained by safe protocol steps and never reports corruption. |
| `RaftReplication.SpliceOk` | crates/carolina-consensus/src/lib.rs:754-789 | The entry loop that skips, truncates and appends never refuses, and leaves a log that agrees with the leader's up to the last entry sent. |
| `RaftReplication.MidStepOk` | crates/carolina-consensus/src/lib.rs:754-789 | Whatever the disk holds between two writes of a step, where a crash may strike, still explains a restarted voter; also between truncation and append. |
| `RaftProgress.AppendReplyOk` | crates/carolina-consensus/src/lib.rs:810-862 | Handling an append reply, retry included, is explained by safe protocol steps. |
| `RaftProgress.AdvanceOk` | crates/carolina-consensus/src/lib.rs:864-877 | Sorting the match indices and taking the quorum position commits only what a majority holds, and only in the current term. |
| `RaftProgress.QuorumReached` | crates/carolina-consensus/src/lib.rs:864-877 | At least a quorum of members has a match index at or above the position picked from the sorted list. |
| `RaftProgress.CountReadsOk` | crates/carolina-consensus/src/lib.rs:833-850 | Counting acknowledgements keeps the voter consistent: a round becomes ready only when its index covers every commit made before it was issued. |
| `RaftProgress.BarrierCovers` | crates/carolina-consensus/src/lib.rs:577-598 | A leader that has committed in its own term is at or above every commit index reached so far, unless a majority has already moved to a later term. |
| `RaftProgress.ReadBarrierOk` | crates/carolina-consensus/src/lib.rs:577-598 | Issuing a barrier is explained by safe protocol steps and recorded with the peak commit index of that moment. |
| `RaftProgress.CompactOk` | crates/carolina-consensus/src/lib.rs:458-475 | Compaction keeps the voter consistent with the uncut history. |
| `RaftProgress.HorizonBound` | crates/carolina-consensus/src/lib.rs:445-454 | The compaction horizon is at most the starting bound and the known applied frontier of every other member. |
| `RaftProgress.TakeCommittedOk` | crates/carolina-consensus/src/lib.rs:410-421 | Handing over committed entries keeps the invariant. |
| `RaftProgress.SetAppliedOk` | crates/carolina-consensus/src/lib.rs:426-433 | Reporting an applied frontier keeps the invariant. |
| `RaftProgress.BootOk` | crates/carolina-consensus/src/lib.rs:278-317 | A process started from any disk image of the run is consistent with the history. |
| `RaftCluster.StepOk` | crates/carolina-consensus/src/lib.rs:657-862 | Every message of every run, on every voter, is explained by safe protocol steps. |
| `RaftCluster.NextOk` | crates/carolina-consensus/src/sim.rs:127-257 | Every event of the environment (delivery in any order, loss, duplication, ticks, proposals, barriers, reports, compaction, crash, crash inside a step, restart) keeps the cluster invariant and extends the history. |
| `RaftCluster.Histories` | crates/carolina-consensus/src/sim.rs:220-264 | Every run has a history in which each state satisfies the invariant and each step only extends what came before. |
| `RaftCluster.InitOk` | crates/carolina-consensus/src/sim.rs:61-90 | A fresh cluster satisfies the invariant with the empty history. |
| `RaftSim.CompareLogs` | crates/carolina-consensus/src/sim.rs:321-340 | The scan for the highest common index of one term, and the comparison up to it, says yes exactly when no common index of one term has a disagreement below it. |
| `RaftSim.Monitor.CheckElections` | crates/carolina-consensus/src/sim.rs:298-315 | Fails exactly when a live leader contradicts a recorded or another live leader of its term; otherwise records every live leader and forgets none. |
| `RaftSim.Monitor.CheckLogs` | crates/carolina-consensus/src/sim.rs:316-342 | Passes exactly when all pairs of live logs agree. |
| `RaftSim.ElectionChecksPass` | crates/carolina-consensus/src/sim.rs:298-316 | In every run the election check passes on any list of live voters, and its record stays true. |
| `RaftSim.LogChecksPass` | crates/carolina-consensus/src/sim.rs:317-343 | In every run any two live voters pass the log comparison. |
| `RaftSim.CheckRun` | crates/carolina-consensus/src/sim.rs:297-343 | One round of the two checks on a cluster reached by any run never fails, and keeps the record true. |
| `RaftSim.Watch` | crates/carolina-consensus/src/sim.rs:220-257 | Checking after every event of any run, with one record kept throughout, never fails; every leader seen in any round is on record. |
| `RaftSim.TruthfulLater` | crates/carolina-consensus/src/sim.rs:298-315 | A true record of leaders stays true in every longer run. |
| `RaftApplied.AppliedInOrder` | crates/carolina-consensus/src/sim.rs:133-145 | In every diligent run (reports within what was applied, a restart reports all of it before anything else) each applied list holds the indices 1, 2, 3 and so on, across crashes at any point; a running voter delivers from where its list ends, or was just restarted. |
| `RaftApplied.AppliedAgree` | crates/carolina-consensus/src/sim.rs:365-382 | In every diligent run the shorter of two applied lists is a prefix of the longer, lists of crashed voters included. |
| `RaftApplied.AppliedCommitted` | crates/carolina-consensus/src/sim.rs:203-216 | Every applied entry was in the committed prefix of its voter at the point of the run where it was taken. |
| `RaftApplied.BaseApplied` | crates/carolina-consensus/src/sim.rs:343-364 | In every diligent run no base, of a running or crashed voter, is above the end of any applied list. |
| `RaftChecks.CheckCompaction` | crates/carolina-consensus/src/sim.rs:343-364 | The nested loops pass exactly when no live node dropped entries another live node has neither applied nor under its base. |
| `RaftChecks.Longest` | crates/carolina-consensus/src/sim.rs:366-371 | The scan finds the first node whose applied list is at least as long as every other. |
| `RaftChecks.CheckPrefixes` | crates/carolina-consensus/src/sim.rs:372-382 | Passes exactly when every applied list is a prefix of the given longest one. |
| `RaftChecks.CurrentLeader` | crates/carolina-consensus/src/sim.rs:110-124 | The last node, in node order, that leads with the highest term of all live leaders, or none exactly when no voter leads. |
| `RaftChecks.CheckLeader` | crates/carolina-consensus/src/sim.rs:384-400 | Passes exactly when the leader stores every listed entry that is above its base. |
| `RaftChecks.CompactionChecksPass` | crates/carolina-consensus/src/sim.rs:343-364 | In every diligent run no two nodes fail the compaction check. |
| `RaftChecks.PrefixChecksPass` | crates/carolina-consensus/src/sim.rs:365-382 | In every diligent run every applied list is a prefix of a longest one. |
| `RaftChecks.CommittedBelow` | crates/carolina-consensus/src/sim.rs:383-400 | A live voter whose log has the term of a committed entry at its index stores every committed entry at or below it, or has it under its base. |
| `RaftChecks.LeaderCheckExactly` | crates/carolina-consensus/src/sim.rs:383-400 | In every diligent run a live voter passes the leader check against an applied list if and only if the list is empty, ends at or below its base, or the voter's term at the last index is the last entry's. |
| `RaftChecks.LeaderCheckPasses` | crates/carolina-consensus/src/sim.rs:383-400 | The leader check passes against the applied list of any voter that was never above the leader's term when it took entries. |
| `RaftChecks.CheckInvariants` | crates/carolina-consensus/src/sim.rs:297-403 | The whole round of checks after any diligent run: it passes if and only if the live leader of the highest term has the right term where the longest applied list ends, or no voter leads; elections, logs, compaction and prefixes never fail it. |
| `RaftStale.StaleLeaderFails` | crates/carolina-consensus/src/sim.rs:383-400 | A diligent run of three voters on which the round fails: voter 1 leads term 1 unheard, voter 2 wins term 2, commits and applies an entry and crashes. |
| `RaftNode.Raft.New` | crates/carolina-consensus/src/lib.rs:278-317 | Refuses exactly the nodes that are not configured voters; any other starts as the boot state of what the storage holds. |
| `RaftNode.Raft.constructor` | crates/carolina-consensus/src/lib.rs:285-316 | Starts as the boot state of what the storage holds. |
| `RaftNode.Raft.Step` | crates/carolina-consensus/src/lib.rs:657-862 | The whole message handler, in place, equals the step function the theorems are about: new state, outbox and error. |
| `RaftNode.Raft.OnRequestVote` | crates/carolina-consensus/src/lib.rs:663-689 | In place, equals the vote-request function. |
| `RaftNode.Raft.OnVoteReply` | crates/carolina-consensus/src/lib.rs:690-701 | In place, equals the vote-reply function. |
| `RaftNode.Raft.OnAppend` | crates/carolina-consensus/src/lib.rs:702-809 | In place, equals the AppendEntries function. |
| `RaftNode.Raft.Scan` | crates/carolina-consensus/src/lib.rs:754-784 | The entry loop finds exactly the first entry to take, skipping those under the base and those already held, truncates on a conflict, and refuses one with a committed index. |
| `RaftNode.Raft.Splice` | crates/carolina-consensus/src/lib.rs:754-789 | Truncates and appends on log and disk as the splice function says. |
| `RaftNode.Raft.OnAppendReply` | crates/carolina-consensus/src/lib.rs:810-862 | In place, equals the append-reply function. |
| `RaftNode.Raft.AdvanceCommit` | crates/carolina-consensus/src/lib.rs:864-877 | Collecting and sorting match indices sets the commit index the specification function gives. |
| `RaftNode.Raft.MatchIndices` | crates/carolina-consensus/src/lib.rs:865-870 | The loop over members lists the match index of each, or zero. |
| `RaftNode.Raft.CountReads` | crates/carolina-consensus/src/lib.rs:833-850 | Counting acknowledgements moves exactly the quorate rounds to the ready list. |
| `RaftNode.Raft.CountAcks` | crates/carolina-consensus/src/lib.rs:834-846 | Adds the peer to every pending round it acknowledges and lists the rounds that reached a quorum. |
| `RaftNode.Raft.Retain` | crates/carolina-consensus/src/lib.rs:847-848 | Keeps exactly the rounds that are not done, in order. |
| `RaftNode.Raft.BecomeFollower` | crates/carolina-consensus/src/lib.rs:485-497 | In place, equals the follow function. |
| `RaftNode.Raft.BecomeCandidate` | crates/carolina-consensus/src/lib.rs:499-526 | In place, equals the candidacy function. |
| `RaftNode.Raft.Solicit` | crates/carolina-consensus/src/lib.rs:510-521 | The loop over peers sends each one vote request. |
| `RaftNode.Raft.BecomeLeader` | crates/carolina-consensus/src/lib.rs:528-543 | In place, equals the take-office function. |
| `RaftNode.Raft.InitPeers` | crates/carolina-consensus/src/lib.rs:532-537 | The loop over members resets every peer's next and match index. |
| `RaftNode.Raft.AppendLocal` | crates/carolina-consensus/src/lib.rs:545-556 | Log, disk and own match index as the append function says. |
| `RaftNode.Raft.Propose` | crates/carolina-consensus/src/lib.rs:560-573 | In place, equals the propose function. |
| `RaftNode.Raft.ReadBarrier` | crates/carolina-consensus/src/lib.rs:577-598 | In place, equals the barrier function, refusals included. |
| `RaftNode.Raft.SendAppend` | crates/carolina-consensus/src/lib.rs:609-636 | Sends the whole tail from the peer's next index with its predecessor's term, or nothing when the peer is behind the base, as specified. |
| `RaftNode.Raft.BroadcastAppend` | crates/carolina-consensus/src/lib.rs:600-607 | The loop over peers sends each its append message. |
| `RaftNode.Raft.Tick` | crates/carolina-consensus/src/lib.rs:639-655 | In place, equals the tick function. |
| `RaftNode.Raft.TakeCommitted` | crates/carolina-consensus/src/lib.rs:410-421 | The delivery loop hands over exactly the specified entries and advances the mark. |
| `RaftNode.Raft.SetApplied` | crates/carolina-consensus/src/lib.rs:426-433 | In place, equals the report function. |
| `RaftNode.Raft.CompactionHorizon` | crates/carolina-consensus/src/lib.rs:445-454 | The loop over members computes the specified minimum. |
| `RaftNode.Raft.Compact` | crates/carolina-consensus/src/lib.rs:458-475 | In place, equals the compaction function on log, base and disk. |
| `RaftNode.Raft.Heed` | crates/carolina-consensus/src/lib.rs:724-729 | Following the sender of a current append as specified. |
| `RaftNode.Raft.OnSuccess` | crates/carolina-consensus/src/lib.rs:826-853 | Progress of one peer, commit, and reads as specified. |
| `RaftFiles.FileStorage.Append` | crates/carolina-consensus/src/storage.rs:240-249 | Equals the in-memory append; for entries that continue the log and are within the decoder's limits every image of the disk during the call is sound and reopens as the old contents plus a prefix of the new entries. |
| `RaftFiles.FileStorage.TruncateFrom` | crates/carolina-consensus/src/storage.rs:250-253 | Equals the in-memory truncation; every image during the call reopens as the contents before or after. |
| `RaftFiles.FileStorage.CompactTo` | crates/carolina-consensus/src/storage.rs:254-278 | Below or at the base nothing changes, else equals the in-memory compaction; every image during the call, also between the two renames, reopens as the contents before or after. |
| `RaftFiles.FileStorage.SaveTermVote` | crates/carolina-consensus/src/storage.rs:223-239 | Equals the in-memory call and keeps the base; every image reopens as before or after. |
| `RaftFiles.FileStorage.RewriteLog` | crates/carolina-consensus/src/storage.rs:195-209 | Replaces the log file in one rename without changing what the storage stands for. |
| `RaftFiles.FileStorage.WriteBase` | crates/carolina-consensus/src/storage.rs:258-276 | With the new base written and the old log still in place the storage already reopens compacted. |
| `RaftFiles.FileStorage.Open` | crates/carolina-consensus/src/storage.rs:115-178 | Succeeds exactly when the log is not damaged, with the loaded contents, and drops a torn last frame; on damage the disk is untouched. A new disk and every image a call can leave behind give a storage fit for further calls. |
| `RaftFiles.FileStorage.NowLoads` | crates/carolina-consensus/src/storage.rs:115-178 | Whatever is on disk now reopens as what the storage stands for. |
| `RaftFiles.ScanFile` | crates/carolina-consensus/src/storage.rs:119-162 | The cursor loop over frames equals the scan function on any bytes. |
| `RaftFiles.Reopens` | crates/carolina-consensus/src/storage.rs:115-193 | Any image whose log is covered frames, frames in order and a torn frame reopens with exactly the entries above the base, and term, vote and base from the state file. |
| `RaftFiles.FramesCut` | crates/carolina-consensus/src/storage.rs:104-112 | Any byte prefix of a list of frames is whole frames followed by a torn one. |
| `RaftFiles.AppendSurvivesExactly` | crates/carolina-consensus/src/storage.rs:119-162 | Appended entries are there after a reopening if and only if the decoder, with its limits, gives each back from its own body. |
| `RaftFiles.ReopenFailsExactly` | crates/carolina-consensus/src/storage.rs:119-162 | With a decoder that gives an entry back or refuses it, reopening after an append to any sound log is an error, for the earlier entries too, if and only if some appended entry is beyond its limits. |
| `RaftFiles.OversizedIsLost` | crates/carolina-consensus/src/storage.rs:119-162 | With a decoder that refuses bodies over a limit, any log that reopens is unreadable as a whole once one larger entry is appended to it. |
| `RaftFiles.ReadsBackExactly` | crates/carolina-consensus/src/storage.rs:119-162 | A rewritten log reads back as its entries if and only if each is within the decoder's limits. |
| `RaftFiles.PlainStorage` | crates/carolina-consensus/src/storage.rs:115-178 | A storage over a simple codec holding any log in its range, reached by opening an empty disk and appending. |
| `RaftFiles.Encode` | crates/carolina-consensus/src/storage.rs:240-244 | The loop that frames entries builds exactly the concatenated frames. |
| `RaftFiles.CompactionsAgree` | crates/carolina-consensus/src/storage.rs:63-75 | The file storage and the in-memory storage compact alike if and only if the index is above the base, or repeats the base with its term. |
| `RaftFiles.CompactionsDiffer` | crates/carolina-consensus/src/storage.rs:254-257 | After a compaction to 2 a compaction to 1 leaves the two storages with different bases. |
| `LangExec.Env.Eval` | crates/carolina-lang/src/interp.rs:628-775 | Recursive evaluation with one mutable set of bindings has the value or the error of the evaluation function and, on success, leaves the bindings that function hands on. |
| `LangExec.Env.Sum` | crates/carolina-lang/src/interp.rs:759-775 | The loop that binds each item in turn has the value or the error of the recursive sum and, on success, the bindings it hands on. |
| `LangExec.CheckForAll` | crates/carolina-lang/src/interp.rs:1607-1629 | The loop over rows reports exactly the violations of the specification, in order. |
| `LangExec.CheckUnique` | crates/carolina-lang/src/interp.rs:1630-1654 | The loop with a seen map reports exactly the duplicates of the specification. |
| `LangExec.CheckReference` | crates/carolina-lang/src/interp.rs:1655-1672 | Reports exactly the dangling references. |
| `LangExec.Totals` | crates/carolina-lang/src/interp.rs:1673-1715 | The accumulation loop computes the specified total per group. |
| `LangExec.CheckAggregate` | crates/carolina-lang/src/interp.rs:1673-1722 | Reports exactly the groups whose total breaks the bound. |
| `LangExec.CheckTransition` | crates/carolina-lang/src/interp.rs:1723-1749 | Reports exactly the rows whose change is not allowed. |
| `LangExec.CheckInvariant` | crates/carolina-lang/src/interp.rs:1565-1755 | Every kind of law, error wrapping included, equals the specification. |
| `LangExec.CheckScoped` | crates/carolina-lang/src/interp.rs:1010-1030 | The loop over invariants with a scope filter equals the specification. |
| `LangExec.CheckFacts` | crates/carolina-lang/src/interp.rs:975-1008 | The loop over prerequisite facts equals the specification. |
| `LangExec.ReadInputs` | crates/carolina-lang/src/interp.rs:861-921 | The read loop fills the local list the specification gives, or stops with its rejection. |
| `LangExec.RunEffects` | crates/carolina-lang/src/interp.rs:923-953 | The loop over effects builds the specified candidate state and literal effects. |
| `LangExec.EvaluateWithScope` | crates/carolina-lang/src/interp.rs:808-1037 | The whole evaluation in source order equals the evaluation function the theorems are about. |
| `ScopedEvaluation.ScopedEvaluationPreservesMeaning` | crates/carolina-lang/src/interp.rs:792-1037 | If the pre-state satisfies all invariants, evaluating with only the operation's own invariants gives exactly the full outcome; and on the pre-state cut to the operation's own records it gives that outcome with its states cut the same way. |
| `ScopedEvaluation.ScopedIsFull` | crates/carolina-lang/src/interp.rs:795-806 | Scoped equals full evaluation already when just the invariants outside the scope hold before. |
| `ScopedEvaluation.ScopedIsFullExactly` | crates/carolina-lang/src/interp.rs:795-806 | For accepted outcomes scoped and full evaluation agree if and only if the invariants outside the scope hold before. |
| `ScopedAgreement.AgreeExactly` | crates/carolina-lang/src/interp.rs:795-806 | For every invocation, state and outcome: scoped equals full evaluation if and only if the operation does not get as far as the invariants, or the first error there is in scope or has the code of the first one in scope and, without errors, the first violation is in scope; invariants outside the scope are judged on the state before. |
| `ScopedAgreement.ScopedCanDiffer` | crates/carolina-lang/src/interp.rs:795-806 | A module, an operation and a state where scoped evaluation accepts and full evaluation does not agree. |
| `ScopedAgreement.VerdictNamed` | crates/carolina-lang/src/interp.rs:1565-1755 | Every violation an invariant check reports carries the id of that invariant. |
| `ScopedEvaluation.LoadedIsScoped` | crates/carolina-lang/src/interp.rs:792-806 | Evaluation on the state cut to the closure's records is evaluation on the whole state, cut; rejections and errors included. |
| `ScopedEvaluation.EvalLocal` | crates/carolina-lang/src/interp.rs:628-775 | An expression sees only the records it names. |
| `ScopedEvaluation.InvariantLocal` | crates/carolina-lang/src/interp.rs:1565-1755 | An invariant check depends only on the tables of the records its law names. |
| `ScopedEvaluation.ApplyRestrict` | crates/carolina-lang/src/interp.rs:1248-1531 | Applying a literal effect commutes with cutting the state to any set holding its records. |
| `ScopedEvaluation.ApplyFrame` | crates/carolina-lang/src/interp.rs:1248-1531 | A literal effect leaves all other tables alone. |
| `ScopedEvaluation.BodyRestrict` | crates/carolina-lang/src/interp.rs:808-953 | Reads, guards and effects of an operation commute with cutting the state to its footprint, and touch nothing else. |
| `Replay.ReplayIsEvaluation` | crates/carolina-lang/src/interp.rs:923-953 | For every accepted candidate, in any scope, replaying its literal effects on the pre-state succeeds with exactly its post-state. |
| `Replay.Store.ApplyEffects` | crates/carolina-lang/src/interp.rs:1535-1546 | All effects are applied in place, or the first error is returned and the state is untouched. |
| `Replay.CounterexamplesReplay` | crates/carolina-lang/src/counterexample.rs:95-151 | Exploring the invocations of a returned counterexample, rejected ones dropped, returns the very same counterexample. |
| `Replay.CounterexamplesReproduce` | crates/carolina-lang/src/counterexample.rs:185-192 | Every returned counterexample replays to its own class of failure. |
| `Replay.AdmittedAccepted` | crates/carolina-lang/src/counterexample.rs:100-108 | Each admitted candidate is the accepted outcome of its invocation on the shared snapshot, and replays on it. |
| `ReplayExec.ExploreConcurrent` | crates/carolina-lang/src/counterexample.rs:95-151 | The explorer with its growing lists and merged state equals the exploration function the theorems are about. |
| `ReplayExec.AdmitAll` | crates/carolina-lang/src/counterexample.rs:100-108 | The acceptance loop keeps exactly the accepted invocations and candidates, or stops at the first error. |
| `ReplayExec.MergeAll` | crates/carolina-lang/src/counterexample.rs:112-124 | Applying the accepted effect lists to one state in turn equals the merge function. |
| `ReplayExec.SequentiallyJustified` | crates/carolina-lang/src/counterexample.rs:153-182 | Tries both orders on fresh copies, as specified. |
| `Escrow.EscrowAccounting` | crates/carolina-lang/src/interp.rs:1373-1484 | Over every successful list of effects, of which only Reserve and Release, on any resources, touch the resource's record or its reservation record: rows neither appear nor vanish, each row's available plus reserved is constant, and a reserved amount equal to the sum of its active reservations stays so. |
| `Escrow.ReleasedOnce` | crates/carolina-lang/src/interp.rs:1424-1484 | Over every such list a reservation id is released at most once, and never if it was closed before. |
| `Escrow.EffectMoves` | crates/carolina-lang/src/interp.rs:1373-1484 | One effect moves the same amount between available and reserved of its own row and in the sum of active reservations, and nothing on any other row or resource. |
| `Escrow.StatusMoves` | crates/carolina-lang/src/interp.rs:1373-1484 | A reservation goes from absent to active by Reserve and from active to closed by Release, and no other effect changes it. |
| `SemanticClosure.Uf.Find` | crates/carolina-compiler/src/analysis.rs:159-165 | Returns the root and compresses the path without changing any root. |
| `SemanticClosure.Uf.Union` | crates/carolina-compiler/src/analysis.rs:166-171 | Merges exactly the two classes, under the smaller root. |
| `SemanticClosure.BuildClasses` | crates/carolina-compiler/src/analysis.rs:174-203 | Two records end in one class if and only if a chain of records, each sharing an invariant with the next, connects them. |
| `SemanticClosure.Group` | crates/carolina-compiler/src/analysis.rs:222-226 | Lists every record under the root of its class. |
| `SemanticClosure.NumberGroups` | crates/carolina-compiler/src/analysis.rs:227-272 | Numbers the non-empty groups and maps every record to the number of its group. |
| `SemanticClosure.BuildTemplates` | crates/carolina-compiler/src/analysis.rs:174-272 | The templates partition the records, and two records share one exactly when connected. |
| `SemanticClosure.Pass` | crates/carolina-compiler/src/analysis.rs:281-292 | One pass stays below every closed set above the footprint and finds nothing to add only at a fixed point. |
| `SemanticClosure.OperationClosure` | crates/carolina-compiler/src/analysis.rs:273-304 | The loop ends in the least set above the footprint closed under the invariants it touches or the operation requires, with exactly those invariants. |
| `SemanticClosure.ClosureIsReachable` | crates/carolina-compiler/src/analysis.rs:273-304 | That set is exactly what the footprint and the required facts reach along chains of invariants. |
| `SemanticClosure.ClosureIsTemplates` | crates/carolina-compiler/src/analysis.rs:294-304 | The set is exactly the union of the record sets of the operation's templates: the two algorithms agree. |
| `SemanticClosure.OperationTemplates` | crates/carolina-compiler/src/analysis.rs:294-301 | The sorted list holds exactly the templates of the closure's records, without repeats. |
| `SemanticClosure.CloseOperation` | crates/carolina-compiler/src/analysis.rs:174-304 | Both algorithms together: least closure and its templates cover the same records. |
| `SemanticClosure.ClosureDeclared` | crates/carolina-compiler/src/analysis.rs:273-304 | Closures stay within the declared records. |
| `Selection.Compile` | crates/carolina-compiler/src/select.rs:45-163 | Fails exactly when some operation does not prove every serial obligation; otherwise the components partition the operations into the chains of overlapping affected records, different components affect disjoint records, and each has one template, its choice, proved by every member. |
| `Selection.SelectTemplates` | crates/carolina-compiler/src/select.rs:96-163 | Fails exactly when a component has a member that does not accept the serial template; otherwise settles every component on its choice. |
| `Selection.Choose` | crates/carolina-compiler/src/select.rs:127-162 | The cheapest template below the serial cost that every member accepts, first in library order among equals, or the serial one exactly when there is none or a member is forced to it. |
| `Selection.FindComponents` | crates/carolina-compiler/src/select.rs:69-89 | The groups partition the operations, and two operations share a group exactly when a chain of interacting operations joins them. |
| `Selection.Component` | crates/carolina-compiler/src/select.rs:75-86 | The stack-based search returns exactly the operations chained to its start. |
| `Selection.ByCost` | crates/carolina-compiler/src/select.rs:128-129 | A stable sort of the library by lexicographic cost. |
| `Selection.Analyze` | crates/carolina-compiler/src/select.rs:51-57 | One candidate per operation and template; an operation is accepted for a template exactly when all its obligations are proved. |
| `Selection.Interactions` | crates/carolina-compiler/src/analysis.rs:306-318 | Operations interact exactly when they share a template. |
| `Selection.CloseModule` | crates/carolina-compiler/src/analysis.rs:174-318 | Affected records are the least closures, and operations interact exactly when their affected records overlap. |
| `Selection.ShareIsOverlap` | crates/carolina-compiler/src/analysis.rs:306-318 | Sharing a template is the same as overlapping affected records. |
| `Selection.ComponentsDisjoint` | crates/carolina-compiler/src/select.rs:68-87 | Operations of different components affect disjoint records. |
| `CatalogSafety.Recovery` | crates/carolina-catalog/src/lib.rs:904-933 | For every log with increasing indices, every image point and every replay start at or before it, restoring the image and replaying gives the state of applying the log once from empty; entries that were refused included. |
| `CatalogSafety.RestoreInverts` | crates/carolina-catalog/src/lib.rs:904-933 | Restoring any listing of a reachable state gives the state back. |
| `CatalogSafety.PrefixSpent` | crates/carolina-catalog/src/lib.rs:1053-1123 | Once passed, a log entry is skipped or refused again in every later state. |
| `CatalogSafety.RevisionDeterminesEntry` | crates/carolina-catalog/src/lib.rs:1152-1212 | Over every log a key and a revision determine one entry. |
| `CatalogSafety.StampsExactly` | crates/carolina-catalog/src/lib.rs:1151-1225 | A success stamps exactly the changed keys and its AdminCommand key with the next generation, above every revision before, and leaves every other key alone. |
| `CatalogSafety.GenerationUsedOnce` | crates/carolina-catalog/src/lib.rs:1151-1153 | Two successes of one log never share a generation. |
| `CatalogSafety.FailureChangesOnlyResult` | crates/carolina-catalog/src/lib.rs:1141-1150 | In every log a failed command changes only its own retained result and the applied index; the failure is the answer in every later state, and no later command of that request takes effect. |
| `CatalogSafety.ResultRetained` | crates/carolina-catalog/src/lib.rs:1127-1140 | Over every log a retained result never changes. |
| `CatalogSafety.DuplicateIsIdempotent` | crates/carolina-catalog/src/lib.rs:1125-1140 | A later copy of a command changes only the applied index and answers as the first did, unless the first already was an identity conflict. |
| `CatalogSafety.ValidatesExactly` | crates/carolina-catalog/src/lib.rs:1228-1345 | In every reachable state validation passes if and only if the bootstrap administrator asks and every expected revision, every predicate and every mutation precondition holds, each stated on its own. |
| `CatalogSafety.OneWinner` | crates/carolina-catalog/src/lib.rs:1232-1246 | Of all commands of a log that expect a key absent and write it at most one takes effect. |
| `CatalogSafety.TombstonesAreFinal` | crates/carolina-catalog/src/lib.rs:1293-1343 | Over every log an entry that a committed state shows tombstoned never changes again, AdminCommand keys apart. |
| `CatalogSafety.RevivedExactly` | crates/carolina-catalog/src/lib.rs:1200-1212 | A tombstoned key is live after the next entry if and only if it is the AdminCommand key of a command that takes effect. |
| `CatalogSafety.GrantStep` | crates/carolina-catalog/src/lib.rs:342-351 | A log entry without an AdvancePointer on the grant moves it along at most one lifecycle edge, keeps its nodes, and never revives it, however many advances it holds. |
| `CatalogSafety.AdmissionNeverReturns` | crates/carolina-catalog/src/lib.rs:1026-1031 | In every log that does not overwrite the grant, admission that was held and lost never returns. |
| `CatalogSafety.ReopenedExactly` | crates/carolina-catalog/src/lib.rs:1319-1325 | A closing, closed, retired or tombstoned grant admits a node after the next entry if and only if the command takes effect and its last write to the grant is an AdvancePointer to an active record admitting it. |
| `CatalogSafety.ClosedCanReopen` | crates/carolina-catalog/src/lib.rs:1319-1325 | A log of four entries (genesis, an active grant, closing it, overwriting it) admits a node, then does not, then admits it again. |
| `CatalogSafety.ScopeLocksDisjoint` | crates/carolina-catalog/src/lib.rs:1249-1270 | In every log whose locks are only put under an overlap check or tombstoned, live locks of a tenant never share a record. |
| `CatalogMachine.Catalog.ApplyEntry` | crates/carolina-catalog/src/lib.rs:1053-1123 | In place, equals the apply function; an error leaves everything as it was. |
| `CatalogMachine.Catalog.Execute` | crates/carolina-catalog/src/lib.rs:1125-1225 | In place, equals the command function. |
| `CatalogMachine.Catalog.MutateEntries` | crates/carolina-catalog/src/lib.rs:1154-1199 | The mutation loop updates the entries and collects the changed keys as specified. |
| `CatalogMachine.Catalog.MutateEntry` | crates/carolina-catalog/src/lib.rs:1156-1198 | One mutation in place. |
| `CatalogMachine.Catalog.Found` | crates/carolina-catalog/src/lib.rs:1082-1108 | Genesis writes the configuration and one entry per voter at the next generation. |
| `CatalogMachine.Catalog.Check` | crates/carolina-catalog/src/lib.rs:1228-1345 | Expected revisions, predicates and mutation preconditions in order; the first failure wins. |
| `CatalogMachine.Catalog.Locked` | crates/carolina-catalog/src/lib.rs:1249-1270 | Finds an overlapping live lock exactly when there is one. |
| `CatalogMachine.Catalog.CheckAllPredicates` | crates/carolina-catalog/src/lib.rs:1247-1292 | The predicate loop returns the first failure. |
| `CatalogMachine.Catalog.CheckAllExpected` | crates/carolina-catalog/src/lib.rs:1232-1246 | The revision loop returns the first failure. |
| `CatalogMachine.Catalog.CheckAllMutations` | crates/carolina-catalog/src/lib.rs:1293-1343 | The precondition loop returns the first failure. |
| `CatalogMachine.Catalog.Image` | crates/carolina-catalog/src/lib.rs:904-913 | Lists every entry and result; restoring it gives this state back. |
| `CatalogMachine.Catalog.Restored` | crates/carolina-catalog/src/lib.rs:917-933 | The rebuilt maps equal the restore function. |
| `Canon.DecodesExactlyCanonical` | crates/carolina-core/src/canon.rs:235-263 | Bytes decode to a value if and only if they are its encoding and it is within the limits. |
| `Canon.ReencodingAgrees` | crates/carolina-core/src/canon.rs:235-263 | After a parse of all bytes the re-encoding equals them: the comparison in `decode` can never fail. |
| `Canon.EncodeInjective` | crates/carolina-core/src/canon.rs:197-232 | Two values of any size with strictly sorted ASCII object keys and equal encodings are equal. |
| `Canon.ValueWritten` | crates/carolina-core/src/canon.rs:363-477 | Whatever the parser accepts at any position and depth is the printed form of the value it returns, within the limits. |
| `Canon.ValueRead` | crates/carolina-core/src/canon.rs:363-477 | A value within the limits is read back from its printed form at any position, whatever follows. |
| `Canon.Parser.ReadValue` | crates/carolina-core/src/canon.rs:363-389 | The recursive parser with a cursor and a depth counter equals the parse function, and restores the depth. |
| `Canon.Parser.ReadArray` | crates/carolina-core/src/canon.rs:400-428 | The item loop equals the parse function. |
| `Canon.Parser.ReadObject` | crates/carolina-core/src/canon.rs:429-477 | The member loop, with its key-order check, equals the parse function. |
| `Canon.Parser.ReadKey` | crates/carolina-core/src/canon.rs:439-457 | A key is an ASCII string strictly above the last one. |
| `Canon.Parser.ReadString` | crates/carolina-core/src/canon.rs:478-556 | The character loop with escapes equals the string function. |
| `Canon.Parser.ReadLiteral` | crates/carolina-core/src/canon.rs:355-362 | Accepts exactly the literal. |
| `Canon.DecodeBytes` | crates/carolina-core/src/canon.rs:235-263 | The whole decoder, re-encoding comparison included, equals the decode function. |
| `Canon.Print` | crates/carolina-core/src/canon.rs:203-232 | The recursive printer equals the encode function. |
| `Canon.PrintString` | crates/carolina-core/src/canon.rs:323-336 | The character loop prints exactly the escaped string. |
| `KeyCodec.OrderPreserved` | crates/carolina-core/src/keycodec.rs:85-160 | Comparing the encodings of two element lists byte by byte equals comparing the lists by tag and then value. |
| `KeyCodec.ReadAllWritten` | crates/carolina-core/src/keycodec.rs:186-264 | Reading back what was written gives the elements. |
| `KeyCodec.WriteReadAll` | crates/carolina-core/src/keycodec.rs:203-264 | Writing what was read gives the bytes, from any position. |
| `KeyCodec.AcceptsCanonical` | crates/carolina-core/src/keycodec.rs:186-264 | Bytes read as a list of elements if and only if they are its encoding. |
| `KeyCodec.KeyExactly` | crates/carolina-core/src/keycodec.rs:203-264 | Bytes read as a known number of elements with nothing left over if and only if they are the encoding of such a list. |
| `KeyCodec.KeyReader.Key` | crates/carolina-core/src/keycodec.rs:203-264 | Reading a known number of elements and finishing equals the key function, trailing bytes refused. |
| `KeyCodec.KeyReader.Finish` | crates/carolina-core/src/keycodec.rs:256-264 | Complains exactly about trailing bytes. |
| `KeyCodec.PrefixUpperBound` | crates/carolina-core/src/keycodec.rs:269-278 | The least byte string above every string with the prefix; none exactly when the prefix is all 0xff, and then no bound exists. |
| `KeyCodec.KeyWriter.Push` | crates/carolina-core/src/keycodec.rs:95-156 | Appends exactly the element's encoding. |
| `KeyCodec.KeyWriter.Escaped` | crates/carolina-core/src/keycodec.rs:116-127 | The escaping loop appends the escaped bytes and the terminator. |
| `KeyCodec.KeyReader.Elem` | crates/carolina-core/src/keycodec.rs:203-255 | One element in place, equals the read function, errors included. |
| `KeyCodec.KeyReader.Text` | crates/carolina-core/src/keycodec.rs:216-236 | The unescaping loop stops at the terminator or at a malformed escape. |
| `KeyCodec.KeyReader.Take` | crates/carolina-core/src/keycodec.rs:192-199 | Takes exactly the bytes asked for, or reports truncation. |
| `RaftAnswers.VoteAnswered` | crates/carolina-consensus/src/lib.rs:663-689 | A vote request is granted exactly when its term is not old, its log is at least as new and no other candidate of that term has the vote; the answer, the term and the vote in memory and on disk follow, and log and commit index stay. |
| `RaftAnswers.VoteCounted` | crates/carolina-consensus/src/lib.rs:690-701 | A reply is counted exactly when it grants a vote of the candidate's own term, a leader takes office exactly when a quorum is complete, and a higher term deposes. |
| `RaftAnswers.StaleAppend` | crates/carolina-consensus/src/lib.rs:710-723 | An append of an older term changes nothing and is answered with the own term and last index. |
| `RaftAnswers.MismatchedAppend` | crates/carolina-consensus/src/lib.rs:724-753 | An append whose previous entry is not held makes its sender the leader, takes nothing in, and is answered with a lower index within log and base to retry from. |
| `RaftAnswers.AcceptedAppend` | crates/carolina-consensus/src/lib.rs:754-809 | After an accepted append the commit index covers every index that both the leader's commit index and the end of the message cover, never goes back, and otherwise stays within both; the answer names that end. |
| `RaftAnswers.FollowersLearn` | crates/carolina-consensus/src/lib.rs:790-809 | In every run, once an append that connects is taken in, every index its leader had committed, as far as the message reaches, is behind the delivery mark or in the next delivery. |
| `RaftAnswers.LeadersCommit` | crates/carolina-consensus/src/lib.rs:810-877 | In every run, once a leader has counted an acknowledgement, every index of its term that a quorum has acknowledged is committed. |
| `RaftAnswers.SoleVoterNeverCommits` | crates/carolina-consensus/src/lib.rs:556-573 | A cluster of a single voter never commits anything in any run, although the documentation promises a commit once a quorum has the entry. |
| `RaftAnswers.SolicitSends` | crates/carolina-consensus/src/lib.rs:512-526 | A candidate asks every other member for its vote, with its term and the end of its log. |
| `RaftAnswers.BroadcastSends` | crates/carolina-consensus/src/lib.rs:600-636 | Every other member whose next index is above the base is sent the append for it. |
| `RaftServing.ReadsCounted` | crates/carolina-consensus/src/lib.rs:833-850 | An acknowledgement makes ready exactly the rounds it completes, with their index; every other round stays pending with the acknowledgement added. |
| `RaftServing.ReadsServed` | crates/carolina-consensus/src/lib.rs:833-850 | A read round that an acknowledgement brings to a quorum becomes ready with that very step. |
| `RaftServing.ReplyElsewhere` | crates/carolina-consensus/src/lib.rs:810-822 | A reply of a higher term deposes; one for another leadership only records what its sender has applied. |
| `RaftServing.ReplyRecorded` | crates/carolina-consensus/src/lib.rs:823-862 | A leader records match, next and applied index of the replying peer, never lowering match, and sends on exactly when the peer lacks entries or refused. |
| `RaftServing.ProposalStored` | crates/carolina-consensus/src/lib.rs:560-573 | A proposal to a leader becomes its next entry in memory and on disk and goes to every peer; to anyone else, or empty, it is refused and changes nothing. |
| `RaftServing.BarrierOpened` | crates/carolina-consensus/src/lib.rs:577-598 | A barrier opens the next round at the commit index with the leader's own acknowledgement and asks every peer, exactly when the leader has committed in its own term. |
| `RaftServing.TimerFires` | crates/carolina-consensus/src/lib.rs:639-655 | A leader's timer sends heartbeats to every peer; anyone else's starts an election of the next term, durably, asking every peer. |
| `RaftServing.AppendCarries` | crates/carolina-consensus/src/lib.rs:609-636 | In every reachable state an append names the entry before the next one and its term, and carries every entry after it and nothing else. |
| `RaftServing.CompactsExactly` | crates/carolina-consensus/src/lib.rs:445-475 | In every reachable state compaction moves the base to exactly the highest index asked for that every member is known to have applied and that is committed, never back. |
| `RaftServing.ReportsExactly` | crates/carolina-consensus/src/lib.rs:426-433 | A reported frontier counts as far as the log goes and at least to the base, marks never go back, and nothing else changes. |
| `LangOrder.CompareExact` | crates/carolina-lang/src/types.rs:221-262 | The order of values is less, equal or greater exactly as numbers, booleans and bytes are: byte strings, sets, tuples and rows at the first place they differ, a proper prefix first. |
| `LangOrder.TotalOrder` | crates/carolina-lang/src/types.rs:221-262 | The order is total, antisymmetric and transitive, and equal only on equal values. |
| `LangOrder.ComparesExactly` | crates/carolina-lang/src/interp.rs:587-611 | Each of the six operators holds exactly when the order says so, and fails exactly on values of different kinds. |
| `LangOrder.ComparisonMeans` | crates/carolina-lang/src/interp.rs:731-735 | Evaluating a comparison of two expressions gives the truth of that relation between their values. |
| `LangOrder.NumbersCompare` | crates/carolina-lang/src/interp.rs:587-611 | On numbers the six comparisons are the comparisons of integers. |
| `LangMeaning.ArithExact` | crates/carolina-lang/src/interp.rs:537-585 | Checked arithmetic gives the exact sum, difference or product exactly when it is in the range of the type, and the right error otherwise. |
| `LangMeaning.AddItemExact` | crates/carolina-lang/src/interp.rs:1330-1340 | Adding to a set in order adds exactly that element and keeps the order. |
| `LangMeaning.SetFromExact` | crates/carolina-lang/src/interp.rs:695-702 | A set literal holds exactly its elements, each once, in order. |
| `LangMeaning.GetMemberExact` | crates/carolina-lang/src/interp.rs:642-663 | A member is found exactly when the list has it, and is its value. |
| `LangMeaning.PutMemberExact` | crates/carolina-lang/src/interp.rs:688-694 | Storing a member changes that name and no other and keeps names in order. |
| `LangMeaning.RowFieldsExact` | crates/carolina-lang/src/interp.rs:520-535 | A row value has exactly the declared fields the row stores, under their names. |
| `LangMeaning.EvalIsMeaning` | crates/carolina-lang/src/interp.rs:628-775 | Evaluation with a mutable environment is the lexical meaning of the expression, for every expression that binds only fresh variables, errors included. |
| `LangMeaning.ReuseUnbinds` | crates/carolina-lang/src/interp.rs:759-772 | A sum over a variable that is already bound leaves it unbound, so a later use of it fails. |
| `LangMeaning.SumsExactly` | crates/carolina-lang/src/interp.rs:759-772 | A sum over a set succeeds exactly when every running total is in range, and is then the sum of the amounts. |
| `LangEffects.PlacesDetermine` | crates/carolina-lang/src/interp.rs:30-106 | Two states in key order that read the same at every place have the same tables. |
| `LangEffects.AssignMeans` | crates/carolina-lang/src/interp.rs:1250-1259 | Assignment succeeds exactly when the field is declared, the value fits and the place exists; then that place holds the value and no other place changes. |
| `LangEffects.IncrementMeans` | crates/carolina-lang/src/interp.rs:1260-1269 | Succeeds exactly for a positive amount on an existing number of its kind with the sum in range; then that place holds the sum and no other changes. |
| `LangEffects.DecrementMeans` | crates/carolina-lang/src/interp.rs:1270-1279 | The same with the difference. |
| `LangEffects.BuildsExactly` | crates/carolina-lang/src/interp.rs:1280-1305 | The row of an insertion has exactly the declared fields with the given values, or the error is that of the first field that is missing or does not fit. |
| `LangEffects.InsertRefused` | crates/carolina-lang/src/interp.rs:1280-1321 | An insertion is refused with the error of the lookup when the record is unknown, else with that of the first field that is missing or does not fit. |
| `LangEffects.InsertMeans` | crates/carolina-lang/src/interp.rs:1280-1321 | An insertion adds exactly the row under its key; repeating an identical fact changes nothing, any other existing row is refused. |
| `LangEffects.DeleteMeans` | crates/carolina-lang/src/interp.rs:1322-1329 | Deletion succeeds exactly when the row exists, and removes that row and no other. |
| `LangEffects.AddMeans` | crates/carolina-lang/src/interp.rs:1330-1340 | The set at the place gains exactly the value; no other place changes. |
| `LangEffects.RemoveMeans` | crates/carolina-lang/src/interp.rs:1341-1356 | The set at the place loses exactly the value; no other place changes. |
| `LangEffects.SwapMeans` | crates/carolina-lang/src/interp.rs:1357-1372 | Swaps exactly when the place holds the expected value. |
| `LangEffects.TransferMeans` | crates/carolina-lang/src/interp.rs:1485-1505 | A transfer succeeds exactly for a positive amount between two distinct places that both stay in range; the source loses it, the destination gains it, every other place is unchanged. |
| `LangEffects.AdvanceMeans` | crates/carolina-lang/src/interp.rs:1506-1530 | Advances exactly when the place holds the variant named, to the variant named. |
| `LangLaws.EvalShrinks` | crates/carolina-lang/src/interp.rs:628-775 | Evaluation never binds a variable that was not bound before. |
| `LangLaws.EvalAlike` | crates/carolina-lang/src/interp.rs:628-775 | The result depends only on the variables the expression mentions. |
| `LangLaws.ForAllExactly` | crates/carolina-lang/src/interp.rs:1607-1629 | Reports exactly the rows that pass the filter and break the body, in key order, up to the first error. |
| `LangLaws.UniqueExactly` | crates/carolina-lang/src/interp.rs:1630-1654 | Reports exactly the rows whose key an earlier passing row already has. |
| `LangLaws.ReferenceExactly` | crates/carolina-lang/src/interp.rs:1655-1672 | Reports exactly the children whose parent does not exist in the candidate state. |
| `LangLaws.TransitionExactly` | crates/carolina-lang/src/interp.rs:1723-1749 | Reports exactly the rows of both states whose variant changed along no allowed edge. |
| `LangTotals.AddsExactly` | crates/carolina-lang/src/interp.rs:1690-1705 | Adding a contribution raises the total of its own group by it and of no other, and keeps groups in order. |
| `LangTotals.TotalsExactly` | crates/carolina-lang/src/interp.rs:1673-1710 | There is a total for exactly the groups some passing row belongs to, and it is the sum over the passing rows of that group; it fails exactly when a row or a running total fails. |
| `LangTotals.AggregateExactly` | crates/carolina-lang/src/interp.rs:1673-1722 | A group is reported exactly when its sum does not stand in the relation to the bound for that group; with no grouping the empty table has sum zero. |
| `LangTotals.InvariantHoldsExactly` | crates/carolina-lang/src/interp.rs:1565-1756 | Checking an invariant finds nothing exactly when the law holds of the two states: for all rows, uniqueness, references, sums and transitions, stated on rows. |
| `LangTotals.UndefinedViolates` | crates/carolina-lang/src/interp.rs:1565-1591 | A law that becomes undefined by overflow or a missing record counts as violated; every other error is passed on. |
| `LangOutcome.ScansExactly` | crates/carolina-lang/src/interp.rs:896-922 | A scan reads exactly the rows that pass its filter. |
| `LangOutcome.ReadsExactly` | crates/carolina-lang/src/interp.rs:860-922 | Each kind of read gives the row, the optional row, the existence or the set, from the state before the operation. |
| `LangOutcome.AllReadExactly` | crates/carolina-lang/src/interp.rs:859-922 | Every read sees the bindings of those before it; what is captured is exactly what was read. |
| `LangOutcome.LiteralExactly` | crates/carolina-lang/src/interp.rs:1048-1212 | The literal form of each effect has the meanings of its expressions in its places. |
| `LangOutcome.EffectsExactly` | crates/carolina-lang/src/interp.rs:923-954 | Effects run in order in the candidate state, a guard that is not true skipping its effect; guards and literal effects are recorded in order; the first failure rejects at that effect. |
| `LangOutcome.ScopedExactly` | crates/carolina-lang/src/interp.rs:1010-1023 | Nothing is found exactly when every invariant in scope is kept; otherwise the first finding is of the first broken one. |
| `LangOutcome.FactsExactly` | crates/carolina-lang/src/interp.rs:974-1009 | The required facts are there exactly when every invariant in scope that asks for one finds it; otherwise the first one that asks in vain rejects. |
| `LangOutcome.OutcomesExactly` | crates/carolina-lang/src/interp.rs:808-1037 | The outcome of an operation is the one its stages say, in their order: arguments, precondition, reads, effects, postcondition, facts, invariants, result. |
| `LangOutcome.AcceptedObeys` | crates/carolina-lang/src/interp.rs:1010-1037 | Every invariant in scope holds, as a statement about rows and sums, of the state an accepted operation leaves. |
| `ReplayOutcome.AdmitsExactly` | crates/carolina-lang/src/counterexample.rs:100-110 | The admitted invocations are exactly those the interpreter accepts on the snapshot, in order, with their candidates. |
| `ReplayOutcome.MergesExactly` | crates/carolina-lang/src/counterexample.rs:111-124 | The merge is the state the recorded effects lead to one after another, and fails exactly at the first that does not apply. |
| `ReplayOutcome.MergeMeans` | crates/carolina-lang/src/counterexample.rs:111-124 | Merging succeeds or fails exactly as some chain of states says. |
| `ReplayOutcome.JustifiedMeans` | crates/carolina-lang/src/counterexample.rs:153-182 | Two invocations are justified exactly when one of the two serial orders accepts both with the recorded results. |
| `ReplayOutcome.JudgesExactly` | crates/carolina-lang/src/counterexample.rs:111-150 | A failure is found exactly when the effects do not apply, an invariant is broken in the merged state, or two accepted invocations have no serial order. |
| `ReplayOutcome.ExploresExactly` | crates/carolina-lang/src/counterexample.rs:95-151 | A counterexample is returned exactly when the admitted invocations have such a failure, and it names the snapshot, the invocations, the candidates and that failure. |
| `Escrow.ShiftsExactly` | crates/carolina-lang/src/interp.rs:1373-1423 | Moving an amount between two fields of a row succeeds exactly when both are numbers of its kind and stay in range. |
| `Escrow.ReservesExactly` | crates/carolina-lang/src/interp.rs:1373-1423 | A reservation succeeds exactly when the amount is positive, both counters stay in range, the reservation row can be formed and its identity is new. |
| `Escrow.ReleasesExactly` | crates/carolina-lang/src/interp.rs:1424-1484 | A release succeeds exactly for an active reservation of that very key and amount whose counters stay in range. |
| `CatalogSafety.LifecycleExactly` | crates/carolina-catalog/src/lib.rs:341-351 | A grant moves one stage at a time, except that one never activated can be retired. |
| `CatalogSafety.RefusedExactly` | crates/carolina-catalog/src/lib.rs:1053-1123 | Applying a log entry fails exactly for a change before genesis, a second genesis, another manifest or a manifest without three voters, each with its error and without effect; an entry already applied is skipped. |
| `CatalogSafety.FoundsAt` | crates/carolina-catalog/src/lib.rs:1082-1108 | After genesis the configuration key and the key of every voter named hold their entries at the next generation, and no other key has changed. |
| `CatalogSafety.WritesExactly` | crates/carolina-catalog/src/lib.rs:1125-1225 | After a successful command each key holds what the last mutation naming it wrote, and every other key what it held. |
| `CatalogSafety.FailsExactly` | crates/carolina-catalog/src/lib.rs:1228-1345 | A command fails exactly with the failure of its first unmet expectation, else predicate, else mutation, after the principal is checked. |
| `Selection.CheaperExactly` | crates/carolina-compiler/src/library.rs:12-19 | Cheaper means less in the first component that differs, and is a strict total order. |
| `CanonJson.PrintsJson` | crates/carolina-core/src/canon.rs:197-232 | What the printer writes is JSON text (sections 3, 4, 5 and 7 of RFC 8259) that denotes the value. |
| `KeyCodec.WritesLayout` | crates/carolina-core/src/keycodec.rs:8-18 | An element is written as the tag and layout of the format's table. |
| `RaftFiles.FrameLayout` | crates/carolina-consensus/src/storage.rs:104-112 | A frame is the letters CRFT, length and checksum with the low byte first, and the entry. |
| `LangMeaning.RecordFound` | crates/carolina-lang/src/ir.rs:568-573 | Lookup gives the first declaration of that record, and fails exactly when there is none. |
| `LangMeaning.EnumFound` | crates/carolina-lang/src/ir.rs:574-579 | Lookup gives the first declaration of that enum, and fails exactly when there is none. |
| `LangMeaning.ResourceFound` | crates/carolina-lang/src/ir.rs:580-585 | Lookup gives the first declaration of that resource, and fails exactly when there is none. |
| `LangMeaning.OperationFound` | crates/carolina-lang/src/ir.rs:586-591 | Lookup gives the first declaration of that operation, by name and version, and fails exactly when there is none. |
| `LangMeaning.InvariantFound` | crates/carolina-lang/src/ir.rs:598-603 | Lookup gives the first declaration of that invariant, and fails exactly when there is none. |
| `RaftServing.OfficeTaken` | crates/carolina-consensus/src/lib.rs:528-543 | The vote that completes a quorum makes the candidate leader: an empty entry of its term is appended in memory and on disk and sent to every peer, next indices start behind its log and match indices at zero. |
| `LangMeaning.FieldFound` | crates/carolina-lang/src/interp.rs:1039-1046 | A field is found exactly when the record declares it, and is the first declaration of it. |

## Left out

- Liveness, election timing and random timeouts: a tick starts an election at any time.
- 64-bit overflow of terms, indices, rounds, revisions and generations: they are unbounded.
- Storage calls of a voter that fail in the middle of a step; a crash at such a point is modelled.
- A crash inside `open` while it rewrites a torn log, which is a plain overwrite in the source.
- Diagnostics and counters: delivered and dropped messages, error texts, policy messages of the selection.
- The simulator's random scheduling: a run is any list of events, on values, and the network is a growing set of envelopes, so order and timing of delivery are arbitrary.
- Decimal values in the interpreter, and the decimal arithmetic behind them.
- `apply_literal` on a mutable state: one literal effect is a function from state to state; lists of effects are applied in place.
- How obligations are judged (`analyze_candidate`): selection takes the judgments as a parameter.
- Plans, certificates and the shared authority of a component: they copy what selection decided.
- Permission and route lookups of the catalog: single reads of one entry.
- Canonical integers, sets and the per-type projections on top of the value codec.
- The textual language, its lexer, parser and lowering: the model starts from the lowered module.
- Storage engine, wire protocol, node and command line.
- RaftChecks.CheckInvariants: for runs that report applied entries as the simulator does, whose nodes are given as values; `RaftSafety` states safety for every run.
- RaftFiles.FileStorage.Append: promises recovery only for entries that continue the log, as a voter's always do, and are within the decoder's limits.
- RaftFiles.FileStorage.Open: promises a storage fit for further calls only for new disks and for logs of the shape every call leaves; the loaded contents are exact for any bytes.
- RaftFiles.AppendSurvivesExactly: for bodies shorter than four gigabytes, whose length the frame header can hold.
- ScopedEvaluation.ScopedEvaluationPreservesMeaning: requires footprints to cover what operations name, laws to name only their invariant's records, and distinct invariant ids, as lowering provides.
- Escrow.EscrowAccounting: requires resources to use distinct fields and reservation records of their own, without which the amounts overlap.
- Escrow.ReservesExactly: under the same condition as Escrow.EscrowAccounting.
- Escrow.ReleasesExactly: under the same condition as Escrow.EscrowAccounting.
- Selection.Compile: requires distinct operation identities and declared records, as lowering provides.
- CatalogSafety.ScopeLocksDisjoint: for logs that put locks under a covering overlap check; the code does not force callers to include one.
- LangMeaning.EvalIsMeaning: for expressions whose sums bind fresh variables, as lowering makes them.
- LangEffects.DeleteMeans: for states whose rows are in key order without repetition, as the source's ordered maps are.
- LangTotals.AggregateExactly: for bounds that do not mention the row variable and numeric sums, which lowering ensures.
- LangTotals.InvariantHoldsExactly: the same conditions on the law.
- LangOutcome.AcceptedObeys: for sums whose bound does not mention the row variable, as lowering makes them.
- LangOutcome.OutcomesExactly: for operations whose expressions bind fresh variables, as lowering makes them.
- RaftAnswers.LeadersCommit: says nothing of a leader no acknowledgement reaches.
- CatalogSafety.AdmissionNeverReturns: for logs that do not overwrite the grant; CatalogSafety.ReopenedExactly covers the rest.
