/**
  The replicated catalog: a log of compare-and-set commands with idempotent results, tombstones,
  grant lifecycles and snapshots. Hashes are injective and stand for what they hash.
 */
module CatalogModel {
  import opened Basics

  type Id = nat

  datatype Key =
    | ClusterConfig
    | Node(node: Id)
    | Authority(grant: Id)
    | Namespace(tenant: Id, name: Id)
    | ScopeLock(tenant: Id, scope: Id)
    | PermissionGrant(grant: Id)
    | AdminCommand(request: Id)
    | Other(kind: nat, id: Id) // routes, plans, active plans, migrations, policies, artifacts

  datatype GrantState = Staged | Active | Closing | Closed | Retired

  predicate CanAdvance(from: GrantState, to: GrantState) {
    || (from == Staged && to == Active)
    || (from == Active && to == Closing)
    || (from == Closing && to == Closed)
    || (from == Closed && to == Retired)
    || (from == Staged && to == Retired)
  }

  /** The parts of an authority grant the catalog looks at, and the rest. */
  datatype Grant = Grant(state: GrantState, admitted: set<Id>, rest: Id)

  datatype Permission = Permission(grant: Id, policy: Id, operations: set<Id>)

  /** A canonical value, by what it decodes as; `rest` tells apart values with the same decodings. */
  datatype Value = Value(grant: Option<Grant>, records: Option<set<Id>>, retired: bool,
                         permission: Option<Permission>, rest: Content)

  datatype Content = Raw(id: Id) | Config(m: Manifest) | Voter(node: Id) | Bookkeeping(hash: Body, logRef: nat)

  function Plain(rest: Content): Value {
    Value(None, None, false, None, rest)
  }

  const NULL := Plain(Raw(0))

  /** The value a grant encodes to; decoding it gives the grant back. */
  function FromGrant(g: Grant): Value {
    Value(Some(g), None, false, None, Raw(0))
  }

  datatype Entry = Entry(key: Key, revision: nat, live: bool, value: Value)

  datatype Manifest = Manifest(voters: seq<Id>, policy: Id, admin: Id, rest: Id)

  datatype Expected = Absent | Revision(revision: nat, digest: Value)

  datatype Predicate =
    | NoScopeOverlap(tenant: Id, records: set<Id>)
    | GrantInState(grant: Id, state: GrantState)
    | NamespaceLive(tenant: Id, name: Id)

  datatype Mutation =
    | PutImmutable(key: Key, value: Value)
    | AdvancePointer(key: Key, value: Value)
    | AdvanceGrantState(grant: Id, from: GrantState, to: GrantState)
    | Tombstone(key: Key)

  /** Everything of a command except the request id that names it. */
  datatype Body = Body(principal: Id, expected: seq<(Key, Expected)>, predicates: seq<Predicate>,
                       mutations: seq<Mutation>)

  datatype Command = Command(request: Id, body: Body)

  datatype Reason = WasTombstoned | WasPresent | WasAbsent | WrongRevision

  datatype Failure =
    | IdentityConflict
    | AuthorizationDenied
    | CasConflict(reason: Reason)
    | ScopeLocked
    | StaleBinding
    | MissingBinding
    | RefusedAdvance(from: GrantState, to: GrantState)
    | NamespaceRetired
    | ArtifactConflict(reason: Reason)
    | PermissionEncoding
    | PermissionIdentity
    | PermissionPolicy
    | PermissionEmpty

  datatype Commit = Commit(request: Id, hash: Body, generation: nat, changed: seq<Key>, logRef: nat,
                           failure: Option<Failure>)

  datatype LogCommand = Genesis(m: Manifest) | Change(c: Command)

  datatype State = State(entries: map<Key, Entry>, generation: nat, applied: nat, genesis: Option<Manifest>,
                         results: map<Id, Commit>)

  const EMPTY := State(map[], 0, 0, None, map[])

  datatype ApplyError = SecondGenesis | WrongManifest | WrongVoters | NotReady

  datatype Applied = Applied(state: State, commit: Option<Commit>, error: Option<ApplyError>)

  // ---------------------------------------------------------------------------
  // Reading
  // ---------------------------------------------------------------------------

  predicate IsLive(s: State, k: Key) {
    k in s.entries && s.entries[k].live
  }

  predicate IsTombstoned(s: State, k: Key) {
    k in s.entries && !s.entries[k].live
  }

  function GrantOf(s: State, g: Id): Option<Grant> {
    if IsLive(s, Authority(g)) then s.entries[Authority(g)].value.grant else None
  }

  /** Whether the grant lets the node run anything right now: it has to be live, active and name the node. */
  predicate AdmissionAllowed(s: State, g: Id, node: Id) {
    GrantOf(s, g).Some? && GrantOf(s, g).value.state == Active && node in GrantOf(s, g).value.admitted
  }

  function Held(e: Entry): set<Id> {
    if e.value.records.Some? then e.value.records.value else {}
  }

  // ---------------------------------------------------------------------------
  // Validation, against the state before the command
  // ---------------------------------------------------------------------------

  function CheckExpected(s: State, x: (Key, Expected)): Option<Failure> {
    if x.0 !in s.entries then
      if x.1.Absent? then None else Some(CasConflict(WasAbsent))
    else
      var e := s.entries[x.0];
      match x.1
      case Absent => Some(CasConflict(if e.live then WasPresent else WasTombstoned))
      case Revision(r, d) => if !e.live || e.revision != r || e.value != d then Some(CasConflict(WrongRevision))
                             else None
  }

  predicate Blocks(e: Entry, tenant: Id, records: set<Id>) {
    e.live && e.key.ScopeLock? && e.key.tenant == tenant && Held(e) * records != {}
  }

  predicate Overlaps(s: State, tenant: Id, records: set<Id>) {
    exists k :: k in s.entries && Blocks(s.entries[k], tenant, records)
  }

  function CheckPredicate(s: State, p: Predicate): Option<Failure> {
    match p
    case NoScopeOverlap(tenant, records) => if Overlaps(s, tenant, records) then Some(ScopeLocked) else None
    case GrantInState(g, state) =>
      if GrantOf(s, g).None? then Some(MissingBinding)
      else if GrantOf(s, g).value.state == state then None
      else Some(StaleBinding)
    case NamespaceLive(tenant, name) =>
      var k := Namespace(tenant, name);
      if k in s.entries && (!s.entries[k].live || s.entries[k].value.retired) then Some(NamespaceRetired) else None
  }

  function CheckPermission(s: State, id: Id, p: Option<Permission>): Option<Failure> {
    if p.None? then Some(PermissionEncoding)
    else if p.value.grant != id then Some(PermissionIdentity)
    else if s.genesis.None? || p.value.policy != s.genesis.value.policy then Some(PermissionPolicy)
    else if p.value.operations == {} then Some(PermissionEmpty)
    else None
  }

  function CheckMutation(s: State, m: Mutation): Option<Failure> {
    match m
    case PutImmutable(k, v) =>
      if k in s.entries then Some(ArtifactConflict(if s.entries[k].live then WasPresent else WasTombstoned))
      else if k.PermissionGrant? then CheckPermission(s, k.grant, v.permission)
      else None
    case AdvancePointer(k, _) => if IsTombstoned(s, k) then Some(CasConflict(WasTombstoned)) else None
    case AdvanceGrantState(g, from, to) =>
      if GrantOf(s, g).None? then Some(MissingBinding)
      else if GrantOf(s, g).value.state == from && CanAdvance(from, to) then None
      else Some(RefusedAdvance(GrantOf(s, g).value.state, to))
    case Tombstone(k) => if IsLive(s, k) then None else Some(CasConflict(WasAbsent))
  }

  function FirstExpected(s: State, xs: seq<(Key, Expected)>): Option<Failure> {
    if xs == [] then None
    else if CheckExpected(s, xs[0]).Some? then CheckExpected(s, xs[0])
    else FirstExpected(s, xs[1..])
  }

  function FirstPredicate(s: State, ps: seq<Predicate>): Option<Failure> {
    if ps == [] then None
    else if CheckPredicate(s, ps[0]).Some? then CheckPredicate(s, ps[0])
    else FirstPredicate(s, ps[1..])
  }

  function FirstMutation(s: State, ms: seq<Mutation>): Option<Failure> {
    if ms == [] then None
    else if CheckMutation(s, ms[0]).Some? then CheckMutation(s, ms[0])
    else FirstMutation(s, ms[1..])
  }

  function Validate(s: State, b: Body): Option<Failure> {
    if s.genesis.None? || s.genesis.value.admin != b.principal then Some(AuthorizationDenied)
    else if FirstExpected(s, b.expected).Some? then FirstExpected(s, b.expected)
    else if FirstPredicate(s, b.predicates).Some? then FirstPredicate(s, b.predicates)
    else FirstMutation(s, b.mutations)
  }

  // ---------------------------------------------------------------------------
  // Application
  // ---------------------------------------------------------------------------

  function KeyOf(m: Mutation): Key {
    match m
    case PutImmutable(k, _) => k
    case AdvancePointer(k, _) => k
    case AdvanceGrantState(g, _, _) => Authority(g)
    case Tombstone(k) => k
  }

  function Mutate(es: map<Key, Entry>, m: Mutation, rev: nat): map<Key, Entry> {
    match m
    case PutImmutable(k, v) => es[k := Entry(k, rev, true, v)]
    case AdvancePointer(k, v) => es[k := Entry(k, rev, true, v)]
    case AdvanceGrantState(g, _, to) =>
      var k := Authority(g);
      if k in es && es[k].value.grant.Some?
      then es[k := es[k].(value := FromGrant(es[k].value.grant.value.(state := to)), revision := rev)]
      else es
    case Tombstone(k) => es[k := Entry(k, rev, false, if k in es then es[k].value else NULL)]
  }

  function MutateAll(es: map<Key, Entry>, ms: seq<Mutation>, rev: nat): map<Key, Entry>
    decreases |ms|
  {
    if ms == [] then es else MutateAll(Mutate(es, ms[0], rev), ms[1..], rev)
  }

  function Changed(ms: seq<Mutation>): seq<Key> {
    if ms == [] then [] else [KeyOf(ms[0])] + Changed(ms[1..])
  }

  function ApplyCommand(s: State, index: nat, c: Command): (State, Commit) {
    if c.request in s.results then
      if s.results[c.request].hash == c.body then (s, s.results[c.request])
      else (s, Commit(c.request, c.body, s.generation, [], index, Some(IdentityConflict)))
    else
      var failure := Validate(s, c.body);
      if failure.Some? then
        var commit := Commit(c.request, c.body, s.generation, [], index, failure);
        (s.(results := s.results[c.request := commit]), commit)
      else
        var rev := s.generation + 1;
        var es := MutateAll(s.entries, c.body.mutations, rev);
        var k := AdminCommand(c.request);
        var commit := Commit(c.request, c.body, rev, Changed(c.body.mutations), index, None);
        (s.(entries := es[k := Entry(k, rev, true, Plain(Bookkeeping(c.body, index)))], generation := rev,
            results := s.results[c.request := commit]), commit)
  }

  function VoterEntries(es: map<Key, Entry>, voters: seq<Id>, rev: nat): map<Key, Entry>
    decreases |voters|
  {
    if voters == [] then es
    else VoterEntries(es[Node(voters[0]) := Entry(Node(voters[0]), rev, true, Plain(Voter(voters[0])))], voters[1..],
                      rev)
  }

  /** Applies one committed log entry; `pinned` is the manifest this voter was configured with. */
  function Apply(s: State, index: nat, cmd: LogCommand, pinned: Manifest): Applied {
    if index <= s.applied then Applied(s, None, None)
    else match cmd
      case Genesis(m) =>
        if s.genesis.Some? then Applied(s, None, Some(SecondGenesis))
        else if m != pinned then Applied(s, None, Some(WrongManifest))
        else if |m.voters| != 3 then Applied(s, None, Some(WrongVoters))
        else
          var rev := s.generation + 1;
          var es := s.entries[ClusterConfig := Entry(ClusterConfig, rev, true, Plain(Config(m)))];
          Applied(s.(entries := VoterEntries(es, m.voters, rev), generation := rev, genesis := Some(m),
                     applied := index),
                  None, None)
      case Change(c) =>
        if s.genesis.None? then Applied(s, None, Some(NotReady))
        else
          var (s', commit) := ApplyCommand(s, index, c);
          Applied(s'.(applied := index), Some(commit), None)
  }

  // ---------------------------------------------------------------------------
  // Runs and images
  // ---------------------------------------------------------------------------

  datatype LogEntry = LogEntry(index: nat, cmd: LogCommand)

  function Step(s: State, e: LogEntry, pinned: Manifest): State {
    Apply(s, e.index, e.cmd, pinned).state
  }

  function Replay(s: State, log: seq<LogEntry>, pinned: Manifest): State
    decreases |log|
  {
    if log == [] then s else Step(Replay(s, log[..|log| - 1], pinned), log[|log| - 1], pinned)
  }

  /** The committed state after the first `i` entries of a log applied from empty. */
  function After(log: seq<LogEntry>, i: nat, pinned: Manifest): State
    requires i <= |log|
  {
    Replay(EMPTY, log[..i], pinned)
  }

  ghost predicate Increasing(log: seq<LogEntry>) {
    forall i, j :: 0 <= i < j < |log| ==> log[i].index < log[j].index
  }

  datatype Snapshot = Snapshot(applied: nat, generation: nat, genesis: Option<Manifest>, entries: seq<Entry>,
                               results: seq<Commit>)

  /** The image of a state lists its entries and results, in any order. */
  ghost predicate IsSnapshot(s: State, image: Snapshot) {
    && image.applied == s.applied && image.generation == s.generation && image.genesis == s.genesis
    && (forall k :: k in s.entries ==> s.entries[k] in image.entries)
    && (forall e :: e in image.entries ==> exists k :: k in s.entries && s.entries[k] == e)
    && (forall id :: id in s.results ==> s.results[id] in image.results)
    && (forall r :: r in image.results ==> exists id :: id in s.results && s.results[id] == r)
  }

  function EntriesOf(es: seq<Entry>): map<Key, Entry> {
    if es == [] then map[] else EntriesOf(es[..|es| - 1])[es[|es| - 1].key := es[|es| - 1]]
  }

  function ResultsOf(rs: seq<Commit>): map<Id, Commit> {
    if rs == [] then map[] else ResultsOf(rs[..|rs| - 1])[rs[|rs| - 1].request := rs[|rs| - 1]]
  }

  function Restore(image: Snapshot): State {
    State(EntriesOf(image.entries), image.generation, image.applied, image.genesis, ResultsOf(image.results))
  }
}
