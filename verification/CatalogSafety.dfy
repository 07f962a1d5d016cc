/**
  What every log keeps: compare-and-set history, final tombstones, grant lifecycles, disjoint
  scope locks, and recovery from an image at any point.
 */
module CatalogSafety {
  import opened Basics
  import opened CatalogModel

  // ---------------------------------------------------------------------------
  // A command seen from one key
  // ---------------------------------------------------------------------------

  function Lookup(es: map<Key, Entry>, k: Key): Option<Entry> {
    if k in es then Some(es[k]) else None
  }

  function AfterAdvance(e: Entry, to: GrantState, rev: nat): Entry {
    if e.value.grant.Some? then e.(value := FromGrant(e.value.grant.value.(state := to)), revision := rev) else e
  }

  /** The effect of one mutation on the entry of the key it names. */
  function Touch(o: Option<Entry>, m: Mutation, rev: nat): Option<Entry> {
    match m
    case PutImmutable(k, v) => Some(Entry(k, rev, true, v))
    case AdvancePointer(k, v) => Some(Entry(k, rev, true, v))
    case AdvanceGrantState(_, _, to) => if o.Some? then Some(AfterAdvance(o.value, to, rev)) else None
    case Tombstone(k) => Some(Entry(k, rev, false, if o.Some? then o.value.value else NULL))
  }

  /** The effect of a whole command on the entry of `k`: the mutations that name it, in order. */
  function Settle(o: Option<Entry>, ms: seq<Mutation>, k: Key, rev: nat): Option<Entry>
    decreases |ms|
  {
    if ms == [] then o else Settle(if KeyOf(ms[0]) == k then Touch(o, ms[0], rev) else o, ms[1..], k, rev)
  }

  lemma MutateAt(es: map<Key, Entry>, m: Mutation, k: Key, rev: nat)
    ensures Lookup(Mutate(es, m, rev), k) == if KeyOf(m) == k then Touch(Lookup(es, k), m, rev) else Lookup(es, k)
  {
  }

  lemma {:induction false} MutateAllAt(es: map<Key, Entry>, ms: seq<Mutation>, k: Key, rev: nat)
    ensures Lookup(MutateAll(es, ms, rev), k) == Settle(Lookup(es, k), ms, k, rev)
    decreases |ms|
  {
    if ms != [] {
      MutateAt(es, ms[0], k, rev);
      MutateAllAt(Mutate(es, ms[0], rev), ms[1..], k, rev);
    }
  }

  lemma {:induction false} Untouched(o: Option<Entry>, ms: seq<Mutation>, k: Key, rev: nat)
    requires forall m :: m in ms ==> KeyOf(m) != k
    ensures Settle(o, ms, k, rev) == o
    decreases |ms|
  {
    if ms != [] {
      Untouched(o, ms[1..], k, rev);
    }
  }

  ghost predicate StampedWith(o: Option<Entry>, k: Key, rev: nat) {
    o.Some? && o.value.key == k && o.value.revision == rev
  }

  lemma {:induction false} StampKept(o: Option<Entry>, ms: seq<Mutation>, k: Key, rev: nat)
    requires StampedWith(o, k, rev)
    ensures StampedWith(Settle(o, ms, k, rev), k, rev)
    decreases |ms|
  {
    if ms != [] {
      StampKept(if KeyOf(ms[0]) == k then Touch(o, ms[0], rev) else o, ms[1..], k, rev);
    }
  }

  ghost predicate KeyedBy(o: Option<Entry>, k: Key) {
    o.Some? ==> o.value.key == k
  }

  ghost predicate HoldsGrant(o: Option<Entry>) {
    o.Some? && o.value.value.grant.Some?
  }

  /** Every key a valid command names ends up stamped with the command's revision. */
  lemma {:induction false} TouchedIsStamped(o: Option<Entry>, ms: seq<Mutation>, k: Key, rev: nat)
    requires KeyedBy(o, k)
    requires forall m :: m in ms && KeyOf(m) == k && m.AdvanceGrantState? ==> HoldsGrant(o)
    requires exists m :: m in ms && KeyOf(m) == k
    ensures StampedWith(Settle(o, ms, k, rev), k, rev)
    decreases |ms|
  {
    if KeyOf(ms[0]) == k {
      StampKept(Touch(o, ms[0], rev), ms[1..], k, rev);
    } else {
      TouchedIsStamped(o, ms[1..], k, rev);
    }
  }

  lemma {:induction false} AllValid(s: State, ms: seq<Mutation>)
    ensures FirstMutation(s, ms).None? <==> forall m :: m in ms ==> CheckMutation(s, m).None?
    decreases |ms|
  {
    hide CheckMutation;
    if ms != [] {
      AllValid(s, ms[1..]);
    }
  }

  lemma {:induction false} AllExpected(s: State, xs: seq<(Key, Expected)>)
    ensures FirstExpected(s, xs).None? <==> forall x :: x in xs ==> CheckExpected(s, x).None?
    decreases |xs|
  {
    hide CheckExpected;
    if xs != [] {
      AllExpected(s, xs[1..]);
    }
  }

  lemma {:induction false} AllPredicates(s: State, ps: seq<Predicate>)
    ensures FirstPredicate(s, ps).None? <==> forall p :: p in ps ==> CheckPredicate(s, p).None?
    decreases |ps|
  {
    hide CheckPredicate;
    if ps != [] {
      AllPredicates(s, ps[1..]);
    }
  }

  lemma {:induction false} ChangedAre(ms: seq<Mutation>, k: Key)
    ensures k in Changed(ms) <==> exists m :: m in ms && KeyOf(m) == k
    decreases |ms|
  {
    if ms != [] {
      ChangedAre(ms[1..], k);
      assert ms == [ms[0]] + ms[1..];
      if m :| m in ms && KeyOf(m) == k {
        assert m == ms[0] || m in ms[1..];
      }
    }
  }

  // ---------------------------------------------------------------------------
  // One log entry
  // ---------------------------------------------------------------------------

  /** The entry is a command that is applied for the first time and passes validation. */
  ghost predicate TakesEffect(s: State, e: LogEntry) {
    && s.applied < e.index && e.cmd.Change? && s.genesis.Some?
    && e.cmd.c.request !in s.results && Validate(s, e.cmd.c.body).None?
  }

  /** The entry is the genesis this voter is configured for. */
  ghost predicate Founds(s: State, e: LogEntry, pinned: Manifest) {
    s.applied < e.index && e.cmd == Genesis(pinned) && s.genesis.None? && |pinned.voters| == 3
  }

  ghost predicate Ok(s: State) {
    && (forall k :: k in s.entries ==> s.entries[k].key == k && s.entries[k].revision <= s.generation)
    && (forall id :: id in s.results ==> s.results[id].request == id)
    && (s.genesis.None? ==> s.entries == map[])
  }

  // ---------------------------------------------------------------------------
  // What validation admits
  // ---------------------------------------------------------------------------

  ghost predicate Meets(s: State, k: Key, x: Expected) {
    match x
    case Absent => k !in s.entries
    case Revision(r, d) => IsLive(s, k) && s.entries[k].revision == r && s.entries[k].value == d
  }

  ghost predicate Satisfied(s: State, p: Predicate) {
    match p
    case NoScopeOverlap(tenant, records) =>
      forall scope :: IsLive(s, ScopeLock(tenant, scope)) ==> Held(s.entries[ScopeLock(tenant, scope)]) !! records
    case GrantInState(g, state) => GrantOf(s, g).Some? && GrantOf(s, g).value.state == state
    case NamespaceLive(tenant, name) =>
      var k := Namespace(tenant, name);
      k !in s.entries || (s.entries[k].live && !s.entries[k].value.retired)
  }

  /** A permission names its own key, the cluster's policy and at least one operation. */
  ghost predicate WellIssued(s: State, id: Id, p: Permission) {
    p.grant == id && s.genesis.Some? && p.policy == s.genesis.value.policy && exists o :: o in p.operations
  }

  ghost predicate Permitted(s: State, m: Mutation) {
    match m
    case PutImmutable(k, v) =>
      k !in s.entries && (k.PermissionGrant? ==> v.permission.Some? && WellIssued(s, k.grant, v.permission.value))
    case AdvancePointer(k, _) => !IsTombstoned(s, k)
    case AdvanceGrantState(g, from, to) => GrantOf(s, g).Some? && GrantOf(s, g).value.state == from &&
        CanAdvance(from, to)
    case Tombstone(k) => IsLive(s, k)
  }

  lemma PredicateExactly(s: State, p: Predicate)
    requires Ok(s)
    ensures CheckPredicate(s, p).None? <==> Satisfied(s, p)
  {
    if p.NoScopeOverlap? {
      if !Overlaps(s, p.tenant, p.records) {
        forall scope | IsLive(s, ScopeLock(p.tenant, scope))
          ensures Held(s.entries[ScopeLock(p.tenant, scope)]) !! p.records
        {
          var e := s.entries[ScopeLock(p.tenant, scope)];
          assert !Blocks(e, p.tenant, p.records);
          assert forall r :: r in Held(e) && r in p.records ==> r in Held(e) * p.records;
        }
      } else {
        var k :| k in s.entries && Blocks(s.entries[k], p.tenant, p.records);
        assert k == ScopeLock(p.tenant, k.scope);
        var r :| r in Held(s.entries[k]) * p.records;
      }
    }
  }

  lemma MutationExactly(s: State, m: Mutation)
    ensures CheckMutation(s, m).None? <==> Permitted(s, m)
  {
  }

  /** Validation passes exactly when the administrator asks, and every expectation, predicate and precondition holds. */
  lemma ValidatesExactly(s: State, b: Body)
    requires Ok(s)
    ensures Validate(s, b).None? <==>
            && s.genesis.Some? && b.principal == s.genesis.value.admin
            && (forall x :: x in b.expected ==> Meets(s, x.0, x.1))
            && (forall p :: p in b.predicates ==> Satisfied(s, p))
            && (forall m :: m in b.mutations ==> Permitted(s, m))
  {
    hide CheckPredicate, CheckMutation, Satisfied, Permitted, Ok;
    AllExpected(s, b.expected);
    AllPredicates(s, b.predicates);
    AllValid(s, b.mutations);
    assert forall x: (Key, Expected) :: CheckExpected(s, x).None? <==> Meets(s, x.0, x.1);
    forall p
      ensures CheckPredicate(s, p).None? <==> Satisfied(s, p)
    {
      PredicateExactly(s, p);
    }
    forall m
      ensures CheckMutation(s, m).None? <==> Permitted(s, m)
    {
      MutationExactly(s, m);
    }
  }

  // ---------------------------------------------------------------------------
  // How validation fails
  // ---------------------------------------------------------------------------

  ghost predicate NamesExpected(s: State, k: Key, x: Expected, f: Failure) {
    f == CasConflict(if k !in s.entries then WasAbsent
                     else if x.Revision? then WrongRevision
                     else if s.entries[k].live then WasPresent else WasTombstoned)
  }

  ghost predicate NamesPredicate(s: State, p: Predicate, f: Failure) {
    match p
    case NoScopeOverlap(_, _) => f == ScopeLocked
    case GrantInState(g, _) => f == if GrantOf(s, g).None? then MissingBinding else StaleBinding
    case NamespaceLive(_, _) => f == NamespaceRetired
  }

  ghost predicate NamesMutation(s: State, m: Mutation, f: Failure) {
    match m
    case PutImmutable(k, v) =>
      if k in s.entries then f == ArtifactConflict(if s.entries[k].live then WasPresent else WasTombstoned)
      else f == if v.permission.None? then PermissionEncoding
                else if k.PermissionGrant? && v.permission.value.grant != k.grant then PermissionIdentity
                else if s.genesis.None? || v.permission.value.policy != s.genesis.value.policy then PermissionPolicy
                else PermissionEmpty
    case AdvancePointer(_, _) => f == CasConflict(WasTombstoned)
    case AdvanceGrantState(g, _, to) =>
      f == if GrantOf(s, g).None? then MissingBinding else RefusedAdvance(GrantOf(s, g).value.state, to)
    case Tombstone(_) => f == CasConflict(WasAbsent)
  }

  ghost predicate FirstUnmet(s: State, xs: seq<(Key, Expected)>, i: nat) {
    i < |xs| && !Meets(s, xs[i].0, xs[i].1) && forall j :: 0 <= j < i ==> Meets(s, xs[j].0, xs[j].1)
  }

  ghost predicate FirstUnsatisfied(s: State, ps: seq<Predicate>, i: nat) {
    i < |ps| && !Satisfied(s, ps[i]) && forall j :: 0 <= j < i ==> Satisfied(s, ps[j])
  }

  ghost predicate FirstRefused(s: State, ms: seq<Mutation>, i: nat) {
    i < |ms| && !Permitted(s, ms[i]) && forall j :: 0 <= j < i ==> Permitted(s, ms[j])
  }

  lemma {:induction false} UnmetFirst(s: State, xs: seq<(Key, Expected)>) returns (i: nat)
    requires FirstExpected(s, xs).Some?
    ensures FirstUnmet(s, xs, i) && NamesExpected(s, xs[i].0, xs[i].1, FirstExpected(s, xs).value)
  {
    i := 0;
    if CheckExpected(s, xs[0]).None? {
      var j := UnmetFirst(s, xs[1..]);
      assert forall n :: 0 < n < |xs| ==> xs[n] == xs[1..][n - 1];
      i := j + 1;
    }
  }

  lemma {:induction false} UnsatisfiedFirst(s: State, ps: seq<Predicate>) returns (i: nat)
    requires Ok(s) && FirstPredicate(s, ps).Some?
    ensures FirstUnsatisfied(s, ps, i) && NamesPredicate(s, ps[i], FirstPredicate(s, ps).value)
  {
    hide Satisfied, Ok;
    i := 0;
    PredicateExactly(s, ps[0]);
    if CheckPredicate(s, ps[0]).None? {
      var j := UnsatisfiedFirst(s, ps[1..]);
      assert forall n :: 0 < n < |ps| ==> ps[n] == ps[1..][n - 1];
      i := j + 1;
    }
  }

  lemma {:induction false} RefusedFirst(s: State, ms: seq<Mutation>) returns (i: nat)
    requires FirstMutation(s, ms).Some?
    ensures FirstRefused(s, ms, i) && NamesMutation(s, ms[i], FirstMutation(s, ms).value)
  {
    hide Permitted;
    i := 0;
    MutationExactly(s, ms[0]);
    if CheckMutation(s, ms[0]).None? {
      var j := RefusedFirst(s, ms[1..]);
      assert forall n :: 0 < n < |ms| ==> ms[n] == ms[1..][n - 1];
      i := j + 1;
    }
  }

  /** A failure names the first thing wrong: the asker, then expectations, predicates and mutations in order. */
  lemma FailsExactly(s: State, b: Body)
    requires Ok(s) && Validate(s, b).Some?
    ensures var f := Validate(s, b).value;
      if s.genesis.None? || b.principal != s.genesis.value.admin then f == AuthorizationDenied
      else if exists i: nat :: FirstUnmet(s, b.expected, i) then
        exists i: nat :: FirstUnmet(s, b.expected, i) && NamesExpected(s, b.expected[i].0, b.expected[i].1, f)
      else if exists i: nat :: FirstUnsatisfied(s, b.predicates, i) then
        exists i: nat :: FirstUnsatisfied(s, b.predicates, i) && NamesPredicate(s, b.predicates[i], f)
      else exists i: nat :: FirstRefused(s, b.mutations, i) && NamesMutation(s, b.mutations[i], f)
  {
    hide Meets, Satisfied, Permitted, CheckExpected, CheckPredicate, CheckMutation, NamesExpected, NamesPredicate,
         NamesMutation, FirstExpected, FirstPredicate, FirstMutation, Ok;
    if s.genesis.Some? && b.principal == s.genesis.value.admin {
      if FirstExpected(s, b.expected).Some? {
        var i := UnmetFirst(s, b.expected);
      } else {
        NoneUnmet(s, b.expected);
        if FirstPredicate(s, b.predicates).Some? {
          var i := UnsatisfiedFirst(s, b.predicates);
        } else {
          NoneUnsatisfied(s, b.predicates);
          var i := RefusedFirst(s, b.mutations);
        }
      }
    }
  }

  lemma NoneUnmet(s: State, xs: seq<(Key, Expected)>)
    requires FirstExpected(s, xs).None?
    ensures forall i: nat :: !FirstUnmet(s, xs, i)
  {
    AllExpected(s, xs);
    forall i | 0 <= i < |xs|
      ensures Meets(s, xs[i].0, xs[i].1)
    {
      assert xs[i] in xs;
    }
  }

  lemma NoneUnsatisfied(s: State, ps: seq<Predicate>)
    requires Ok(s) && FirstPredicate(s, ps).None?
    ensures forall i: nat :: !FirstUnsatisfied(s, ps, i)
  {
    hide Satisfied, CheckPredicate, Ok;
    AllPredicates(s, ps);
    forall i | 0 <= i < |ps|
      ensures Satisfied(s, ps[i])
    {
      assert ps[i] in ps;
      PredicateExactly(s, ps[i]);
    }
  }

  /** Anything else leaves entries, generation and genesis as they were. */
  lemma StepIdle(s: State, e: LogEntry, pinned: Manifest)
    requires !TakesEffect(s, e) && !Founds(s, e, pinned)
    ensures var s' := Step(s, e, pinned);
            s'.entries == s.entries && s'.generation == s.generation && s'.genesis == s.genesis
  {
  }

  ghost function Mutations(e: LogEntry): seq<Mutation>
    requires e.cmd.Change?
  {
    e.cmd.c.body.mutations
  }

  lemma StepEffect(s: State, e: LogEntry, pinned: Manifest, k: Key)
    requires TakesEffect(s, e)
    ensures var s' := Step(s, e, pinned);
      && s'.generation == s.generation + 1 && s'.genesis == s.genesis
      && Lookup(s'.entries, k) ==
         if k == AdminCommand(e.cmd.c.request)
         then Some(Entry(k, s.generation + 1, true, Plain(Bookkeeping(e.cmd.c.body, e.index))))
         else Settle(Lookup(s.entries, k), Mutations(e), k, s.generation + 1)
    ensures forall m :: m in Mutations(e) ==> CheckMutation(s, m).None?
  {
    MutateAllAt(s.entries, Mutations(e), k, s.generation + 1);
    AllValid(s, Mutations(e));
  }

  /** A success stamps exactly the keys its mutations name, and its own bookkeeping key. */
  lemma StampsExactly(s: State, e: LogEntry, pinned: Manifest, k: Key)
    requires Ok(s) && TakesEffect(s, e)
    ensures var s' := Step(s, e, pinned); var id := e.cmd.c.request;
      && id in s'.results && s'.results[id].failure.None?
      && s'.results[id].generation == s'.generation == s.generation + 1
      && (if k in s'.results[id].changed || k == AdminCommand(id)
          then StampedWith(Lookup(s'.entries, k), k, s'.generation)
          else Lookup(s'.entries, k) == Lookup(s.entries, k))
    ensures k in s.entries ==> s.entries[k].revision < Step(s, e, pinned).generation
  {
    var ms := Mutations(e);
    StepEffect(s, e, pinned, k);
    ChangedAre(ms, k);
    if k != AdminCommand(e.cmd.c.request) {
      if k in Changed(ms) {
        TouchedIsStamped(Lookup(s.entries, k), ms, k, s.generation + 1);
      } else {
        Untouched(Lookup(s.entries, k), ms, k, s.generation + 1);
      }
    }
  }

  lemma {:induction false} VoterEntriesAt(es: map<Key, Entry>, voters: seq<Id>, rev: nat, k: Key)
    ensures Lookup(VoterEntries(es, voters, rev), k)
            == if k.Node? && k.node in voters then Some(Entry(k, rev, true, Plain(Voter(k.node)))) else Lookup(es, k)
    decreases |voters|
  {
    if voters != [] {
      assert voters == [voters[0]] + voters[1..];
      VoterEntriesAt(es[Node(voters[0]) := Entry(Node(voters[0]), rev, true, Plain(Voter(voters[0])))], voters[1..],
                     rev, k);
    }
  }

  /** Genesis writes the configuration and one entry for each voter, and touches no other key. */
  lemma FoundsAt(s: State, e: LogEntry, pinned: Manifest, k: Key)
    requires Founds(s, e, pinned)
    ensures var s' := Step(s, e, pinned);
      && s'.generation == s.generation + 1 && s'.genesis == Some(pinned) && s'.applied == e.index
      && s'.results == s.results
      && Lookup(s'.entries, k) ==
         (if k == ClusterConfig then Some(Entry(k, s'.generation, true, Plain(Config(pinned))))
          else if k.Node? && k.node in pinned.voters then Some(Entry(k, s'.generation, true, Plain(Voter(k.node))))
          else Lookup(s.entries, k))
  {
    var rev := s.generation + 1;
    VoterEntriesAt(s.entries[ClusterConfig := Entry(ClusterConfig, rev, true, Plain(Config(pinned)))], pinned.voters,
                   rev, k);
  }

  /** Which log entries are refused, and why; a refused one changes nothing. */
  lemma RefusedExactly(s: State, e: LogEntry, pinned: Manifest)
    ensures var a := Apply(s, e.index, e.cmd, pinned);
      && (a.error.Some? ==> a.state == s && a.commit.None?)
      && (e.index <= s.applied ==> a == Applied(s, None, None))
      && (a.error == Some(NotReady) <==> e.index > s.applied && e.cmd.Change? && s.genesis.None?)
      && (a.error == Some(SecondGenesis) <==> e.index > s.applied && e.cmd.Genesis? && s.genesis.Some?)
      && (a.error == Some(WrongManifest) <==>
            e.index > s.applied && e.cmd.Genesis? && s.genesis.None? && e.cmd.m != pinned)
      && (a.error == Some(WrongVoters) <==>
            e.index > s.applied && e.cmd == Genesis(pinned) && s.genesis.None? && |pinned.voters| != 3)
      && (a.error.None? && e.index > s.applied ==> a.state.applied == e.index)
  {
    hide VoterEntries, Validate, MutateAll;
  }

  /** The last mutation that names the key. */
  function LastOn(ms: seq<Mutation>, k: Key): Option<Mutation> {
    if ms == [] then None
    else if LastOn(ms[1..], k).Some? then LastOn(ms[1..], k)
    else if KeyOf(ms[0]) == k then Some(ms[0])
    else None
  }

  /** What the last mutation of a key leaves there. */
  ghost predicate Leaves(m: Mutation, k: Key, rev: nat, o: Option<Entry>) {
    && o.Some? && o.value.key == k && o.value.revision == rev
    && match m
       case PutImmutable(_, v) => o.value.live && o.value.value == v
       case AdvancePointer(_, v) => o.value.live && o.value.value == v
       case AdvanceGrantState(_, _, to) => o.value.value.grant.Some? ==> o.value.value.grant.value.state == to
       case Tombstone(_) => !o.value.live
  }

  lemma {:induction false} SettledByLast(o: Option<Entry>, ms: seq<Mutation>, k: Key, rev: nat)
    requires LastOn(ms, k).Some? && StampedWith(Settle(o, ms, k, rev), k, rev)
    ensures Leaves(LastOn(ms, k).value, k, rev, Settle(o, ms, k, rev))
    decreases |ms|
  {
    var next := if KeyOf(ms[0]) == k then Touch(o, ms[0], rev) else o;
    if LastOn(ms[1..], k).Some? {
      SettledByLast(next, ms[1..], k, rev);
    } else {
      LastOnNone(ms[1..], k);
      Untouched(next, ms[1..], k, rev);
    }
  }

  lemma {:induction false} LastOnNone(ms: seq<Mutation>, k: Key)
    ensures LastOn(ms, k).None? <==> forall m :: m in ms ==> KeyOf(m) != k
    ensures LastOn(ms, k).Some? ==> LastOn(ms, k).value in ms && KeyOf(LastOn(ms, k).value) == k
    decreases |ms|
  {
    if ms != [] {
      LastOnNone(ms[1..], k);
      assert ms == [ms[0]] + ms[1..];
    }
  }

  /** A success writes, at every key its mutations name, what the last of them says, and records itself. */
  lemma WritesExactly(s: State, e: LogEntry, pinned: Manifest, k: Key)
    requires Ok(s) && TakesEffect(s, e) && k != AdminCommand(e.cmd.c.request)
    ensures var s', c := Step(s, e, pinned), e.cmd.c;
      && (LastOn(Mutations(e), k).Some? ==>
            Leaves(LastOn(Mutations(e), k).value, k, s'.generation, Lookup(s'.entries, k)))
      && (LastOn(Mutations(e), k).None? ==> Lookup(s'.entries, k) == Lookup(s.entries, k))
      && Lookup(s'.entries, AdminCommand(c.request))
         == Some(Entry(AdminCommand(c.request), s'.generation, true, Plain(Bookkeeping(c.body, e.index))))
      && s'.results == s.results[c.request := Commit(c.request, c.body, s'.generation, Changed(c.body.mutations),
                                                     e.index, None)]
      && s'.applied == e.index
  {
    hide Validate, MutateAll, LastOn, Settle;
    StepEffect(s, e, pinned, k);
    StepEffect(s, e, pinned, AdminCommand(e.cmd.c.request));
    StampsExactly(s, e, pinned, k);
    ChangedAre(Mutations(e), k);
    LastOnNone(Mutations(e), k);
    if LastOn(Mutations(e), k).Some? {
      SettledByLast(Lookup(s.entries, k), Mutations(e), k, s.generation + 1);
    }
  }

  /** One log entry either leaves a key's entry alone or restamps it with a generation never used before. */
  lemma KeyStep(s: State, e: LogEntry, pinned: Manifest, k: Key)
    requires Ok(s)
    ensures var s' := Step(s, e, pinned);
      && s.generation <= s'.generation
      && (|| Lookup(s'.entries, k) == Lookup(s.entries, k)
          || (StampedWith(Lookup(s'.entries, k), k, s'.generation) && s'.generation == s.generation + 1))
  {
    if TakesEffect(s, e) {
      StampsExactly(s, e, pinned, k);
    } else if Founds(s, e, pinned) {
      FoundsAt(s, e, pinned, k);
    } else {
      StepIdle(s, e, pinned);
    }
  }

  lemma ResultStep(s: State, e: LogEntry, pinned: Manifest, id: Id)
    requires Ok(s)
    ensures var s' := Step(s, e, pinned);
      && (id in s.results ==> id in s'.results && s'.results[id] == s.results[id])
      && (id in s'.results ==> s'.results[id].request == id)
  {
  }

  lemma StepOk(s: State, e: LogEntry, pinned: Manifest)
    requires Ok(s)
    ensures Ok(Step(s, e, pinned))
  {
    var s' := Step(s, e, pinned);
    forall k | k in s'.entries
      ensures s'.entries[k].key == k && s'.entries[k].revision <= s'.generation
    {
      KeyStep(s, e, pinned, k);
    }
    forall id | id in s'.results
      ensures s'.results[id].request == id
    {
      ResultStep(s, e, pinned, id);
    }
    GenesisStep(s, e, pinned);
  }

  lemma GenesisStep(s: State, e: LogEntry, pinned: Manifest)
    requires Ok(s)
    ensures Step(s, e, pinned).genesis.None? ==> Step(s, e, pinned).entries == map[]
  {
    if !Founds(s, e, pinned) && s.genesis.None? {
      StepIdle(s, e, pinned);
    }
  }

  // ---------------------------------------------------------------------------
  // Whole logs
  // ---------------------------------------------------------------------------

  lemma AfterNext(log: seq<LogEntry>, i: nat, pinned: Manifest)
    requires i < |log|
    ensures After(log, i + 1, pinned) == Step(After(log, i, pinned), log[i], pinned)
  {
    assert log[..i + 1][..i] == log[..i];
  }

  lemma {:induction false} AfterOk(log: seq<LogEntry>, i: nat, pinned: Manifest)
    requires i <= |log|
    ensures Ok(After(log, i, pinned))
  {
    hide Step;
    if i > 0 {
      AfterOk(log, i - 1, pinned);
      AfterNext(log, i - 1, pinned);
      StepOk(After(log, i - 1, pinned), log[i - 1], pinned);
    }
  }

  /** Between two states of a log an entry is unchanged, or its revision is newer than the first state. */
  lemma {:induction false} KeyRun(log: seq<LogEntry>, pinned: Manifest, i: nat, j: nat, k: Key)
    requires i <= j <= |log|
    ensures var a := After(log, i, pinned); var b := After(log, j, pinned);
      && a.generation <= b.generation
      && (|| Lookup(b.entries, k) == Lookup(a.entries, k)
          || (Lookup(b.entries, k).Some? && Lookup(b.entries, k).value.revision > a.generation))
    decreases j
  {
    hide Step;
    hide Replay;
    if i < j {
      KeyRun(log, pinned, i, j - 1, k);
      AfterNext(log, j - 1, pinned);
      AfterOk(log, j - 1, pinned);
      KeyStep(After(log, j - 1, pinned), log[j - 1], pinned, k);
    }
  }

  /** Over every log a key and a revision determine one entry. */
  lemma RevisionDeterminesEntry(log: seq<LogEntry>, pinned: Manifest, i: nat, j: nat, k: Key)
    requires i <= |log| && j <= |log|
    requires k in After(log, i, pinned).entries && k in After(log, j, pinned).entries
    requires After(log, i, pinned).entries[k].revision == After(log, j, pinned).entries[k].revision
    ensures After(log, i, pinned).entries[k] == After(log, j, pinned).entries[k]
  {
    AfterOk(log, i, pinned);
    AfterOk(log, j, pinned);
    KeyRun(log, pinned, if i <= j then i else j, if i <= j then j else i, k);
  }

  /** No two log entries that change the catalog share a generation. */
  lemma GenerationUsedOnce(log: seq<LogEntry>, pinned: Manifest, i: nat, j: nat)
    requires i < j < |log|
    requires TakesEffect(After(log, i, pinned), log[i]) && TakesEffect(After(log, j, pinned), log[j])
    ensures After(log, i + 1, pinned).generation < After(log, j + 1, pinned).generation
  {
    AfterNext(log, j, pinned);
    StepEffect(After(log, j, pinned), log[j], pinned, ClusterConfig);
    KeyRun(log, pinned, i + 1, j, ClusterConfig);
  }

  /** The result retained for a request never changes. */
  lemma {:induction false} ResultRetained(log: seq<LogEntry>, pinned: Manifest, i: nat, j: nat, id: Id)
    requires i <= j <= |log|
    requires id in After(log, i, pinned).results
    ensures id in After(log, j, pinned).results
    ensures After(log, j, pinned).results[id] == After(log, i, pinned).results[id]
    decreases j
  {
    hide Step;
    hide Replay;
    if i < j {
      ResultRetained(log, pinned, i, j - 1, id);
      AfterNext(log, j - 1, pinned);
      AfterOk(log, j - 1, pinned);
      ResultStep(After(log, j - 1, pinned), log[j - 1], pinned, id);
    }
  }

  /** The entry is a command that is applied for the first time and does not pass validation. */
  ghost predicate Fails(s: State, e: LogEntry) {
    && s.applied < e.index && e.cmd.Change? && s.genesis.Some?
    && e.cmd.c.request !in s.results && Validate(s, e.cmd.c.body).Some?
  }

  lemma FailureStep(s: State, e: LogEntry, pinned: Manifest)
    requires Fails(s, e)
    ensures var s', id := Step(s, e, pinned), e.cmd.c.request;
      && s' == s.(results := s'.results, applied := e.index)
      && s'.results.Keys == s.results.Keys + {id}
      && (forall x :: x in s.results ==> s'.results[x] == s.results[x])
      && s'.results[id].failure == Validate(s, e.cmd.c.body) && s'.results[id].changed == []
      && s'.results[id].generation == s.generation
  {
  }

  /**
    A failed command changes nothing but the retained results, by its own, and the applied index; its
    failure stays the answer in every later state, and no later command of that request takes effect.
   */
  lemma FailureChangesOnlyResult(log: seq<LogEntry>, pinned: Manifest, i: nat, j: nat)
    requires i < j <= |log| && Fails(After(log, i, pinned), log[i])
    ensures var a, b, id := After(log, i, pinned), After(log, i + 1, pinned), log[i].cmd.c.request;
      && b == a.(results := b.results, applied := log[i].index)
      && b.results.Keys == a.results.Keys + {id}
      && (forall x :: x in a.results ==> b.results[x] == a.results[x])
      && b.results[id].changed == [] && b.results[id].generation == a.generation
    ensures var id := log[i].cmd.c.request; var c := After(log, j, pinned);
      && id in c.results && c.results[id].failure == Validate(After(log, i, pinned), log[i].cmd.c.body)
      && (j < |log| && log[j].cmd.Change? && log[j].cmd.c.request == id ==> !TakesEffect(c, log[j]))
  {
    hide Step, Replay, Validate;
    AfterNext(log, i, pinned);
    FailureStep(After(log, i, pinned), log[i], pinned);
    ResultRetained(log, pinned, i + 1, j, log[i].cmd.c.request);
  }

  lemma {:induction false} GenesisStays(log: seq<LogEntry>, pinned: Manifest, i: nat, j: nat)
    requires i <= j <= |log|
    requires After(log, i, pinned).genesis.Some?
    ensures After(log, j, pinned).genesis == After(log, i, pinned).genesis
    decreases j
  {
    if i < j {
      GenesisStays(log, pinned, i, j - 1);
      AfterNext(log, j - 1, pinned);
    }
  }

  lemma RetainedAnswer(s: State, e: LogEntry, pinned: Manifest)
    requires s.applied < e.index && e.cmd.Change? && s.genesis.Some?
    ensures var a := Apply(s, e.index, e.cmd, pinned); var id := e.cmd.c.request;
      && a.commit.Some? && id in a.state.results
      && (a.commit.value.failure != Some(IdentityConflict) ==>
            a.state.results[id] == a.commit.value && a.commit.value.hash == e.cmd.c.body)
  {
  }

  /** A later copy of a request answers with the retained result and changes nothing but the applied index. */
  lemma DuplicateIsIdempotent(log: seq<LogEntry>, pinned: Manifest, i: nat, j: nat)
    requires i < j < |log| && log[i].cmd.Change? && log[j].cmd == log[i].cmd
    requires After(log, i, pinned).applied < log[i].index && After(log, i, pinned).genesis.Some?
    requires After(log, j, pinned).applied < log[j].index
    ensures var a := Apply(After(log, i, pinned), log[i].index, log[i].cmd, pinned);
      var b := Apply(After(log, j, pinned), log[j].index, log[j].cmd, pinned);
      var id := log[i].cmd.c.request;
      && b.error.None? && b.commit.Some?
      && b.state == After(log, j, pinned).(applied := log[j].index)
      && a.commit.Some? && (a.commit.value.failure != Some(IdentityConflict) ==> b.commit == a.commit)
  {
    var id := log[i].cmd.c.request;
    AfterNext(log, i, pinned);
    GenesisStays(log, pinned, i, j);
    assert id in After(log, i + 1, pinned).results;
    ResultRetained(log, pinned, i + 1, j, id);
    RetainedAnswer(After(log, i, pinned), log[i], pinned);
  }

  lemma ExpectedAbsent(s: State, xs: seq<(Key, Expected)>, k: Key)
    requires FirstExpected(s, xs).None? && (k, Absent) in xs
    ensures k !in s.entries
  {
    AllExpected(s, xs);
    assert CheckExpected(s, (k, Absent)).None?;
  }

  /** Of all commands that expect a key absent and write it, at most one takes effect. */
  lemma OneWinner(log: seq<LogEntry>, pinned: Manifest, i: nat, j: nat, k: Key)
    requires i < j < |log| && log[i].cmd.Change? && log[j].cmd.Change?
    requires k in Changed(Mutations(log[i])) && (k, Absent) in log[j].cmd.c.body.expected
    ensures !(TakesEffect(After(log, i, pinned), log[i]) && TakesEffect(After(log, j, pinned), log[j]))
  {
    var a, b := After(log, i, pinned), After(log, j, pinned);
    if TakesEffect(a, log[i]) && TakesEffect(b, log[j]) {
      AfterOk(log, i, pinned);
      AfterNext(log, i, pinned);
      StampsExactly(a, log[i], pinned, k);
      KeyRun(log, pinned, i + 1, j, k);
      ExpectedAbsent(b, log[j].cmd.c.body.expected, k);
    }
  }

  // ---------------------------------------------------------------------------
  // Tombstones
  // ---------------------------------------------------------------------------

  /** A tombstoned key comes back in one step exactly as the bookkeeping key of a command taking effect. */
  lemma RevivedExactly(s: State, e: LogEntry, pinned: Manifest, k: Key)
    requires Ok(s) && IsTombstoned(s, k)
    ensures IsLive(Step(s, e, pinned), k) <==> TakesEffect(s, e) && k == AdminCommand(e.cmd.c.request)
    ensures !(TakesEffect(s, e) && k == AdminCommand(e.cmd.c.request)) ==>
            Lookup(Step(s, e, pinned).entries, k) == Lookup(s.entries, k)
  {
    if TakesEffect(s, e) {
      StepEffect(s, e, pinned, k);
      if k != AdminCommand(e.cmd.c.request) {
        Untouched(Lookup(s.entries, k), Mutations(e), k, s.generation + 1);
      }
    } else {
      StepIdle(s, e, pinned);
    }
  }

  /** Once a committed state shows a key tombstoned its entry never changes again. */
  lemma {:induction false} TombstonesAreFinal(log: seq<LogEntry>, pinned: Manifest, i: nat, j: nat, k: Key)
    requires i <= j <= |log|
    requires !k.AdminCommand? && IsTombstoned(After(log, i, pinned), k)
    ensures Lookup(After(log, j, pinned).entries, k) == Lookup(After(log, i, pinned).entries, k)
    decreases j
  {
    hide Step;
    hide Replay;
    if i < j {
      TombstonesAreFinal(log, pinned, i, j - 1, k);
      AfterNext(log, j - 1, pinned);
      AfterOk(log, j - 1, pinned);
      RevivedExactly(After(log, j - 1, pinned), log[j - 1], pinned, k);
    }
  }

  // ---------------------------------------------------------------------------
  // Grants
  // ---------------------------------------------------------------------------

  ghost function Stage(g: GrantState): nat {
    match g
    case Staged => 0
    case Active => 1
    case Closing => 2
    case Closed => 3
    case Retired => 4
  }

  /** A grant goes one stage at a time, except that one never activated can be retired at once. */
  lemma LifecycleExactly(from: GrantState, to: GrantState)
    ensures CanAdvance(from, to) <==> Stage(to) == Stage(from) + 1 || (from == Staged && to == Retired)
  {
  }

  ghost predicate SameGrant(a: Grant, b: Grant) {
    a.admitted == b.admitted && a.rest == b.rest && (a.state == b.state || CanAdvance(a.state, b.state))
  }

  /** What one command may do to a grant it holds: along at most one edge, and never back from a tombstone. */
  ghost predicate Moved(g: Grant, live: bool, o: Option<Entry>) {
    HoldsGrant(o) && SameGrant(g, o.value.value.grant.value) && (o.value.live ==> live)
  }

  ghost predicate Legal(m: Mutation, g: Grant) {
    m.Tombstone? || (m.AdvanceGrantState? && CanAdvance(g.state, m.to))
  }

  lemma {:induction false} SettleMoves(g: Grant, live: bool, o: Option<Entry>, ms: seq<Mutation>, k: Key, rev: nat)
    requires Moved(g, live, o)
    requires forall m :: m in ms && KeyOf(m) == k ==> Legal(m, g)
    ensures Moved(g, live, Settle(o, ms, k, rev))
    decreases |ms|
  {
    if ms != [] {
      SettleMoves(g, live, if KeyOf(ms[0]) == k then Touch(o, ms[0], rev) else o, ms[1..], k, rev);
    }
  }

  /** The entry overwrites the grant's record instead of advancing it. */
  ghost predicate Repoints(e: LogEntry, g: Id) {
    e.cmd.Change? && exists m :: m in Mutations(e) && m.AdvancePointer? && m.key == Authority(g)
  }

  /** A log entry that does not overwrite a grant's record moves it along at most one lifecycle edge. */
  lemma GrantStep(s: State, e: LogEntry, pinned: Manifest, g: Id)
    requires Ok(s) && !Repoints(e, g)
    requires HoldsGrant(Lookup(s.entries, Authority(g)))
    ensures var x := s.entries[Authority(g)];
      Moved(x.value.grant.value, x.live, Lookup(Step(s, e, pinned).entries, Authority(g)))
  {
    var k := Authority(g);
    var x := s.entries[k];
    if TakesEffect(s, e) {
      StepEffect(s, e, pinned, k);
      forall m | m in Mutations(e) && KeyOf(m) == k
        ensures Legal(m, x.value.grant.value)
      {
        assert CheckMutation(s, m).None?;
      }
      SettleMoves(x.value.grant.value, x.live, Lookup(s.entries, k), Mutations(e), k, s.generation + 1);
    } else {
      StepIdle(s, e, pinned);
    }
  }

  /** A record that can no longer admit anyone. */
  ghost predicate Shut(o: Option<Entry>) {
    HoldsGrant(o) && (!o.value.live || o.value.value.grant.value.state in {Closing, Closed, Retired})
  }

  ghost predicate Undisturbed(log: seq<LogEntry>, i: nat, j: nat, g: Id)
    requires i <= j <= |log|
  {
    forall n :: i <= n < j ==> !Repoints(log[n], g)
  }

  lemma {:induction false} ShutStays(log: seq<LogEntry>, pinned: Manifest, i: nat, j: nat, g: Id)
    requires i <= j <= |log| && Undisturbed(log, i, j, g)
    requires Shut(Lookup(After(log, i, pinned).entries, Authority(g)))
    ensures Shut(Lookup(After(log, j, pinned).entries, Authority(g)))
    decreases j
  {
    hide Step;
    hide Replay;
    if i < j {
      ShutStays(log, pinned, i, j - 1, g);
      AfterNext(log, j - 1, pinned);
      AfterOk(log, j - 1, pinned);
      GrantStep(After(log, j - 1, pinned), log[j - 1], pinned, g);
    }
  }

  /** While a node's admission lasts or has lapsed, the grant is shut or still active for it. */
  lemma {:induction false} AdmittedOrShut(log: seq<LogEntry>, pinned: Manifest, i: nat, j: nat, g: Id, node: Id)
    requires i <= j <= |log| && Undisturbed(log, i, j, g)
    requires AdmissionAllowed(After(log, i, pinned), g, node)
    ensures AdmissionAllowed(After(log, j, pinned), g, node) ||
            Shut(Lookup(After(log, j, pinned).entries, Authority(g)))
    decreases j
  {
    hide Step;
    hide Replay;
    if i < j {
      AdmittedOrShut(log, pinned, i, j - 1, g, node);
      AfterNext(log, j - 1, pinned);
      AfterOk(log, j - 1, pinned);
      GrantStep(After(log, j - 1, pinned), log[j - 1], pinned, g);
    }
  }

  /** Admission that was lost never returns, in any log that does not overwrite the grant's record. */
  lemma AdmissionNeverReturns(log: seq<LogEntry>, pinned: Manifest, h: nat, i: nat, j: nat, g: Id, node: Id)
    requires h <= i <= j <= |log| && Undisturbed(log, h, j, g)
    requires AdmissionAllowed(After(log, h, pinned), g, node) && !AdmissionAllowed(After(log, i, pinned), g, node)
    ensures !AdmissionAllowed(After(log, j, pinned), g, node)
  {
    AdmittedOrShut(log, pinned, h, i, g, node);
    ShutStays(log, pinned, i, j, g);
  }

  ghost predicate Open(o: Option<Entry>, node: Id) {
    o.Some? && o.value.live && Admits(o.value.value, node)
  }

  ghost predicate Admits(v: Value, node: Id) {
    v.grant.Some? && v.grant.value.state == Active && node in v.grant.value.admitted
  }

  lemma {:induction false} OpenedByLast(o: Option<Entry>, ms: seq<Mutation>, k: Key, rev: nat, node: Id)
    requires forall m :: m in ms && KeyOf(m) == k ==>
             m.Tombstone? || m.AdvancePointer? || (m.AdvanceGrantState? && m.to != Active)
    ensures Open(Settle(o, ms, k, rev), node) <==>
            var last := LastOn(ms, k);
            if last.Some? then last.value.AdvancePointer? && Admits(last.value.value, node) else Open(o, node)
    decreases |ms|
  {
    if ms != [] {
      OpenedByLast(if KeyOf(ms[0]) == k then Touch(o, ms[0], rev) else o, ms[1..], k, rev, node);
    }
  }

  /**
    A shut grant admits a node again exactly when a command's last write to it overwrites it with a
    record that does.
   */
  lemma ReopenedExactly(s: State, e: LogEntry, pinned: Manifest, g: Id, node: Id)
    requires Ok(s) && Shut(Lookup(s.entries, Authority(g)))
    ensures AdmissionAllowed(Step(s, e, pinned), g, node) <==>
            && TakesEffect(s, e)
            && var last := LastOn(Mutations(e), Authority(g));
               last.Some? && last.value.AdvancePointer? && Admits(last.value.value, node)
  {
    var k := Authority(g);
    if TakesEffect(s, e) {
      StepEffect(s, e, pinned, k);
      forall m | m in Mutations(e) && KeyOf(m) == k
        ensures m.Tombstone? || m.AdvancePointer? || (m.AdvanceGrantState? && m.to != Active)
      {
        assert CheckMutation(s, m).None?;
      }
      OpenedByLast(Lookup(s.entries, k), Mutations(e), k, s.generation + 1, node);
    } else {
      StepIdle(s, e, pinned);
    }
  }

  // A run that reopens a grant: genesis, an active grant, closing it, and an overwrite.

  const BOOT := Manifest([1, 2, 3], 0, 9, 0)

  const SERVING := Grant(Active, {7}, 0)

  function Ask(index: nat, m: Mutation): LogEntry {
    LogEntry(index, Change(Command(index, Body(BOOT.admin, [], [], [m]))))
  }

  const REOPENING := [LogEntry(1, Genesis(BOOT)),
                      Ask(2, PutImmutable(Authority(0), FromGrant(SERVING))),
                      Ask(3, AdvanceGrantState(0, Active, Closing)),
                      Ask(4, AdvancePointer(Authority(0), FromGrant(SERVING)))]

  /** Before the entry with this index nothing like it was applied. */
  ghost predicate Upto(s: State, n: nat) {
    Ok(s) && s.genesis == Some(BOOT) && s.applied == n && forall id :: id in s.results ==> id <= n
  }

  lemma Asked(s: State, n: nat, m: Mutation)
    requires Upto(s, n) && CheckMutation(s, m).None? && !KeyOf(m).AdminCommand?
    ensures var s' := Step(s, Ask(n + 1, m), BOOT); var k := KeyOf(m);
      Upto(s', n + 1) && Lookup(s'.entries, k) == Touch(Lookup(s.entries, k), m, s.generation + 1)
  {
    var e := Ask(n + 1, m);
    assert FirstMutation(s, [m]).None? by {
      AllValid(s, [m]);
    }
    assert TakesEffect(s, e);
    StepEffect(s, e, BOOT, KeyOf(m));
    StepOk(s, e, BOOT);
    assert Settle(Lookup(s.entries, KeyOf(m)), [m], KeyOf(m), s.generation + 1)
        == Settle(Touch(Lookup(s.entries, KeyOf(m)), m, s.generation + 1), [m][1..], KeyOf(m), s.generation + 1);
  }

  lemma Founded()
    ensures Upto(After(REOPENING, 1, BOOT), 1) && Authority(0) !in After(REOPENING, 1, BOOT).entries
  {
    AfterNext(REOPENING, 0, BOOT);
    AfterOk(REOPENING, 1, BOOT);
    assert After(REOPENING, 0, BOOT) == EMPTY;
    assert Founds(EMPTY, REOPENING[0], BOOT);
    FoundsAt(EMPTY, REOPENING[0], BOOT, Authority(0));
  }

  /** Closing is not final in general: a log in which a node is admitted, then not, then admitted again. */
  lemma ClosedCanReopen()
    ensures Increasing(REOPENING)
    ensures AdmissionAllowed(After(REOPENING, 2, BOOT), 0, 7)
    ensures Shut(Lookup(After(REOPENING, 3, BOOT).entries, Authority(0))) &&
            !AdmissionAllowed(After(REOPENING, 3, BOOT), 0, 7)
    ensures AdmissionAllowed(After(REOPENING, 4, BOOT), 0, 7)
  {
    hide Step, Replay, Upto;
    Founded();
    AfterNext(REOPENING, 1, BOOT);
    Asked(After(REOPENING, 1, BOOT), 1, PutImmutable(Authority(0), FromGrant(SERVING)));
    AfterNext(REOPENING, 2, BOOT);
    Asked(After(REOPENING, 2, BOOT), 2, AdvanceGrantState(0, Active, Closing));
    AfterNext(REOPENING, 3, BOOT);
    Asked(After(REOPENING, 3, BOOT), 3, AdvancePointer(Authority(0), FromGrant(SERVING)));
  }

  // ---------------------------------------------------------------------------
  // Scope locks
  // ---------------------------------------------------------------------------

  ghost predicate LocksDisjoint(s: State) {
    forall a, b :: a in s.entries && b in s.entries && LockPair(a, b) && s.entries[a].live && s.entries[b].live ==>
      Held(s.entries[a]) !! Held(s.entries[b])
  }

  ghost predicate LockPair(a: Key, b: Key) {
    a.ScopeLock? && b.ScopeLock? && a.tenant == b.tenant && a != b
  }

  ghost predicate PutsPair(m: Mutation, n: Mutation) {
    m.PutImmutable? && n.PutImmutable? && LockPair(m.key, n.key)
  }

  ghost function Records(v: Value): set<Id> {
    if v.records.Some? then v.records.value else {}
  }

  ghost predicate Covered(b: Body, tenant: Id, records: set<Id>) {
    exists p :: p in b.predicates && p.NoScopeOverlap? && p.tenant == tenant && records <= p.records
  }

  /** Locks are only put or tombstoned; each put is covered by an overlap check, and puts do not overlap each other. */
  ghost predicate Guarded(b: Body) {
    && (forall m :: m in b.mutations && KeyOf(m).ScopeLock? ==>
          m.Tombstone? || (m.PutImmutable? && Covered(b, m.key.tenant, Records(m.value))))
    && (forall m, n :: m in b.mutations && n in b.mutations && PutsPair(m, n) ==>
          Records(m.value) !! Records(n.value))
  }

  ghost predicate PutOf(ms: seq<Mutation>, k: Key, v: Value) {
    PutImmutable(k, v) in ms
  }

  lemma {:induction false} LockSettles(o: Option<Entry>, ms: seq<Mutation>, k: Key, rev: nat)
    requires forall m :: m in ms && KeyOf(m) == k ==> m.Tombstone? || m.PutImmutable?
    ensures var r := Settle(o, ms, k, rev); r.Some? && r.value.live ==> r == o || PutOf(ms, k, r.value.value)
    decreases |ms|
  {
    if ms != [] {
      var next := if KeyOf(ms[0]) == k then Touch(o, ms[0], rev) else o;
      LockSettles(next, ms[1..], k, rev);
      assert forall v :: PutOf(ms[1..], k, v) ==> PutOf(ms, k, v);
      if KeyOf(ms[0]) == k && ms[0].PutImmutable? {
        assert ms[0] == PutImmutable(k, ms[0].value);
        assert PutOf(ms, k, ms[0].value);
      }
    }
  }

  /** After a guarded command a live lock is the one there was, or holds what the command put. */
  lemma LockStep(s: State, e: LogEntry, pinned: Manifest, k: Key)
    requires TakesEffect(s, e) && Guarded(e.cmd.c.body) && k.ScopeLock? && IsLive(Step(s, e, pinned), k)
    ensures var x := Step(s, e, pinned).entries[k];
      Lookup(s.entries, k) == Some(x) || PutOf(Mutations(e), k, x.value)
  {
    StepEffect(s, e, pinned, k);
    LockSettles(Lookup(s.entries, k), Mutations(e), k, s.generation + 1);
  }

  lemma PutClear(s: State, e: LogEntry, k: Key, v: Value, other: Key)
    requires Ok(s) && TakesEffect(s, e) && Guarded(e.cmd.c.body)
    requires PutOf(Mutations(e), k, v) && LockPair(k, other) && IsLive(s, other)
    ensures Records(v) !! Held(s.entries[other])
  {
    var m := PutImmutable(k, v);
    assert m in Mutations(e);
    var p :| p in e.cmd.c.body.predicates && p.NoScopeOverlap? && p.tenant == k.tenant && Records(v) <= p.records;
    AllPredicates(s, e.cmd.c.body.predicates);
    assert CheckPredicate(s, p).None?;
    assert !Blocks(s.entries[other], p.tenant, p.records);
    var held := Held(s.entries[other]);
    assert forall r :: r in Records(v) && r in held ==> r in held * p.records;
  }

  lemma LocksStep(s: State, e: LogEntry, pinned: Manifest)
    requires Ok(s) && LocksDisjoint(s)
    requires e.cmd.Change? ==> Guarded(e.cmd.c.body)
    ensures LocksDisjoint(Step(s, e, pinned))
  {
    var s' := Step(s, e, pinned);
    forall a, b | a in s'.entries && b in s'.entries && LockPair(a, b) && s'.entries[a].live && s'.entries[b].live
      ensures Held(s'.entries[a]) !! Held(s'.entries[b])
    {
      if TakesEffect(s, e) {
        LocksApart(s, e, pinned, a, b);
      } else if Founds(s, e, pinned) {
        FoundsAt(s, e, pinned, a);
        FoundsAt(s, e, pinned, b);
      } else {
        StepIdle(s, e, pinned);
      }
    }
  }

  lemma LocksApart(s: State, e: LogEntry, pinned: Manifest, a: Key, b: Key)
    requires Ok(s) && LocksDisjoint(s) && TakesEffect(s, e) && Guarded(e.cmd.c.body)
    requires LockPair(a, b) && IsLive(Step(s, e, pinned), a) && IsLive(Step(s, e, pinned), b)
    ensures Held(Step(s, e, pinned).entries[a]) !! Held(Step(s, e, pinned).entries[b])
  {
    var s' := Step(s, e, pinned);
    LockStep(s, e, pinned, a);
    LockStep(s, e, pinned, b);
    if PutOf(Mutations(e), a, s'.entries[a].value) {
      if PutOf(Mutations(e), b, s'.entries[b].value) {
        assert PutImmutable(a, s'.entries[a].value) in Mutations(e) &&
               PutImmutable(b, s'.entries[b].value) in Mutations(e);
      } else {
        PutClear(s, e, a, s'.entries[a].value, b);
      }
    } else if PutOf(Mutations(e), b, s'.entries[b].value) {
      PutClear(s, e, b, s'.entries[b].value, a);
    }
  }

  /** In every log of guarded commands no two live locks of a tenant hold the same record. */
  lemma {:induction false} ScopeLocksDisjoint(log: seq<LogEntry>, pinned: Manifest, i: nat)
    requires i <= |log|
    requires forall n :: 0 <= n < i && log[n].cmd.Change? ==> Guarded(log[n].cmd.c.body)
    ensures LocksDisjoint(After(log, i, pinned))
  {
    hide Step;
    if i > 0 {
      ScopeLocksDisjoint(log, pinned, i - 1);
      AfterNext(log, i - 1, pinned);
      AfterOk(log, i - 1, pinned);
      LocksStep(After(log, i - 1, pinned), log[i - 1], pinned);
    }
  }

  // ---------------------------------------------------------------------------
  // Recovery
  // ---------------------------------------------------------------------------

  lemma {:induction false} EntriesOfAt(es: seq<Entry>, k: Key)
    ensures k in EntriesOf(es) <==> exists e :: e in es && e.key == k
    ensures k in EntriesOf(es) ==> EntriesOf(es)[k] in es && EntriesOf(es)[k].key == k
  {
    if es != [] {
      var last := es[|es| - 1];
      EntriesOfAt(es[..|es| - 1], k);
      assert es == es[..|es| - 1] + [last];
      if e :| e in es && e.key == k {
        assert e == last || e in es[..|es| - 1];
      }
    }
  }

  lemma {:induction false} ResultsOfAt(rs: seq<Commit>, id: Id)
    ensures id in ResultsOf(rs) <==> exists r :: r in rs && r.request == id
    ensures id in ResultsOf(rs) ==> ResultsOf(rs)[id] in rs && ResultsOf(rs)[id].request == id
  {
    if rs != [] {
      var last := rs[|rs| - 1];
      ResultsOfAt(rs[..|rs| - 1], id);
      assert rs == rs[..|rs| - 1] + [last];
      if r :| r in rs && r.request == id {
        assert r == last || r in rs[..|rs| - 1];
      }
    }
  }

  /** Restoring an image of a state gives the state back. */
  lemma RestoreInverts(s: State, image: Snapshot)
    requires Ok(s) && IsSnapshot(s, image)
    ensures Restore(image) == s
  {
    forall k
      ensures Lookup(EntriesOf(image.entries), k) == Lookup(s.entries, k)
    {
      EntriesOfAt(image.entries, k);
    }
    assert EntriesOf(image.entries) == s.entries by {
      forall k ensures k in EntriesOf(image.entries) <==> k in s.entries {
        assert Lookup(EntriesOf(image.entries), k) == Lookup(s.entries, k);
      }
      forall k | k in s.entries ensures EntriesOf(image.entries)[k] == s.entries[k] {
        assert Lookup(EntriesOf(image.entries), k) == Lookup(s.entries, k);
      }
    }
    forall id
      ensures id in ResultsOf(image.results) <==> id in s.results
      ensures id in s.results ==> ResultsOf(image.results)[id] == s.results[id]
    {
      ResultsOfAt(image.results, id);
    }
    assert ResultsOf(image.results) == s.results;
  }

  lemma {:induction false} ReplayConcat(s: State, a: seq<LogEntry>, b: seq<LogEntry>, pinned: Manifest)
    ensures Replay(s, a + b, pinned) == Replay(Replay(s, a, pinned), b, pinned)
    decreases |b|
  {
    if b == [] {
      assert a + b == a;
    } else {
      assert (a + b)[..|a + b| - 1] == a + b[..|b| - 1];
      ReplayConcat(s, a, b[..|b| - 1], pinned);
    }
  }

  /** Applying the entry again would be skipped, or refused as it was before. */
  ghost predicate Spent(s: State, e: LogEntry, pinned: Manifest) {
    e.index <= s.applied || Apply(s, e.index, e.cmd, pinned).error.Some?
  }

  lemma SpentStep(s: State, e: LogEntry, pinned: Manifest)
    ensures Spent(Step(s, e, pinned), e, pinned)
    ensures Spent(s, e, pinned) ==> Step(s, e, pinned) == s
    ensures !Spent(s, e, pinned) ==> Step(s, e, pinned).applied == e.index
  {
  }

  lemma {:induction false} PrefixSpent(log: seq<LogEntry>, pinned: Manifest, i: nat, p: nat)
    requires Increasing(log) && p < i <= |log|
    ensures Spent(After(log, i, pinned), log[p], pinned)
    decreases i
  {
    hide Replay;
    var s := After(log, i - 1, pinned);
    AfterNext(log, i - 1, pinned);
    SpentStep(s, log[i - 1], pinned);
    if p < i - 1 {
      PrefixSpent(log, pinned, i - 1, p);
    }
  }

  lemma {:induction false} PrefixReplays(log: seq<LogEntry>, pinned: Manifest, j: nat, i: nat, k: nat)
    requires Increasing(log) && j <= i <= k <= |log|
    ensures Replay(After(log, k, pinned), log[j..i], pinned) == After(log, k, pinned)
    decreases i
  {
    hide Step;
    hide Spent;
    if j < i {
      assert log[j..i][..i - j - 1] == log[j..i - 1];
      PrefixReplays(log, pinned, j, i - 1, k);
      PrefixSpent(log, pinned, k, i - 1);
      SpentStep(After(log, k, pinned), log[i - 1], pinned);
    }
  }

  /** Restoring an image taken anywhere in a log and replaying from anywhere at or before it ends where the log ends. */
  lemma Recovery(log: seq<LogEntry>, pinned: Manifest, j: nat, k: nat, image: Snapshot)
    requires Increasing(log) && j <= k <= |log|
    requires IsSnapshot(After(log, k, pinned), image)
    ensures Replay(Restore(image), log[j..], pinned) == Replay(EMPTY, log, pinned)
  {
    hide Step;
    hide Replay;
    hide IsSnapshot;
    AfterOk(log, k, pinned);
    RestoreInverts(After(log, k, pinned), image);
    PrefixReplays(log, pinned, j, k, k);
    assert log[j..] == log[j..k] + log[k..];
    ReplayConcat(After(log, k, pinned), log[j..k], log[k..], pinned);
    assert log == log[..k] + log[k..];
    ReplayConcat(EMPTY, log[..k], log[k..], pinned);
  }
}
