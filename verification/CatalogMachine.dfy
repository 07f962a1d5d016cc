/** The catalog as the replica runs it: one object updated in place, each method proved against its function. */
module CatalogMachine {
  import opened Basics
  import opened CatalogModel
  import Safety = CatalogSafety

  lemma {:induction false} MutateAllSplit(es: map<Key, Entry>, ms: seq<Mutation>, i: nat, rev: nat)
    requires i < |ms|
    ensures MutateAll(es, ms[..i + 1], rev) == Mutate(MutateAll(es, ms[..i], rev), ms[i], rev)
    decreases i
  {
    if i > 0 {
      assert ms[..i + 1][1..] == ms[1..][..i];
      assert ms[..i][1..] == ms[1..][..i - 1];
      MutateAllSplit(Mutate(es, ms[0], rev), ms[1..], i - 1, rev);
    }
  }

  lemma {:induction false} ChangedSplit(ms: seq<Mutation>, i: nat)
    requires i < |ms|
    ensures Changed(ms[..i + 1]) == Changed(ms[..i]) + [KeyOf(ms[i])]
    decreases i
  {
    if i > 0 {
      assert ms[..i + 1][1..] == ms[1..][..i];
      assert ms[..i][1..] == ms[1..][..i - 1];
      ChangedSplit(ms[1..], i - 1);
    }
  }

  lemma {:induction false} VoterEntriesSplit(es: map<Key, Entry>, voters: seq<Id>, i: nat, rev: nat)
    requires i < |voters|
    ensures VoterEntries(es, voters[..i + 1], rev) ==
            var k := Node(voters[i]);
            VoterEntries(es, voters[..i], rev)[k := Entry(k, rev, true, Plain(Voter(voters[i])))]
    decreases i
  {
    if i > 0 {
      assert voters[..i + 1][1..] == voters[1..][..i];
      assert voters[..i][1..] == voters[1..][..i - 1];
      VoterEntriesSplit(es[Node(voters[0]) := Entry(Node(voters[0]), rev, true, Plain(Voter(voters[0])))],
                        voters[1..], i - 1, rev);
    }
  }

  class Catalog {
    var entries: map<Key, Entry>
    var generation: nat
    var applied: nat
    var genesis: Option<Manifest>
    var results: map<Id, Commit>

    function V(): State
      reads this
    {
      State(entries, generation, applied, genesis, results)
    }

    constructor ()
      ensures V() == EMPTY
    {
      entries, generation, applied, genesis, results := map[], 0, 0, None, map[];
    }

    /** Rebuilds the maps an image lists. */
    constructor Restored(image: Snapshot)
      ensures V() == Restore(image)
    {
      generation, applied, genesis := image.generation, image.applied, image.genesis;
      entries, results := map[], map[];
      new;
      for i := 0 to |image.entries|
        invariant entries == EntriesOf(image.entries[..i]) && results == map[]
        invariant generation == image.generation && applied == image.applied && genesis == image.genesis
      {
        assert image.entries[..i + 1][..i] == image.entries[..i];
        entries := entries[image.entries[i].key := image.entries[i]];
      }
      assert image.entries[..|image.entries|] == image.entries;
      for i := 0 to |image.results|
        invariant entries == EntriesOf(image.entries) && results == ResultsOf(image.results[..i])
        invariant generation == image.generation && applied == image.applied && genesis == image.genesis
      {
        assert image.results[..i + 1][..i] == image.results[..i];
        results := results[image.results[i].request := image.results[i]];
      }
      assert image.results[..|image.results|] == image.results;
    }

    /** Lists every entry and every retained result; restoring the image gives this state back. */
    method Image() returns (image: Snapshot)
      ensures IsSnapshot(V(), image)
      ensures Safety.Ok(V()) ==> Restore(image) == V()
    {
      var es, todo := [], entries.Keys;
      while todo != {}
        invariant todo <= entries.Keys
        invariant forall k :: k in entries && k !in todo ==> entries[k] in es
        invariant forall e :: e in es ==> exists k :: k in entries && entries[k] == e
        decreases |todo|
      {
        var k :| k in todo;
        es, todo := es + [entries[k]], todo - {k};
      }
      var rs, left := [], results.Keys;
      while left != {}
        invariant left <= results.Keys
        invariant forall id :: id in results && id !in left ==> results[id] in rs
        invariant forall r :: r in rs ==> exists id :: id in results && results[id] == r
        decreases |left|
      {
        var id :| id in left;
        rs, left := rs + [results[id]], left - {id};
      }
      image := Snapshot(applied, generation, genesis, es, rs);
      if Safety.Ok(V()) {
        Safety.RestoreInverts(V(), image);
      }
    }

    /** Looks for a live lock of the tenant that holds one of the records. */
    method Locked(tenant: Id, records: set<Id>) returns (found: bool)
      ensures found == Overlaps(V(), tenant, records)
    {
      var todo := entries.Keys;
      while todo != {}
        invariant todo <= entries.Keys
        invariant forall k :: k in entries && k !in todo ==> !Blocks(entries[k], tenant, records)
        decreases |todo|
      {
        var k :| k in todo;
        if Blocks(entries[k], tenant, records) {
          assert Overlaps(V(), tenant, records);
          return true;
        }
        todo := todo - {k};
      }
      return false;
    }

    /** Expected revisions, then predicates, then mutation preconditions; the first failure wins. */
    method Check(b: Body) returns (failure: Option<Failure>)
      ensures failure == Validate(V(), b)
    {
      if genesis.None? || genesis.value.admin != b.principal {
        return Some(AuthorizationDenied);
      }
      failure := CheckAllExpected(b.expected);
      if failure.None? {
        failure := CheckAllPredicates(b.predicates);
      }
      if failure.None? {
        failure := CheckAllMutations(b.mutations);
      }
    }

    method CheckAllExpected(xs: seq<(Key, Expected)>) returns (failure: Option<Failure>)
      ensures failure == FirstExpected(V(), xs)
    {
      for i := 0 to |xs|
        invariant FirstExpected(V(), xs) == FirstExpected(V(), xs[i..])
      {
        failure := CheckExpected(V(), xs[i]);
        if failure.Some? {
          return;
        }
        assert xs[i..][1..] == xs[i + 1..];
      }
      return None;
    }

    method CheckAllPredicates(ps: seq<Predicate>) returns (failure: Option<Failure>)
      ensures failure == FirstPredicate(V(), ps)
    {
      for i := 0 to |ps|
        invariant FirstPredicate(V(), ps) == FirstPredicate(V(), ps[i..])
      {
        if ps[i].NoScopeOverlap? {
          var found := Locked(ps[i].tenant, ps[i].records);
          failure := if found then Some(ScopeLocked) else None;
        } else {
          failure := CheckPredicate(V(), ps[i]);
        }
        if failure.Some? {
          return;
        }
        assert ps[i..][1..] == ps[i + 1..];
      }
      return None;
    }

    method CheckAllMutations(ms: seq<Mutation>) returns (failure: Option<Failure>)
      ensures failure == FirstMutation(V(), ms)
    {
      for i := 0 to |ms|
        invariant FirstMutation(V(), ms) == FirstMutation(V(), ms[i..])
      {
        failure := CheckMutation(V(), ms[i]);
        if failure.Some? {
          return;
        }
        assert ms[i..][1..] == ms[i + 1..];
      }
      return None;
    }

    method MutateEntry(m: Mutation, rev: nat)
      modifies this`entries
      ensures entries == Mutate(old(entries), m, rev)
    {
      match m {
        case PutImmutable(k, v) => { entries := entries[k := Entry(k, rev, true, v)]; }
        case AdvancePointer(k, v) => { entries := entries[k := Entry(k, rev, true, v)]; }
        case AdvanceGrantState(g, _, to) => {
          var k := Authority(g);
          if k in entries {
            var e := entries[k];
            if e.value.grant.Some? {
              var moved := e.value.grant.value.(state := to);
              entries := entries[k := e.(value := FromGrant(moved), revision := rev)];
            }
          }
        }
        case Tombstone(k) => {
          var value := if k in entries then entries[k].value else NULL;
          entries := entries[k := Entry(k, rev, false, value)];
        }
      }
    }

    /** Runs the mutations in order and collects the keys they name. */
    method MutateEntries(ms: seq<Mutation>, rev: nat) returns (changed: seq<Key>)
      modifies this`entries
      ensures entries == MutateAll(old(entries), ms, rev)
      ensures changed == Changed(ms)
    {
      changed := [];
      for i := 0 to |ms|
        invariant entries == MutateAll(old(entries), ms[..i], rev)
        invariant changed == Changed(ms[..i])
      {
        MutateAllSplit(old(entries), ms, i, rev);
        ChangedSplit(ms, i);
        MutateEntry(ms[i], rev);
        changed := changed + [KeyOf(ms[i])];
      }
      assert ms[..|ms|] == ms;
    }

    method Execute(index: nat, c: Command) returns (commit: Commit)
      modifies this
      ensures (V(), commit) == ApplyCommand(old(V()), index, c)
    {
      if c.request in results {
        if results[c.request].hash == c.body {
          return results[c.request];
        }
        return Commit(c.request, c.body, generation, [], index, Some(IdentityConflict));
      }
      var failure := Check(c.body);
      if failure.Some? {
        commit := Commit(c.request, c.body, generation, [], index, failure);
      } else {
        generation := generation + 1;
        var changed := MutateEntries(c.body.mutations, generation);
        var k := AdminCommand(c.request);
        entries := entries[k := Entry(k, generation, true, Plain(Bookkeeping(c.body, index)))];
        commit := Commit(c.request, c.body, generation, changed, index, None);
      }
      results := results[c.request := commit];
    }

    method Found(m: Manifest)
      modifies this`entries, this`generation, this`genesis
      ensures generation == old(generation) + 1 && genesis == Some(m)
      ensures var config := Entry(ClusterConfig, generation, true, Plain(Config(m)));
              entries == VoterEntries(old(entries)[ClusterConfig := config], m.voters, generation)
    {
      generation := generation + 1;
      entries := entries[ClusterConfig := Entry(ClusterConfig, generation, true, Plain(Config(m)))];
      ghost var start := entries;
      for i := 0 to |m.voters|
        invariant generation == old(generation) + 1
        invariant entries == VoterEntries(start, m.voters[..i], generation)
      {
        VoterEntriesSplit(start, m.voters, i, generation);
        var n := m.voters[i];
        entries := entries[Node(n) := Entry(Node(n), generation, true, Plain(Voter(n)))];
      }
      assert m.voters[..|m.voters|] == m.voters;
      genesis := Some(m);
    }

    /** Applies one committed log entry; an error leaves everything, the applied index included, as it was. */
    method ApplyEntry(index: nat, cmd: LogCommand, pinned: Manifest)
      returns (commit: Option<Commit>, error: Option<ApplyError>)
      modifies this
      ensures Applied(V(), commit, error) == Apply(old(V()), index, cmd, pinned)
    {
      commit, error := None, None;
      if index <= applied {
        return;
      }
      match cmd {
        case Genesis(m) => {
          if genesis.Some? {
            return None, Some(SecondGenesis);
          }
          if m != pinned {
            return None, Some(WrongManifest);
          }
          if |m.voters| != 3 {
            return None, Some(WrongVoters);
          }
          Found(m);
        }
        case Change(c) => {
          if genesis.None? {
            return None, Some(NotReady);
          }
          var done := Execute(index, c);
          commit := Some(done);
        }
      }
      applied := index;
    }
  }
}
