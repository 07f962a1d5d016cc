/**
  Which records and invariants an operation can affect. Two independent algorithms compute it:
  a union-find over records that share an invariant, and a fixed-point loop per operation.
 */
module SemanticClosure {
  import opened Basics
  import opened LangTypes

  function InvariantRecords(inv: Invariant): set<RecordId> {
    (match inv.scope
     case PerKey(r) => {r}
     case PerGroup(r) => {r}
     case Global(rs) => set r | r in rs)
    + (set d | d in inv.dependencies)
    + (match inv.law
       case RequiresFact(_, _, fact) => {fact}
       case _ => {})
  }

  function FootprintRecords(op: Operation): set<RecordId> {
    var fp := op.footprint;
    set r | r in fp.read + fp.written + fp.tested + fp.facts
  }

  // ---------------------------------------------------------------------------
  // Connectivity
  // ---------------------------------------------------------------------------

  /** Some invariant speaks about both records. */
  ghost predicate Linked(invs: seq<Invariant>, a: RecordId, b: RecordId) {
    exists inv :: inv in invs && a in InvariantRecords(inv) && b in InvariantRecords(inv)
  }

  ghost predicate IsPath(invs: seq<Invariant>, path: seq<RecordId>) {
    |path| > 0 && forall i :: 0 <= i < |path| - 1 ==> Linked(invs, path[i], path[i + 1])
  }

  ghost predicate Joins(invs: seq<Invariant>, path: seq<RecordId>, a: RecordId, b: RecordId) {
    IsPath(invs, path) && path[0] == a && path[|path| - 1] == b
  }

  ghost predicate Connected(invs: seq<Invariant>, a: RecordId, b: RecordId) {
    exists path :: Joins(invs, path, a, b)
  }

  lemma ConnectedSelf(invs: seq<Invariant>, a: RecordId)
    ensures Connected(invs, a, a)
  {
    assert Joins(invs, [a], a, a);
  }

  lemma ConnectedLink(invs: seq<Invariant>, a: RecordId, b: RecordId)
    requires Linked(invs, a, b)
    ensures Connected(invs, a, b)
  {
    assert Joins(invs, [a, b], a, b);
  }

  lemma ConnectedTrans(invs: seq<Invariant>, a: RecordId, b: RecordId, c: RecordId)
    requires Connected(invs, a, b) && Connected(invs, b, c)
    ensures Connected(invs, a, c)
  {
    var p :| Joins(invs, p, a, b);
    var q :| Joins(invs, q, b, c);
    var r := p + q[1..];
    forall i | 0 <= i < |r| - 1
      ensures Linked(invs, r[i], r[i + 1])
    {
      if i < |p| - 1 {
        assert Linked(invs, p[i], p[i + 1]);
      } else {
        var j := i - (|p| - 1);
        assert r[i] == q[j] && r[i + 1] == q[j + 1];
        assert Linked(invs, q[j], q[j + 1]);
      }
    }
    assert Joins(invs, r, a, c);
  }

  lemma {:induction false} ConnectedFlip(invs: seq<Invariant>, path: seq<RecordId>, a: RecordId, b: RecordId)
    requires Joins(invs, path, a, b)
    ensures Connected(invs, b, a)
    decreases |path|
  {
    if |path| == 1 {
      ConnectedSelf(invs, a);
    } else {
      var rest := path[1..];
      forall i | 0 <= i < |rest| - 1
        ensures Linked(invs, rest[i], rest[i + 1])
      {
        assert Linked(invs, path[i + 1], path[i + 2]);
      }
      ConnectedFlip(invs, rest, path[1], b);
      assert Linked(invs, path[0], path[1]);
      assert Linked(invs, path[1], path[0]);
      ConnectedLink(invs, path[1], a);
      ConnectedTrans(invs, b, path[1], a);
    }
  }

  lemma ConnectedSym(invs: seq<Invariant>, a: RecordId, b: RecordId)
    requires Connected(invs, a, b)
    ensures Connected(invs, b, a)
  {
    var p :| Joins(invs, p, a, b);
    ConnectedFlip(invs, p, a, b);
  }

  // ---------------------------------------------------------------------------
  // Union-find
  // ---------------------------------------------------------------------------

  /** Parents never point upward, so following them ends. */
  ghost predicate Descending(p: seq<nat>) {
    forall i :: 0 <= i < |p| ==> p[i] <= i
  }

  ghost function Root(p: seq<nat>, i: nat): (r: nat)
    requires Descending(p) && i < |p|
    ensures r <= i && p[r] == r
    decreases i
  {
    if p[i] == i then i else Root(p, p[i])
  }

  ghost predicate SameRoots(p: seq<nat>, q: seq<nat>)
    requires Descending(p) && Descending(q)
  {
    |p| == |q| && forall x :: 0 <= x < |p| ==> Root(q, x) == Root(p, x)
  }

  lemma {:induction false} CompressAt(p: seq<nat>, i: nat, x: nat)
    requires Descending(p) && i < |p| && x < |p| && p[i] != i
    ensures Descending(p[i := Root(p, i)]) && Root(p[i := Root(p, i)], x) == Root(p, x)
    decreases x
  {
    var q := p[i := Root(p, i)];
    if x == i {
      assert q[Root(p, i)] == Root(p, i);
    } else if p[x] != x {
      CompressAt(p, i, p[x]);
    }
  }

  lemma Compress(p: seq<nat>, i: nat)
    requires Descending(p) && i < |p| && p[i] != i
    ensures Descending(p[i := Root(p, i)]) && SameRoots(p, p[i := Root(p, i)])
  {
    forall x | 0 <= x < |p|
      ensures Root(p[i := Root(p, i)], x) == Root(p, x)
    {
      CompressAt(p, i, x);
    }
  }

  lemma {:induction false} LinkAt(p: seq<nat>, hi: nat, lo: nat, x: nat)
    requires Descending(p) && lo < hi < |p| && p[hi] == hi && p[lo] == lo && x < |p|
    ensures Descending(p[hi := lo])
    ensures Root(p[hi := lo], x) == if Root(p, x) == hi then lo else Root(p, x)
    decreases x
  {
    var q := p[hi := lo];
    if x != hi && p[x] != x {
      LinkAt(p, hi, lo, p[x]);
    } else {
      assert q[lo] == lo;
    }
  }

  /** The roots after merging the classes of two roots: the smaller one survives. */
  ghost predicate Merged(p: seq<nat>, q: seq<nat>, a: nat, b: nat)
    requires Descending(p) && Descending(q) && a < |p| && b < |p|
  {
    var ra, rb := Root(p, a), Root(p, b);
    && |q| == |p|
    && (forall x :: 0 <= x < |p| ==>
          Root(q, x) == if Root(p, x) == ra || Root(p, x) == rb then (if ra < rb then ra else rb) else Root(p, x))
  }

  class Uf {
    const parent: array<nat>

    ghost predicate Valid()
      reads this, parent
    {
      Descending(parent[..])
    }

    constructor (n: nat)
      ensures Valid() && fresh(parent) && parent.Length == n
      ensures forall i :: 0 <= i < n ==> Root(parent[..], i) == i
    {
      var p := new nat[n](i => i);
      parent := p;
    }

    method Find(i: nat) returns (r: nat)
      requires Valid() && i < parent.Length
      modifies parent
      ensures Valid() && r == Root(old(parent[..]), i)
      ensures SameRoots(old(parent[..]), parent[..])
      decreases i
    {
      if parent[i] != i {
        var up := Find(parent[i]);
        ghost var p := parent[..];
        assert Root(p, i) == up;
        if p[i] != i {
          Compress(p, i);
        }
        parent[i] := up;
        assert parent[..] == p[i := up];
      }
      r := parent[i];
    }

    method Union(a: nat, b: nat)
      requires Valid() && a < parent.Length && b < parent.Length
      modifies parent
      ensures Valid() && Merged(old(parent[..]), parent[..], a, b)
    {
      var ra := Find(a);
      var rb := Find(b);
      ghost var p := parent[..];
      if ra != rb {
        var hi: nat, lo: nat := if ra < rb then rb else ra, if ra < rb then ra else rb;
        forall x | 0 <= x < |p|
          ensures Descending(p[hi := lo])
          ensures Root(p[hi := lo], x) == if Root(p, x) == hi then lo else Root(p, x)
        {
          LinkAt(p, hi, lo, x);
        }
        parent[hi] := lo;
        assert parent[..] == p[hi := lo];
      }
    }
  }

  // ---------------------------------------------------------------------------
  // Templates: one per class of connected records
  // ---------------------------------------------------------------------------

  ghost predicate Distinct(rs: seq<RecordId>) {
    forall i, j :: 0 <= i < j < |rs| ==> rs[i] != rs[j]
  }

  ghost function Elements(rs: seq<RecordId>): set<RecordId> {
    set r | r in rs
  }

  ghost predicate Declared(invs: seq<Invariant>, rs: seq<RecordId>) {
    forall inv, r :: inv in invs && r in InvariantRecords(inv) ==> r in rs
  }

  /** The elements of a set in increasing order. */
  method Ascending(s: set<RecordId>) returns (v: seq<RecordId>)
    ensures forall r :: r in v <==> r in s
    ensures forall i, j :: 0 <= i < j < |v| ==> v[i] < v[j]
  {
    v := [];
    var rest := s;
    while rest != {}
      invariant forall r :: r in s <==> r in v || r in rest
      invariant forall r :: r in rest ==> r !in v
      invariant forall i, j :: 0 <= i < j < |v| ==> v[i] < v[j]
      invariant forall i, r :: 0 <= i < |v| && r in rest ==> v[i] < r
      decreases |rest|
    {
      var least := Least(rest);
      v := v + [least];
      rest := rest - {least};
    }
  }

  method Least(s: set<RecordId>) returns (m: RecordId)
    requires s != {}
    ensures m in s && forall r :: r in s ==> m <= r
  {
    m :| m in s;
    var rest := s - {m};
    while rest != {}
      invariant m in s && rest <= s && forall r :: r in s ==> r in rest || m <= r
      decreases |rest|
    {
      var r :| r in rest;
      rest := rest - {r};
      if r < m {
        m := r;
      }
    }
  }

  method IndexOf(rs: seq<RecordId>, r: RecordId) returns (i: nat)
    requires r in rs
    ensures i < |rs| && rs[i] == r
  {
    i := 0;
    while rs[i] != r
      invariant i < |rs| && r in rs[i..]
      decreases |rs| - i
    {
      assert rs[i..] == [rs[i]] + rs[i + 1..];
      i := i + 1;
    }
  }

  /** Classes never join records that no chain of invariants connects. */
  ghost predicate Sound(invs: seq<Invariant>, rs: seq<RecordId>, p: seq<nat>)
    requires Descending(p) && |p| == |rs|
  {
    forall i, j :: 0 <= i < |rs| && 0 <= j < |rs| && Root(p, i) == Root(p, j) ==> Connected(invs, rs[i], rs[j])
  }

  /** All records of a set are in one class. */
  ghost predicate Together(rs: seq<RecordId>, p: seq<nat>, group: set<RecordId>)
    requires Descending(p) && |p| == |rs|
  {
    forall i, j :: 0 <= i < |rs| && 0 <= j < |rs| && rs[i] in group && rs[j] in group ==> Root(p, i) == Root(p, j)
  }

  lemma MergeSound(invs: seq<Invariant>, rs: seq<RecordId>, p: seq<nat>, q: seq<nat>, a: nat, b: nat)
    requires Descending(p) && Descending(q) && |p| == |rs| && a < |p| && b < |p| && Merged(p, q, a, b)
    requires Sound(invs, rs, p) && Linked(invs, rs[a], rs[b])
    ensures Sound(invs, rs, q)
  {
    ConnectedLink(invs, rs[a], rs[b]);
    ConnectedSym(invs, rs[a], rs[b]);
    forall i, j | 0 <= i < |rs| && 0 <= j < |rs| && Root(q, i) == Root(q, j)
      ensures Connected(invs, rs[i], rs[j])
    {
      if Root(p, i) != Root(p, j) {
        if Root(p, i) == Root(p, a) {
          ConnectedTrans(invs, rs[i], rs[a], rs[b]);
          ConnectedTrans(invs, rs[i], rs[b], rs[j]);
        } else {
          ConnectedTrans(invs, rs[i], rs[b], rs[a]);
          ConnectedTrans(invs, rs[i], rs[a], rs[j]);
        }
      }
    }
  }

  lemma MergeTogether(rs: seq<RecordId>, p: seq<nat>, q: seq<nat>, a: nat, b: nat, group: set<RecordId>)
    requires Descending(p) && Descending(q) && |p| == |rs| && a < |p| && b < |p| && Merged(p, q, a, b)
    requires Together(rs, p, group)
    ensures Together(rs, q, group)
  {
  }

  lemma StartSound(invs: seq<Invariant>, rs: seq<RecordId>, p: seq<nat>)
    requires Descending(p) && |p| == |rs| && forall i :: 0 <= i < |p| ==> Root(p, i) == i
    ensures Sound(invs, rs, p)
  {
    forall i, j | 0 <= i < |rs| && 0 <= j < |rs| && Root(p, i) == Root(p, j)
      ensures Connected(invs, rs[i], rs[j])
    {
      ConnectedSelf(invs, rs[i]);
    }
  }

  /** Merges the records of one invariant pairwise along their order. */
  method JoinAll(uf: Uf, rs: seq<RecordId>, ghost invs: seq<Invariant>, inv: Invariant, ghost done: set<set<RecordId>>)
    requires uf.Valid() && uf.parent.Length == |rs| && Distinct(rs) && inv in invs && Declared(invs, rs)
    requires Sound(invs, rs, uf.parent[..]) && forall g :: g in done ==> Together(rs, uf.parent[..], g)
    modifies uf.parent
    ensures uf.Valid() && Sound(invs, rs, uf.parent[..])
    ensures forall g :: g in done ==> Together(rs, uf.parent[..], g)
    ensures Together(rs, uf.parent[..], InvariantRecords(inv))
  {
    var v := Ascending(InvariantRecords(inv));
    var k := 0;
    while k + 1 < |v|
      invariant k <= |v| && (v == [] || k < |v|)
      invariant uf.Valid() && Sound(invs, rs, uf.parent[..])
      invariant forall g :: g in done ==> Together(rs, uf.parent[..], g)
      invariant v != [] ==> Together(rs, uf.parent[..], Elements(v[..k + 1]))
    {
      ghost var p := uf.parent[..];
      assert v[k] in v && v[k + 1] in v;
      var a := IndexOf(rs, v[k]);
      var b := IndexOf(rs, v[k + 1]);
      uf.Union(a, b);
      MergeSound(invs, rs, p, uf.parent[..], a, b);
      forall g | g in done
        ensures Together(rs, uf.parent[..], g)
      {
        MergeTogether(rs, p, uf.parent[..], a, b, g);
      }
      JoinNext(rs, p, uf.parent[..], a, b, v, k);
      k := k + 1;
    }
    JoinedAll(rs, uf.parent[..], v, k, InvariantRecords(inv));
  }

  lemma JoinNext(rs: seq<RecordId>, p: seq<nat>, q: seq<nat>, a: nat, b: nat, v: seq<RecordId>, k: nat)
    requires Descending(p) && Descending(q) && |p| == |rs| && a < |p| && b < |p| && Merged(p, q, a, b)
    requires Distinct(rs) && k + 1 < |v| && rs[a] == v[k] && rs[b] == v[k + 1]
    requires Together(rs, p, Elements(v[..k + 1]))
    ensures Together(rs, q, Elements(v[..k + 2]))
  {
    var g := Elements(v[..k + 2]);
    assert v[..k + 2] == v[..k + 1] + [v[k + 1]];
    assert v[k] in v[..k + 1];
    forall i | 0 <= i < |rs| && rs[i] in g
      ensures Root(q, i) == Root(q, a)
    {
      if rs[i] == v[k + 1] {
        assert i == b;
      } else {
        assert rs[i] in v[..k + 1] && Root(p, i) == Root(p, a);
      }
    }
  }

  lemma JoinedAll(rs: seq<RecordId>, p: seq<nat>, v: seq<RecordId>, k: nat, group: set<RecordId>)
    requires Descending(p) && |p| == |rs| && forall r :: r in v <==> r in group
    requires v == [] || (k < |v| && k + 1 >= |v| && Together(rs, p, Elements(v[..k + 1])))
    ensures Together(rs, p, group)
  {
    if v != [] {
      assert v[..k + 1] == v;
      assert Elements(v) == group;
    }
  }

  /** After all invariants, two records are in one class exactly when a chain of invariants connects them. */
  method BuildClasses(rs: seq<RecordId>, invs: seq<Invariant>) returns (uf: Uf)
    requires Distinct(rs) && Declared(invs, rs)
    ensures fresh(uf) && fresh(uf.parent) && uf.Valid() && uf.parent.Length == |rs|
    ensures forall i, j :: 0 <= i < |rs| && 0 <= j < |rs| ==>
                             (Root(uf.parent[..], i) == Root(uf.parent[..], j) <==> Connected(invs, rs[i], rs[j]))
  {
    uf := new Uf(|rs|);
    StartSound(invs, rs, uf.parent[..]);
    ghost var done: set<set<RecordId>> := {};
    for k := 0 to |invs|
      invariant fresh(uf) && fresh(uf.parent) && uf.Valid() && uf.parent.Length == |rs|
      invariant Sound(invs, rs, uf.parent[..])
      invariant forall g :: g in done ==> Together(rs, uf.parent[..], g)
      invariant forall inv :: inv in invs[..k] ==> InvariantRecords(inv) in done
    {
      JoinAll(uf, rs, invs, invs[k], done);
      done := done + {InvariantRecords(invs[k])};
      assert invs[..k + 1] == invs[..k] + [invs[k]];
    }
    assert invs[..|invs|] == invs;
    ClassesComplete(rs, invs, uf.parent[..]);
  }

  lemma {:induction false} PathInClass(rs: seq<RecordId>, invs: seq<Invariant>, p: seq<nat>, path: seq<RecordId>,
                                       i: nat, j: nat)
    requires Distinct(rs) && Declared(invs, rs) && Descending(p) && |p| == |rs| && i < |rs| && j < |rs|
    requires forall inv :: inv in invs ==> Together(rs, p, InvariantRecords(inv))
    requires Joins(invs, path, rs[i], rs[j])
    ensures Root(p, i) == Root(p, j)
    decreases |path|
  {
    if |path| == 1 {
      assert i == j;
    } else {
      assert Linked(invs, path[0], path[1]);
      var inv :| inv in invs && path[0] in InvariantRecords(inv) && path[1] in InvariantRecords(inv);
      assert path[1] in rs;
      var k :| 0 <= k < |rs| && rs[k] == path[1];
      assert Together(rs, p, InvariantRecords(inv));
      var rest := path[1..];
      forall x | 0 <= x < |rest| - 1
        ensures Linked(invs, rest[x], rest[x + 1])
      {
        assert Linked(invs, path[x + 1], path[x + 2]);
      }
      PathInClass(rs, invs, p, rest, k, j);
    }
  }

  lemma ClassesComplete(rs: seq<RecordId>, invs: seq<Invariant>, p: seq<nat>)
    requires Distinct(rs) && Declared(invs, rs) && Descending(p) && |p| == |rs| && Sound(invs, rs, p)
    requires forall inv :: inv in invs ==> Together(rs, p, InvariantRecords(inv))
    ensures forall i, j :: 0 <= i < |rs| && 0 <= j < |rs| ==>
            (Root(p, i) == Root(p, j) <==> Connected(invs, rs[i], rs[j]))
  {
    forall i, j | 0 <= i < |rs| && 0 <= j < |rs| && Connected(invs, rs[i], rs[j])
      ensures Root(p, i) == Root(p, j)
    {
      var path :| Joins(invs, path, rs[i], rs[j]);
      PathInClass(rs, invs, p, path, i, j);
    }
  }

  /** A partition of the records into templates. */
  ghost predicate Partitions(rs: seq<RecordId>, templates: seq<seq<RecordId>>, templateOf: map<RecordId, nat>) {
    && (forall r :: r in templateOf <==> r in rs)
    && (forall r :: r in rs ==> templateOf[r] < |templates| && r in templates[templateOf[r]])
    && (forall t, r :: 0 <= t < |templates| && r in templates[t] ==> r in rs && templateOf[r] == t)
    && (forall t :: 0 <= t < |templates| ==> templates[t] != [])
  }

  ghost predicate InGroup(rs: seq<RecordId>, p: seq<nat>, n: nat, r: RecordId, g: nat)
    requires Descending(p) && |p| == |rs| && n <= |rs|
  {
    exists i :: 0 <= i < n && rs[i] == r && Root(p, i) == g
  }

  /** The records of each class, listed under its root. */
  method Group(rs: seq<RecordId>, uf: Uf) returns (groups: seq<seq<RecordId>>)
    requires uf.Valid() && uf.parent.Length == |rs|
    modifies uf.parent
    ensures uf.Valid() && SameRoots(old(uf.parent[..]), uf.parent[..])
    ensures Grouped(rs, old(uf.parent[..]), groups)
  {
    ghost var p := uf.parent[..];
    groups := seq(|rs|, _ => []);
    for i := 0 to |rs|
      invariant uf.Valid() && SameRoots(p, uf.parent[..])
      invariant |groups| == |rs|
      invariant forall g, r :: 0 <= g < |rs| ==> (r in groups[g] <==> InGroup(rs, p, i, r, g))
    {
      var root := uf.Find(i);
      ghost var before := groups;
      groups := groups[root := groups[root] + [rs[i]]];
      forall g, r | 0 <= g < |rs|
        ensures r in groups[g] <==> InGroup(rs, p, i + 1, r, g)
      {
        GroupStep(rs, p, i, r, g);
        assert r in before[g] <==> InGroup(rs, p, i, r, g);
      }
    }
  }

  lemma GroupStep(rs: seq<RecordId>, p: seq<nat>, i: nat, r: RecordId, g: nat)
    requires Descending(p) && |p| == |rs| && i < |rs|
    ensures InGroup(rs, p, i + 1, r, g) <==> InGroup(rs, p, i, r, g) || (rs[i] == r && Root(p, i) == g)
  {
    if rs[i] == r && Root(p, i) == g {
      assert InGroup(rs, p, i + 1, r, g);
    }
    if InGroup(rs, p, i, r, g) {
      var j :| 0 <= j < i && rs[j] == r && Root(p, j) == g;
      assert InGroup(rs, p, i + 1, r, g);
    }
  }

  method Mark(templateOf: map<RecordId, nat>, members: seq<RecordId>, t: nat) returns (marked: map<RecordId, nat>)
    ensures forall r :: r in marked <==> r in templateOf || r in members
    ensures forall r :: r in members ==> marked[r] == t
    ensures forall r :: r in templateOf && r !in members ==> marked[r] == templateOf[r]
  {
    marked := templateOf;
    for i := 0 to |members|
      invariant forall r :: r in marked <==> r in templateOf || r in members[..i]
      invariant forall r :: r in members[..i] ==> marked[r] == t
      invariant forall r :: r in templateOf && r !in members[..i] ==> marked[r] == templateOf[r]
    {
      marked := marked[members[i] := t];
      assert members[..i + 1] == members[..i] + [members[i]];
    }
    assert members[..|members|] == members;
  }

  /** The nonempty groups are numbered as templates. */
  ghost predicate Numbered(groups: seq<seq<RecordId>>, templates: seq<seq<RecordId>>, templateOf: map<RecordId, nat>) {
    && (forall g, r :: 0 <= g < |groups| && r in groups[g] ==>
          r in templateOf && templateOf[r] < |templates| && templates[templateOf[r]] == groups[g])
    && (forall r :: r in templateOf ==> exists g :: 0 <= g < |groups| && r in groups[g])
    && (forall t, r :: 0 <= t < |templates| && r in templates[t] ==> r in templateOf && templateOf[r] == t)
    && (forall t :: 0 <= t < |templates| ==> templates[t] != [])
  }

  /** Numbers the nonempty groups in order of their roots. */
  method NumberGroups(groups: seq<seq<RecordId>>)
    returns (templates: seq<seq<RecordId>>, templateOf: map<RecordId, nat>)
    requires forall g, h, r :: 0 <= g < h < |groups| && r in groups[g] ==> r !in groups[h]
    ensures Numbered(groups, templates, templateOf)
  {
    templates, templateOf := [], map[];
    for k := 0 to |groups|
      invariant Numbered(groups[..k], templates, templateOf)
    {
      assert groups[..k + 1] == groups[..k] + [groups[k]];
      if groups[k] != [] {
        var marked := Mark(templateOf, groups[k], |templates|);
        NumberNext(groups, k, templates, templateOf, marked);
        templates, templateOf := templates + [groups[k]], marked;
      }
    }
    assert groups[..|groups|] == groups;
  }

  lemma NumberNext(groups: seq<seq<RecordId>>, k: nat, templates: seq<seq<RecordId>>, templateOf: map<RecordId, nat>,
                   marked: map<RecordId, nat>)
    requires k < |groups| && groups[k] != [] && Numbered(groups[..k], templates, templateOf)
    requires forall g, h, r :: 0 <= g < h < |groups| && r in groups[g] ==> r !in groups[h]
    requires forall r :: r in marked <==> r in templateOf || r in groups[k]
    requires forall r :: r in groups[k] ==> marked[r] == |templates|
    requires forall r :: r in templateOf && r !in groups[k] ==> marked[r] == templateOf[r]
    ensures Numbered(groups[..k + 1], templates + [groups[k]], marked)
  {
    var gs := groups[..k + 1];
    forall r | r in marked
      ensures exists g :: 0 <= g < |gs| && r in gs[g]
    {
      if r in groups[k] {
        assert r in gs[k];
      } else {
        var g :| 0 <= g < k && r in groups[..k][g];
        assert r in gs[g];
      }
    }
    forall g, r | 0 <= g < |gs| && r in gs[g]
      ensures r in marked && marked[r] < |templates| + 1 && (templates + [groups[k]])[marked[r]] == gs[g]
    {
      if g < k {
        assert r in groups[..k][g];
      }
    }
    forall t, r | 0 <= t < |templates| && r in templates[t]
      ensures r in marked && marked[r] == t
    {
      assert r in templateOf;
      var before := groups[..k];
      var g :| 0 <= g < |before| && r in before[g];
      assert r in groups[g] && r !in groups[k];
    }
  }

  /** Templates partition the records, and two records share one exactly when invariants connect them. */
  method BuildTemplates(rs: seq<RecordId>, invs: seq<Invariant>)
    returns (templates: seq<seq<RecordId>>, templateOf: map<RecordId, nat>)
    requires Distinct(rs) && Declared(invs, rs)
    ensures Partitions(rs, templates, templateOf)
    ensures forall a, b :: a in rs && b in rs ==> (templateOf[a] == templateOf[b] <==> Connected(invs, a, b))
  {
    var uf := BuildClasses(rs, invs);
    ghost var p := uf.parent[..];
    var groups := Group(rs, uf);
    GroupsDisjoint(rs, p, groups);
    templates, templateOf := NumberGroups(groups);
    NumberedPartition(rs, p, groups, templates, templateOf);
    forall a, b | a in rs && b in rs
      ensures templateOf[a] == templateOf[b] <==> Connected(invs, a, b)
    {
      SameTemplate(rs, p, groups, templates, templateOf, invs, a, b);
    }
  }

  lemma InOneGroup(rs: seq<RecordId>, p: seq<nat>, r: RecordId, g: nat, h: nat)
    requires Distinct(rs) && Descending(p) && |p| == |rs|
    ensures InGroup(rs, p, |rs|, r, g) && InGroup(rs, p, |rs|, r, h) ==> g == h
  {
  }

  ghost predicate Grouped(rs: seq<RecordId>, p: seq<nat>, groups: seq<seq<RecordId>>)
    requires Descending(p) && |p| == |rs|
  {
    |groups| == |rs| && forall g, r :: 0 <= g < |rs| ==> (r in groups[g] <==> InGroup(rs, p, |rs|, r, g))
  }

  lemma GroupsDisjoint(rs: seq<RecordId>, p: seq<nat>, groups: seq<seq<RecordId>>)
    requires Distinct(rs) && Descending(p) && |p| == |rs| && Grouped(rs, p, groups)
    ensures forall g, h, r :: 0 <= g < h < |groups| && r in groups[g] ==> r !in groups[h]
  {
    forall g, h, r | 0 <= g < h < |groups| && r in groups[g]
      ensures r !in groups[h]
    {
      InOneGroup(rs, p, r, g, h);
    }
  }

  lemma RootGroup(rs: seq<RecordId>, p: seq<nat>, groups: seq<seq<RecordId>>, i: nat)
    requires Descending(p) && |p| == |rs| && Grouped(rs, p, groups) && i < |rs|
    ensures rs[i] in groups[Root(p, i)]
  {
    assert InGroup(rs, p, |rs|, rs[i], Root(p, i));
  }

  lemma NumberedPartition(rs: seq<RecordId>, p: seq<nat>, groups: seq<seq<RecordId>>,
                          templates: seq<seq<RecordId>>, templateOf: map<RecordId, nat>)
    requires Distinct(rs) && Descending(p) && |p| == |rs| && Grouped(rs, p, groups)
    requires Numbered(groups, templates, templateOf)
    ensures Partitions(rs, templates, templateOf)
  {
    forall r | r in templateOf
      ensures r in rs
    {
      var g :| 0 <= g < |groups| && r in groups[g];
      assert InGroup(rs, p, |rs|, r, g);
    }
    forall r | r in rs
      ensures r in templateOf && templateOf[r] < |templates| && r in templates[templateOf[r]]
    {
      var i :| 0 <= i < |rs| && rs[i] == r;
      RootGroup(rs, p, groups, i);
    }
  }

  lemma SameTemplate(rs: seq<RecordId>, p: seq<nat>, groups: seq<seq<RecordId>>, templates: seq<seq<RecordId>>,
                     templateOf: map<RecordId, nat>, invs: seq<Invariant>, a: RecordId, b: RecordId)
    requires Distinct(rs) && Descending(p) && |p| == |rs| && Grouped(rs, p, groups)
    requires Numbered(groups, templates, templateOf) && Partitions(rs, templates, templateOf)
    requires forall i, j :: 0 <= i < |rs| && 0 <= j < |rs| ==>
             (Root(p, i) == Root(p, j) <==> Connected(invs, rs[i], rs[j]))
    requires a in rs && b in rs
    ensures templateOf[a] == templateOf[b] <==> Connected(invs, a, b)
  {
    hide Connected;
    var i :| 0 <= i < |rs| && rs[i] == a;
    var j :| 0 <= j < |rs| && rs[j] == b;
    RootGroup(rs, p, groups, i);
    RootGroup(rs, p, groups, j);
    assert templates[templateOf[a]] == groups[Root(p, i)] && templates[templateOf[b]] == groups[Root(p, j)];
    if templateOf[a] == templateOf[b] {
      assert a in groups[Root(p, j)];
      InOneGroup(rs, p, a, Root(p, i), Root(p, j));
    }
  }

  // ---------------------------------------------------------------------------
  // The closure of one operation
  // ---------------------------------------------------------------------------

  predicate Touches(inv: Invariant, recs: set<RecordId>) {
    InvariantRecords(inv) * recs != {}
  }

  /** The invariant is a prerequisite of this operation. */
  predicate ByRequires(inv: Invariant, operation: nat) {
    inv.law.RequiresFact? && inv.law.operation == operation
  }

  predicate Affected(inv: Invariant, operation: nat, recs: set<RecordId>) {
    Touches(inv, recs) || ByRequires(inv, operation)
  }

  /** Nothing outside `recs` is reachable from it through an invariant. */
  ghost predicate Closed(invs: seq<Invariant>, operation: nat, recs: set<RecordId>) {
    forall inv :: inv in invs && Affected(inv, operation, recs) ==> InvariantRecords(inv) <= recs
  }

  ghost predicate InvariantsOf(invs: seq<Invariant>, operation: nat, recs: set<RecordId>, ids: set<InvariantId>) {
    forall id :: id in ids <==> exists inv :: inv in invs && inv.id == id && Affected(inv, operation, recs)
  }

  /** The least closed set above the footprint, with the invariants it affects. */
  ghost predicate IsClosure(op: Operation, invs: seq<Invariant>, recs: set<RecordId>, ids: set<InvariantId>) {
    && FootprintRecords(op) <= recs
    && Closed(invs, op.identity.operation, recs)
    && (forall other :: FootprintRecords(op) <= other && Closed(invs, op.identity.operation, other) ==> recs <= other)
    && InvariantsOf(invs, op.identity.operation, recs, ids)
  }

  ghost function AllRecords(invs: seq<Invariant>, start: set<RecordId>): set<RecordId> {
    if invs == [] then start else InvariantRecords(invs[0]) + AllRecords(invs[1..], start)
  }

  lemma {:induction false} AllRecordsHolds(invs: seq<Invariant>, start: set<RecordId>, inv: Invariant)
    ensures start <= AllRecords(invs, start)
    ensures inv in invs ==> InvariantRecords(inv) <= AllRecords(invs, start)
  {
    if invs != [] {
      AllRecordsHolds(invs[1..], start, inv);
    }
  }

  lemma SameSize<T>(a: set<T>, b: set<T>)
    requires a <= b && |a| == |b|
    ensures a == b
  {
    assert b == a + (b - a);
    assert |b| == |a| + |b - a|;
  }

  ghost predicate BelowAll(op: Operation, invs: seq<Invariant>, recs: set<RecordId>) {
    forall other :: FootprintRecords(op) <= other && Closed(invs, op.identity.operation, other) ==> recs <= other
  }

  ghost predicate Justified(invs: seq<Invariant>, operation: nat, recs: set<RecordId>, ids: set<InvariantId>) {
    forall id :: id in ids ==> exists inv :: inv in invs && inv.id == id && Affected(inv, operation, recs)
  }

  lemma StillJustified(invs: seq<Invariant>, operation: nat, recs: set<RecordId>, recs': set<RecordId>,
                       ids: set<InvariantId>, inv: Invariant)
    requires Justified(invs, operation, recs, ids) && recs <= recs' && inv in invs && Affected(inv, operation, recs)
    ensures Justified(invs, operation, recs', ids + {inv.id})
  {
    forall id | id in ids + {inv.id}
      ensures exists i :: i in invs && i.id == id && Affected(i, operation, recs')
    {
      if id in ids {
        var i :| i in invs && i.id == id && Affected(i, operation, recs);
        assert Affected(i, operation, recs');
      } else {
        assert Affected(inv, operation, recs');
      }
    }
  }

  lemma StillBelow(op: Operation, invs: seq<Invariant>, recs: set<RecordId>, inv: Invariant)
    requires BelowAll(op, invs, recs) && inv in invs && Affected(inv, op.identity.operation, recs)
    ensures BelowAll(op, invs, recs + InvariantRecords(inv))
  {
    forall other | FootprintRecords(op) <= other && Closed(invs, op.identity.operation, other)
      ensures recs + InvariantRecords(inv) <= other
    {
      assert recs <= other;
      assert Affected(inv, op.identity.operation, other);
    }
  }

  /** One pass over the invariants. */
  method Pass(op: Operation, invs: seq<Invariant>, recs0: set<RecordId>, ids0: set<InvariantId>)
    returns (recs: set<RecordId>, ids: set<InvariantId>)
    requires BelowAll(op, invs, recs0) && Justified(invs, op.identity.operation, recs0, ids0)
    ensures recs0 <= recs && ids0 <= ids
    ensures recs <= AllRecords(invs, recs0)
    ensures BelowAll(op, invs, recs) && Justified(invs, op.identity.operation, recs, ids)
    ensures recs == recs0 && ids == ids0 ==>
              forall inv :: inv in invs && Affected(inv, op.identity.operation, recs) ==>
                              InvariantRecords(inv) <= recs && inv.id in ids
  {
    recs, ids := recs0, ids0;
    AllRecordsSelf(invs, recs0);
    for k := 0 to |invs|
      invariant recs0 <= recs <= AllRecords(invs, recs0) && ids0 <= ids
      invariant BelowAll(op, invs, recs) && Justified(invs, op.identity.operation, recs, ids)
      invariant recs == recs0 ==>
                  forall inv :: inv in invs[..k] && Affected(inv, op.identity.operation, recs) ==>
                                  InvariantRecords(inv) <= recs && inv.id in ids
    {
      var inv := invs[k];
      assert invs[..k + 1] == invs[..k] + [inv];
      if Affected(inv, op.identity.operation, recs) {
        StillJustified(invs, op.identity.operation, recs, recs + InvariantRecords(inv), ids, inv);
        StillBelow(op, invs, recs, inv);
        AllRecordsHolds(invs, recs0, inv);
        ids := ids + {inv.id};
        recs := recs + InvariantRecords(inv);
      }
    }
    assert invs[..|invs|] == invs;
  }

  lemma AllRecordsSelf(invs: seq<Invariant>, start: set<RecordId>)
    ensures start <= AllRecords(invs, start)
  {
    if invs != [] {
      AllRecordsSelf(invs[1..], start);
    }
  }

  lemma {:induction false} AllRecordsGrow(invs: seq<Invariant>, a: set<RecordId>, b: set<RecordId>)
    requires a <= b <= AllRecords(invs, a)
    ensures AllRecords(invs, b) == AllRecords(invs, a)
  {
    AllRecordsUnion(invs, a);
    AllRecordsUnion(invs, b);
    AllRecordsSelf(invs, b);
  }

  lemma {:induction false} AllRecordsUnion(invs: seq<Invariant>, start: set<RecordId>)
    ensures AllRecords(invs, start) == AllRecords(invs, {}) + start
  {
    if invs != [] {
      AllRecordsUnion(invs[1..], start);
    }
  }

  ghost function AllIds(invs: seq<Invariant>): set<InvariantId> {
    set inv | inv in invs :: inv.id
  }

  lemma JustifiedIds(invs: seq<Invariant>, operation: nat, recs: set<RecordId>, ids: set<InvariantId>)
    requires Justified(invs, operation, recs, ids)
    ensures ids <= AllIds(invs)
  {
  }

  /** Repeats passes until neither set grows: the least fixed point over the footprint. */
  method OperationClosure(op: Operation, invs: seq<Invariant>) returns (recs: set<RecordId>, ids: set<InvariantId>)
    ensures IsClosure(op, invs, recs, ids)
  {
    recs, ids := FootprintRecords(op), {};
    ghost var bound := AllRecords(invs, recs);
    AllRecordsSelf(invs, recs);
    while true
      invariant FootprintRecords(op) <= recs <= bound && bound == AllRecords(invs, recs)
      invariant BelowAll(op, invs, recs) && Justified(invs, op.identity.operation, recs, ids)
      decreases |bound| - |recs|, |AllIds(invs)| - |ids|
    {
      var recs1, ids1 := Pass(op, invs, recs, ids);
      AllRecordsGrow(invs, recs, recs1);
      SubsetCount(recs, recs1);
      SubsetCount(recs1, bound);
      SubsetCount(ids, ids1);
      JustifiedIds(invs, op.identity.operation, recs1, ids1);
      SubsetCount(ids1, AllIds(invs));
      if |recs1| == |recs| && |ids1| == |ids| {
        SameSize(recs, recs1);
        SameSize(ids, ids1);
        break;
      }
      recs, ids := recs1, ids1;
    }
  }

  /** Records reachable from the operation: its footprint and the facts it requires. */
  ghost predicate Seed(op: Operation, invs: seq<Invariant>, r: RecordId) {
    r in FootprintRecords(op)
    || exists inv :: inv in invs && ByRequires(inv, op.identity.operation) && r in InvariantRecords(inv)
  }

  ghost predicate Reachable(op: Operation, invs: seq<Invariant>, r: RecordId) {
    exists s :: Seed(op, invs, s) && Connected(invs, s, r)
  }

  lemma {:induction false} ClosedUnderPaths(invs: seq<Invariant>, operation: nat, recs: set<RecordId>,
                                            path: seq<RecordId>, a: RecordId, b: RecordId)
    requires Closed(invs, operation, recs) && Joins(invs, path, a, b) && a in recs
    ensures b in recs
    decreases |path|
  {
    if |path| > 1 {
      assert Linked(invs, path[0], path[1]);
      var inv :| inv in invs && path[0] in InvariantRecords(inv) && path[1] in InvariantRecords(inv);
      assert Touches(inv, recs) by { assert path[0] in InvariantRecords(inv) * recs; }
      var rest := path[1..];
      forall x | 0 <= x < |rest| - 1
        ensures Linked(invs, rest[x], rest[x + 1])
      {
        assert Linked(invs, path[x + 1], path[x + 2]);
      }
      ClosedUnderPaths(invs, operation, recs, rest, path[1], b);
    }
  }

  /** A closed set is closed under connectivity. */
  lemma ClosedConnected(invs: seq<Invariant>, operation: nat, recs: set<RecordId>, a: RecordId, b: RecordId)
    requires Closed(invs, operation, recs) && Connected(invs, a, b) && a in recs
    ensures b in recs
  {
    var path :| Joins(invs, path, a, b);
    ClosedUnderPaths(invs, operation, recs, path, a, b);
  }

  /** The fixed point is exactly what the seeds reach along chains of invariants. */
  lemma ClosureIsReachable(op: Operation, invs: seq<Invariant>, recs: set<RecordId>, ids: set<InvariantId>,
                           all: set<RecordId>)
    requires IsClosure(op, invs, recs, ids)
    requires FootprintRecords(op) <= all && forall inv :: inv in invs ==> InvariantRecords(inv) <= all
    ensures forall r :: r in recs <==> Reachable(op, invs, r)
  {
    var operation := op.identity.operation;
    forall r | Reachable(op, invs, r)
      ensures r in recs
    {
      var s :| Seed(op, invs, s) && Connected(invs, s, r);
      SeedsIn(op, invs, recs, ids, s);
      ClosedConnected(invs, operation, recs, s, r);
    }
    var reach := set r | r in all && Reachable(op, invs, r);
    forall r | r in FootprintRecords(op)
      ensures r in reach
    {
      ConnectedSelf(invs, r);
      assert Seed(op, invs, r);
    }
    forall inv, r | inv in invs && Affected(inv, operation, reach) && r in InvariantRecords(inv)
      ensures r in reach
    {
      if ByRequires(inv, operation) {
        ConnectedSelf(invs, r);
        assert Seed(op, invs, r);
      } else {
        var x :| x in InvariantRecords(inv) * reach;
        var s :| Seed(op, invs, s) && Connected(invs, s, x);
        assert Linked(invs, x, r);
        ConnectedLink(invs, x, r);
        ConnectedTrans(invs, s, x, r);
      }
    }
    assert Closed(invs, operation, reach);
  }

  lemma SeedsIn(op: Operation, invs: seq<Invariant>, recs: set<RecordId>, ids: set<InvariantId>, s: RecordId)
    requires IsClosure(op, invs, recs, ids) && Seed(op, invs, s)
    ensures s in recs
  {
    if s !in FootprintRecords(op) {
      var inv :| inv in invs && ByRequires(inv, op.identity.operation) && s in InvariantRecords(inv);
      assert Affected(inv, op.identity.operation, recs);
    }
  }

  method OperationTemplates(recs: set<RecordId>, templateOf: map<RecordId, nat>) returns (ts: seq<nat>)
    ensures forall t :: t in ts <==> exists r :: r in recs && r in templateOf && templateOf[r] == t
    ensures forall i, j :: 0 <= i < j < |ts| ==> ts[i] < ts[j]
  {
    ts := Ascending(set r | r in recs && r in templateOf :: templateOf[r]);
  }

  /** The two algorithms agree: the closure of an operation is the union of its templates. */
  lemma ClosureIsTemplates(op: Operation, rs: seq<RecordId>, invs: seq<Invariant>, recs: set<RecordId>,
                           ids: set<InvariantId>,
                           templates: seq<seq<RecordId>>, templateOf: map<RecordId, nat>, ts: seq<nat>)
    requires IsClosure(op, invs, recs, ids) && recs <= Elements(rs)
    requires Partitions(rs, templates, templateOf)
    requires forall a, b :: a in rs && b in rs ==> (templateOf[a] == templateOf[b] <==> Connected(invs, a, b))
    requires forall t :: t in ts <==> exists r :: r in recs && r in templateOf && templateOf[r] == t
    ensures forall r :: r in recs <==> exists t :: t in ts && 0 <= t < |templates| && r in templates[t]
  {
    forall t, r | t in ts && 0 <= t < |templates| && r in templates[t]
      ensures r in recs
    {
      var s :| s in recs && s in templateOf && templateOf[s] == t;
      assert Connected(invs, s, r);
      ClosedConnected(invs, op.identity.operation, recs, s, r);
    }
    forall r | r in recs
      ensures exists t :: t in ts && 0 <= t < |templates| && r in templates[t]
    {
      assert templateOf[r] in ts && r in templates[templateOf[r]];
    }
  }

  /** Closures stay within the declared records. */
  lemma ClosureDeclared(op: Operation, rs: seq<RecordId>, invs: seq<Invariant>, recs: set<RecordId>,
                        ids: set<InvariantId>)
    requires IsClosure(op, invs, recs, ids) && Declared(invs, rs) && FootprintRecords(op) <= Elements(rs)
    ensures recs <= Elements(rs)
  {
    assert Closed(invs, op.identity.operation, Elements(rs));
  }

  /** Both algorithms on one operation of a module whose ids all resolve. */
  method CloseOperation(op: Operation, rs: seq<RecordId>, invs: seq<Invariant>)
    returns (recs: set<RecordId>, ids: set<InvariantId>, templates: seq<seq<RecordId>>, ts: seq<nat>)
    requires Distinct(rs) && Declared(invs, rs) && FootprintRecords(op) <= Elements(rs)
    ensures IsClosure(op, invs, recs, ids)
    ensures forall r :: r in recs <==> exists t :: t in ts && 0 <= t < |templates| && r in templates[t]
  {
    var templateOf;
    templates, templateOf := BuildTemplates(rs, invs);
    recs, ids := OperationClosure(op, invs);
    ts := OperationTemplates(recs, templateOf);
    ClosureDeclared(op, rs, invs, recs, ids);
    ClosureIsTemplates(op, rs, invs, recs, ids, templates, templateOf, ts);
  }
}
