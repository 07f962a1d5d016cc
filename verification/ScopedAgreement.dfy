/**
  Exactly when scoped and full evaluation agree, for every outcome: rejections and errors before the
  invariants always agree, and at the invariants the scope has to speak first.
 */
module ScopedAgreement {
  import opened Basics
  import opened LangTypes
  import opened LangEval
  import opened SemanticClosure
  import opened ScopedEvaluation

  // ---------------------------------------------------------------------------
  // Violations carry the id of their invariant
  // ---------------------------------------------------------------------------

  ghost predicate NamedBy(c: Checked, id: InvariantId) {
    forall i :: 0 <= i < |c.found| ==> c.found[i].id == id
  }

  lemma PrependNamed(vs: seq<Violation>, c: Checked, id: InvariantId)
    requires NamedBy(c, id) && forall i :: 0 <= i < |vs| ==> vs[i].id == id
    ensures NamedBy(Prepend(vs, c), id)
  {
  }

  lemma {:induction false} ForAllNamed(c: Ctx, id: InvariantId, p: Predicate, t: Table, b: Bindings)
    requires p.ForAll?
    ensures NamedBy(CheckForAll(c, id, p, t, b), id)
    decreases |t|
  {
    hide Eval, Passes, RowValue, Prepend;
    if t != [] && RowValue(c.m, p.record, t[0].1).Ok? {
      var f := Passes(c, p.filter, b[p.x := RowValue(c.m, p.record, t[0].1).value]);
      if f.Ok? {
        ForAllNamed(c, id, p, t[1..], f.value.b);
        var h := Passes(c, Some(p.body), f.value.b);
        if h.Ok? {
          ForAllNamed(c, id, p, t[1..], h.value.b);
          PrependNamed(if h.value.value then [] else [Violation(id, Some(t[0].0))],
                       CheckForAll(c, id, p, t[1..], h.value.b), id);
        }
      }
    }
  }

  lemma {:induction false} UniqueNamed(c: Ctx, id: InvariantId, p: Predicate, t: Table, b: Bindings, seen: set<Value>)
    requires p.Unique?
    ensures NamedBy(CheckUnique(c, id, p, t, b, seen), id)
    decreases |t|
  {
    hide Eval, Passes, RowValue, Prepend;
    if t != [] && RowValue(c.m, p.record, t[0].1).Ok? {
      var f := Passes(c, p.filter, b[p.x := RowValue(c.m, p.record, t[0].1).value]);
      if f.Ok? {
        UniqueNamed(c, id, p, t[1..], f.value.b, seen);
        var u := Eval(c, p.key, f.value.b);
        if u.Ok? {
          UniqueNamed(c, id, p, t[1..], u.value.b, seen + {u.value.value});
          PrependNamed(if u.value.value in seen then [Violation(id, Some(u.value.value))] else [],
                       CheckUnique(c, id, p, t[1..], u.value.b, seen + {u.value.value}), id);
        }
      }
    }
  }

  lemma {:induction false} ReferenceNamed(c: Ctx, id: InvariantId, p: Predicate, t: Table, b: Bindings)
    requires p.ExistsReference?
    ensures NamedBy(CheckReference(c, id, p, t, b), id)
    decreases |t|
  {
    hide Eval, RowValue, Prepend, Get;
    if t != [] && RowValue(c.m, p.child, t[0].1).Ok? {
      var k := Eval(c, p.parentKey, b[p.x := RowValue(c.m, p.child, t[0].1).value]);
      if k.Ok? {
        ReferenceNamed(c, id, p, t[1..], k.value.b);
        PrependNamed(if Get(c.cand, p.parent, k.value.value).None? then [Violation(id, Some(t[0].0))] else [],
                     CheckReference(c, id, p, t[1..], k.value.b), id);
      }
    }
  }

  lemma {:induction false} GroupsNamed(c: Ctx, id: InvariantId, p: Predicate, gs: Groups, b: Bindings)
    requires p.Aggregate?
    ensures NamedBy(CheckGroups(c, id, p, gs, b), id)
    decreases |gs|
  {
    hide Eval, LangEval.Holds, Prepend;
    if gs != [] {
      var bound := Eval(c.(group := gs[0].0), p.bound, b);
      if bound.Ok? {
        var h := LangEval.Holds(p.cmp, gs[0].1, bound.value.value);
        GroupsNamed(c, id, p, gs[1..], bound.value.b);
        if h.Ok? {
          PrependNamed(if h.value then [] else [Violation(id, gs[0].0)],
                       CheckGroups(c, id, p, gs[1..], bound.value.b), id);
        }
      }
    }
  }

  lemma AggregateNamed(c: Ctx, id: InvariantId, p: Predicate, t: Table)
    requires p.Aggregate?
    ensures NamedBy(CheckAggregate(c, id, p, t), id)
  {
    hide Totals, CheckGroups, ZeroOf;
    var z := if p.op == Count then Ok(U64(0)) else ZeroOf(p.ty);
    if z.Ok? {
      var r := Totals(c, p, t, map[], z.value, []);
      if r.Ok? {
        var gs := if p.groupBy.None? && r.value.value == [] then [(None, z.value)] else r.value.value;
        GroupsNamed(c, id, p, gs, r.value.b);
      }
    }
  }

  lemma {:induction false} TransitionNamed(pre: State, id: InvariantId, p: Predicate, t: Table)
    requires p.Transition?
    ensures NamedBy(CheckTransition(pre, id, p, t), id)
    decreases |t|
  {
    hide Get, Prepend;
    if t != [] {
      TransitionNamed(pre, id, p, t[1..]);
      PrependNamed([Violation(id, Some(t[0].0))], CheckTransition(pre, id, p, t[1..]), id);
      PrependNamed([], CheckTransition(pre, id, p, t[1..]), id);
    }
  }

  lemma VerdictNamed(m: Module, inv: Invariant, pre: State, post: State)
    ensures NamedBy(CheckInvariant(m, inv, pre, post), inv.id)
  {
    hide CheckForAll, CheckUnique, CheckReference, CheckAggregate, CheckTransition;
    var c := Ctx(m, [], None, post, post);
    match inv.law
    case ForAll(r, _, _, _) => ForAllNamed(c, inv.id, inv.law, TableOf(post, r), map[]);
    case Unique(r, _, _, _) => UniqueNamed(c, inv.id, inv.law, TableOf(post, r), map[], {});
    case ExistsReference(r, _, _, _) => ReferenceNamed(c, inv.id, inv.law, TableOf(post, r), map[]);
    case Aggregate(_, r, _, _, _, _, _, _, _) => AggregateNamed(c, inv.id, inv.law, TableOf(post, r));
    case Transition(r, _, _) => TransitionNamed(pre, inv.id, inv.law, TableOf(post, r));
    case RequiresFact(_, _, _) =>
  }

  // ---------------------------------------------------------------------------
  // The invariant stage as a tally of verdicts
  // ---------------------------------------------------------------------------

  datatype Verdict = Verdict(id: InvariantId, check: Checked)

  function Tally(vs: seq<Verdict>, scope: Option<set<InvariantId>>): Result<seq<Violation>> {
    if vs == [] then Ok([])
    else if !Counts(vs[0], scope) then Tally(vs[1..], scope)
    else if vs[0].check.error.Some? then Err(vs[0].check.error.value)
    else match Tally(vs[1..], scope)
      case Err(e) => Err(e)
      case Ok(rest) => Ok(vs[0].check.found + rest)
  }

  predicate Counts(v: Verdict, scope: Option<set<InvariantId>>) {
    scope.None? || v.id in scope.value
  }

  ghost function Verdicts(m: Module, invs: seq<Invariant>, pre: State, post: State): seq<Verdict> {
    seq(|invs|, i requires 0 <= i < |invs| => Verdict(invs[i].id, CheckInvariant(m, invs[i], pre, post)))
  }

  lemma {:induction false} ScopedIsTally(m: Module, invs: seq<Invariant>, pre: State, post: State,
                                         scope: Option<set<InvariantId>>)
    ensures CheckScoped(m, invs, pre, post, scope) == Tally(Verdicts(m, invs, pre, post), scope)
    decreases |invs|
  {
    hide CheckInvariant;
    if invs != [] {
      assert Verdicts(m, invs, pre, post)[1..] == Verdicts(m, invs[1..], pre, post);
      ScopedIsTally(m, invs[1..], pre, post, scope);
    }
  }

  /** The first verdict in scope that is an error. */
  ghost predicate FirstError(vs: seq<Verdict>, scope: Option<set<InvariantId>>, i: nat) {
    && i < |vs| && Counts(vs[i], scope) && vs[i].check.error.Some?
    && forall j :: 0 <= j < i && Counts(vs[j], scope) ==> vs[j].check.error.None?
  }

  /** The first verdict in scope that reports a violation. */
  ghost predicate FirstBroken(vs: seq<Verdict>, scope: Option<set<InvariantId>>, i: nat) {
    && i < |vs| && Counts(vs[i], scope) && vs[i].check.found != []
    && forall j :: 0 <= j < i && Counts(vs[j], scope) ==> vs[j].check.found == []
  }

  ghost predicate NoErrors(vs: seq<Verdict>, scope: Option<set<InvariantId>>) {
    forall i :: 0 <= i < |vs| && Counts(vs[i], scope) ==> vs[i].check.error.None?
  }

  ghost predicate NoneBroken(vs: seq<Verdict>, scope: Option<set<InvariantId>>) {
    forall i :: 0 <= i < |vs| && Counts(vs[i], scope) ==> vs[i].check.found == []
  }

  lemma {:induction false} ErrorTallied(vs: seq<Verdict>, scope: Option<set<InvariantId>>, i: nat)
    requires FirstError(vs, scope, i)
    ensures Tally(vs, scope) == Err(vs[i].check.error.value)
    decreases |vs|
  {
    if i > 0 {
      assert vs[1..][i - 1] == vs[i];
      forall j | 0 <= j < i - 1 && Counts(vs[1..][j], scope)
        ensures vs[1..][j].check.error.None?
      {
        assert vs[1..][j] == vs[j + 1];
      }
      ErrorTallied(vs[1..], scope, i - 1);
    }
  }

  lemma {:induction false} CleanTallied(vs: seq<Verdict>, scope: Option<set<InvariantId>>)
    requires NoErrors(vs, scope)
    ensures Tally(vs, scope).Ok? && (NoneBroken(vs, scope) <==> Tally(vs, scope).value == [])
    decreases |vs|
  {
    if vs != [] {
      var rest := vs[1..];
      assert forall j :: 0 <= j < |rest| ==> rest[j] == vs[j + 1];
      CleanTallied(rest, scope);
      if NoneBroken(rest, scope) && (Counts(vs[0], scope) ==> vs[0].check.found == []) {
        forall i | 0 <= i < |vs| && Counts(vs[i], scope)
          ensures vs[i].check.found == []
        {
          if i > 0 {
            assert rest[i - 1] == vs[i];
          }
        }
      }
    }
  }

  lemma {:induction false} BrokenTallied(vs: seq<Verdict>, scope: Option<set<InvariantId>>, i: nat)
    requires NoErrors(vs, scope) && FirstBroken(vs, scope, i)
    ensures Tally(vs, scope).Ok? && Tally(vs, scope).value != [] && Tally(vs, scope).value[0] == vs[i].check.found[0]
    decreases |vs|
  {
    var rest := vs[1..];
    assert forall j :: 0 <= j < |rest| ==> rest[j] == vs[j + 1];
    CleanTallied(rest, scope);
    if i > 0 {
      BrokenTallied(rest, scope, i - 1);
      if Counts(vs[0], scope) {
        assert vs[0].check.found == [];
      }
    }
  }

  lemma {:induction false} FindError(vs: seq<Verdict>, scope: Option<set<InvariantId>>, n: nat) returns (i: nat)
    requires n < |vs| && Counts(vs[n], scope) && vs[n].check.error.Some?
    ensures FirstError(vs, scope, i)
    decreases n
  {
    if j :| 0 <= j < n && Counts(vs[j], scope) && vs[j].check.error.Some? {
      i := FindError(vs, scope, j);
    } else {
      i := n;
    }
  }

  lemma {:induction false} FindBroken(vs: seq<Verdict>, scope: Option<set<InvariantId>>, n: nat) returns (i: nat)
    requires n < |vs| && Counts(vs[n], scope) && vs[n].check.found != []
    ensures FirstBroken(vs, scope, i)
    decreases n
  {
    if j :| 0 <= j < n && Counts(vs[j], scope) && vs[j].check.found != [] {
      i := FindBroken(vs, scope, j);
    } else {
      i := n;
    }
  }

  // ---------------------------------------------------------------------------
  // The scope speaks first
  // ---------------------------------------------------------------------------

  ghost predicate SameError(vs: seq<Verdict>, ids: set<InvariantId>, i: nat)
    requires i < |vs|
  {
    exists j: nat :: FirstError(vs, Some(ids), j) && vs[j].check.error == vs[i].check.error
  }

  /**
    The first error of all is in scope, or has the code of the first error in scope; and if there is
    no error, the first violation of all is in scope.
   */
  ghost predicate SpeaksFirst(vs: seq<Verdict>, ids: set<InvariantId>) {
    && (forall i: nat :: FirstError(vs, None, i) ==> vs[i].id in ids || SameError(vs, ids, i))
    && (NoErrors(vs, None) ==> forall i: nat :: FirstBroken(vs, None, i) ==> vs[i].id in ids)
  }

  /** What the outcome shows of the invariant stage. */
  datatype Shown = Stopped(code: ErrorCode) | Refused(id: InvariantId) | Passed

  function Show(r: Result<seq<Violation>>): Shown {
    match r
    case Err(e) => Stopped(e)
    case Ok(vs) => if vs == [] then Passed else Refused(vs[0].id)
  }

  ghost predicate AllNamed(vs: seq<Verdict>) {
    forall i :: 0 <= i < |vs| ==> NamedBy(vs[i].check, vs[i].id)
  }

  lemma ErrorsShown(vs: seq<Verdict>, ids: set<InvariantId>, i: nat)
    requires FirstError(vs, None, i)
    ensures Show(Tally(vs, Some(ids))) == Show(Tally(vs, None)) <==> vs[i].id in ids || SameError(vs, ids, i)
  {
    hide Tally;
    ErrorTallied(vs, None, i);
    if vs[i].id in ids {
      ErrorTallied(vs, Some(ids), i);
    } else if !NoErrors(vs, Some(ids)) {
      var n :| 0 <= n < |vs| && Counts(vs[n], Some(ids)) && vs[n].check.error.Some?;
      var j := FindError(vs, Some(ids), n);
      ErrorTallied(vs, Some(ids), j);
      OneFirst(vs, ids, i, j);
    } else {
      CleanTallied(vs, Some(ids));
    }
  }

  lemma OneFirst(vs: seq<Verdict>, ids: set<InvariantId>, i: nat, j: nat)
    requires i < |vs| && FirstError(vs, Some(ids), j)
    ensures SameError(vs, ids, i) <==> vs[j].check.error == vs[i].check.error
  {
    if k: nat :| FirstError(vs, Some(ids), k) && vs[k].check.error == vs[i].check.error {
      assert k == j;
    }
  }

  lemma ViolationsShown(vs: seq<Verdict>, ids: set<InvariantId>, i: nat)
    requires AllNamed(vs) && NoErrors(vs, None) && FirstBroken(vs, None, i)
    ensures Show(Tally(vs, Some(ids))) == Show(Tally(vs, None)) <==> vs[i].id in ids
  {
    hide Tally;
    assert NoErrors(vs, Some(ids));
    BrokenTallied(vs, None, i);
    CleanTallied(vs, Some(ids));
    if vs[i].id in ids {
      BrokenTallied(vs, Some(ids), i);
    } else if !NoneBroken(vs, Some(ids)) {
      var n :| 0 <= n < |vs| && Counts(vs[n], Some(ids)) && vs[n].check.found != [];
      var j := FindBroken(vs, Some(ids), n);
      BrokenTallied(vs, Some(ids), j);
    }
  }

  /** Both tallies show the same exactly when the scope speaks first. */
  lemma ShownAlike(vs: seq<Verdict>, ids: set<InvariantId>)
    requires AllNamed(vs)
    ensures Show(Tally(vs, Some(ids))) == Show(Tally(vs, None)) <==> SpeaksFirst(vs, ids)
  {
    hide Tally, Show, SameError;
    if !NoErrors(vs, None) {
      var n :| 0 <= n < |vs| && Counts(vs[n], None) && vs[n].check.error.Some?;
      var i := FindError(vs, None, n);
      ErrorsShown(vs, ids, i);
      assert forall k: nat :: FirstError(vs, None, k) ==> k == i;
    } else if !NoneBroken(vs, None) {
      var n :| 0 <= n < |vs| && Counts(vs[n], None) && vs[n].check.found != [];
      var i := FindBroken(vs, None, n);
      ViolationsShown(vs, ids, i);
      assert forall k: nat :: FirstBroken(vs, None, k) ==> k == i;
    } else {
      CleanTallied(vs, None);
      CleanTallied(vs, Some(ids));
    }
  }

  // ---------------------------------------------------------------------------
  // Evaluation
  // ---------------------------------------------------------------------------

  /** The verdicts of a run, those outside the scope foreseen on the state before it. */
  ghost function Foreseen(m: Module, invs: seq<Invariant>, pre: State, post: State,
                          ids: set<InvariantId>): seq<Verdict>
  {
    seq(|invs|, i requires 0 <= i < |invs| =>
          Verdict(invs[i].id, CheckInvariant(m, invs[i], pre, if invs[i].id in ids then post else pre)))
  }

  /** The operation gets as far as the invariants. */
  ghost predicate Reaches(m: Module, r: OpRef, op: Operation, args: seq<Value>, pre: State) {
    && RunBody(m, op, args, pre).Go?
    && CheckFacts(m.invariants, r, args, pre, None).Ok? && CheckFacts(m.invariants, r, args, pre, None).value.Go?
  }

  lemma ForeseenRight(m: Module, op: Operation, args: seq<Value>, pre: State, recs: set<RecordId>,
                      ids: set<InvariantId>)
    requires WellFormed(m) && op in m.operations && IsClosure(op, m.invariants, recs, ids) &&
             RunBody(m, op, args, pre).Go?
    ensures var post := RunBody(m, op, args, pre).value.0.cand;
            && Foreseen(m, m.invariants, pre, post, ids) == Verdicts(m, m.invariants, pre, post)
            && AllNamed(Verdicts(m, m.invariants, pre, post))
    ensures forall inv :: inv in m.invariants && inv.id !in ids ==> !ByRequires(inv, op.identity.operation)
  {
    hide RunBody, CheckInvariant, IsClosure, LawRecords, InvariantRecords, Untouched, OperationCovered;
    CoveredMore(m, op, FootprintRecords(op), recs) by {
      ClosureCovers(op, m.invariants, recs, ids);
    }
    BodyRestrict(m, op, args, pre, recs);
    var post := RunBody(m, op, args, pre).value.0.cand;
    forall inv | inv in m.invariants && inv.id !in ids
      ensures CheckInvariant(m, inv, pre, post) == CheckInvariant(m, inv, pre, pre) &&
              !ByRequires(inv, op.identity.operation)
    {
      OutsideUnchanged(m, op, inv, pre, post, recs, ids);
    }
    forall i | 0 <= i < |m.invariants|
      ensures NamedBy(CheckInvariant(m, m.invariants[i], pre, post), m.invariants[i].id)
    {
      VerdictNamed(m, m.invariants[i], pre, post);
    }
  }

  lemma ClosureCovers(op: Operation, invs: seq<Invariant>, recs: set<RecordId>, ids: set<InvariantId>)
    requires IsClosure(op, invs, recs, ids)
    ensures FootprintRecords(op) <= recs
  {
  }

  /** The evaluation after body and facts, by what the invariant stage shows. */
  lemma StageShows(m: Module, r: OpRef, op: Operation, args: seq<Value>, pre: State,
                   a: Option<set<InvariantId>>, b: Option<set<InvariantId>>)
    requires FindOperation(m.operations, r) == Ok(op) && RunBody(m, op, args, pre).Go?
    requires CheckFacts(m.invariants, r, args, pre, a) == CheckFacts(m.invariants, r, args, pre, b)
    requires CheckFacts(m.invariants, r, args, pre, a).Ok? && CheckFacts(m.invariants, r, args, pre, a).value.Go?
    ensures var post := RunBody(m, op, args, pre).value.0.cand;
            var x, y := CheckScoped(m, m.invariants, pre, post, a), CheckScoped(m, m.invariants, pre, post, b);
            EvaluateWithScope(m, r, args, pre, a) == EvaluateWithScope(m, r, args, pre, b) <==> Show(x) == Show(y)
  {
    hide RunBody, CheckFacts, CheckScoped, Eval;
  }

  /**
    For every invocation and every state: scoped evaluation has the outcome of full evaluation exactly
    when the operation does not get as far as the invariants, or the scope speaks first there.
   */
  lemma AgreeExactly(m: Module, r: OpRef, op: Operation, args: seq<Value>, pre: State, recs: set<RecordId>,
                     ids: set<InvariantId>)
    requires WellFormed(m) && FindOperation(m.operations, r) == Ok(op) && IsClosure(op, m.invariants, recs, ids)
    ensures EvaluateScoped(m, r, args, pre, ids) == Evaluate(m, r, args, pre) <==>
            (Reaches(m, r, op, args, pre) ==>
               SpeaksFirst(Foreseen(m, m.invariants, pre, RunBody(m, op, args, pre).value.0.cand, ids), ids))
  {
    hide RunBody, CheckFacts, CheckScoped, Finish, CheckInvariant, IsClosure, SpeaksFirst, Tally, Show, Resolves,
         WellFormed;
    FoundOperation(m.operations, r);
    ClosureResolves(m, op, recs, ids);
    if RunBody(m, op, args, pre).Go? {
      var post := RunBody(m, op, args, pre).value.0.cand;
      ForeseenRight(m, op, args, pre, recs, ids);
      FactsScoped(m.invariants, r, args, pre, ids);
      if Reaches(m, r, op, args, pre) {
        StageShows(m, r, op, args, pre, Some(ids), None);
        ScopedIsTally(m, m.invariants, pre, post, Some(ids));
        ScopedIsTally(m, m.invariants, pre, post, None);
        ShownAlike(Verdicts(m, m.invariants, pre, post), ids);
      }
    }
  }

  // ---------------------------------------------------------------------------
  // They can differ
  // ---------------------------------------------------------------------------

  const NOTHING := Footprint([], [], [], [])

  /** An operation that touches nothing and returns the unit value. */
  const IDLE := Operation(OpRef(1, 1), [], Lit(Bool(true)), [], [], Lit(Bool(true)), Lit(Unit), NOTHING)

  /** No row of record 5 is allowed. */
  const NEVER := Invariant(1, Global([5]), [], ForAll(5, 0, None, Lit(Bool(false))))

  const FORBIDDING := Module([RecordDef(5, [], 0)], [], [], [NEVER], [IDLE])

  /** A state with one such row. */
  const BROKEN := State(map[5 := [(Unit, map[])]])

  lemma IdleRuns()
    ensures var body := RunBody(FORBIDDING, IDLE, [], BROKEN); body.Go? && body.value.0.cand == BROKEN
    ensures CheckFacts([NEVER], OpRef(1, 1), [], BROKEN, None) == Ok(Go(()))
  {
    var c := Ctx(FORBIDDING, [], None, BROKEN, BROKEN);
    assert Eval(c, Lit(Bool(true)), map[]) == Ok(Got(Bool(true), map[]));
    assert [NEVER][1..] == [];
  }

  lemma NeverBroken()
    ensures CheckInvariant(FORBIDDING, NEVER, BROKEN, BROKEN).found != []
    ensures CheckInvariant(FORBIDDING, NEVER, BROKEN, BROKEN).error == None
  {
    var c := Ctx(FORBIDDING, [], None, BROKEN, BROKEN);
    var t := TableOf(BROKEN, 5);
    var row := Row(5, RowFields([], map[]));
    assert RowValue(FORBIDDING, 5, t[0].1) == Ok(row);
    var b := map[0 := row];
    assert Eval(c, Lit(Bool(false)), b) == Ok(Got(Bool(false), b));
    assert t[1..] == [];
    assert CheckForAll(c, 1, NEVER.law, t[1..], b) == Checked([], None);
  }

  lemma IdleCloses()
    ensures WellFormed(FORBIDDING) && IsClosure(IDLE, [NEVER], {}, {})
  {
    assert FootprintRecords(IDLE) == {};
    assert InvariantRecords(NEVER) == {5} && LawRecords(NEVER.law) == {5};
    assert !Affected(NEVER, 1, {});
  }

  lemma IdleAccepted()
    ensures var o := EvaluateScoped(FORBIDDING, OpRef(1, 1), [], BROKEN, {}); o.Ok? && o.value.Accepted?
  {
    hide RunBody, CheckInvariant;
    IdleRuns();
    assert [NEVER][1..] == [];
    assert FindOperation(FORBIDDING.operations, OpRef(1, 1)) == Ok(IDLE);
    assert CheckFacts([NEVER], OpRef(1, 1), [], BROKEN, Some({})) == Ok(Go(()));
    assert CheckScoped(FORBIDDING, [NEVER], BROKEN, BROKEN, Some({})) == Ok([]);
    var body := RunBody(FORBIDDING, IDLE, [], BROKEN).value;
    assert Eval(Ctx(FORBIDDING, [], None, BROKEN, BROKEN), Lit(Unit), body.0.b) == Ok(Got(Unit, body.0.b));
  }

  /** A violation the operation has nothing to do with makes full evaluation reject what scoped evaluation accepts. */
  lemma ScopedCanDiffer()
    ensures WellFormed(FORBIDDING) && IsClosure(IDLE, FORBIDDING.invariants, {}, {})
    ensures var o := EvaluateScoped(FORBIDDING, OpRef(1, 1), [], BROKEN, {}); o.Ok? && o.value.Accepted?
    ensures EvaluateScoped(FORBIDDING, OpRef(1, 1), [], BROKEN, {}) != Evaluate(FORBIDDING, OpRef(1, 1), [], BROKEN)
  {
    hide IsClosure, WellFormed, CheckInvariant, RunBody, EvaluateScoped, Evaluate, CheckFacts;
    IdleRuns();
    NeverBroken();
    IdleCloses();
    IdleAccepted();
    AgreeExactly(FORBIDDING, OpRef(1, 1), IDLE, [], BROKEN, {}, {});
    var vs := Foreseen(FORBIDDING, [NEVER], BROKEN, BROKEN, {});
    assert vs == [Verdict(1, CheckInvariant(FORBIDDING, NEVER, BROKEN, BROKEN))];
    assert FirstBroken(vs, None, 0) && NoErrors(vs, None);
  }
}
