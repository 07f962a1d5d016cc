/**
  Why it is sound to check only the invariants of an operation's closure against a state that holds
  only the records of that closure.
 */
module ScopedEvaluation {
  import opened Basics
  import opened LangTypes
  import opened LangEval
  import opened SemanticClosure

  // ---------------------------------------------------------------------------
  // What a module reads and writes
  // ---------------------------------------------------------------------------

  /** Records looked up anywhere in an expression. */
  ghost function ExprRecords(e: Expr): set<RecordId>
    decreases e
  {
    match e
    case Unary(u, x) => UnaryRecords(u) + ExprRecords(x)
    case Bin(_, l, r) => ExprRecords(l) + ExprRecords(r)
    case UnwrapOr(x, y) => ExprRecords(x) + ExprRecords(y)
    case MakeTuple(parts) => AllExprRecords(parts)
    case MakeSet(parts) => AllExprRecords(parts)
    case MakeStruct(members) => MemberRecords(members)
    case SumOver(_, over, _, each) => ExprRecords(over) + ExprRecords(each)
    case _ => {}
  }

  ghost function UnaryRecords(u: UnaryOp): set<RecordId> {
    match u
    case RowLookup(r, _) => {r}
    case Exists(r, _) => {r}
    case _ => {}
  }

  ghost function AllExprRecords(es: seq<Expr>): set<RecordId>
    decreases es
  {
    if es == [] then {} else ExprRecords(es[0]) + AllExprRecords(es[1..])
  }

  ghost function MemberRecords(ms: seq<ExprMember>): set<RecordId>
    decreases ms
  {
    if ms == [] then {}
    else
      var x := ms[0];
      ExprRecords(x.e) + MemberRecords(ms[1..])
  }

  ghost function FieldRecords(fs: seq<(FieldId, Expr)>): set<RecordId> {
    if fs == [] then {} else ExprRecords(fs[0].1) + FieldRecords(fs[1..])
  }

  ghost function OptionRecords(e: Option<Expr>): set<RecordId> {
    if e.Some? then ExprRecords(e.value) else {}
  }

  ghost function LawRecords(p: Predicate): set<RecordId> {
    match p
    case ForAll(r, _, f, body) => {r} + OptionRecords(f) + ExprRecords(body)
    case Unique(r, _, f, k) => {r} + OptionRecords(f) + ExprRecords(k)
    case ExistsReference(c, _, k, p) => {c, p} + ExprRecords(k)
    case Aggregate(_, r, _, f, g, _, v, _, bound) =>
      {r} + OptionRecords(f) + OptionRecords(g) + ExprRecords(v) + ExprRecords(bound)
    case Transition(r, _, _) => {r}
    case RequiresFact(_, _, fact) => {fact}
  }

  ghost function ReadRecords(rd: ReadKind): set<RecordId> {
    match rd
    case ReadRow(r, k) => {r} + ExprRecords(k)
    case ReadOptional(r, k) => {r} + ExprRecords(k)
    case ReadExists(r, k) => {r} + ExprRecords(k)
    case Scan(r, _, f) => {r} + ExprRecords(f)
  }

  /** Both records of a resource. */
  ghost function ResourceRecords(m: Module, id: ResourceId): set<RecordId> {
    match FindResource(m.resources, id)
    case Ok(rs) => {rs.record, rs.reservationRecord}
    case Err(_) => {}
  }

  ghost function PathRecords(p: Path): set<RecordId> {
    {p.record} + ExprRecords(p.key)
  }

  ghost function EffectRecords(m: Module, k: EffectKind): set<RecordId> {
    match k
    case EAssign(p, v) => PathRecords(p) + ExprRecords(v)
    case EIncrement(p, v) => PathRecords(p) + ExprRecords(v)
    case EDecrement(p, v) => PathRecords(p) + ExprRecords(v)
    case EInsert(r, key, fs) => {r} + ExprRecords(key) + FieldRecords(fs)
    case EDelete(r, key) => {r} + ExprRecords(key)
    case EAddToSet(p, v) => PathRecords(p) + ExprRecords(v)
    case ERemoveFromSet(p, v) => PathRecords(p) + ExprRecords(v)
    case ECompareAndSwap(p, e, v) => PathRecords(p) + ExprRecords(e) + ExprRecords(v)
    case EReserve(q, key, id, a) => ResourceRecords(m, q) + ExprRecords(key) + ExprRecords(id) + ExprRecords(a)
    case ERelease(q, key, id, a) => ResourceRecords(m, q) + ExprRecords(key) + ExprRecords(id) + ExprRecords(a)
    case ETransfer(p, q, a) => PathRecords(p) + PathRecords(q) + ExprRecords(a)
    case EAdvance(p, _, _) => PathRecords(p)
    case EEmitFact(r, key, fs) => {r} + ExprRecords(key) + FieldRecords(fs)
  }

  /** Records a literal effect reads or writes. */
  ghost function AppliedRecords(m: Module, a: Applied): set<RecordId> {
    match a
    case Reserve(x, _) => ResourceRecords(m, x)
    case Release(x, _) => ResourceRecords(m, x)
    case Transfer(r, _, _, r', _, _, _) => {r, r'}
    case _ => {a.record}
  }

  // ---------------------------------------------------------------------------
  // What lowering guarantees
  // ---------------------------------------------------------------------------

  /** The footprint names every record the operation reads or writes. */
  ghost predicate OperationCovered(m: Module, op: Operation, recs: set<RecordId>) {
    && ExprRecords(op.pre) + ExprRecords(op.post) + ExprRecords(op.result) <= recs
    && (forall rd :: rd in op.inputs ==> ReadRecords(rd.kind) <= recs)
    && (forall ef :: ef in op.effects ==> OptionRecords(ef.guard) + EffectRecords(m, ef.kind) <= recs)
  }

  ghost predicate UniqueIds(invs: seq<Invariant>) {
    forall i, j :: 0 <= i < j < |invs| ==> invs[i].id != invs[j].id
  }

  ghost predicate WellFormed(m: Module) {
    && (forall op :: op in m.operations ==> OperationCovered(m, op, FootprintRecords(op)))
    && (forall inv :: inv in m.invariants ==> LawRecords(inv.law) <= InvariantRecords(inv))
    && UniqueIds(m.invariants)
  }

  // ---------------------------------------------------------------------------
  // Evaluation only sees the records it names
  // ---------------------------------------------------------------------------

  ghost predicate Alike(s: State, t: State, recs: set<RecordId>) {
    forall r :: r in recs ==> TableOf(s, r) == TableOf(t, r)
  }

  ghost predicate AlikeCtx(c: Ctx, d: Ctx, recs: set<RecordId>) {
    c.m == d.m && c.args == d.args && c.group == d.group && Alike(c.pre, d.pre, recs) && Alike(c.cand, d.cand, recs)
  }

  lemma UnaryLocal(c: Ctx, d: Ctx, u: UnaryOp, v: Value, recs: set<RecordId>)
    requires AlikeCtx(c, d, recs) && UnaryRecords(u) <= recs
    ensures ApplyUnary(c, u, v) == ApplyUnary(d, u, v)
  {
  }

  lemma LeafLocal(c: Ctx, d: Ctx, e: Expr, b: Bindings, recs: set<RecordId>)
    requires AlikeCtx(c, d, recs)
    ensures Leaf(c, e, b) == Leaf(d, e, b)
  {
  }

  lemma {:induction false} EvalLocal(c: Ctx, d: Ctx, e: Expr, b: Bindings, recs: set<RecordId>)
    requires AlikeCtx(c, d, recs) && ExprRecords(e) <= recs
    ensures Eval(c, e, b) == Eval(d, e, b)
    decreases e, 0
  {
    hide ApplyUnary, ApplyBin, Decided, ZeroOf, SetFrom, EvalAll, EvalMembers, SumItems, AlikeCtx, AllExprRecords,
         MemberRecords,
         UnaryRecords, Leaf;
    match e
    case Unary(u, x) =>
      EvalLocal(c, d, x, b, recs);
      var v := Eval(c, x, b);
      if v.Ok? {
        UnaryLocal(c, d, u, v.value.value, recs);
      }
    case Bin(_, l, r) =>
      EvalLocal(c, d, l, b, recs);
      var v := Eval(c, l, b);
      if v.Ok? {
        EvalLocal(c, d, r, v.value.b, recs);
      }
    case UnwrapOr(x, y) =>
      EvalLocal(c, d, x, b, recs);
      var v := Eval(c, x, b);
      if v.Ok? {
        EvalLocal(c, d, y, v.value.b, recs);
      }
    case MakeTuple(parts) => EvalAllLocal(c, d, parts, b, recs);
    case MakeSet(parts) => EvalAllLocal(c, d, parts, b, recs);
    case MakeStruct(members) => EvalMembersLocal(c, d, members, b, [], recs);
    case SumOver(x, over, ty, each) =>
      EvalLocal(c, d, over, b, recs);
      var s, zero := Eval(c, over, b), ZeroOf(ty);
      if s.Ok? && s.value.value.SetOf? && zero.Ok? {
        SumLocal(c, d, x, s.value.value.items, each, s.value.b, zero.value, recs);
      }
    case _ => LeafLocal(c, d, e, b, recs);
  }

  lemma {:induction false} EvalAllLocal(c: Ctx, d: Ctx, es: seq<Expr>, b: Bindings, recs: set<RecordId>)
    requires AlikeCtx(c, d, recs) && AllExprRecords(es) <= recs
    ensures EvalAll(c, es, b) == EvalAll(d, es, b)
    decreases es, 0
  {
    hide Eval, ExprRecords, AlikeCtx;
    if es != [] {
      EvalLocal(c, d, es[0], b, recs);
      var v := Eval(c, es[0], b);
      if v.Ok? {
        EvalAllLocal(c, d, es[1..], v.value.b, recs);
      }
    }
  }

  lemma {:induction false} EvalMembersLocal(c: Ctx, d: Ctx, ms: seq<ExprMember>, b: Bindings, acc: seq<Member>,
                                            recs: set<RecordId>)
    requires AlikeCtx(c, d, recs) && MemberRecords(ms) <= recs
    ensures EvalMembers(c, ms, b, acc) == EvalMembers(d, ms, b, acc)
    decreases ms, 0
  {
    hide Eval, ExprRecords, AlikeCtx, PutMember;
    if ms != [] {
      var x := ms[0];
      EvalLocal(c, d, x.e, b, recs);
      var v := Eval(c, x.e, b);
      if v.Ok? {
        EvalMembersLocal(c, d, ms[1..], v.value.b, PutMember(acc, x.name, v.value.value), recs);
      }
    }
  }

  lemma SumNext(c: Ctx, x: BindingId, items: seq<Value>, each: Expr, b: Bindings, acc: Value)
    requires items != []
    ensures SumItems(c, x, items, each, b, acc)
            == match Eval(c, each, b[x := items[0]])
               case Err(e) => Err(e)
               case Ok(v) =>
                 match CheckedArith(Add, acc, v.value)
                 case Err(e) => Err(e)
                 case Ok(sum) => SumItems(c, x, items[1..], each, v.b, sum)
  {
    hide Eval;
  }

  lemma {:induction false} SumLocal(c: Ctx, d: Ctx, x: BindingId, items: seq<Value>, each: Expr, b: Bindings,
                                    acc: Value, recs: set<RecordId>)
    requires AlikeCtx(c, d, recs) && ExprRecords(each) <= recs
    ensures SumItems(c, x, items, each, b, acc) == SumItems(d, x, items, each, b, acc)
    decreases each, 1, |items|
  {
    hide Eval, ExprRecords, CheckedArith, AlikeCtx;
    if items != [] {
      hide SumItems;
      SumNext(c, x, items, each, b, acc);
      SumNext(d, x, items, each, b, acc);
      EvalLocal(c, d, each, b[x := items[0]], recs);
      var v := Eval(c, each, b[x := items[0]]);
      if v.Ok? {
        var sum := CheckedArith(Add, acc, v.value.value);
        if sum.Ok? {
          SumLocal(c, d, x, items[1..], each, v.value.b, sum.value, recs);
        }
      }
    }
  }

  // ---------------------------------------------------------------------------
  // Invariants only see the records they name
  // ---------------------------------------------------------------------------

  lemma PassesLocal(c: Ctx, d: Ctx, f: Option<Expr>, b: Bindings, recs: set<RecordId>)
    requires AlikeCtx(c, d, recs) && OptionRecords(f) <= recs
    ensures Passes(c, f, b) == Passes(d, f, b)
  {
    hide Eval, ExprRecords, AlikeCtx;
    if f.Some? {
      EvalLocal(c, d, f.value, b, recs);
    }
  }

  lemma RowValueLocal(c: Ctx, d: Ctx, r: RecordId, row: Fields, recs: set<RecordId>)
    requires AlikeCtx(c, d, recs)
    ensures RowValue(c.m, r, row) == RowValue(d.m, r, row)
  {
  }

  lemma {:induction false} ForAllLocal(c: Ctx, d: Ctx, id: InvariantId, p: Predicate, t: Table, b: Bindings,
                                       recs: set<RecordId>)
    requires p.ForAll? && AlikeCtx(c, d, recs) && LawRecords(p) <= recs
    ensures CheckForAll(c, id, p, t, b) == CheckForAll(d, id, p, t, b)
    decreases |t|
  {
    hide Passes, RowValue, AlikeCtx, OptionRecords, ExprRecords;
    if t != [] {
      RowValueLocal(c, d, p.record, t[0].1, recs);
      var row := RowValue(c.m, p.record, t[0].1);
      if row.Ok? {
        PassesLocal(c, d, p.filter, b[p.x := row.value], recs);
        var f := Passes(c, p.filter, b[p.x := row.value]);
        if f.Ok? {
          ForAllLocal(c, d, id, p, t[1..], f.value.b, recs);
          assert OptionRecords(Some(p.body)) == ExprRecords(p.body) by { OptionOf(p.body); }
          PassesLocal(c, d, Some(p.body), f.value.b, recs);
          var h := Passes(c, Some(p.body), f.value.b);
          if h.Ok? {
            ForAllLocal(c, d, id, p, t[1..], h.value.b, recs);
          }
        }
      }
    }
  }

  lemma OptionOf(e: Expr)
    ensures OptionRecords(Some(e)) == ExprRecords(e)
  {
  }

  lemma {:induction false} UniqueLocal(c: Ctx, d: Ctx, id: InvariantId, p: Predicate, t: Table, b: Bindings,
                                       seen: set<Value>, recs: set<RecordId>)
    requires p.Unique? && AlikeCtx(c, d, recs) && LawRecords(p) <= recs
    ensures CheckUnique(c, id, p, t, b, seen) == CheckUnique(d, id, p, t, b, seen)
    decreases |t|
  {
    hide Passes, RowValue, AlikeCtx, OptionRecords, ExprRecords, Eval;
    if t != [] {
      RowValueLocal(c, d, p.record, t[0].1, recs);
      var row := RowValue(c.m, p.record, t[0].1);
      if row.Ok? {
        PassesLocal(c, d, p.filter, b[p.x := row.value], recs);
        var f := Passes(c, p.filter, b[p.x := row.value]);
        if f.Ok? {
          UniqueLocal(c, d, id, p, t[1..], f.value.b, seen, recs);
          EvalLocal(c, d, p.key, f.value.b, recs);
          var u := Eval(c, p.key, f.value.b);
          if u.Ok? {
            UniqueLocal(c, d, id, p, t[1..], u.value.b, seen + {u.value.value}, recs);
          }
        }
      }
    }
  }

  lemma {:induction false} ReferenceLocal(c: Ctx, d: Ctx, id: InvariantId, p: Predicate, t: Table, b: Bindings,
                                          recs: set<RecordId>)
    requires p.ExistsReference? && AlikeCtx(c, d, recs) && LawRecords(p) <= recs
    ensures CheckReference(c, id, p, t, b) == CheckReference(d, id, p, t, b)
    decreases |t|
  {
    hide RowValue, ExprRecords, Eval;
    if t != [] {
      RowValueLocal(c, d, p.child, t[0].1, recs);
      var row := RowValue(c.m, p.child, t[0].1);
      if row.Ok? {
        EvalLocal(c, d, p.parentKey, b[p.x := row.value], recs);
        var k := Eval(c, p.parentKey, b[p.x := row.value]);
        if k.Ok? {
          ReferenceLocal(c, d, id, p, t[1..], k.value.b, recs);
        }
      }
    }
  }

  lemma ContributionLocal(c: Ctx, d: Ctx, p: Predicate, b: Bindings, recs: set<RecordId>)
    requires p.Aggregate? && AlikeCtx(c, d, recs) && LawRecords(p) <= recs
    ensures Contribution(c, p, b) == Contribution(d, p, b)
    ensures EvalOption(c, p.groupBy, b) == EvalOption(d, p.groupBy, b)
  {
    hide Eval, ExprRecords, AlikeCtx;
    EvalLocal(c, d, p.value, b, recs);
    if p.groupBy.Some? {
      EvalLocal(c, d, p.groupBy.value, b, recs);
    }
  }

  lemma {:induction false} TotalsLocal(c: Ctx, d: Ctx, p: Predicate, t: Table, b: Bindings, zero: Value, gs: Groups,
                                       recs: set<RecordId>)
    requires p.Aggregate? && AlikeCtx(c, d, recs) && LawRecords(p) <= recs
    ensures Totals(c, p, t, b, zero, gs) == Totals(d, p, t, b, zero, gs)
    decreases |t|
  {
    hide Passes, RowValue, AlikeCtx, OptionRecords, ExprRecords, EvalOption, Contribution, AddToGroup;
    if t != [] {
      RowValueLocal(c, d, p.record, t[0].1, recs);
      var row := RowValue(c.m, p.record, t[0].1);
      if row.Ok? {
        PassesLocal(c, d, p.filter, b[p.x := row.value], recs);
        var f := Passes(c, p.filter, b[p.x := row.value]);
        if f.Ok? {
          TotalsLocal(c, d, p, t[1..], f.value.b, zero, gs, recs);
          ContributionLocal(c, d, p, f.value.b, recs);
          var g := EvalOption(c, p.groupBy, f.value.b);
          if g.Ok? {
            ContributionLocal(c, d, p, g.value.b, recs);
            var v := Contribution(c, p, g.value.b);
            if v.Ok? {
              var gs' := AddToGroup(gs, g.value.value, zero, v.value.value);
              if gs'.Ok? {
                TotalsLocal(c, d, p, t[1..], v.value.b, zero, gs'.value, recs);
              }
            }
          }
        }
      }
    }
  }

  lemma {:induction false} GroupsLocal(c: Ctx, d: Ctx, id: InvariantId, p: Predicate, gs: Groups, b: Bindings,
                                       recs: set<RecordId>)
    requires p.Aggregate? && AlikeCtx(c, d, recs) && LawRecords(p) <= recs
    ensures CheckGroups(c, id, p, gs, b) == CheckGroups(d, id, p, gs, b)
    decreases |gs|
  {
    hide Eval, ExprRecords, Holds, OptionRecords, Alike;
    if gs != [] {
      var c', d' := c.(group := gs[0].0), d.(group := gs[0].0);
      EvalLocal(c', d', p.bound, b, recs);
      var v := Eval(c', p.bound, b);
      if v.Ok? {
        GroupsLocal(c, d, id, p, gs[1..], v.value.b, recs);
      }
    }
  }

  lemma AggregateLocal(c: Ctx, d: Ctx, id: InvariantId, p: Predicate, t: Table, recs: set<RecordId>)
    requires p.Aggregate? && AlikeCtx(c, d, recs) && LawRecords(p) <= recs
    ensures CheckAggregate(c, id, p, t) == CheckAggregate(d, id, p, t)
  {
    hide AlikeCtx, LawRecords, Totals, CheckGroups;
    var zero := if p.op == Count then Ok(U64(0)) else ZeroOf(p.ty);
    if zero.Ok? {
      TotalsLocal(c, d, p, t, map[], zero.value, [], recs);
      var r := Totals(c, p, t, map[], zero.value, []);
      if r.Ok? {
        var gs := if p.groupBy.None? && r.value.value == [] then [(None, zero.value)] else r.value.value;
        GroupsLocal(c, d, id, p, gs, r.value.b, recs);
      }
    }
  }

  lemma {:induction false} TransitionLocal(pre: State, pre': State, id: InvariantId, p: Predicate, t: Table,
                                           recs: set<RecordId>)
    requires p.Transition? && Alike(pre, pre', recs) && LawRecords(p) <= recs
    ensures CheckTransition(pre, id, p, t) == CheckTransition(pre', id, p, t)
    decreases |t|
  {
    if t != [] {
      assert Get(pre, p.record, t[0].0) == Get(pre', p.record, t[0].0);
      TransitionLocal(pre, pre', id, p, t[1..], recs);
    }
  }

  /** An invariant gives the same verdict on states that agree on the records it names. */
  lemma InvariantLocal(m: Module, inv: Invariant, pre: State, post: State, pre': State, post': State,
                       recs: set<RecordId>)
    requires LawRecords(inv.law) <= recs && Alike(pre, pre', recs) && Alike(post, post', recs)
    ensures CheckInvariant(m, inv, pre, post) == CheckInvariant(m, inv, pre', post')
  {
    hide CheckForAll, CheckUnique, CheckReference, CheckAggregate, CheckTransition;
    var c, d := Ctx(m, [], None, post, post), Ctx(m, [], None, post', post');
    match inv.law
    case ForAll(r, _, _, _) => ForAllLocal(c, d, inv.id, inv.law, TableOf(post, r), map[], recs);
    case Unique(r, _, _, _) => UniqueLocal(c, d, inv.id, inv.law, TableOf(post, r), map[], {}, recs);
    case ExistsReference(r, _, _, _) => ReferenceLocal(c, d, inv.id, inv.law, TableOf(post, r), map[], recs);
    case Aggregate(_, r, _, _, _, _, _, _, _) => AggregateLocal(c, d, inv.id, inv.law, TableOf(post, r), recs);
    case Transition(r, _, _) => TransitionLocal(pre, pre', inv.id, inv.law, TableOf(post, r), recs);
    case RequiresFact(_, _, _) =>
  }

  // ---------------------------------------------------------------------------
  // Effects only change the records they name, and commute with loading
  // ---------------------------------------------------------------------------

  /** The part of a state that a runtime loads for a set of records. */
  ghost function Restrict(s: State, recs: set<RecordId>): State {
    State(s.rows - (s.rows.Keys - recs))
  }

  lemma RestrictAlike(s: State, recs: set<RecordId>)
    ensures Alike(s, Restrict(s, recs), recs)
  {
  }

  lemma RestrictPut(s: State, r: RecordId, t: Table, recs: set<RecordId>)
    requires r in recs
    ensures Restrict(PutTable(s, r, t), recs) == PutTable(Restrict(s, recs), r, t)
  {
    var a, b := Restrict(PutTable(s, r, t), recs).rows, PutTable(Restrict(s, recs), r, t).rows;
    assert forall k :: k in a <==> k in b;
    assert forall k :: k in a ==> a[k] == b[k];
    assert a == b;
  }

  ghost function RestrictState(r: Result<State>, recs: set<RecordId>): Result<State> {
    match r
    case Ok(s) => Ok(Restrict(s, recs))
    case Err(e) => Err(e)
  }

  lemma RestrictGet(s: State, r: RecordId, k: Value, recs: set<RecordId>)
    requires r in recs
    ensures TableOf(Restrict(s, recs), r) == TableOf(s, r) && Get(Restrict(s, recs), r, k) == Get(s, r, k)
  {
  }

  lemma SlotRead(s: State, r: RecordId, k: Value, f: FieldId, recs: set<RecordId>)
    requires r in recs
    ensures GetSlot(Restrict(s, recs), r, k, f) == GetSlot(s, r, k, f)
  {
    hide Restrict, Lookup;
    RestrictGet(s, r, k, recs);
  }

  lemma SlotWrite(s: State, r: RecordId, k: Value, f: FieldId, v: Value, recs: set<RecordId>)
    requires r in recs
    ensures SetSlot(Restrict(s, recs), r, k, f, v) == Restrict(SetSlot(s, r, k, f, v), recs)
  {
    hide Restrict, Lookup, Replace;
    RestrictGet(s, r, k, recs);
    match Get(s, r, k)
    case None =>
    case Some(row) => RestrictPut(s, r, Replace(TableOf(s, r), k, row[f := v]), recs);
  }

  lemma AdjustRestrict(s: State, r: RecordId, k: Value, f: FieldId, op: ArithOp, amount: Value, recs: set<RecordId>)
    requires r in recs
    ensures Adjust(Restrict(s, recs), r, k, f, op, amount) == RestrictState(Adjust(s, r, k, f, op, amount), recs)
  {
    hide Restrict, GetSlot, SetSlot, CheckedArith, Get, TableOf, PutTable;
    SlotRead(s, r, k, f, recs);
    var slot := GetSlot(s, r, k, f);
    if slot.Ok? {
      var v := CheckedArith(op, slot.value, amount);
      if v.Ok? {
        SlotWrite(s, r, k, f, v.value, recs);
      }
    }
  }

  lemma InsertRestrict(m: Module, s: State, r: RecordId, k: Value, given: Fields, isFact: bool, recs: set<RecordId>)
    requires r in recs
    ensures InsertNew(m, Restrict(s, recs), r, k, given, isFact) ==
            RestrictState(InsertNew(m, s, r, k, given, isFact), recs)
  {
    hide Restrict, BuildRow, FindRecord, Lookup, InsertRow;
    RestrictGet(s, r, k, recs);
    var def := FindRecord(m.records, r);
    if def.Ok? {
      var row := BuildRow(def.value.fields, given);
      if row.Ok? {
        RestrictPut(s, r, InsertRow(TableOf(s, r), k, row.value), recs);
      }
    }
  }

  lemma ShiftRestrict(s: State, r: RecordId, k: Value, from: FieldId, to: FieldId, amount: Value, recs: set<RecordId>)
    requires r in recs
    ensures Shift(Restrict(s, recs), r, k, from, to, amount) == RestrictState(Shift(s, r, k, from, to, amount), recs)
  {
    hide Restrict, Adjust;
    AdjustRestrict(s, r, k, from, Sub, amount, recs);
    var s1 := Adjust(s, r, k, from, Sub, amount);
    if s1.Ok? {
      AdjustRestrict(s1.value, r, k, to, Add, amount, recs);
    }
  }

  lemma FreshRestrict(s: State, r: RecordId, k: Value, row: Fields, recs: set<RecordId>)
    requires r in recs
    ensures InsertFresh(Restrict(s, recs), r, k, row) == RestrictState(InsertFresh(s, r, k, row), recs)
  {
    hide Restrict, Lookup, InsertRow;
    RestrictGet(s, r, k, recs);
    RestrictPut(s, r, InsertRow(TableOf(s, r), k, row), recs);
  }

  lemma StoreRestrict(m: Module, s: State, r: RecordId, q: Claim, recs: set<RecordId>)
    requires r in recs
    ensures StoreReservation(m, Restrict(s, recs), r, q)
            == RestrictState(StoreReservation(m, s, r, q), recs)
  {
    hide Restrict, FindRecord, ReservationRow, InsertFresh;
    var def := FindRecord(m.records, r);
    if def.Ok? {
      var row := ReservationRow(m, def.value, def.value.fields, q);
      if row.Ok? {
        FreshRestrict(s, r, q.id, row.value, recs);
      }
    }
  }

  lemma ReserveRestrict(m: Module, s: State, x: ResourceId, q: Claim, recs: set<RecordId>)
    requires ResourceRecords(m, x) <= recs
    ensures ApplyReserve(m, Restrict(s, recs), x, q) == RestrictState(ApplyReserve(m, s, x, q), recs)
  {
    hide Restrict, Shift, FindResource, StoreReservation;
    var rs := FindResource(m.resources, x);
    if rs.Ok? {
      var r := rs.value;
      ShiftRestrict(s, r.record, q.key, r.available, r.reserved, q.amount, recs);
      var s1 := Shift(s, r.record, q.key, r.available, r.reserved, q.amount);
      if s1.Ok? {
        StoreRestrict(m, s1.value, r.reservationRecord, q, recs);
      }
    }
  }

  lemma {:induction false} FoundRecord(rs: seq<RecordDef>, id: RecordId)
    ensures FindRecord(rs, id).Ok? ==> FindRecord(rs, id).value.id == id
  {
    if rs != [] {
      FoundRecord(rs[1..], id);
    }
  }

  lemma LayoutRecord(m: Module, r: RecordId)
    ensures LayoutOf(m, r).Ok? ==> LayoutOf(m, r).value.record == r
  {
    FoundRecord(m.records, r);
  }

  lemma CloseRestrict(s: State, l: Layout, q: Claim, recs: set<RecordId>)
    requires l.record in recs
    ensures CloseReservation(Restrict(s, recs), l, q) == RestrictState(CloseReservation(s, l, q), recs)
  {
    hide Restrict, Lookup, SetSlot, Refusal;
    RestrictGet(s, l.record, q.id, recs);
    SlotWrite(s, l.record, q.id, l.state, Enum(l.e, l.released), recs);
  }

  lemma ReleaseRestrict(m: Module, s: State, x: ResourceId, q: Claim, recs: set<RecordId>)
    requires ResourceRecords(m, x) <= recs
    ensures ApplyRelease(m, Restrict(s, recs), x, q) == RestrictState(ApplyRelease(m, s, x, q), recs)
  {
    hide Restrict, Shift, FindResource, LayoutOf, CloseReservation;
    var rs := FindResource(m.resources, x);
    if rs.Ok? {
      var r := rs.value;
      LayoutRecord(m, r.reservationRecord);
      var l := LayoutOf(m, r.reservationRecord);
      if l.Ok? {
        CloseRestrict(s, l.value, q, recs);
        var s1 := CloseReservation(s, l.value, q);
        if s1.Ok? {
          ShiftRestrict(s1.value, r.record, q.key, r.reserved, r.available, q.amount, recs);
        }
      }
    }
  }

  /** Applying an effect to the loaded part of a state gives the loaded part of the result. */
  lemma ApplyRestrict(m: Module, s: State, a: Applied, recs: set<RecordId>)
    requires AppliedRecords(m, a) <= recs
    ensures ApplyLiteral(m, Restrict(s, recs), a) == RestrictState(ApplyLiteral(m, s, a), recs)
  {
    hide Restrict, Adjust, InsertNew, ApplyReserve, ApplyRelease, GetSlot, SetSlot, Lookup, RemoveRow, FieldType,
         Fits, AddItem,
         RemoveItem, ResourceRecords;
    match a
    case Assign(r, k, f, v) =>
      SlotRead(s, r, k, f, recs);
      SlotWrite(s, r, k, f, v, recs);
    case Increment(r, k, f, amount) => AdjustRestrict(s, r, k, f, Add, amount, recs);
    case Decrement(r, k, f, amount) => AdjustRestrict(s, r, k, f, Sub, amount, recs);
    case Insert(r, k, given, isFact) => InsertRestrict(m, s, r, k, given, isFact, recs);
    case Delete(r, k) =>
      RestrictGet(s, r, k, recs);
      RestrictPut(s, r, RemoveRow(TableOf(s, r), k), recs);
    case AddToSet(r, k, f, v) =>
      SlotRead(s, r, k, f, recs);
      var slot := GetSlot(s, r, k, f);
      if slot.Ok? && slot.value.SetOf? {
        SlotWrite(s, r, k, f, SetOf(AddItem(slot.value.items, v)), recs);
      }
    case RemoveFromSet(r, k, f, v) =>
      SlotRead(s, r, k, f, recs);
      var slot := GetSlot(s, r, k, f);
      if slot.Ok? && slot.value.SetOf? {
        SlotWrite(s, r, k, f, SetOf(RemoveItem(slot.value.items, v)), recs);
      }
    case CompareAndSwap(r, k, f, _, v) =>
      SlotRead(s, r, k, f, recs);
      SlotWrite(s, r, k, f, v, recs);
    case Reserve(x, q) => ReserveRestrict(m, s, x, q, recs);
    case Release(x, q) => ReleaseRestrict(m, s, x, q, recs);
    case Transfer(r, k, f, r', k', f', amount) =>
      AdjustRestrict(s, r, k, f, Sub, amount, recs);
      var s1 := Adjust(s, r, k, f, Sub, amount);
      if s1.Ok? {
        AdjustRestrict(s1.value, r', k', f', Add, amount, recs);
      }
    case Advance(r, k, f, _, next) =>
      SlotRead(s, r, k, f, recs);
      var slot := GetSlot(s, r, k, f);
      if slot.Ok? && slot.value.Enum? {
        SlotWrite(s, r, k, f, Enum(slot.value.enumId, next), recs);
      }
  }

  /** Tables outside `recs` are the same. */
  ghost predicate Untouched(s: State, t: State, recs: set<RecordId>) {
    forall r :: r !in recs ==> TableOf(s, r) == TableOf(t, r)
  }

  lemma UntouchedTrans(a: State, b: State, c: State, recs: set<RecordId>)
    requires Untouched(a, b, recs) && Untouched(b, c, recs)
    ensures Untouched(a, c, recs)
  {
  }

  lemma SlotFrame(s: State, r: RecordId, k: Value, f: FieldId, v: Value, recs: set<RecordId>)
    requires r in recs
    ensures Untouched(s, SetSlot(s, r, k, f, v), recs)
  {
    hide Lookup, Replace;
  }

  lemma AdjustFrame(s: State, r: RecordId, k: Value, f: FieldId, op: ArithOp, amount: Value, recs: set<RecordId>)
    requires r in recs
    ensures Adjust(s, r, k, f, op, amount).Ok? ==> Untouched(s, Adjust(s, r, k, f, op, amount).value, recs)
  {
    hide GetSlot, SetSlot, CheckedArith, Untouched;
    var slot := GetSlot(s, r, k, f);
    if slot.Ok? {
      var v := CheckedArith(op, slot.value, amount);
      if v.Ok? {
        SlotFrame(s, r, k, f, v.value, recs);
      }
    }
  }

  lemma ShiftFrame(s: State, r: RecordId, k: Value, from: FieldId, to: FieldId, amount: Value, recs: set<RecordId>)
    requires r in recs
    ensures Shift(s, r, k, from, to, amount).Ok? ==> Untouched(s, Shift(s, r, k, from, to, amount).value, recs)
  {
    hide Adjust, Untouched;
    AdjustFrame(s, r, k, from, Sub, amount, recs);
    var s1 := Adjust(s, r, k, from, Sub, amount);
    if s1.Ok? {
      AdjustFrame(s1.value, r, k, to, Add, amount, recs);
      var s2 := Adjust(s1.value, r, k, to, Add, amount);
      if s2.Ok? {
        UntouchedTrans(s, s1.value, s2.value, recs);
      }
    }
  }

  lemma ReserveFrame(m: Module, s: State, x: ResourceId, q: Claim)
    ensures ApplyReserve(m, s, x, q).Ok? ==>
              Untouched(s, ApplyReserve(m, s, x, q).value, ResourceRecords(m, x))
  {
    hide Shift, FindResource, FindRecord, ReservationRow, Lookup, InsertRow;
    var rs := FindResource(m.resources, x);
    if rs.Ok? {
      var r := rs.value;
      ShiftFrame(s, r.record, q.key, r.available, r.reserved, q.amount, ResourceRecords(m, x));
    }
  }

  lemma ReleaseFrame(m: Module, s: State, x: ResourceId, q: Claim)
    ensures ApplyRelease(m, s, x, q).Ok? ==>
              Untouched(s, ApplyRelease(m, s, x, q).value, ResourceRecords(m, x))
  {
    hide Shift, FindResource, LayoutOf, Lookup, SetSlot, Untouched, Refusal;
    var recs := ResourceRecords(m, x);
    var rs := FindResource(m.resources, x);
    if rs.Ok? {
      var r := rs.value;
      LayoutRecord(m, r.reservationRecord);
      var l := LayoutOf(m, r.reservationRecord);
      if l.Ok? {
        SlotFrame(s, l.value.record, q.id, l.value.state, Enum(l.value.e, l.value.released), recs);
        var s1 := SetSlot(s, l.value.record, q.id, l.value.state, Enum(l.value.e, l.value.released));
        ShiftFrame(s1, r.record, q.key, r.reserved, r.available, q.amount, recs);
        var s2 := Shift(s1, r.record, q.key, r.reserved, r.available, q.amount);
        if s2.Ok? {
          UntouchedTrans(s, s1, s2.value, recs);
        }
      }
    }
  }

  /** A literal effect changes no table outside the records it names. */
  lemma ApplyFrame(m: Module, s: State, a: Applied)
    ensures ApplyLiteral(m, s, a).Ok? ==> Untouched(s, ApplyLiteral(m, s, a).value, AppliedRecords(m, a))
  {
    hide Adjust, ApplyReserve, ApplyRelease, GetSlot, SetSlot, Lookup, RemoveRow, InsertRow, FieldType, Fits, AddItem,
         RemoveItem, ResourceRecords, FindRecord, BuildRow;
    var recs := AppliedRecords(m, a);
    match a
    case Assign(r, k, f, v) => SlotFrame(s, r, k, f, v, recs);
    case Increment(r, k, f, amount) => AdjustFrame(s, r, k, f, Add, amount, recs);
    case Decrement(r, k, f, amount) => AdjustFrame(s, r, k, f, Sub, amount, recs);
    case Insert(_, _, _, _) =>
    case Delete(_, _) =>
    case AddToSet(r, k, f, v) =>
      var slot := GetSlot(s, r, k, f);
      if slot.Ok? && slot.value.SetOf? {
        SlotFrame(s, r, k, f, SetOf(AddItem(slot.value.items, v)), recs);
      }
    case RemoveFromSet(r, k, f, v) =>
      var slot := GetSlot(s, r, k, f);
      if slot.Ok? && slot.value.SetOf? {
        SlotFrame(s, r, k, f, SetOf(RemoveItem(slot.value.items, v)), recs);
      }
    case CompareAndSwap(r, k, f, _, v) => SlotFrame(s, r, k, f, v, recs);
    case Reserve(x, q) => ReserveFrame(m, s, x, q);
    case Release(x, q) => ReleaseFrame(m, s, x, q);
    case Transfer(r, k, f, r', k', f', amount) =>
      AdjustFrame(s, r, k, f, Sub, amount, recs);
      var s1 := Adjust(s, r, k, f, Sub, amount);
      if s1.Ok? {
        AdjustFrame(s1.value, r', k', f', Add, amount, recs);
      }
    case Advance(r, k, f, _, next) =>
      var slot := GetSlot(s, r, k, f);
      if slot.Ok? && slot.value.Enum? {
        SlotFrame(s, r, k, f, Enum(slot.value.enumId, next), recs);
      }
  }

  // ---------------------------------------------------------------------------
  // The body of an operation
  // ---------------------------------------------------------------------------

  lemma {:induction false} ScanLocal(c: Ctx, d: Ctx, r: RecordId, x: BindingId, f: Expr, t: Table, b: Bindings,
                                     found: seq<Value>, recs: set<RecordId>)
    requires AlikeCtx(c, d, recs) && ExprRecords(f) <= recs
    ensures ScanRows(c, r, x, f, t, b, found) == ScanRows(d, r, x, f, t, b, found)
    decreases |t|
  {
    hide Eval, ExprRecords, RowValue, AlikeCtx, AddItem;
    if t != [] {
      RowValueLocal(c, d, r, t[0].1, recs);
      var row := RowValue(c.m, r, t[0].1);
      if row.Ok? {
        EvalLocal(c, d, f, b[x := row.value], recs);
        var v := Eval(c, f, b[x := row.value]);
        if v.Ok? {
          ScanLocal(c, d, r, x, f, t[1..], v.value.b,
                    if v.value.value == Bool(true) then AddItem(found, row.value) else found, recs);
        }
      }
    }
  }

  lemma ReadLocal(c: Ctx, d: Ctx, rd: ReadKind, b: Bindings, recs: set<RecordId>)
    requires AlikeCtx(c, d, recs) && ReadRecords(rd) <= recs
    ensures ReadOne(c, rd, b) == ReadOne(d, rd, b)
  {
    hide Eval, ExprRecords, RowValue, ScanRows, Lookup;
    match rd
    case ReadRow(_, k) => EvalLocal(c, d, k, b, recs);
    case ReadOptional(_, k) => EvalLocal(c, d, k, b, recs);
    case ReadExists(_, k) => EvalLocal(c, d, k, b, recs);
    case Scan(r, x, f) => ScanLocal(c, d, r, x, f, TableOf(c.pre, r), b, [], recs);
  }

  lemma {:induction false} ReadAllLocal(c: Ctx, d: Ctx, rds: seq<Read>, b: Bindings, captured: Bindings,
                                        recs: set<RecordId>)
    requires AlikeCtx(c, d, recs) && forall rd :: rd in rds ==> ReadRecords(rd.kind) <= recs
    ensures ReadAll(c, rds, b, captured) == ReadAll(d, rds, b, captured)
    decreases |rds|
  {
    hide ReadOne, ReadRecords, AlikeCtx;
    if rds != [] {
      ReadLocal(c, d, rds[0].kind, b, recs);
      var v := ReadOne(c, rds[0].kind, b);
      if v.Ok? {
        var x := rds[0].binding;
        ReadAllLocal(c, d, rds[1..], v.value.b[x := v.value.value], captured[x := v.value.value], recs);
      }
    }
  }

  lemma {:induction false} FieldsLocal(c: Ctx, d: Ctx, fs: seq<(FieldId, Expr)>, b: Bindings, acc: Fields,
                                       recs: set<RecordId>)
    requires AlikeCtx(c, d, recs) && FieldRecords(fs) <= recs
    ensures EvalFields(c, fs, b, acc) == EvalFields(d, fs, b, acc)
    decreases |fs|
  {
    hide Eval, ExprRecords, AlikeCtx;
    if fs != [] {
      EvalLocal(c, d, fs[0].1, b, recs);
      var v := Eval(c, fs[0].1, b);
      if v.Ok? {
        FieldsLocal(c, d, fs[1..], v.value.b, acc[fs[0].0 := v.value.value], recs);
      }
    }
  }

  lemma PairLocal(c: Ctx, d: Ctx, e: Expr, f: Expr, b: Bindings, recs: set<RecordId>)
    requires AlikeCtx(c, d, recs) && ExprRecords(e) <= recs && ExprRecords(f) <= recs
    ensures Eval(c, e, b) == Eval(d, e, b)
    ensures Eval(c, e, b).Ok? ==> Eval(c, f, Eval(c, e, b).value.b) == Eval(d, f, Eval(c, e, b).value.b)
  {
    hide Eval, ExprRecords, AlikeCtx;
    EvalLocal(c, d, e, b, recs);
    if Eval(c, e, b).Ok? {
      EvalLocal(c, d, f, Eval(c, e, b).value.b, recs);
    }
  }

  lemma TripleLocal(c: Ctx, d: Ctx, e: Expr, f: Expr, g: Expr, b: Bindings, recs: set<RecordId>)
    requires AlikeCtx(c, d, recs) && ExprRecords(e) <= recs && ExprRecords(f) <= recs && ExprRecords(g) <= recs
    ensures Eval(c, e, b) == Eval(d, e, b)
    ensures Eval(c, e, b).Ok? ==> Eval(c, f, Eval(c, e, b).value.b) == Eval(d, f, Eval(c, e, b).value.b)
    ensures Eval(c, e, b).Ok? && Eval(c, f, Eval(c, e, b).value.b).Ok? ==>
              var b' := Eval(c, f, Eval(c, e, b).value.b).value.b; Eval(c, g, b') == Eval(d, g, b')
  {
    hide Eval, ExprRecords, AlikeCtx;
    PairLocal(c, d, e, f, b, recs);
    if Eval(c, e, b).Ok? {
      PairLocal(c, d, f, g, Eval(c, e, b).value.b, recs);
    }
  }

  lemma LiteralLocal(c: Ctx, d: Ctx, k: EffectKind, b: Bindings, recs: set<RecordId>)
    requires AlikeCtx(c, d, recs) && EffectRecords(c.m, k) <= recs
    ensures Literal(c, k, b) == Literal(d, k, b)
  {
    hide Eval, ExprRecords, AlikeCtx, EvalFields, FieldRecords, ResourceRecords;
    match k
    case EAssign(p, v) => PairLocal(c, d, p.key, v, b, recs);
    case EIncrement(p, v) => PairLocal(c, d, p.key, v, b, recs);
    case EDecrement(p, v) => PairLocal(c, d, p.key, v, b, recs);
    case EInsert(_, key, fs) => InsertLocal(c, d, key, fs, b, recs);
    case EDelete(_, key) => EvalLocal(c, d, key, b, recs);
    case EAddToSet(p, v) => PairLocal(c, d, p.key, v, b, recs);
    case ERemoveFromSet(p, v) => PairLocal(c, d, p.key, v, b, recs);
    case ECompareAndSwap(p, e, v) => TripleLocal(c, d, p.key, e, v, b, recs);
    case EReserve(_, key, id, a) => TripleLocal(c, d, key, id, a, b, recs);
    case ERelease(_, key, id, a) => TripleLocal(c, d, key, id, a, b, recs);
    case ETransfer(p, q, a) => TripleLocal(c, d, p.key, q.key, a, b, recs);
    case EAdvance(p, _, _) => EvalLocal(c, d, p.key, b, recs);
    case EEmitFact(_, key, fs) => InsertLocal(c, d, key, fs, b, recs);
  }

  lemma InsertLocal(c: Ctx, d: Ctx, key: Expr, fs: seq<(FieldId, Expr)>, b: Bindings, recs: set<RecordId>)
    requires AlikeCtx(c, d, recs) && ExprRecords(key) <= recs && FieldRecords(fs) <= recs
    ensures Eval(c, key, b) == Eval(d, key, b)
    ensures Eval(c, key, b).Ok? ==>
              EvalFields(c, fs, Eval(c, key, b).value.b, map[]) == EvalFields(d, fs, Eval(c, key, b).value.b, map[])
  {
    hide Eval, ExprRecords, AlikeCtx, EvalFields, FieldRecords;
    EvalLocal(c, d, key, b, recs);
    if Eval(c, key, b).Ok? {
      FieldsLocal(c, d, fs, Eval(c, key, b).value.b, map[], recs);
    }
  }

  lemma LiteralRecords(c: Ctx, k: EffectKind, b: Bindings)
    ensures Literal(c, k, b).Ok? ==> AppliedRecords(c.m, Literal(c, k, b).value.value) <= EffectRecords(c.m, k)
  {
    hide Eval, ExprRecords, EvalFields, FieldRecords, ResourceRecords;
  }

  ghost function Load(p: Progress, recs: set<RecordId>): Progress {
    p.(cand := Restrict(p.cand, recs))
  }

  ghost function LoadOr(p: Or<Progress>, recs: set<RecordId>): Or<Progress> {
    match p
    case Go(q) => Go(Load(q, recs))
    case Stop(why) => Stop(why)
  }

  lemma GuardLocal(c: Ctx, d: Ctx, g: Option<Expr>, b: Bindings, recs: set<RecordId>)
    requires AlikeCtx(c, d, recs) && OptionRecords(g) <= recs
    ensures g.Some? ==> Eval(c, g.value, b) == Eval(d, g.value, b)
  {
    hide Eval, ExprRecords, AlikeCtx;
    if g.Some? {
      EvalLocal(c, d, g.value, b, recs);
    }
  }

  lemma LoadedCtx(m: Module, args: seq<Value>, pre: State, cand: State, recs: set<RecordId>)
    ensures AlikeCtx(Ctx(m, args, None, pre, cand), Ctx(m, args, None, Restrict(pre, recs), Restrict(cand, recs)), recs)
  {
    hide Restrict;
    RestrictAlike(pre, recs);
    RestrictAlike(cand, recs);
  }

  lemma EffectRestrict(m: Module, args: seq<Value>, pre: State, ef: Effect, p: Progress, recs: set<RecordId>)
    requires OptionRecords(ef.guard) + EffectRecords(m, ef.kind) <= recs
    ensures RunEffect(m, args, Restrict(pre, recs), ef, Load(p, recs)) == LoadOr(RunEffect(m, args, pre, ef, p), recs)
  {
    hide Eval, ExprRecords, AlikeCtx, Literal, ApplyLiteral, EffectRecords, OptionRecords, AppliedRecords, Restrict;
    var c := Ctx(m, args, None, pre, p.cand);
    var d := Ctx(m, args, None, Restrict(pre, recs), Restrict(p.cand, recs));
    LoadedCtx(m, args, pre, p.cand, recs);
    GuardLocal(c, d, ef.guard, p.b, recs);
    var b := if ef.guard.None? then Ok(Got(Bool(true), p.b)) else Eval(c, ef.guard.value, p.b);
    if b.Ok? {
      LiteralLocal(c, d, ef.kind, b.value.b, recs);
      LiteralRecords(c, ef.kind, b.value.b);
      var a := Literal(c, ef.kind, b.value.b);
      if a.Ok? {
        ApplyRestrict(m, p.cand, a.value.value, recs);
      }
    }
  }

  lemma EffectFrame(m: Module, args: seq<Value>, pre: State, ef: Effect, p: Progress, recs: set<RecordId>)
    requires EffectRecords(m, ef.kind) <= recs
    ensures RunEffect(m, args, pre, ef, p).Go? ==> Untouched(p.cand, RunEffect(m, args, pre, ef, p).value.cand, recs)
  {
    hide Eval, ExprRecords, Literal, ApplyLiteral, EffectRecords, AppliedRecords;
    var c := Ctx(m, args, None, pre, p.cand);
    var b := if ef.guard.None? then Ok(Got(Bool(true), p.b)) else Eval(c, ef.guard.value, p.b);
    if b.Ok? {
      LiteralRecords(c, ef.kind, b.value.b);
      var a := Literal(c, ef.kind, b.value.b);
      if a.Ok? {
        ApplyFrame(m, p.cand, a.value.value);
      }
    }
  }

  lemma {:induction false} EffectsRestrict(m: Module, args: seq<Value>, pre: State, efs: seq<Effect>, p: Progress,
                                           recs: set<RecordId>)
    requires forall ef :: ef in efs ==> OptionRecords(ef.guard) + EffectRecords(m, ef.kind) <= recs
    ensures RunEffects(m, args, Restrict(pre, recs), efs, Load(p, recs)) ==
            LoadOr(RunEffects(m, args, pre, efs, p), recs)
    ensures RunEffects(m, args, pre, efs, p).Go? ==>
            Untouched(p.cand, RunEffects(m, args, pre, efs, p).value.cand, recs)
    decreases |efs|
  {
    hide RunEffect, EffectRecords, OptionRecords, Restrict, Untouched;
    if efs == [] {
      UntouchedSelf(p.cand, recs);
    } else {
      EffectRestrict(m, args, pre, efs[0], p, recs);
      EffectFrame(m, args, pre, efs[0], p, recs);
      var q := RunEffect(m, args, pre, efs[0], p);
      if q.Go? {
        EffectsRestrict(m, args, pre, efs[1..], q.value, recs);
        var r := RunEffects(m, args, pre, efs[1..], q.value);
        if r.Go? {
          UntouchedTrans(p.cand, q.value.cand, r.value.cand, recs);
        }
      }
    }
  }

  lemma UntouchedSelf(s: State, recs: set<RecordId>)
    ensures Untouched(s, s, recs)
  {
  }

  ghost function LoadBody(r: Or<(Progress, Bindings)>, recs: set<RecordId>): Or<(Progress, Bindings)> {
    match r
    case Go(x) => Go((Load(x.0, recs), x.1))
    case Stop(why) => Stop(why)
  }

  lemma DemandLocal(c: Ctx, d: Ctx, e: Expr, b: Bindings, code: ErrorCode, stage: Stage, recs: set<RecordId>)
    requires AlikeCtx(c, d, recs) && ExprRecords(e) <= recs
    ensures Demand(c, e, b, code, stage) == Demand(d, e, b, code, stage)
  {
    hide Eval, ExprRecords, AlikeCtx;
    EvalLocal(c, d, e, b, recs);
  }

  /** The body of an operation neither sees nor changes records outside its footprint. */
  lemma BodyRestrict(m: Module, op: Operation, args: seq<Value>, pre: State, recs: set<RecordId>)
    requires OperationCovered(m, op, recs)
    ensures RunBody(m, op, args, Restrict(pre, recs)) == LoadBody(RunBody(m, op, args, pre), recs)
    ensures RunBody(m, op, args, pre).Go? ==> Untouched(pre, RunBody(m, op, args, pre).value.0.cand, recs)
  {
    hide Demand, ReadAll, RunEffects, ExprRecords, ReadRecords, EffectRecords, OptionRecords, Restrict, Untouched,
         AlikeCtx, ArgsFit;
    if ArgsFit(args, op.params) {
      var c, d := Ctx(m, args, None, pre, pre), Ctx(m, args, None, Restrict(pre, recs), Restrict(pre, recs));
      LoadedCtx(m, args, pre, pre, recs);
      DemandLocal(c, d, op.pre, map[], PreconditionRejected, Precondition, recs);
      var b := Demand(c, op.pre, map[], PreconditionRejected, Precondition);
      if b.Go? {
        ReadAllLocal(c, d, op.inputs, b.value, map[], recs);
        var rd := ReadAll(c, op.inputs, b.value, map[]);
        if rd.Go? {
          EffectsRestrict(m, args, pre, op.effects, Progress(pre, rd.value.0, [], []), recs);
          var p := RunEffects(m, args, pre, op.effects, Progress(pre, rd.value.0, [], []));
          if p.Go? {
            LoadedCtx(m, args, pre, p.value.cand, recs);
            DemandLocal(Ctx(m, args, None, pre, p.value.cand),
                        Ctx(m, args, None, Restrict(pre, recs), Restrict(p.value.cand, recs)),
                        op.post, p.value.b, PostconditionRejected, Postcondition, recs);
          }
        }
      }
    }
  }

  // ---------------------------------------------------------------------------
  // Main results
  // ---------------------------------------------------------------------------

  /** Invariants outside the scope hold before the operation. */
  ghost predicate HoldOutside(m: Module, pre: State, ids: set<InvariantId>) {
    forall inv :: inv in m.invariants && inv.id !in ids ==> CheckInvariant(m, inv, pre, pre) == Checked([], None)
  }

  lemma {:induction false} ValidHolds(m: Module, invs: seq<Invariant>, pre: State, post: State, inv: Invariant)
    requires CheckScoped(m, invs, pre, post, None) == Ok([]) && inv in invs
    ensures CheckInvariant(m, inv, pre, post) == Checked([], None)
    decreases |invs|
  {
    hide CheckInvariant;
    var c := CheckInvariant(m, invs[0], pre, post);
    assert c.error == None && c.found == [];
    if inv != invs[0] {
      ValidHolds(m, invs[1..], pre, post, inv);
    }
  }

  lemma {:induction false} FactsScoped(invs: seq<Invariant>, r: OpRef, args: seq<Value>, pre: State,
                                       ids: set<InvariantId>)
    requires forall inv :: inv in invs && inv.id !in ids ==> !ByRequires(inv, r.operation)
    ensures CheckFacts(invs, r, args, pre, Some(ids)) == CheckFacts(invs, r, args, pre, None)
    decreases |invs|
  {
    hide FactKey, Lookup;
    if invs != [] {
      assert invs[0] in invs;
      FactsScoped(invs[1..], r, args, pre, ids);
    }
  }

  lemma {:induction false} ChecksScoped(m: Module, invs: seq<Invariant>, pre: State, post: State, ids: set<InvariantId>)
    requires forall inv :: inv in invs && inv.id !in ids ==> CheckInvariant(m, inv, pre, post) == Checked([], None)
    ensures CheckScoped(m, invs, pre, post, Some(ids)) == CheckScoped(m, invs, pre, post, None)
    decreases |invs|
  {
    hide CheckInvariant;
    if invs != [] {
      assert invs[0] in invs;
      ChecksScoped(m, invs[1..], pre, post, ids);
      var rest := CheckScoped(m, invs[1..], pre, post, None);
      if rest.Ok? {
        assert [] + rest.value == rest.value;
      }
    }
  }

  /** An invariant outside the closure cannot tell the state after the operation from the state before. */
  lemma OutsideUnchanged(m: Module, op: Operation, inv: Invariant, pre: State, post: State, recs: set<RecordId>,
                         ids: set<InvariantId>)
    requires IsClosure(op, m.invariants, recs, ids) && inv in m.invariants && inv.id !in ids
    requires LawRecords(inv.law) <= InvariantRecords(inv) && Untouched(pre, post, recs)
    ensures CheckInvariant(m, inv, pre, post) == CheckInvariant(m, inv, pre, pre)
    ensures !ByRequires(inv, op.identity.operation)
  {
    hide CheckInvariant, InvariantRecords, LawRecords;
    assert !Affected(inv, op.identity.operation, recs);
    var own := InvariantRecords(inv);
    assert own * recs == {};
    forall r | r in own
      ensures TableOf(post, r) == TableOf(pre, r)
    {
      assert r !in own * recs;
    }
    InvariantLocal(m, inv, pre, post, pre, pre, own);
  }

  lemma {:induction false} Resolving(m: Module, invs: seq<Invariant>, inv: Invariant)
    requires inv in invs
    ensures FindInvariant(invs, inv.id).Ok?
  {
    if invs[0] != inv {
      Resolving(m, invs[1..], inv);
    }
  }

  lemma ClosureResolves(m: Module, op: Operation, recs: set<RecordId>, ids: set<InvariantId>)
    requires IsClosure(op, m.invariants, recs, ids)
    ensures Resolves(m, ids)
  {
    forall id | id in ids
      ensures FindInvariant(m.invariants, id).Ok?
    {
      var inv :| inv in m.invariants && inv.id == id && Affected(inv, op.identity.operation, recs);
      Resolving(m, m.invariants, inv);
    }
  }

  lemma {:induction false} FoundOperation(ops: seq<Operation>, r: OpRef)
    ensures FindOperation(ops, r).Ok? ==>
            FindOperation(ops, r).value in ops && FindOperation(ops, r).value.identity == r
  {
    if ops != [] && ops[0].identity != r {
      FoundOperation(ops[1..], r);
    }
  }

  lemma CoveredMore(m: Module, op: Operation, a: set<RecordId>, b: set<RecordId>)
    requires OperationCovered(m, op, a) && a <= b
    ensures OperationCovered(m, op, b)
  {
    hide ExprRecords, ReadRecords, EffectRecords, OptionRecords;
  }

  /** Checking only the invariants of the closure gives exactly the outcome of checking all of them. */
  lemma ScopedIsFull(m: Module, r: OpRef, op: Operation, args: seq<Value>, pre: State, recs: set<RecordId>,
                     ids: set<InvariantId>)
    requires WellFormed(m) && FindOperation(m.operations, r) == Ok(op)
    requires IsClosure(op, m.invariants, recs, ids) && HoldOutside(m, pre, ids)
    ensures EvaluateScoped(m, r, args, pre, ids) == Evaluate(m, r, args, pre)
  {
    hide RunBody, CheckFacts, CheckScoped, Finish, OperationCovered, LawRecords, InvariantRecords, CheckInvariant,
         Untouched,
         Resolves;
    FoundOperation(m.operations, r);
    CoveredMore(m, op, FootprintRecords(op), recs);
    BodyRestrict(m, op, args, pre, recs);
    ClosureResolves(m, op, recs, ids);
    var body := RunBody(m, op, args, pre);
    if body.Go? {
      var post := body.value.0.cand;
      forall inv | inv in m.invariants && inv.id !in ids
        ensures CheckInvariant(m, inv, pre, post) == Checked([], None) && !ByRequires(inv, r.operation)
      {
        OutsideUnchanged(m, op, inv, pre, post, recs, ids);
      }
      FactsScoped(m.invariants, r, args, pre, ids);
      ChecksScoped(m, m.invariants, pre, post, ids);
    }
  }

  /**
    When the scoped evaluation accepts, it is the full one exactly if nothing outside the closure was
    already broken.
   */
  lemma ScopedIsFullExactly(m: Module, r: OpRef, op: Operation, args: seq<Value>, pre: State, recs: set<RecordId>,
                            ids: set<InvariantId>)
    requires WellFormed(m) && FindOperation(m.operations, r) == Ok(op) && IsClosure(op, m.invariants, recs, ids)
    requires EvaluateScoped(m, r, args, pre, ids).Ok? && EvaluateScoped(m, r, args, pre, ids).value.Accepted?
    ensures EvaluateScoped(m, r, args, pre, ids) == Evaluate(m, r, args, pre) <==> HoldOutside(m, pre, ids)
  {
    hide RunBody, CheckFacts, CheckScoped, Finish, OperationCovered, LawRecords, InvariantRecords, CheckInvariant,
         Untouched,
         Resolves, IsClosure;
    if HoldOutside(m, pre, ids) {
      ScopedIsFull(m, r, op, args, pre, recs, ids);
    } else if EvaluateScoped(m, r, args, pre, ids) == Evaluate(m, r, args, pre) {
      AcceptedHolds(m, r, op, args, pre, recs, ids);
    }
  }

  lemma AcceptedHolds(m: Module, r: OpRef, op: Operation, args: seq<Value>, pre: State, recs: set<RecordId>,
                      ids: set<InvariantId>)
    requires WellFormed(m) && FindOperation(m.operations, r) == Ok(op) && IsClosure(op, m.invariants, recs, ids)
    requires Evaluate(m, r, args, pre).Ok? && Evaluate(m, r, args, pre).value.Accepted?
    ensures HoldOutside(m, pre, ids)
  {
    hide RunBody, CheckFacts, CheckScoped, Finish, OperationCovered, LawRecords, InvariantRecords, CheckInvariant,
         Untouched;
    FoundOperation(m.operations, r);
    CoveredMore(m, op, FootprintRecords(op), recs);
    BodyRestrict(m, op, args, pre, recs);
    var post := RunBody(m, op, args, pre).value.0.cand;
    forall inv | inv in m.invariants && inv.id !in ids
      ensures CheckInvariant(m, inv, pre, pre) == Checked([], None)
    {
      OutsideUnchanged(m, op, inv, pre, post, recs, ids);
      ValidHolds(m, m.invariants, pre, post, inv);
    }
  }

  /** An outcome, with its post-state cut down to the loaded records. */
  ghost function LoadOutcome(o: Result<Outcome>, recs: set<RecordId>): Result<Outcome> {
    match o
    case Ok(Accepted(c)) => Ok(Accepted(c.(post := Restrict(c.post, recs))))
    case _ => o
  }

  lemma FactsLoaded(invs: seq<Invariant>, r: OpRef, args: seq<Value>, pre: State, ids: set<InvariantId>,
                    recs: set<RecordId>)
    requires forall inv :: inv in invs && inv.id in ids ==> LawRecords(inv.law) <= recs
    ensures CheckFacts(invs, r, args, Restrict(pre, recs), Some(ids)) == CheckFacts(invs, r, args, pre, Some(ids))
    decreases |invs|
  {
    hide FactKey, Restrict, Lookup, LawRecords;
    if invs != [] {
      assert invs[0] in invs;
      FactsLoaded(invs[1..], r, args, pre, ids, recs);
      if invs[0].id in ids && invs[0].law.RequiresFact? && FactKey(args, invs[0].law.keyParams).Ok? {
        FactRecord(invs[0].law);
        RestrictGet(pre, invs[0].law.fact, FactKey(args, invs[0].law.keyParams).value, recs);
      }
    }
  }

  lemma FactRecord(p: Predicate)
    requires p.RequiresFact?
    ensures p.fact in LawRecords(p)
  {
  }

  lemma {:induction false} ChecksLoaded(m: Module, invs: seq<Invariant>, pre: State, post: State,
                                        ids: set<InvariantId>, recs: set<RecordId>)
    requires forall inv :: inv in invs && inv.id in ids ==> LawRecords(inv.law) <= recs
    ensures CheckScoped(m, invs, Restrict(pre, recs), Restrict(post, recs), Some(ids)) ==
            CheckScoped(m, invs, pre, post, Some(ids))
    decreases |invs|
  {
    hide CheckInvariant, LawRecords, Restrict;
    if invs != [] {
      assert invs[0] in invs;
      ChecksLoaded(m, invs[1..], pre, post, ids, recs);
      if invs[0].id in ids {
        RestrictAlike(pre, recs);
        RestrictAlike(post, recs);
        InvariantLocal(m, invs[0], pre, post, Restrict(pre, recs), Restrict(post, recs), recs);
      }
    }
  }

  lemma ScopeLoaded(m: Module, op: Operation, inv: Invariant, recs: set<RecordId>, ids: set<InvariantId>)
    requires WellFormed(m) && IsClosure(op, m.invariants, recs, ids) && inv in m.invariants && inv.id in ids
    ensures LawRecords(inv.law) <= recs
  {
    hide LawRecords, InvariantRecords, OperationCovered;
    var same :| same in m.invariants && same.id == inv.id && Affected(same, op.identity.operation, recs);
    var i :| 0 <= i < |m.invariants| && m.invariants[i] == inv;
    var j :| 0 <= j < |m.invariants| && m.invariants[j] == same;
    assert i == j;
  }

  /**
    On the loaded records alone the scoped evaluation gives the same outcome, with the loaded part of
    its post-state.
   */
  lemma LoadedIsScoped(m: Module, r: OpRef, op: Operation, args: seq<Value>, pre: State, recs: set<RecordId>,
                       ids: set<InvariantId>)
    requires WellFormed(m) && FindOperation(m.operations, r) == Ok(op) && IsClosure(op, m.invariants, recs, ids)
    ensures EvaluateScoped(m, r, args, Restrict(pre, recs), ids) ==
            LoadOutcome(EvaluateScoped(m, r, args, pre, ids), recs)
  {
    hide RunBody, CheckFacts, CheckScoped, OperationCovered, LawRecords, InvariantRecords, Untouched, Resolves,
         Restrict, Eval,
         ExprRecords, AlikeCtx;
    FoundOperation(m.operations, r);
    CoveredMore(m, op, FootprintRecords(op), recs);
    BodyRestrict(m, op, args, pre, recs);
    forall inv | inv in m.invariants && inv.id in ids
      ensures LawRecords(inv.law) <= recs
    {
      ScopeLoaded(m, op, inv, recs, ids);
    }
    FactsLoaded(m.invariants, r, args, pre, ids, recs);
    var body := RunBody(m, op, args, pre);
    if body.Go? {
      var p := body.value.0;
      ChecksLoaded(m, m.invariants, pre, p.cand, ids, recs);
      FinishLoaded(m, op, args, pre, p, body.value.1, recs);
    }
  }

  lemma FinishLoaded(m: Module, op: Operation, args: seq<Value>, pre: State, p: Progress, captured: Bindings,
                     recs: set<RecordId>)
    requires OperationCovered(m, op, recs)
    ensures Finish(m, op, args, Restrict(pre, recs), Load(p, recs), captured)
            == match Finish(m, op, args, pre, p, captured)
               case Accepted(c) => Accepted(c.(post := Restrict(c.post, recs)))
               case Rejected(why) => Rejected(why)
  {
    hide Eval, ExprRecords, AlikeCtx, Restrict, ReadRecords, EffectRecords, OptionRecords;
    LoadedCtx(m, args, pre, p.cand, recs);
    EvalLocal(Ctx(m, args, None, pre, p.cand), Ctx(m, args, None, Restrict(pre, recs), Restrict(p.cand, recs)),
              op.result, p.b, recs);
  }

  /**
    The runtime's evaluation, on the loaded closure and against its invariants only, agrees with the
    reference evaluation of the whole state, whenever that state satisfies every invariant.
   */
  lemma ScopedEvaluationPreservesMeaning(m: Module, r: OpRef, op: Operation, args: seq<Value>, pre: State,
                                         recs: set<RecordId>, ids: set<InvariantId>)
    requires WellFormed(m) && FindOperation(m.operations, r) == Ok(op) && IsClosure(op, m.invariants, recs, ids)
    requires CheckInvariants(m, pre, pre) == Ok([])
    ensures EvaluateScoped(m, r, args, pre, ids) == Evaluate(m, r, args, pre)
    ensures EvaluateScoped(m, r, args, Restrict(pre, recs), ids) == LoadOutcome(Evaluate(m, r, args, pre), recs)
  {
    hide WellFormed, IsClosure, Evaluate, EvaluateScoped, Restrict, CheckInvariant, FindOperation, CheckScoped;
    forall inv | inv in m.invariants
      ensures CheckInvariant(m, inv, pre, pre) == Checked([], None)
    {
      ValidHolds(m, m.invariants, pre, pre, inv);
    }
    ScopedIsFull(m, r, op, args, pre, recs, ids);
    LoadedIsScoped(m, r, op, args, pre, recs, ids);
  }
}
