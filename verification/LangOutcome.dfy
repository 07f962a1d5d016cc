/**
  What becomes of an invocation: its stages, each said through the meaning of expressions, through
  what a literal effect is made of, and through the laws. The interpreter, which threads one map of
  bindings through all stages, gives exactly that outcome for operations whose variables are fresh.
 */
module LangOutcome {
  import opened Basics
  import opened LangTypes
  import opened LangEval
  import opened LangMeaning
  import opened LangLaws
  import opened LangTotals

  // ---------------------------------------------------------------------------
  // Reads
  // ---------------------------------------------------------------------------

  /** A row value, if the row passes a scan's filter. */
  ghost function RowHit(c: Ctx, b: Bindings, r: RecordId, x: BindingId, filter: Expr, row: Fields):
    Result<Option<Value>>
  {
    var v :- RowValue(c.m, r, row);
    var f :- Means(c, b[x := v], filter);
    Ok(if f == Bool(true) then Some(v) else None)
  }

  /** The first row in error. */
  ghost predicate FirstMiss(c: Ctx, b: Bindings, r: RecordId, x: BindingId, filter: Expr, t: Table, i: nat) {
    && i < |t| && RowHit(c, b, r, x, filter, t[i].1).Err?
    && forall j :: 0 <= j < i ==> RowHit(c, b, r, x, filter, t[j].1).Ok?
  }

  ghost predicate Hits(c: Ctx, b: Bindings, r: RecordId, x: BindingId, filter: Expr, t: Table, v: Value) {
    exists i :: 0 <= i < |t| && RowHit(c, b, r, x, filter, t[i].1) == Ok(Some(v))
  }

  /** A scan collects, as a set, exactly the rows that pass; an error in any row is the scan's. */
  lemma {:induction false} ScansExactly(c: Ctx, b: Bindings, r: RecordId, x: BindingId, filter: Expr, t: Table,
                                        left: Bindings, found: seq<Value>)
    requires x !in b && left - {x} == b && Fresh(filter, b.Keys + {x}) && Ascending(found)
    ensures var s := ScanRows(c, r, x, filter, t, left, found);
            && (s.Ok? ==>
                  && (forall i :: 0 <= i < |t| ==> RowHit(c, b, r, x, filter, t[i].1).Ok?)
                  && s.value.b - {x} == b && Ascending(s.value.value)
                  && forall v :: v in s.value.value <==> v in found || Hits(c, b, r, x, filter, t, v))
            && (s.Err? ==> exists i: nat :: FirstMiss(c, b, r, x, filter, t, i)
                                       && RowHit(c, b, r, x, filter, t[i].1) == Err(s.code))
    decreases |t|
  {
    hide Eval, Means, Fresh, RowValue, Ascending, AddItem;
    if t == [] {
      assert forall v :: !Hits(c, b, r, x, filter, t, v);
    } else {
      var row := RowValue(c.m, r, t[0].1);
      assert t == [t[0]] + t[1..];
      if row.Err? {
        assert FirstMiss(c, b, r, x, filter, t, 0);
      } else {
        Rebind(b, left, x, row.value);
        EvalIsMeaning(c, filter, b[x := row.value]);
        var f := Means(c, b[x := row.value], filter);
        if f.Err? {
          assert FirstMiss(c, b, r, x, filter, t, 0);
        } else {
          AddItemExact(found, row.value);
          var more := if f.value == Bool(true) then AddItem(found, row.value) else found;
          ScansExactly(c, b, r, x, filter, t[1..], b[x := row.value], more);
          ScanSteps(c, b, r, x, filter, t);
        }
      }
    }
  }

  lemma ScanSteps(c: Ctx, b: Bindings, r: RecordId, x: BindingId, filter: Expr, t: Table)
    requires t != [] && RowHit(c, b, r, x, filter, t[0].1).Ok?
    ensures forall v :: Hits(c, b, r, x, filter, t, v)
                        <==> RowHit(c, b, r, x, filter, t[0].1) == Ok(Some(v)) || Hits(c, b, r, x, filter, t[1..], v)
    ensures forall i: nat :: FirstMiss(c, b, r, x, filter, t[1..], i) ==>
              FirstMiss(c, b, r, x, filter, t, i + 1) && t[i + 1] == t[1..][i]
    ensures (forall i :: 0 <= i < |t| - 1 ==> RowHit(c, b, r, x, filter, t[1..][i].1).Ok?) ==>
            forall i :: 0 <= i < |t| ==> RowHit(c, b, r, x, filter, t[i].1).Ok?
  {
    hide RowHit;
    var u := t[1..];
    forall v
      ensures Hits(c, b, r, x, filter, t, v)
              <==> RowHit(c, b, r, x, filter, t[0].1) == Ok(Some(v)) || Hits(c, b, r, x, filter, u, v)
    {
      if Hits(c, b, r, x, filter, u, v) {
        var i :| 0 <= i < |u| && RowHit(c, b, r, x, filter, u[i].1) == Ok(Some(v));
        assert t[i + 1] == u[i];
      }
      if Hits(c, b, r, x, filter, t, v) {
        var i :| 0 <= i < |t| && RowHit(c, b, r, x, filter, t[i].1) == Ok(Some(v));
        if i > 0 {
          assert u[i - 1] == t[i];
        }
      }
    }
    forall i: nat | FirstMiss(c, b, r, x, filter, u, i)
      ensures FirstMiss(c, b, r, x, filter, t, i + 1) && t[i + 1] == u[i]
    {
      forall j | 0 <= j < i + 1
        ensures RowHit(c, b, r, x, filter, t[j].1).Ok?
      {
        if j > 0 {
          assert u[j - 1] == t[j];
        }
      }
    }
    if forall i :: 0 <= i < |u| ==> RowHit(c, b, r, x, filter, u[i].1).Ok? {
      forall i | 0 <= i < |t|
        ensures RowHit(c, b, r, x, filter, t[i].1).Ok?
      {
        if i > 0 {
          assert u[i - 1] == t[i];
        }
      }
    }
  }

  ghost predicate KindFresh(k: ReadKind, bound: set<BindingId>) {
    match k
    case ReadRow(_, key) => Fresh(key, bound)
    case ReadOptional(_, key) => Fresh(key, bound)
    case ReadExists(_, key) => Fresh(key, bound)
    case Scan(_, x, filter) => x !in bound && Fresh(filter, bound + {x})
  }

  ghost predicate ScanReads(c: Ctx, b: Bindings, r: RecordId, x: BindingId, filter: Expr, res: Result<Value>) {
    var t := TableOf(c.pre, r);
    if res.Ok? then
      && (forall i :: 0 <= i < |t| ==> RowHit(c, b, r, x, filter, t[i].1).Ok?)
      && res.value.SetOf? && Ascending(res.value.items)
      && forall v :: v in res.value.items <==> Hits(c, b, r, x, filter, t, v)
    else
      exists i: nat :: FirstMiss(c, b, r, x, filter, t, i) && RowHit(c, b, r, x, filter, t[i].1) == Err(res.code)
  }

  ghost function LookupMeans(c: Ctx, r: RecordId, k: Value): Result<Option<Value>> {
    if Get(c.pre, r, k).None? then Ok(None)
    else
      var v :- RowValue(c.m, r, Get(c.pre, r, k).value);
      Ok(Some(v))
  }

  /** What a read brings from the snapshot. */
  ghost predicate Reads(c: Ctx, b: Bindings, k: ReadKind, res: Result<Value>) {
    if k.Scan? then ScanReads(c, b, k.record, k.x, k.filter, res)
    else
      var key := Means(c, b, k.key);
      if key.Err? then res == Err(key.code)
      else if k.ReadExists? then res == Ok(Bool(Get(c.pre, k.record, key.value).Some?))
      else
        var row := LookupMeans(c, k.record, key.value);
        if row.Err? then res == Err(row.code)
        else if k.ReadOptional? then res == Ok(if row.value.None? then NoneOf else SomeOf(row.value.value))
        else res == if row.value.None? then Err(MissingRecord) else Ok(row.value.value)
  }

  lemma ReadsExactly(c: Ctx, k: ReadKind, b: Bindings)
    requires KindFresh(k, b.Keys)
    ensures var r := ReadOne(c, k, b);
            && Reads(c, b, k, if r.Err? then Err(r.code) else Ok(r.value.value))
            && (r.Ok? ==> r.value.b == b)
  {
    hide Eval, Means, Fresh, Get, RowValue, ScanRows, FirstMiss, Hits, RowHit;
    if k.Scan? {
      assert b - {k.x} == b;
      ScansExactly(c, b, k.record, k.x, k.filter, TableOf(c.pre, k.record), b, []);
    } else {
      EvalIsMeaning(c, k.key, b);
    }
  }

  ghost predicate ReadsFresh(rds: seq<Read>, bound: set<BindingId>) {
    rds == [] || (KindFresh(rds[0].kind, bound) && ReadsFresh(rds[1..], bound + {rds[0].binding}))
  }

  /** All reads in order, each bound for the ones after it. */
  ghost predicate AllRead(c: Ctx, rds: seq<Read>, b: Bindings, res: Or<Bindings>) {
    if rds == [] then res == Go(b)
    else exists v: Result<Value> ::
      && Reads(c, b, rds[0].kind, v)
      && if v.Err? then res == Stop(Rejection(v.code, Reading))
         else AllRead(c, rds[1..], b[rds[0].binding := v.value], res)
  }

  lemma {:induction false} AllReadExactly(c: Ctx, rds: seq<Read>, b: Bindings) returns (res: Or<Bindings>)
    requires ReadsFresh(rds, b.Keys)
    ensures AllRead(c, rds, b, res)
    ensures ReadAll(c, rds, b, b) == if res.Stop? then Stop(res.why) else Go((res.value, res.value))
    ensures res.Go? ==> res.value.Keys == b.Keys + set rd | rd in rds :: rd.binding
    decreases |rds|
  {
    hide ReadOne, Reads, KindFresh;
    if rds == [] {
      res := Go(b);
    } else {
      ReadsExactly(c, rds[0].kind, b);
      var r := ReadOne(c, rds[0].kind, b);
      if r.Err? {
        res := Stop(Rejection(r.code, Reading));
        assert Reads(c, b, rds[0].kind, Err(r.code));
      } else {
        var next := b[rds[0].binding := r.value.value];
        assert next.Keys == b.Keys + {rds[0].binding};
        res := AllReadExactly(c, rds[1..], next);
        assert Reads(c, b, rds[0].kind, Ok(r.value.value));
        BindingsOf(rds);
      }
    }
  }

  lemma BindingsOf(rds: seq<Read>)
    requires rds != []
    ensures (set rd | rd in rds :: rd.binding) == {rds[0].binding} + set rd | rd in rds[1..] :: rd.binding
  {
    assert rds == [rds[0]] + rds[1..];
  }

  // ---------------------------------------------------------------------------
  // Effects
  // ---------------------------------------------------------------------------

  ghost function FieldsMean(c: Ctx, b: Bindings, fs: seq<(FieldId, Expr)>, acc: Fields): Result<Fields> {
    if fs == [] then Ok(acc)
    else
      var v :- Means(c, b, fs[0].1);
      FieldsMean(c, b, fs[1..], acc[fs[0].0 := v])
  }

  /** An effect with its expressions replaced by what they mean, key first. */
  ghost function LiteralMeans(c: Ctx, b: Bindings, k: EffectKind): Result<Applied> {
    match k
    case EAssign(p, e) =>
      var key :- Means(c, b, p.key);
      var v :- Means(c, b, e);
      Ok(Assign(p.record, key, p.field, v))
    case EIncrement(p, e) =>
      var key :- Means(c, b, p.key);
      var v :- Means(c, b, e);
      Ok(Increment(p.record, key, p.field, v))
    case EDecrement(p, e) =>
      var key :- Means(c, b, p.key);
      var v :- Means(c, b, e);
      Ok(Decrement(p.record, key, p.field, v))
    case EInsert(r, key, fields) =>
      var kv :- Means(c, b, key);
      var fs :- FieldsMean(c, b, fields, map[]);
      Ok(Insert(r, kv, fs, false))
    case EDelete(r, key) =>
      var kv :- Means(c, b, key);
      Ok(Delete(r, kv))
    case EAddToSet(p, e) =>
      var key :- Means(c, b, p.key);
      var v :- Means(c, b, e);
      Ok(AddToSet(p.record, key, p.field, v))
    case ERemoveFromSet(p, e) =>
      var key :- Means(c, b, p.key);
      var v :- Means(c, b, e);
      Ok(RemoveFromSet(p.record, key, p.field, v))
    case ECompareAndSwap(p, expected, e) =>
      var key :- Means(c, b, p.key);
      var was :- Means(c, b, expected);
      var v :- Means(c, b, e);
      Ok(CompareAndSwap(p.record, key, p.field, was, v))
    case EReserve(resource, key, reservation, amount) =>
      var kv :- Means(c, b, key);
      var id :- Means(c, b, reservation);
      var v :- Means(c, b, amount);
      Ok(Reserve(resource, Claim(kv, id, v)))
    case ERelease(resource, key, reservation, amount) =>
      var kv :- Means(c, b, key);
      var id :- Means(c, b, reservation);
      var v :- Means(c, b, amount);
      Ok(Release(resource, Claim(kv, id, v)))
    case ETransfer(src, dst, amount) =>
      var sk :- Means(c, b, src.key);
      var dk :- Means(c, b, dst.key);
      var v :- Means(c, b, amount);
      Ok(Transfer(src.record, sk, src.field, dst.record, dk, dst.field, v))
    case EAdvance(p, from, next) =>
      var key :- Means(c, b, p.key);
      Ok(Advance(p.record, key, p.field, from, next))
    case EEmitFact(r, key, fields) =>
      var kv :- Means(c, b, key);
      var fs :- FieldsMean(c, b, fields, map[]);
      Ok(Insert(r, kv, fs, true))
  }

  ghost predicate FieldsFresh(fs: seq<(FieldId, Expr)>, bound: set<BindingId>) {
    forall i :: 0 <= i < |fs| ==> Fresh(fs[i].1, bound)
  }

  ghost predicate EffectFresh(k: EffectKind, bound: set<BindingId>) {
    match k
    case EAssign(p, e) => Fresh(p.key, bound) && Fresh(e, bound)
    case EIncrement(p, e) => Fresh(p.key, bound) && Fresh(e, bound)
    case EDecrement(p, e) => Fresh(p.key, bound) && Fresh(e, bound)
    case EInsert(_, key, fields) => Fresh(key, bound) && FieldsFresh(fields, bound)
    case EDelete(_, key) => Fresh(key, bound)
    case EAddToSet(p, e) => Fresh(p.key, bound) && Fresh(e, bound)
    case ERemoveFromSet(p, e) => Fresh(p.key, bound) && Fresh(e, bound)
    case ECompareAndSwap(p, expected, e) => Fresh(p.key, bound) && Fresh(expected, bound) && Fresh(e, bound)
    case EReserve(_, key, id, e) => Fresh(key, bound) && Fresh(id, bound) && Fresh(e, bound)
    case ERelease(_, key, id, e) => Fresh(key, bound) && Fresh(id, bound) && Fresh(e, bound)
    case ETransfer(src, dst, e) => Fresh(src.key, bound) && Fresh(dst.key, bound) && Fresh(e, bound)
    case EAdvance(p, _, _) => Fresh(p.key, bound)
    case EEmitFact(_, key, fields) => Fresh(key, bound) && FieldsFresh(fields, bound)
  }

  lemma {:induction false} FieldsExactly(c: Ctx, b: Bindings, fs: seq<(FieldId, Expr)>, acc: Fields)
    requires FieldsFresh(fs, b.Keys)
    ensures var r, q := EvalFields(c, fs, b, acc), FieldsMean(c, b, fs, acc);
            if q.Err? then r == Err(q.code) else r == Ok(Got(q.value, b))
    decreases |fs|
  {
    hide Eval, Means, Fresh;
    if fs != [] {
      EvalIsMeaning(c, fs[0].1, b);
      if Means(c, b, fs[0].1).Ok? {
        FieldsExactly(c, b, fs[1..], acc[fs[0].0 := Means(c, b, fs[0].1).value]);
      }
    }
  }

  ghost predicate Gives(r: Result<Got<Applied>>, q: Result<Applied>, b: Bindings) {
    if q.Err? then r == Err(q.code) else r == Ok(Got(q.value, b))
  }

  lemma LiteralExactly(c: Ctx, b: Bindings, k: EffectKind)
    requires EffectFresh(k, b.Keys)
    ensures Gives(Literal(c, k, b), LiteralMeans(c, b, k), b)
  {
    hide Eval, Means, Fresh, EvalFields, FieldsMean, FieldsFresh;
    match k
    case EAssign(p, e) => EvalIsMeaning(c, p.key, b); EvalIsMeaning(c, e, b);
    case EIncrement(p, e) => EvalIsMeaning(c, p.key, b); EvalIsMeaning(c, e, b);
    case EDecrement(p, e) => EvalIsMeaning(c, p.key, b); EvalIsMeaning(c, e, b);
    case EInsert(_, key, fields) => EvalIsMeaning(c, key, b); FieldsExactly(c, b, fields, map[]);
    case EDelete(_, key) => EvalIsMeaning(c, key, b);
    case EAddToSet(p, e) => EvalIsMeaning(c, p.key, b); EvalIsMeaning(c, e, b);
    case ERemoveFromSet(p, e) => EvalIsMeaning(c, p.key, b); EvalIsMeaning(c, e, b);
    case ECompareAndSwap(p, x, e) => EvalIsMeaning(c, p.key, b); EvalIsMeaning(c, x, b); EvalIsMeaning(c, e, b);
    case EReserve(_, key, id, e) => EvalIsMeaning(c, key, b); EvalIsMeaning(c, id, b); EvalIsMeaning(c, e, b);
    case ERelease(_, key, id, e) => EvalIsMeaning(c, key, b); EvalIsMeaning(c, id, b); EvalIsMeaning(c, e, b);
    case ETransfer(s, d, e) => EvalIsMeaning(c, s.key, b); EvalIsMeaning(c, d.key, b); EvalIsMeaning(c, e, b);
    case EAdvance(p, _, _) => EvalIsMeaning(c, p.key, b);
    case EEmitFact(_, key, fields) => EvalIsMeaning(c, key, b); FieldsExactly(c, b, fields, map[]);
  }

  /** What one effect comes to in the current candidate state: nothing when its guard is not true. */
  ghost function EffectMeans(c: Ctx, b: Bindings, ef: Effect): Result<Option<Applied>> {
    var go :- if ef.guard.None? then Ok(true) else (var g :- Means(c, b, ef.guard.value); Ok(g == Bool(true)));
    if !go then Ok(None)
    else
      var a :- LiteralMeans(c, b, ef.kind);
      Ok(Some(a))
  }

  /** Where the effects lead, which of them were applied, and how the guards came out. */
  datatype Ran = Ran(cand: State, applied: seq<Applied>, guards: seq<(nat, bool)>)

  ghost function EffectsMean(m: Module, args: seq<Value>, pre: State, cand: State, b: Bindings,
                             efs: seq<Effect>): Or<Ran>
    decreases |efs|
  {
    if efs == [] then Go(Ran(cand, [], []))
    else
      var ef := efs[0];
      var a :- At(EffectMeans(Ctx(m, args, None, pre, cand), b, ef), AtEffect(ef.id));
      var s :- At(if a.None? then Ok(cand) else ApplyLiteral(m, cand, a.value), AtEffect(ef.id));
      var rest :- EffectsMean(m, args, pre, s, b, efs[1..]);
      Go(Ran(rest.cand,
             (if a.None? then [] else [a.value]) + rest.applied,
             (if ef.guard.None? then [] else [(ef.id, a.Some?)]) + rest.guards))
  }

  ghost predicate EffectsFresh(efs: seq<Effect>, bound: set<BindingId>) {
    forall i :: 0 <= i < |efs| ==>
        EffectFresh(efs[i].kind, bound) && (efs[i].guard.Some? ==> Fresh(efs[i].guard.value, bound))
  }

  lemma EffectExactly(m: Module, args: seq<Value>, pre: State, ef: Effect, p: Progress)
    requires EffectFresh(ef.kind, p.b.Keys) && (ef.guard.Some? ==> Fresh(ef.guard.value, p.b.Keys))
    ensures var r := RunEffect(m, args, pre, ef, p);
            var a := EffectMeans(Ctx(m, args, None, pre, p.cand), p.b, ef);
            if a.Err? then r == Stop(Rejection(a.code, AtEffect(ef.id)))
            else
              var guards := p.guards + if ef.guard.None? then [] else [(ef.id, a.value.Some?)];
              if a.value.None? then r == Go(Progress(p.cand, p.b, p.applied, guards))
              else
                var s := ApplyLiteral(m, p.cand, a.value.value);
                if s.Err? then r == Stop(Rejection(s.code, AtEffect(ef.id)))
                else r == Go(Progress(s.value, p.b, p.applied + [a.value.value], guards))
  {
    hide Eval, Means, Fresh, Literal, LiteralMeans, ApplyLiteral, EffectFresh;
    var c := Ctx(m, args, None, pre, p.cand);
    LiteralExactly(c, p.b, ef.kind);
    if ef.guard.Some? {
      EvalIsMeaning(c, ef.guard.value, p.b);
    } else {
      assert p.guards + [] == p.guards;
    }
  }

  lemma {:induction false} EffectsExactly(m: Module, args: seq<Value>, pre: State, efs: seq<Effect>, p: Progress)
    requires EffectsFresh(efs, p.b.Keys)
    ensures var r, q := RunEffects(m, args, pre, efs, p), EffectsMean(m, args, pre, p.cand, p.b, efs);
            if q.Stop? then r == Stop(q.why)
            else r == Go(Progress(q.value.cand, p.b, p.applied + q.value.applied, p.guards + q.value.guards))
    decreases |efs|
  {
    hide RunEffect, EffectMeans, ApplyLiteral, EffectFresh, Fresh;
    if efs == [] {
      assert p.applied + [] == p.applied && p.guards + [] == p.guards;
    } else {
      var ef := efs[0];
      EffectExactly(m, args, pre, ef, p);
      var q := RunEffect(m, args, pre, ef, p);
      if q.Go? {
        EffectsExactly(m, args, pre, efs[1..], q.value);
        var rest := EffectsMean(m, args, pre, q.value.cand, p.b, efs[1..]);
        if rest.Go? {
          Regroup(p.applied, q.value.applied[|p.applied|..], rest.value.applied);
          Regroup(p.guards, q.value.guards[|p.guards|..], rest.value.guards);
          assert q.value.applied == p.applied + q.value.applied[|p.applied|..];
          assert q.value.guards == p.guards + q.value.guards[|p.guards|..];
          assert p.applied + [] == p.applied;
        }
      }
    }
  }

  // ---------------------------------------------------------------------------
  // Invariants
  // ---------------------------------------------------------------------------

  ghost predicate InScope(inv: Invariant, scope: Option<set<InvariantId>>) {
    scope.None? || inv.id in scope.value
  }

  /** The first invariant in scope about which something is to be said: a violation or an error. */
  ghost predicate FirstWord(m: Module, invs: seq<Invariant>, pre: State, post: State, scope: Option<set<InvariantId>>,
                            j: nat)
  {
    && j < |invs| && InScope(invs[j], scope) && CheckInvariant(m, invs[j], pre, post) != Checked([], None)
    && forall i :: 0 <= i < j && InScope(invs[i], scope) ==> CheckInvariant(m, invs[i], pre, post) == Checked([], None)
  }

  ghost predicate Errs(m: Module, invs: seq<Invariant>, pre: State, post: State, scope: Option<set<InvariantId>>) {
    exists i :: 0 <= i < |invs| && InScope(invs[i], scope) && CheckInvariant(m, invs[i], pre, post).error.Some?
  }

  lemma FirstWordNext(m: Module, invs: seq<Invariant>, pre: State, post: State, scope: Option<set<InvariantId>>, j: nat)
    requires invs != [] && FirstWord(m, invs[1..], pre, post, scope, j)
    requires InScope(invs[0], scope) ==> CheckInvariant(m, invs[0], pre, post) == Checked([], None)
    ensures FirstWord(m, invs, pre, post, scope, j + 1) && invs[j + 1] == invs[1..][j]
  {
    hide CheckInvariant;
    forall i | 0 <= i < j + 1 && InScope(invs[i], scope)
      ensures CheckInvariant(m, invs[i], pre, post) == Checked([], None)
    {
      if i > 0 {
        assert invs[i] == invs[1..][i - 1];
      }
    }
  }

  lemma ErrsNext(m: Module, invs: seq<Invariant>, pre: State, post: State, scope: Option<set<InvariantId>>)
    requires invs != []
    ensures Errs(m, invs, pre, post, scope)
            <==> (InScope(invs[0], scope) && CheckInvariant(m, invs[0], pre, post).error.Some?)
                 || Errs(m, invs[1..], pre, post, scope)
  {
    hide CheckInvariant;
    if Errs(m, invs[1..], pre, post, scope) {
      var i :| 0 <= i < |invs| - 1 && InScope(invs[1..][i], scope)
               && CheckInvariant(m, invs[1..][i], pre, post).error.Some?;
      assert invs[i + 1] == invs[1..][i];
    }
    if Errs(m, invs, pre, post, scope) {
      var i :| 0 <= i < |invs| && InScope(invs[i], scope) && CheckInvariant(m, invs[i], pre, post).error.Some?;
      if i > 0 {
        assert invs[1..][i - 1] == invs[i];
      }
    }
  }

  ghost predicate Silent(m: Module, invs: seq<Invariant>, pre: State, post: State, scope: Option<set<InvariantId>>) {
    forall i :: 0 <= i < |invs| && InScope(invs[i], scope) ==>
                  CheckInvariant(m, invs[i], pre, post) == Checked([], None)
  }

  lemma SilentNext(m: Module, invs: seq<Invariant>, pre: State, post: State, scope: Option<set<InvariantId>>)
    requires invs != []
    ensures Silent(m, invs, pre, post, scope)
            <==> (InScope(invs[0], scope) ==> CheckInvariant(m, invs[0], pre, post) == Checked([], None))
                 && Silent(m, invs[1..], pre, post, scope)
  {
    hide CheckInvariant;
    assert forall i :: 0 < i < |invs| ==> invs[i] == invs[1..][i - 1];
    assert forall i :: 0 <= i < |invs| - 1 ==> invs[1..][i] == invs[i + 1];
  }

  lemma {:induction false} ScopedEnds(m: Module, invs: seq<Invariant>, pre: State, post: State,
                                      scope: Option<set<InvariantId>>)
    ensures CheckScoped(m, invs, pre, post, scope).Err? <==> Errs(m, invs, pre, post, scope)
    ensures CheckScoped(m, invs, pre, post, scope) == Ok([]) <==> Silent(m, invs, pre, post, scope)
    decreases |invs|
  {
    hide CheckInvariant, Errs, Silent;
    if invs == [] {
      NoErrs(m, pre, post, scope);
    } else {
      ScopedEnds(m, invs[1..], pre, post, scope);
      ErrsNext(m, invs, pre, post, scope);
      SilentNext(m, invs, pre, post, scope);
      var c, rest := CheckInvariant(m, invs[0], pre, post), CheckScoped(m, invs[1..], pre, post, scope);
      assert rest.Ok? ==> (c.found + rest.value == [] <==> |c.found| + |rest.value| == 0);
    }
  }

  /** The violations of all invariants in scope; the first comes from the first invariant that is broken. */
  lemma {:induction false} ScopedExactly(m: Module, invs: seq<Invariant>, pre: State, post: State,
                                         scope: Option<set<InvariantId>>)
    ensures CheckScoped(m, invs, pre, post, scope).Err? <==> Errs(m, invs, pre, post, scope)
    ensures CheckScoped(m, invs, pre, post, scope) == Ok([]) <==> Silent(m, invs, pre, post, scope)
    ensures var r := CheckScoped(m, invs, pre, post, scope);
            r.Ok? && r.value != [] ==>
              exists j: nat :: FirstWord(m, invs, pre, post, scope, j)
                          && CheckInvariant(m, invs[j], pre, post).found != []
                          && r.value[0] == CheckInvariant(m, invs[j], pre, post).found[0]
    decreases |invs|
  {
    hide CheckInvariant, Errs, Silent;
    ScopedEnds(m, invs, pre, post, scope);
    if invs != [] {
      ScopedExactly(m, invs[1..], pre, post, scope);
      var c, rest := CheckInvariant(m, invs[0], pre, post), CheckScoped(m, invs[1..], pre, post, scope);
      var silent := !InScope(invs[0], scope) || c == Checked([], None);
      if silent && rest.Ok? && rest.value != [] {
        var j: nat :| FirstWord(m, invs[1..], pre, post, scope, j)
                      && CheckInvariant(m, invs[1..][j], pre, post).found != []
                      && rest.value[0] == CheckInvariant(m, invs[1..][j], pre, post).found[0];
        FirstWordNext(m, invs, pre, post, scope, j);
      } else if !silent {
        assert FirstWord(m, invs, pre, post, scope, 0);
        assert c.found != [] && rest.Ok? ==> (c.found + rest.value)[0] == c.found[0];
      }
    }
  }

  lemma NoErrs(m: Module, pre: State, post: State, scope: Option<set<InvariantId>>)
    ensures !Errs(m, [], pre, post, scope) && Silent(m, [], pre, post, scope)
  {
  }

  // ---------------------------------------------------------------------------
  // Facts
  // ---------------------------------------------------------------------------

  /** The invariant asks for a fact before this operation. */
  ghost predicate Asks(inv: Invariant, r: OpRef, scope: Option<set<InvariantId>>) {
    InScope(inv, scope) && inv.law.RequiresFact? && inv.law.operation == r.operation
  }

  /** The arguments at the key positions: alone, or as a tuple. */
  ghost predicate IsFactKey(args: seq<Value>, ps: seq<nat>, k: Value) {
    && (forall i :: 0 <= i < |ps| ==> ps[i] < |args|)
    && if |ps| == 1 then k == args[ps[0]]
       else k.Tuple? && |k.parts| == |ps| && forall i :: 0 <= i < |ps| ==> k.parts[i] == args[ps[i]]
  }

  /** What the invariant asks for is there. */
  ghost predicate Supplied(inv: Invariant, args: seq<Value>, pre: State)
    requires inv.law.RequiresFact?
  {
    exists k :: IsFactKey(args, inv.law.keyParams, k) && Get(pre, inv.law.fact, k).Some?
  }

  lemma FactKeyExactly(args: seq<Value>, ps: seq<nat>, k: Value)
    ensures FactKey(args, ps) == Ok(k) <==> IsFactKey(args, ps, k)
    ensures FactKey(args, ps).Err? <==> exists i :: 0 <= i < |ps| && ps[i] >= |args|
    ensures FactKey(args, ps).Err? ==> FactKey(args, ps) == Err(Panic)
  {
    if k.Tuple? && |k.parts| == |ps| && (forall i :: 0 <= i < |ps| ==> ps[i] < |args| && k.parts[i] == args[ps[i]]) {
      assert k.parts == seq(|ps|, i requires 0 <= i < |ps| => args[ps[i]]);
    }
  }

  /** The first invariant that asks in vain. */
  ghost predicate FirstAsk(invs: seq<Invariant>, r: OpRef, args: seq<Value>, pre: State,
                           scope: Option<set<InvariantId>>, j: nat)
  {
    && j < |invs| && Asks(invs[j], r, scope) && !Supplied(invs[j], args, pre)
    && forall i :: 0 <= i < j && Asks(invs[i], r, scope) ==> Supplied(invs[i], args, pre)
  }

  ghost predicate BadKey(inv: Invariant, args: seq<Value>)
    requires inv.law.RequiresFact?
  {
    exists i :: 0 <= i < |inv.law.keyParams| && inv.law.keyParams[i] >= |args|
  }

  lemma AskAnswered(inv: Invariant, args: seq<Value>, pre: State)
    requires inv.law.RequiresFact?
    ensures BadKey(inv, args) <==> FactKey(args, inv.law.keyParams) == Err(Panic)
    ensures FactKey(args, inv.law.keyParams).Err? ==> FactKey(args, inv.law.keyParams) == Err(Panic)
    ensures Supplied(inv, args, pre)
            <==> FactKey(args, inv.law.keyParams).Ok?
                 && Get(pre, inv.law.fact, FactKey(args, inv.law.keyParams).value).Some?
  {
    hide FactKey, IsFactKey;
    forall k
      ensures FactKey(args, inv.law.keyParams) == Ok(k) <==> IsFactKey(args, inv.law.keyParams, k)
    {
      FactKeyExactly(args, inv.law.keyParams, k);
    }
    FactKeyExactly(args, inv.law.keyParams, Unit);
    if FactKey(args, inv.law.keyParams).Ok? {
      assert IsFactKey(args, inv.law.keyParams, FactKey(args, inv.law.keyParams).value);
    }
  }

  lemma FirstAskNext(invs: seq<Invariant>, r: OpRef, args: seq<Value>, pre: State, scope: Option<set<InvariantId>>,
                     j: nat)
    requires invs != [] && FirstAsk(invs[1..], r, args, pre, scope, j)
    requires Asks(invs[0], r, scope) ==> Supplied(invs[0], args, pre)
    ensures FirstAsk(invs, r, args, pre, scope, j + 1) && invs[j + 1] == invs[1..][j]
  {
    hide Supplied;
    forall i | 0 <= i < j + 1 && Asks(invs[i], r, scope)
      ensures Supplied(invs[i], args, pre)
    {
      if i > 0 {
        assert invs[i] == invs[1..][i - 1];
      }
    }
  }

  /** The facts are all there, or the first one missing decides. */
  lemma {:induction false} FactsExactly(invs: seq<Invariant>, r: OpRef, args: seq<Value>, pre: State,
                                        scope: Option<set<InvariantId>>)
    ensures var f := CheckFacts(invs, r, args, pre, scope);
            && (f == Ok(Go(()))
                <==> forall i :: 0 <= i < |invs| && Asks(invs[i], r, scope) ==> Supplied(invs[i], args, pre))
            && (f != Ok(Go(())) ==> exists j: nat ::
                  && FirstAsk(invs, r, args, pre, scope, j)
                  && f == if BadKey(invs[j], args) then Err(Panic)
                          else Ok(Stop(Rejection(MissingDependency, AtInvariant(invs[j].id)))))
    decreases |invs|
  {
    hide Supplied, BadKey, FactKey, Get;
    if invs != [] {
      FactsExactly(invs[1..], r, args, pre, scope);
      assert forall i :: 0 < i < |invs| ==> invs[i] == invs[1..][i - 1];
      assert forall i :: 0 <= i < |invs| - 1 ==> invs[1..][i] == invs[i + 1];
      if invs[0].law.RequiresFact? {
        AskAnswered(invs[0], args, pre);
      }
      if Asks(invs[0], r, scope) && !Supplied(invs[0], args, pre) {
        assert FirstAsk(invs, r, args, pre, scope, 0);
      } else if CheckFacts(invs[1..], r, args, pre, scope) != Ok(Go(())) {
        var f := CheckFacts(invs[1..], r, args, pre, scope);
        var j: nat :| FirstAsk(invs[1..], r, args, pre, scope, j)
                      && f == if BadKey(invs[1..][j], args) then Err(Panic)
                              else Ok(Stop(Rejection(MissingDependency, AtInvariant(invs[1..][j].id))));
        FirstAskNext(invs, r, args, pre, scope, j);
      }
    }
  }

  // ---------------------------------------------------------------------------
  // The outcome
  // ---------------------------------------------------------------------------

  ghost predicate WellScoped(op: Operation) {
    var bound := set rd | rd in op.inputs :: rd.binding;
    && Fresh(op.pre, {}) && ReadsFresh(op.inputs, {}) && EffectsFresh(op.effects, bound)
    && Fresh(op.post, bound) && Fresh(op.result, bound)
  }

  /** A condition stage: its own error, its rejection when it is not true, or on to the next. */
  ghost predicate Condition(v: Result<Value>, code: ErrorCode, stage: Stage, out: Result<Outcome>) {
    if v.Err? then out == Ok(Rejected(Rejection(v.code, stage)))
    else v.value != Bool(true) && out == Ok(Rejected(Rejection(code, stage)))
  }

  /** From the effects on, with the reads bound. */
  ghost predicate EndsAs(m: Module, op: Operation, r: OpRef, args: seq<Value>, pre: State,
                         scope: Option<set<InvariantId>>, b: Bindings, out: Result<Outcome>)
  {
    var ran := EffectsMean(m, args, pre, pre, b, op.effects);
    if ran.Stop? then out == Ok(Rejected(ran.why))
    else
      var c := Ctx(m, args, None, pre, ran.value.cand);
      var post := Means(c, b, op.post);
      if post != Ok(Bool(true)) then Condition(post, PostconditionRejected, Postcondition, out)
      else if exists j: nat :: FirstAsk(m.invariants, r, args, pre, scope, j) then
        exists j: nat ::
          && FirstAsk(m.invariants, r, args, pre, scope, j)
          && out == if BadKey(m.invariants[j], args) then Err(Panic)
                    else Ok(Rejected(Rejection(MissingDependency, AtInvariant(m.invariants[j].id))))
      else if Errs(m, m.invariants, pre, ran.value.cand, scope) then out.Err?
      else if exists j: nat :: FirstWord(m, m.invariants, pre, ran.value.cand, scope, j) then
        exists j: nat ::
          && FirstWord(m, m.invariants, pre, ran.value.cand, scope, j)
          && CheckInvariant(m, m.invariants[j], pre, ran.value.cand).found != []
          && var first := CheckInvariant(m, m.invariants[j], pre, ran.value.cand).found[0];
             out == Ok(Rejected(Rejection(InvariantRejected, AtInvariant(first.id))))
      else
        var result := Means(c, b, op.result);
        if result.Err? then out == Ok(Rejected(Rejection(result.code, Returning)))
        else out == Ok(Accepted(Candidate(ran.value.cand, ran.value.applied, result.value, b, ran.value.guards)))
  }

  /** The whole invocation. */
  ghost predicate Comes(m: Module, op: Operation, r: OpRef, args: seq<Value>, pre: State,
                        scope: Option<set<InvariantId>>, out: Result<Outcome>)
  {
    var c := Ctx(m, args, None, pre, pre);
    var v := Means(c, map[], op.pre);
    if |args| != |op.params| || exists i :: 0 <= i < |args| && !Fits(args[i], op.params[i])
    then out == Ok(Rejected(Rejection(TypeMismatch, Definedness)))
    else if v != Ok(Bool(true)) then Condition(v, PreconditionRejected, Precondition, out)
    else exists rd: Or<Bindings> ::
      && AllRead(c, op.inputs, map[], rd)
      && if rd.Stop? then out == Ok(Rejected(rd.why)) else EndsAs(m, op, r, args, pre, scope, rd.value, out)
  }

  /** The part of the evaluation that follows the body. */
  lemma TailExactly(m: Module, op: Operation, r: OpRef, args: seq<Value>, pre: State,
                    scope: Option<set<InvariantId>>, b: Bindings, out: Result<Outcome>, ran: Ran)
    requires FindOperation(m.operations, r) == Ok(op) && Fresh(op.result, b.Keys)
    requires EffectsMean(m, args, pre, pre, b, op.effects) == Go(ran)
    requires Means(Ctx(m, args, None, pre, ran.cand), b, op.post) == Ok(Bool(true))
    requires RunBody(m, op, args, pre) == Go((Progress(ran.cand, b, ran.applied, ran.guards), b))
    requires out == EvaluateWithScope(m, r, args, pre, scope)
    ensures EndsAs(m, op, r, args, pre, scope, b, out)
  {
    hide RunBody, CheckFacts, CheckScoped, CheckInvariant, Eval, Means, Fresh, EffectsMean, Errs, FirstWord, FirstAsk,
         BadKey, FindOperation, Asks, Supplied;
    FactsExactly(m.invariants, r, args, pre, scope);
    ScopedExactly(m, m.invariants, pre, ran.cand, scope);
    EvalIsMeaning(Ctx(m, args, None, pre, ran.cand), op.result, b);
    NoAsk(m, r, args, pre, scope);
    NoWord(m, pre, ran.cand, scope);
  }

  lemma NoAsk(m: Module, r: OpRef, args: seq<Value>, pre: State, scope: Option<set<InvariantId>>)
    ensures (forall i :: 0 <= i < |m.invariants| && Asks(m.invariants[i], r, scope) ==>
               Supplied(m.invariants[i], args, pre)) ==>
            forall j: nat :: !FirstAsk(m.invariants, r, args, pre, scope, j)
  {
    hide Asks, Supplied;
  }

  lemma NoWord(m: Module, pre: State, post: State, scope: Option<set<InvariantId>>)
    ensures (forall i :: 0 <= i < |m.invariants| && InScope(m.invariants[i], scope) ==>
               CheckInvariant(m, m.invariants[i], pre, post) == Checked([], None)) ==>
            forall j: nat :: !FirstWord(m, m.invariants, pre, post, scope, j)
  {
    hide CheckInvariant;
  }

  lemma NoneBound()
    ensures var none: Bindings := map[]; none.Keys == {}
  {
  }

  /** The body, stage by stage, up to the postcondition. */
  lemma BodyExactly(m: Module, op: Operation, args: seq<Value>, pre: State, b: Bindings)
    requires WellScoped(op) && ArgsFit(args, op.params)
    requires b.Keys == set rd | rd in op.inputs :: rd.binding
    requires Means(Ctx(m, args, None, pre, pre), map[], op.pre) == Ok(Bool(true))
    requires ReadAll(Ctx(m, args, None, pre, pre), op.inputs, map[], map[]) == Go((b, b))
    ensures var body, ran := RunBody(m, op, args, pre), EffectsMean(m, args, pre, pre, b, op.effects);
            if ran.Stop? then body == Stop(ran.why)
            else
              var post := Means(Ctx(m, args, None, pre, ran.value.cand), b, op.post);
              if post.Err? then body == Stop(Rejection(post.code, Postcondition))
              else if post.value != Bool(true) then body == Stop(Rejection(PostconditionRejected, Postcondition))
              else body == Go((Progress(ran.value.cand, b, ran.value.applied, ran.value.guards), b))
  {
    hide Eval, Means, Fresh, ReadAll, RunEffects, EffectsMean, ReadsFresh, EffectsFresh, ArgsFit;
    NoneBound();
    EvalIsMeaning(Ctx(m, args, None, pre, pre), op.pre, map[]);
    EffectsExactly(m, args, pre, op.effects, Progress(pre, b, [], []));
    var ran := EffectsMean(m, args, pre, pre, b, op.effects);
    if ran.Go? {
      EvalIsMeaning(Ctx(m, args, None, pre, ran.value.cand), op.post, b);
      assert [] + ran.value.applied == ran.value.applied && [] + ran.value.guards == ran.value.guards;
    }
  }

  /** The interpreter's outcome is the one the stages say. */
  lemma OutcomesExactly(m: Module, r: OpRef, args: seq<Value>, pre: State, scope: Option<set<InvariantId>>,
                        op: Operation)
    requires FindOperation(m.operations, r) == Ok(op) && WellScoped(op)
    ensures Comes(m, op, r, args, pre, scope, EvaluateWithScope(m, r, args, pre, scope))
  {
    hide RunBody, CheckFacts, CheckScoped, Eval, Means, Fresh, ReadAll, ReadsFresh, EffectsFresh, EffectsMean, EndsAs,
         AllRead, FindOperation, Fits;
    var c := Ctx(m, args, None, pre, pre);
    var out := EvaluateWithScope(m, r, args, pre, scope);
    if ArgsFit(args, op.params) {
      PreExactly(m, op, args, pre);
      if Means(c, map[], op.pre) == Ok(Bool(true)) {
        NoneBound();
        var rd := AllReadExactly(c, op.inputs, map[]);
        if rd.Go? {
          assert rd.value.Keys == set x | x in op.inputs :: x.binding;
          BodyExactly(m, op, args, pre, rd.value);
          EndsExactly(m, op, r, args, pre, scope, rd.value, out);
        } else {
          ReadStops(m, op, args, pre, rd.why);
        }
        assert AllRead(c, op.inputs, map[], rd);
      }
    } else {
      Unfit(m, op, args, pre);
    }
  }

  lemma Unfit(m: Module, op: Operation, args: seq<Value>, pre: State)
    requires !ArgsFit(args, op.params)
    ensures RunBody(m, op, args, pre) == Stop(Rejection(TypeMismatch, Definedness))
  {
    hide ReadAll, RunEffects, Demand;
  }

  lemma PreExactly(m: Module, op: Operation, args: seq<Value>, pre: State)
    requires WellScoped(op) && ArgsFit(args, op.params)
    ensures var v := Means(Ctx(m, args, None, pre, pre), map[], op.pre);
            && (v.Err? ==> RunBody(m, op, args, pre) == Stop(Rejection(v.code, Precondition)))
            && (v.Ok? && v.value != Bool(true) ==>
                  RunBody(m, op, args, pre) == Stop(Rejection(PreconditionRejected, Precondition)))
  {
    hide Eval, Means, Fresh, ReadAll, RunEffects, ReadsFresh, EffectsFresh, ArgsFit;
    NoneBound();
    EvalIsMeaning(Ctx(m, args, None, pre, pre), op.pre, map[]);
  }

  lemma ReadStops(m: Module, op: Operation, args: seq<Value>, pre: State, why: Rejection)
    requires WellScoped(op) && ArgsFit(args, op.params)
    requires Means(Ctx(m, args, None, pre, pre), map[], op.pre) == Ok(Bool(true))
    requires ReadAll(Ctx(m, args, None, pre, pre), op.inputs, map[], map[]) == Stop(why)
    ensures RunBody(m, op, args, pre) == Stop(why)
  {
    hide Eval, Means, Fresh, ReadAll, RunEffects, ReadsFresh, EffectsFresh, ArgsFit;
    NoneBound();
    EvalIsMeaning(Ctx(m, args, None, pre, pre), op.pre, map[]);
  }

  lemma EndsExactly(m: Module, op: Operation, r: OpRef, args: seq<Value>, pre: State, scope: Option<set<InvariantId>>,
                    b: Bindings, out: Result<Outcome>)
    requires FindOperation(m.operations, r) == Ok(op) && Fresh(op.result, b.Keys)
    requires out == EvaluateWithScope(m, r, args, pre, scope)
    requires var body, ran := RunBody(m, op, args, pre), EffectsMean(m, args, pre, pre, b, op.effects);
             if ran.Stop? then body == Stop(ran.why)
             else
               var post := Means(Ctx(m, args, None, pre, ran.value.cand), b, op.post);
               if post.Err? then body == Stop(Rejection(post.code, Postcondition))
               else if post.value != Bool(true) then body == Stop(Rejection(PostconditionRejected, Postcondition))
               else body == Go((Progress(ran.value.cand, b, ran.value.applied, ran.value.guards), b))
    ensures EndsAs(m, op, r, args, pre, scope, b, out)
  {
    hide RunBody, CheckFacts, CheckScoped, CheckInvariant, Eval, Means, Fresh, EffectsMean, Errs, FirstWord, FirstAsk,
         BadKey, FindOperation;
    var ran := EffectsMean(m, args, pre, pre, b, op.effects);
    if ran.Go? && Means(Ctx(m, args, None, pre, ran.value.cand), b, op.post) == Ok(Bool(true)) {
      TailExactly(m, op, r, args, pre, scope, b, out, ran.value);
    }
  }

  /** Whatever is accepted obeys every law in scope. */
  lemma AcceptedObeys(m: Module, r: OpRef, args: seq<Value>, pre: State, scope: Option<set<InvariantId>>, i: nat)
    requires EvaluateWithScope(m, r, args, pre, scope).Ok? && EvaluateWithScope(m, r, args, pre, scope).value.Accepted?
    requires i < |m.invariants| && InScope(m.invariants[i], scope)
    requires m.invariants[i].law.Aggregate? ==> m.invariants[i].law.x !in Free(m.invariants[i].law.bound)
    ensures LawHolds(m, m.invariants[i], pre, EvaluateWithScope(m, r, args, pre, scope).value.cand.post)
  {
    hide RunBody, CheckFacts, CheckScoped, CheckInvariant, Eval, LawHolds, Errs, FirstWord, Free, FindOperation;
    var post := EvaluateWithScope(m, r, args, pre, scope).value.cand.post;
    ScopedExactly(m, m.invariants, pre, post, scope);
    InvariantHoldsExactly(m, m.invariants[i], pre, post);
  }
}
