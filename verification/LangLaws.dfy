/**
  What the invariant checks find, said of the rows of a table: each law is reported broken exactly for
  the rows, pairs of rows or groups that break it, in table order, up to the first error.
 */
module LangLaws {
  import opened Basics
  import opened LangTypes
  import opened LangEval
  import opened LangEffects

  // ---------------------------------------------------------------------------
  // Rows do not see each other's bindings
  // ---------------------------------------------------------------------------

  ghost predicate Part(a: Bindings, b: Bindings) {
    forall x :: x in a ==> x in b && a[x] == b[x]
  }

  /** Evaluation can lose bindings, but never adds or changes one. */
  lemma {:induction false} EvalShrinks(c: Ctx, e: Expr, b: Bindings)
    ensures Eval(c, e, b).Ok? ==> Part(Eval(c, e, b).value.b, b)
    decreases e, 0
  {
    hide ApplyUnary, ApplyBin, Decided, SetFrom, EvalAll, EvalMembers, SumItems, Leaf, ZeroOf;
    match e
    case Unary(_, x) => EvalShrinks(c, x, b);
    case Bin(_, lhs, rhs) =>
      EvalShrinks(c, lhs, b);
      if Eval(c, lhs, b).Ok? {
        EvalShrinks(c, rhs, Eval(c, lhs, b).value.b);
      }
    case UnwrapOr(x, fallback) =>
      EvalShrinks(c, x, b);
      if Eval(c, x, b).Ok? {
        EvalShrinks(c, fallback, Eval(c, x, b).value.b);
      }
    case MakeTuple(parts) => AllShrinks(c, parts, b);
    case MakeSet(parts) => AllShrinks(c, parts, b);
    case MakeStruct(members) => MembersShrink(c, members, b, []);
    case SumOver(x, over, ty, each) =>
      EvalShrinks(c, over, b);
      var s, zero := Eval(c, over, b), ZeroOf(ty);
      if s.Ok? && s.value.value.SetOf? && zero.Ok? {
        SumShrinks(c, x, s.value.value.items, each, s.value.b, zero.value);
      }
    case _ =>
  }

  lemma {:induction false} AllShrinks(c: Ctx, es: seq<Expr>, b: Bindings)
    ensures EvalAll(c, es, b).Ok? ==> Part(EvalAll(c, es, b).value.b, b)
    decreases es, 0
  {
    hide Eval;
    if es != [] {
      EvalShrinks(c, es[0], b);
      if Eval(c, es[0], b).Ok? {
        AllShrinks(c, es[1..], Eval(c, es[0], b).value.b);
      }
    }
  }

  lemma {:induction false} MembersShrink(c: Ctx, ms: seq<ExprMember>, b: Bindings, acc: seq<Member>)
    ensures EvalMembers(c, ms, b, acc).Ok? ==> Part(EvalMembers(c, ms, b, acc).value.b, b)
    decreases ms, 0
  {
    hide Eval, PutMember;
    if ms != [] {
      var m := ms[0];
      EvalShrinks(c, m.e, b);
      if Eval(c, m.e, b).Ok? {
        var v := Eval(c, m.e, b).value;
        MembersShrink(c, ms[1..], v.b, PutMember(acc, m.name, v.value));
      }
    }
  }

  lemma {:induction false} SumShrinks(c: Ctx, x: BindingId, items: seq<Value>, each: Expr, b: Bindings, acc: Value)
    ensures SumItems(c, x, items, each, b, acc).Ok? ==> Part(SumItems(c, x, items, each, b, acc).value.b - {x}, b)
    decreases each, 1, |items|
  {
    hide Eval, CheckedArith;
    if items != [] {
      EvalShrinks(c, each, b[x := items[0]]);
      var v := Eval(c, each, b[x := items[0]]);
      if v.Ok? && CheckedArith(Add, acc, v.value.value).Ok? {
        SumShrinks(c, x, items[1..], each, v.value.b, CheckedArith(Add, acc, v.value.value).value);
      }
    }
  }

  /** At most the row variable is bound. */
  ghost predicate Only(b: Bindings, x: BindingId) {
    forall y :: y in b ==> y == x
  }

  lemma OnlyRow(b: Bindings, x: BindingId, row: Value)
    requires Only(b, x)
    ensures b[x := row] == map[x := row] && Only(b[x := row], x)
  {
  }

  lemma OnlyPart(a: Bindings, b: Bindings, x: BindingId)
    requires Part(a, b) && Only(b, x)
    ensures Only(a, x)
  {
  }

  lemma PassesShrinks(c: Ctx, filter: Option<Expr>, b: Bindings)
    ensures Passes(c, filter, b).Ok? ==> Part(Passes(c, filter, b).value.b, b)
  {
    hide Eval;
    if filter.Some? {
      EvalShrinks(c, filter.value, b);
    }
  }

  // ---------------------------------------------------------------------------
  // What a scan reports
  // ---------------------------------------------------------------------------

  /** What one row, or group, gives: an error, nothing, or a violation with its instance. */
  type Fate = Result<Option<Option<Value>>>

  /** The first `n` fates are no errors, and the next one, if there is one, is. */
  ghost predicate Stops(fates: seq<Fate>, n: nat) {
    && n <= |fates| && (forall i :: 0 <= i < n ==> fates[i].Ok?) && (n < |fates| ==> fates[n].Err?)
  }

  /** `js` lists, in order, the places before `n` that are violations. */
  ghost predicate Picks(fates: seq<Fate>, n: nat, js: seq<nat>)
    requires Stops(fates, n)
  {
    && (forall i, j :: 0 <= i < j < |js| ==> js[i] < js[j])
    && (forall i :: 0 <= i < n ==> (i in js <==> fates[i].value.Some?))
    && (forall i :: 0 <= i < |js| ==> js[i] < n)
  }

  /** The report has exactly the violations before the first error, in order, and that error. */
  ghost predicate Tells(id: InvariantId, fates: seq<Fate>, out: Checked) {
    exists n: nat, js: seq<nat> :: TellsAt(id, fates, out, n, js)
  }

  ghost predicate TellsAt(id: InvariantId, fates: seq<Fate>, out: Checked, n: nat, js: seq<nat>) {
    && Stops(fates, n) && Picks(fates, n, js)
    && out.error == (if n == |fates| then None else Some(fates[n].code))
    && FoundAt(id, fates, out.found, js)
  }

  ghost predicate FoundAt(id: InvariantId, fates: seq<Fate>, found: seq<Violation>, js: seq<nat>) {
    |found| == |js| && forall i :: 0 <= i < |js| ==>
        && js[i] < |fates| && fates[js[i]].Ok? && fates[js[i]].value.Some?
        && found[i] == Violation(id, fates[js[i]].value.value)
  }

  lemma TellsNothing(id: InvariantId)
    ensures Tells(id, [], Checked([], None))
  {
    assert TellsAt(id, [], Checked([], None), 0, []);
  }

  lemma TellsError(id: InvariantId, fates: seq<Fate>)
    requires fates != [] && fates[0].Err?
    ensures Tells(id, fates, Fail(fates[0].code))
  {
    assert TellsAt(id, fates, Fail(fates[0].code), 0, []);
  }

  lemma FoundNext(id: InvariantId, fates: seq<Fate>, found: seq<Violation>, js: seq<nat>)
    requires fates != [] && fates[0].Ok? && FoundAt(id, fates[1..], found, js)
    ensures FoundAt(id, fates, (if fates[0].value.Some? then [Violation(id, fates[0].value.value)] else []) + found,
                    (if fates[0].value.Some? then [0] else []) + Later(js))
  {
    var ks := (if fates[0].value.Some? then [0] else []) + Later(js);
    var all := (if fates[0].value.Some? then [Violation(id, fates[0].value.value)] else []) + found;
    var d := |ks| - |js|;
    forall i | 0 <= i < |ks|
      ensures ks[i] < |fates| && fates[ks[i]].Ok? && fates[ks[i]].value.Some?
      ensures all[i] == Violation(id, fates[ks[i]].value.value)
    {
      if i >= d {
        assert ks[i] == js[i - d] + 1 && fates[ks[i]] == fates[1..][js[i - d]] && all[i] == found[i - d];
      }
    }
  }

  /** One more fate in front that is no error. */
  lemma TellsNext(id: InvariantId, fates: seq<Fate>, rest: Checked)
    requires fates != [] && fates[0].Ok? && Tells(id, fates[1..], rest)
    ensures Tells(id, fates, Prepend(if fates[0].value.Some? then [Violation(id, fates[0].value.value)] else [], rest))
  {
    hide Picks, FoundAt;
    var n: nat, js: seq<nat> :| TellsAt(id, fates[1..], rest, n, js);
    var out := Prepend(if fates[0].value.Some? then [Violation(id, fates[0].value.value)] else [], rest);
    var ks := (if fates[0].value.Some? then [0] else []) + Later(js);
    PicksNext(fates, n, js);
    FoundNext(id, fates, rest.found, js);
    assert TellsAt(id, fates, out, n + 1, ks);
  }

  lemma PicksNext(fates: seq<Fate>, n: nat, js: seq<nat>)
    requires fates != [] && fates[0].Ok? && Stops(fates[1..], n) && Picks(fates[1..], n, js)
    ensures Stops(fates, n + 1)
    ensures Picks(fates, n + 1, (if fates[0].value.Some? then [0] else []) + Later(js))
  {
    var ks := (if fates[0].value.Some? then [0] else []) + Later(js);
    forall i | 0 <= i < n + 1
      ensures fates[i].Ok? && (i in ks <==> fates[i].value.Some?)
    {
      if i > 0 {
        assert fates[i] == fates[1..][i - 1];
      }
    }
    if n + 1 < |fates| {
      assert fates[n + 1] == fates[1..][n];
    }
  }

  // ---------------------------------------------------------------------------
  // Laws about single rows
  // ---------------------------------------------------------------------------

  /** Whether a row, alone bound to the variable, passes the filter; and what is bound then. */
  ghost function Chosen(c: Ctx, r: RecordId, x: BindingId, filter: Option<Expr>, row: Fields): Result<Got<bool>> {
    var v :- RowValue(c.m, r, row);
    Passes(c, filter, map[x := v])
  }

  /** A chosen row must make the body true. */
  ghost function ForAllFate(c: Ctx, p: Predicate, x: (Value, Fields)): Fate
    requires p.ForAll?
  {
    var f :- Chosen(c, p.record, p.x, p.filter, x.1);
    if !f.value then Ok(None)
    else
      var h :- Passes(c, Some(p.body), f.b);
      Ok(if h.value then None else Some(Some(x.0)))
  }

  lemma {:induction false} ForAllExactly(c: Ctx, id: InvariantId, p: Predicate, t: Table, b: Bindings, fates: seq<Fate>)
    requires p.ForAll? && Only(b, p.x) && |fates| == |t|
    requires forall i :: 0 <= i < |t| ==> fates[i] == ForAllFate(c, p, t[i])
    ensures Tells(id, fates, CheckForAll(c, id, p, t, b))
    decreases |t|
  {
    hide Tells, Passes, RowValue, Part, Only;
    if t == [] {
      TellsNothing(id);
    } else {
      var left := ForAllFirst(c, p, t, b);
      if fates[0].Err? {
        TellsError(id, fates);
      } else {
        ForAllExactly(c, id, p, t[1..], left, fates[1..]);
        TellsNext(id, fates, CheckForAll(c, id, p, t[1..], left));
      }
    }
  }

  lemma PrependNone(c: Checked)
    ensures Prepend([], c) == c
  {
  }

  /** The first row is judged alone, whatever earlier rows left bound, and leaves no more than itself bound. */
  lemma ForAllFirst(c: Ctx, p: Predicate, t: Table, b: Bindings) returns (left: Bindings)
    requires p.ForAll? && Only(b, p.x) && t != []
    ensures Only(left, p.x)
    ensures forall id ::
              CheckForAll(c, id, p, t, b)
              == if ForAllFate(c, p, t[0]).Err? then Fail(ForAllFate(c, p, t[0]).code)
                 else Prepend(if ForAllFate(c, p, t[0]).value.Some?
                              then [Violation(id, ForAllFate(c, p, t[0]).value.value)] else [],
                              CheckForAll(c, id, p, t[1..], left))
  {
    hide Passes, RowValue, Part, Only;
    left := b;
    var row := RowValue(c.m, p.record, t[0].1);
    if row.Ok? {
      OnlyRow(b, p.x, row.value);
      PassesShrinks(c, p.filter, map[p.x := row.value]);
      var f := Passes(c, p.filter, map[p.x := row.value]);
      if f.Ok? {
        OnlyPart(f.value.b, map[p.x := row.value], p.x);
        left := f.value.b;
        if f.value.value {
          PassesShrinks(c, Some(p.body), f.value.b);
          var h := Passes(c, Some(p.body), f.value.b);
          if h.Ok? {
            OnlyPart(h.value.b, f.value.b, p.x);
            left := h.value.b;
          }
        } else {
          forall id
            ensures Prepend([], CheckForAll(c, id, p, t[1..], left)) == CheckForAll(c, id, p, t[1..], left)
          {
            PrependNone(CheckForAll(c, id, p, t[1..], left));
          }
        }
      }
    }
  }

  /** A child row must name the key of a row of the parent record. */
  ghost function ReferenceFate(c: Ctx, p: Predicate, x: (Value, Fields)): Fate
    requires p.ExistsReference?
  {
    var v :- RowValue(c.m, p.child, x.1);
    var k :- Eval(c, p.parentKey, map[p.x := v]);
    Ok(if HasKey(c.cand, p.parent, k.value) then None else Some(Some(x.0)))
  }

  lemma {:induction false} ReferenceExactly(c: Ctx, id: InvariantId, p: Predicate, t: Table, b: Bindings,
                                            fates: seq<Fate>)
    requires p.ExistsReference? && Only(b, p.x) && |fates| == |t|
    requires forall i :: 0 <= i < |t| ==> fates[i] == ReferenceFate(c, p, t[i])
    ensures Tells(id, fates, CheckReference(c, id, p, t, b))
    decreases |t|
  {
    hide Tells, Eval, RowValue, Part, Only, Lookup;
    if t == [] {
      TellsNothing(id);
    } else {
      assert fates[0] == ReferenceFate(c, p, t[0]);
      var row := RowValue(c.m, p.child, t[0].1);
      if row.Err? {
        TellsError(id, fates);
      } else {
        OnlyRow(b, p.x, row.value);
        EvalShrinks(c, p.parentKey, map[p.x := row.value]);
        var k := Eval(c, p.parentKey, map[p.x := row.value]);
        if k.Err? {
          TellsError(id, fates);
        } else {
          OnlyPart(k.value.b, map[p.x := row.value], p.x);
          KeyFound(TableOf(c.cand, p.parent), k.value.value);
          ReferenceExactly(c, id, p, t[1..], k.value.b, fates[1..]);
          TellsNext(id, fates, CheckReference(c, id, p, t[1..], k.value.b));
        }
      }
    }
  }

  /** A row that was there before may change its state only along an edge. */
  ghost function TransitionFate(pre: State, p: Predicate, x: (Value, Fields)): Fate
    requires p.Transition?
  {
    if Get(pre, p.record, x.0).None? then Ok(None)
    else
      var was := Get(pre, p.record, x.0).value;
      if p.field !in was || p.field !in x.1 then Err(Panic)
      else
        match (was[p.field], x.1[p.field])
        case (Enum(d, v), Enum(e, w)) => Ok(if (d == e && v == w) || (v, w) in p.edges then None else Some(Some(x.0)))
        case _ => Ok(None)
  }

  lemma {:induction false} TransitionExactly(pre: State, id: InvariantId, p: Predicate, t: Table, fates: seq<Fate>)
    requires p.Transition? && |fates| == |t|
    requires forall i :: 0 <= i < |t| ==> fates[i] == TransitionFate(pre, p, t[i])
    ensures Tells(id, fates, CheckTransition(pre, id, p, t))
    decreases |t|
  {
    hide Tells, Get;
    if t == [] {
      TellsNothing(id);
    } else {
      assert fates[0] == TransitionFate(pre, p, t[0]);
      if fates[0].Err? {
        TellsError(id, fates);
      } else {
        TransitionExactly(pre, id, p, t[1..], fates[1..]);
        TellsNext(id, fates, CheckTransition(pre, id, p, t[1..]));
        PrependNone(CheckTransition(pre, id, p, t[1..]));
      }
    }
  }

  // ---------------------------------------------------------------------------
  // Unique keys
  // ---------------------------------------------------------------------------

  /** The key a row must not share, if the row is chosen. */
  ghost function KeyOf(c: Ctx, p: Predicate, row: Fields): Result<Option<Value>>
    requires p.Unique?
  {
    var f :- Chosen(c, p.record, p.x, p.filter, row);
    if !f.value then Ok(None)
    else
      var u :- Eval(c, p.key, f.b);
      Ok(Some(u.value))
  }

  /** Row `i` breaks the law when an earlier row has its key. */
  ghost function UniqueFate(c: Ctx, p: Predicate, t: Table, i: nat): Fate
    requires p.Unique? && i < |t|
  {
    var u :- KeyOf(c, p, t[i].1);
    if u.None? then Ok(None)
    else if exists j :: 0 <= j < i && KeyOf(c, p, t[j].1) == Ok(u) then Ok(Some(u))
    else Ok(None)
  }

  /** The same, with the keys of rows already passed. */
  ghost function SeenFate(c: Ctx, p: Predicate, t: Table, seen: set<Value>, i: nat): Fate
    requires p.Unique? && i < |t|
  {
    var u :- KeyOf(c, p, t[i].1);
    if u.None? then Ok(None)
    else if u.value in seen || exists j :: 0 <= j < i && KeyOf(c, p, t[j].1) == Ok(u) then Ok(Some(u))
    else Ok(None)
  }

  /** The first row's key, and what it leaves bound. */
  lemma UniqueFirst(c: Ctx, p: Predicate, t: Table, b: Bindings) returns (left: Bindings)
    requires p.Unique? && Only(b, p.x) && t != []
    ensures Only(left, p.x)
    ensures forall id, seen ::
              CheckUnique(c, id, p, t, b, seen)
              == (var u := KeyOf(c, p, t[0].1);
                  if u.Err? then Fail(u.code)
                  else if u.value.None? then CheckUnique(c, id, p, t[1..], left, seen)
                  else Prepend(if u.value.value in seen then [Violation(id, u.value)] else [],
                               CheckUnique(c, id, p, t[1..], left, seen + {u.value.value})))
  {
    hide Passes, Eval, RowValue, Part, Only;
    left := b;
    var row := RowValue(c.m, p.record, t[0].1);
    if row.Ok? {
      OnlyRow(b, p.x, row.value);
      PassesShrinks(c, p.filter, map[p.x := row.value]);
      var f := Passes(c, p.filter, map[p.x := row.value]);
      if f.Ok? {
        OnlyPart(f.value.b, map[p.x := row.value], p.x);
        left := f.value.b;
        if f.value.value {
          EvalShrinks(c, p.key, f.value.b);
          var u := Eval(c, p.key, f.value.b);
          if u.Ok? {
            OnlyPart(u.value.b, f.value.b, p.x);
            left := u.value.b;
          }
        }
      }
    }
  }

  lemma SeenTail(c: Ctx, p: Predicate, t: Table, seen: set<Value>, i: nat)
    requires p.Unique? && t != [] && KeyOf(c, p, t[0].1).Ok? && i < |t| - 1
    ensures var u := KeyOf(c, p, t[0].1).value;
            SeenFate(c, p, t[1..], if u.Some? then seen + {u.value} else seen, i) == SeenFate(c, p, t, seen, i + 1)
  {
    hide KeyOf;
    var u, v := KeyOf(c, p, t[0].1).value, KeyOf(c, p, t[i + 1].1);
    if v.Ok? && v.value.Some? {
      if j :| 0 <= j < i + 1 && KeyOf(c, p, t[j].1) == Ok(v.value) {
        if j > 0 {
          assert t[1..][j - 1] == t[j];
        }
      }
      if j :| 0 <= j < i && KeyOf(c, p, t[1..][j].1) == Ok(v.value) {
        assert t[j + 1] == t[1..][j];
      }
    }
  }

  lemma {:induction false} SeenExactly(c: Ctx, id: InvariantId, p: Predicate, t: Table, b: Bindings, seen: set<Value>,
                                       fates: seq<Fate>)
    requires p.Unique? && Only(b, p.x) && |fates| == |t|
    requires forall i :: 0 <= i < |t| ==> fates[i] == SeenFate(c, p, t, seen, i)
    ensures Tells(id, fates, CheckUnique(c, id, p, t, b, seen))
    decreases |t|
  {
    hide Tells, CheckUnique, KeyOf, Only;
    if t == [] {
      TellsNothing(id);
      assert CheckUnique(c, id, p, t, b, seen) == Checked([], None) by { UniqueNone(c, id, p, b, seen); }
    } else {
      var left := UniqueFirst(c, p, t, b);
      assert fates[0] == SeenFate(c, p, t, seen, 0);
      if fates[0].Err? {
        TellsError(id, fates);
      } else {
        var u := KeyOf(c, p, t[0].1).value;
        var more := if u.Some? then seen + {u.value} else seen;
        forall i | 0 <= i < |t| - 1
          ensures fates[1..][i] == SeenFate(c, p, t[1..], more, i)
        {
          SeenTail(c, p, t, seen, i);
        }
        SeenExactly(c, id, p, t[1..], left, more, fates[1..]);
        TellsNext(id, fates, CheckUnique(c, id, p, t[1..], left, more));
        PrependNone(CheckUnique(c, id, p, t[1..], left, more));
      }
    }
  }

  lemma UniqueNone(c: Ctx, id: InvariantId, p: Predicate, b: Bindings, seen: set<Value>)
    requires p.Unique?
    ensures CheckUnique(c, id, p, [], b, seen) == Checked([], None)
  {
  }

  lemma UniqueExactly(c: Ctx, id: InvariantId, p: Predicate, t: Table, fates: seq<Fate>)
    requires p.Unique? && |fates| == |t|
    requires forall i :: 0 <= i < |t| ==> fates[i] == UniqueFate(c, p, t, i)
    ensures Tells(id, fates, CheckUnique(c, id, p, t, map[], {}))
  {
    hide Tells, CheckUnique, KeyOf;
    SeenExactly(c, id, p, t, map[], {}, fates);
  }

  // ---------------------------------------------------------------------------
  // Expressions only see their free variables
  // ---------------------------------------------------------------------------

  ghost function Free(e: Expr): set<BindingId> {
    match e
    case Binding(x) => {x}
    case Unary(_, x) => Free(x)
    case Bin(_, lhs, rhs) => Free(lhs) + Free(rhs)
    case UnwrapOr(x, fallback) => Free(x) + Free(fallback)
    case MakeTuple(parts) => AllFree(parts)
    case MakeSet(parts) => AllFree(parts)
    case MakeStruct(members) => MembersFree(members)
    case SumOver(x, over, _, each) => Free(over) + (Free(each) - {x})
    case _ => {}
  }

  ghost function AllFree(es: seq<Expr>): set<BindingId> {
    if es == [] then {} else Free(es[0]) + AllFree(es[1..])
  }

  ghost function MembersFree(ms: seq<ExprMember>): set<BindingId> {
    if ms == [] then {} else var m := ms[0]; Free(m.e) + MembersFree(ms[1..])
  }

  ghost predicate Same(a: Bindings, b: Bindings, xs: set<BindingId>) {
    forall x :: x in xs ==> (x in a <==> x in b) && (x in a ==> a[x] == b[x])
  }

  /** Two outcomes with the same value, or the same error, that leave the same variables of `xs` bound. */
  ghost predicate Alike<T>(r: Result<Got<T>>, q: Result<Got<T>>, xs: set<BindingId>) {
    if r.Err? then q.Err? && r.code == q.code
    else q.Ok? && r.value.value == q.value.value && Same(r.value.b, q.value.b, xs)
  }

  lemma {:induction false} EvalAlike(c: Ctx, e: Expr, a: Bindings, b: Bindings, xs: set<BindingId>)
    requires Free(e) <= xs && Same(a, b, xs)
    ensures Alike(Eval(c, e, a), Eval(c, e, b), xs)
    decreases e, 0
  {
    hide ApplyUnary, ApplyBin, Decided, SetFrom, EvalAll, EvalMembers, SumItems, ZeroOf, Same, AllFree, MembersFree;
    match e
    case Unary(_, x) => EvalAlike(c, x, a, b, xs);
    case Bin(_, lhs, rhs) =>
      EvalAlike(c, lhs, a, b, xs);
      if Eval(c, lhs, a).Ok? {
        EvalAlike(c, rhs, Eval(c, lhs, a).value.b, Eval(c, lhs, b).value.b, xs);
      }
    case UnwrapOr(x, fallback) =>
      EvalAlike(c, x, a, b, xs);
      if Eval(c, x, a).Ok? {
        EvalAlike(c, fallback, Eval(c, x, a).value.b, Eval(c, x, b).value.b, xs);
      }
    case MakeTuple(parts) => AllAlike(c, parts, a, b, xs);
    case MakeSet(parts) => AllAlike(c, parts, a, b, xs);
    case MakeStruct(members) => MembersAlike(c, members, a, b, [], xs);
    case SumOver(x, over, ty, each) =>
      EvalAlike(c, over, a, b, xs);
      var s, zero := Eval(c, over, a), ZeroOf(ty);
      if s.Ok? && s.value.value.SetOf? && zero.Ok? {
        SumAlike(c, x, s.value.value.items, each, s.value.b, Eval(c, over, b).value.b, zero.value, xs);
      }
    case _ => LeafAlike(c, e, a, b, xs);
  }

  lemma LeafAlike(c: Ctx, e: Expr, a: Bindings, b: Bindings, xs: set<BindingId>)
    requires Free(e) <= xs && Same(a, b, xs)
    ensures Leaf(c, e, a) == Leaf(c, e, b)
  {
  }

  lemma {:induction false} AllAlike(c: Ctx, es: seq<Expr>, a: Bindings, b: Bindings, xs: set<BindingId>)
    requires AllFree(es) <= xs && Same(a, b, xs)
    ensures Alike(EvalAll(c, es, a), EvalAll(c, es, b), xs)
    decreases es, 0
  {
    hide Eval, Same, Free;
    if es != [] {
      EvalAlike(c, es[0], a, b, xs);
      if Eval(c, es[0], a).Ok? {
        AllAlike(c, es[1..], Eval(c, es[0], a).value.b, Eval(c, es[0], b).value.b, xs);
      }
    }
  }

  lemma {:induction false} MembersAlike(c: Ctx, ms: seq<ExprMember>, a: Bindings, b: Bindings, acc: seq<Member>,
                                        xs: set<BindingId>)
    requires MembersFree(ms) <= xs && Same(a, b, xs)
    ensures Alike(EvalMembers(c, ms, a, acc), EvalMembers(c, ms, b, acc), xs)
    decreases ms, 0
  {
    hide Eval, Same, Free, PutMember;
    if ms != [] {
      var m := ms[0];
      EvalAlike(c, m.e, a, b, xs);
      if Eval(c, m.e, a).Ok? {
        var v, w := Eval(c, m.e, a).value, Eval(c, m.e, b).value;
        MembersAlike(c, ms[1..], v.b, w.b, PutMember(acc, m.name, v.value), xs);
      }
    }
  }

  ghost function Without(r: Result<Got<Value>>, x: BindingId): Result<Got<Value>> {
    if r.Err? then r else Ok(Got(r.value.value, r.value.b - {x}))
  }

  lemma {:induction false} SumAlike(c: Ctx, x: BindingId, items: seq<Value>, each: Expr, a: Bindings, b: Bindings,
                                    acc: Value, xs: set<BindingId>)
    requires Free(each) - {x} <= xs && Same(a, b, xs)
    ensures Alike(Without(SumItems(c, x, items, each, a, acc), x), Without(SumItems(c, x, items, each, b, acc), x), xs)
    decreases each, 1, |items|
  {
    hide Eval, CheckedArith, Free;
    if items != [] {
      EvalAlike(c, each, a[x := items[0]], b[x := items[0]], xs + {x});
      var v, w := Eval(c, each, a[x := items[0]]), Eval(c, each, b[x := items[0]]);
      if v.Ok? && CheckedArith(Add, acc, v.value.value).Ok? {
        SumAlike(c, x, items[1..], each, v.value.b, w.value.b, CheckedArith(Add, acc, v.value.value).value, xs);
      }
    }
  }
}
