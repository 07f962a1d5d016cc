/**
  The interpreter as it runs: an environment whose bindings are overwritten in place, loops over
  rows, effects and invariants that grow a candidate state and a violation list. Every method is
  proved to compute the function of the same name in `LangEval`.
 */
module LangExec {
  import opened Basics
  import opened LangTypes
  import LE = LangEval

  /** Bindings of one evaluation, updated as expressions are evaluated. */
  class Env {
    const m: Module
    const args: seq<Value>
    var bindings: LE.Bindings
    var group: Option<Value>

    constructor (m: Module, args: seq<Value>)
      ensures this.m == m && this.args == args && bindings == map[] && group == None
    {
      this.m, this.args := m, args;
      bindings, group := map[], None;
    }

    ghost function Here(pre: LE.State, cand: LE.State): LE.Ctx
      reads this
    {
      LE.Ctx(m, args, group, pre, cand)
    }

    /** The value, or the error; on success the bindings are those the evaluation leaves behind. */
    ghost predicate Yields(r: Result<Value>, want: Result<LE.Got<Value>>)
      reads this
    {
      match want
      case Err(e) => r == Err(e)
      case Ok(g) => r == Ok(g.value) && bindings == g.b
    }

    method Eval(e: Expr, pre: LE.State, cand: LE.State) returns (r: Result<Value>)
      modifies this`bindings
      ensures Yields(r, LE.Eval(old(Here(pre, cand)), e, old(bindings)))
      decreases e, 0
    {
      hide LE.ApplyUnary, LE.ApplyBin, LE.Decided, LE.EvalAll, LE.EvalMembers, LE.SumItems, LE.ZeroOf, LE.Leaf,
           LE.SetFrom;
      match e {
        case Unary(u, x) =>
          var v := Eval(x, pre, cand);
          r := if v.Err? then v else LE.ApplyUnary(LE.Ctx(m, args, group, pre, cand), u, v.value);
        case Bin(op, lhs, rhs) =>
          var l := Eval(lhs, pre, cand);
          if l.Err? {
            return l;
          }
          var d := LE.Decided(op, l.value);
          if d.Some? {
            return d.value;
          }
          var x := Eval(rhs, pre, cand);
          r := if x.Err? then x else LE.ApplyBin(op, l.value, x.value);
        case UnwrapOr(x, fallback) =>
          var v := Eval(x, pre, cand);
          if v.Err? {
            return v;
          }
          if v.value.SomeOf? {
            r := Ok(v.value.inner);
          } else if v.value.NoneOf? {
            r := Eval(fallback, pre, cand);
          } else {
            r := Err(TypeMismatch);
          }
        case MakeTuple(parts) =>
          var vs := EvalAll(parts, pre, cand);
          r := if vs.Err? then Err(vs.code) else Ok(Tuple(vs.value));
        case MakeSet(parts) =>
          var vs := EvalAll(parts, pre, cand);
          r := if vs.Err? then Err(vs.code) else Ok(SetOf(LE.SetFrom(vs.value)));
        case MakeStruct(members) =>
          var ms := EvalMembers(members, pre, cand);
          r := if ms.Err? then Err(ms.code) else Ok(Struct(ms.value));
        case SumOver(x, over, ty, each) =>
          var s := Eval(over, pre, cand);
          if s.Err? {
            return s;
          }
          if !s.value.SetOf? {
            return Err(TypeMismatch);
          }
          var zero := LE.ZeroOf(ty);
          if zero.Err? {
            return zero;
          }
          r := Sum(x, s.value.items, each, zero.value, pre, cand);
          bindings := bindings - {x};
        case _ =>
          r := LE.Leaf(LE.Ctx(m, args, group, pre, cand), e, bindings);
      }
    }

    method EvalAll(es: seq<Expr>, pre: LE.State, cand: LE.State) returns (r: Result<seq<Value>>)
      modifies this`bindings
      ensures match LE.EvalAll(old(Here(pre, cand)), es, old(bindings))
              case Err(e) => r == Err(e)
              case Ok(g) => r == Ok(g.value) && bindings == g.b
      decreases es, 0
    {
      hide LE.Eval;
      if es == [] {
        return Ok([]);
      }
      var v := Eval(es[0], pre, cand);
      if v.Err? {
        return Err(v.code);
      }
      var vs := EvalAll(es[1..], pre, cand);
      r := if vs.Err? then vs else Ok([v.value] + vs.value);
    }

    method EvalMembers(ms: seq<ExprMember>, pre: LE.State, cand: LE.State) returns (r: Result<seq<Member>>)
      modifies this`bindings
      ensures match LE.EvalMembers(old(Here(pre, cand)), ms, old(bindings), [])
              case Err(e) => r == Err(e)
              case Ok(g) => r == Ok(g.value) && bindings == g.b
      decreases ms, 1
    {
      hide LE.Eval, PutMember;
      var acc: seq<Member> := [];
      ghost var c := Here(pre, cand);
      for i := 0 to |ms|
        invariant LE.EvalMembers(c, ms[i..], bindings, acc) == LE.EvalMembers(c, ms, old(bindings), [])
      {
        var x := ms[i];
        assert ms[i..][1..] == ms[i + 1..];
        var v := Eval(x.e, pre, cand);
        if v.Err? {
          return Err(v.code);
        }
        acc := PutMember(acc, x.name, v.value);
      }
      r := Ok(acc);
    }

    /** Binds the variable to each item in turn and adds up the values. */
    method Sum(x: BindingId, items: seq<Value>, each: Expr, zero: Value, pre: LE.State, cand: LE.State)
      returns (r: Result<Value>)
      modifies this`bindings
      ensures Yields(r, LE.SumItems(old(Here(pre, cand)), x, items, each, old(bindings), zero))
      decreases each, 1
    {
      hide LE.Eval, LE.CheckedArith;
      var acc := zero;
      ghost var c := Here(pre, cand);
      for i := 0 to |items|
        invariant LE.SumItems(c, x, items[i..], each, bindings, acc) ==
                  LE.SumItems(c, x, items, each, old(bindings), zero)
      {
        assert items[i..][1..] == items[i + 1..];
        bindings := bindings[x := items[i]];
        var v := Eval(each, pre, cand);
        if v.Err? {
          return v;
        }
        var sum := LE.CheckedArith(Add, acc, v.value);
        if sum.Err? {
          return sum;
        }
        acc := sum.value;
      }
      r := Ok(acc);
    }

    /** A filter: absent means true, and only booleans are allowed. */
    method Test(e: Option<Expr>, pre: LE.State, cand: LE.State) returns (r: Result<bool>)
      modifies this`bindings
      ensures match LE.Passes(old(Here(pre, cand)), e, old(bindings))
              case Err(c) => r == Err(c)
              case Ok(g) => r == Ok(g.value) && bindings == g.b
    {
      hide LE.Eval;
      if e.None? {
        return Ok(true);
      }
      var v := Eval(e.value, pre, cand);
      r := if v.Err? then Err(v.code) else LE.AsBool(v.value);
    }
  }

  // ---------------------------------------------------------------------------
  // Invariants: loops over the rows of the post-state
  // ---------------------------------------------------------------------------

  /** Violations found so far, then those of a row, then the rest. */
  lemma PrependLaws(found: seq<LE.Violation>)
    ensures forall e :: LE.Prepend(found, LE.Fail(e)) == LE.Checked(found, Some(e))
    ensures forall c :: LE.Prepend(found, LE.Prepend([], c)) == LE.Prepend(found, c)
    ensures forall v, c :: LE.Prepend(found, LE.Prepend([v], c)) == LE.Prepend(found + [v], c)
  {
    assert found + [] == found;
    forall c: LE.Checked
      ensures LE.Prepend(found, LE.Prepend([], c)) == LE.Prepend(found, c)
    {
      assert [] + c.found == c.found;
    }
    forall v: LE.Violation, c: LE.Checked
      ensures LE.Prepend(found, LE.Prepend([v], c)) == LE.Prepend(found + [v], c)
    {
      assert found + ([v] + c.found) == (found + [v]) + c.found;
    }
  }

  lemma PrependNothing(c: LE.Checked)
    ensures LE.Prepend([], c) == c
  {
    assert [] + c.found == c.found;
  }

  lemma PrependEnd(a: seq<LE.Violation>, e: Option<ErrorCode>)
    ensures LE.Prepend(a, LE.Checked([], e)) == LE.Checked(a, e)
  {
    assert a + [] == a;
  }

  method CheckForAll(env: Env, id: InvariantId, p: Predicate, t: LE.Table, post: LE.State)
    returns (found: seq<LE.Violation>, error: Option<ErrorCode>)
    requires p.ForAll?
    modifies env`bindings
    ensures LE.Checked(found, error) == LE.CheckForAll(old(env.Here(post, post)), id, p, t, old(env.bindings))
  {
    hide LE.Passes, LE.RowValue, LE.Prepend;
    found, error := [], None;
    ghost var c := env.Here(post, post);
    PrependNothing(LE.CheckForAll(c, id, p, t, env.bindings));
    for i := 0 to |t|
      invariant error == None
      invariant LE.Prepend(found, LE.CheckForAll(c, id, p, t[i..], env.bindings))
                == LE.CheckForAll(c, id, p, t, old(env.bindings))
    {
      assert t[i..][1..] == t[i + 1..] && t[i..][0] == t[i];
      ForAllNext(c, id, p, t[i..], env.bindings, found);
      var row := LE.RowValue(env.m, p.record, t[i].1);
      if row.Err? {
        return found, Some(row.code);
      }
      env.bindings := env.bindings[p.x := row.value];
      var keep := env.Test(p.filter, post, post);
      if keep.Err? {
        return found, Some(keep.code);
      }
      if keep.value {
        var holds := env.Test(Some(p.body), post, post);
        if holds.Err? {
          return found, Some(holds.code);
        }
        if !holds.value {
          found := found + [LE.Violation(id, Some(t[i].0))];
        }
      }
    }
    PrependEnd(found, None);
  }

  /** One row of the loop, after the violations found so far. */
  lemma ForAllNext(c: LE.Ctx, id: InvariantId, p: Predicate, t: LE.Table, b: LE.Bindings, found: seq<LE.Violation>)
    requires p.ForAll? && t != []
    ensures LE.Prepend(found, LE.CheckForAll(c, id, p, t, b))
            == match LE.RowValue(c.m, p.record, t[0].1)
               case Err(e) => LE.Checked(found, Some(e))
               case Ok(row) =>
                 match LE.Passes(c, p.filter, b[p.x := row])
                 case Err(e) => LE.Checked(found, Some(e))
                 case Ok(f) =>
                   if !f.value then LE.Prepend(found, LE.CheckForAll(c, id, p, t[1..], f.b))
                   else match LE.Passes(c, Some(p.body), f.b)
                     case Err(e) => LE.Checked(found, Some(e))
                     case Ok(h) =>
                       LE.Prepend(if h.value then found else found + [LE.Violation(id, Some(t[0].0))],
                                  LE.CheckForAll(c, id, p, t[1..], h.b))
  {
    hide LE.Passes, LE.RowValue, LE.Prepend, LE.Fail;
    PrependLaws(found);
  }

  method CheckUnique(env: Env, id: InvariantId, p: Predicate, t: LE.Table, post: LE.State)
    returns (found: seq<LE.Violation>, error: Option<ErrorCode>)
    requires p.Unique?
    modifies env`bindings
    ensures LE.Checked(found, error) == LE.CheckUnique(old(env.Here(post, post)), id, p, t, old(env.bindings), {})
  {
    hide LE.Passes, LE.RowValue, LE.Prepend, LE.Eval;
    found, error := [], None;
    var seen: set<Value> := {};
    ghost var c := env.Here(post, post);
    PrependNothing(LE.CheckUnique(c, id, p, t, env.bindings, {}));
    for i := 0 to |t|
      invariant error == None
      invariant LE.Prepend(found, LE.CheckUnique(c, id, p, t[i..], env.bindings, seen))
                == LE.CheckUnique(c, id, p, t, old(env.bindings), {})
    {
      assert t[i..][1..] == t[i + 1..] && t[i..][0] == t[i];
      UniqueNext(c, id, p, t[i..], env.bindings, seen, found);
      var row := LE.RowValue(env.m, p.record, t[i].1);
      if row.Err? {
        return found, Some(row.code);
      }
      env.bindings := env.bindings[p.x := row.value];
      var keep := env.Test(p.filter, post, post);
      if keep.Err? {
        return found, Some(keep.code);
      }
      if keep.value {
        var key := env.Eval(p.key, post, post);
        if key.Err? {
          return found, Some(key.code);
        }
        if key.value in seen {
          found := found + [LE.Violation(id, Some(key.value))];
        }
        seen := seen + {key.value};
      }
    }
    PrependEnd(found, None);
  }

  lemma UniqueNext(c: LE.Ctx, id: InvariantId, p: Predicate, t: LE.Table, b: LE.Bindings, seen: set<Value>,
                   found: seq<LE.Violation>)
    requires p.Unique? && t != []
    ensures LE.Prepend(found, LE.CheckUnique(c, id, p, t, b, seen))
            == match LE.RowValue(c.m, p.record, t[0].1)
               case Err(e) => LE.Checked(found, Some(e))
               case Ok(row) =>
                 match LE.Passes(c, p.filter, b[p.x := row])
                 case Err(e) => LE.Checked(found, Some(e))
                 case Ok(f) =>
                   if !f.value then LE.Prepend(found, LE.CheckUnique(c, id, p, t[1..], f.b, seen))
                   else match LE.Eval(c, p.key, f.b)
                     case Err(e) => LE.Checked(found, Some(e))
                     case Ok(u) =>
                       LE.Prepend(if u.value in seen then found + [LE.Violation(id, Some(u.value))] else found,
                                  LE.CheckUnique(c, id, p, t[1..], u.b, seen + {u.value}))
  {
    hide LE.Passes, LE.RowValue, LE.Eval, LE.Prepend, LE.Fail;
    PrependLaws(found);
  }

  method CheckReference(env: Env, id: InvariantId, p: Predicate, t: LE.Table, post: LE.State)
    returns (found: seq<LE.Violation>, error: Option<ErrorCode>)
    requires p.ExistsReference?
    modifies env`bindings
    ensures LE.Checked(found, error) == LE.CheckReference(old(env.Here(post, post)), id, p, t, old(env.bindings))
  {
    hide LE.RowValue, LE.Prepend, LE.Eval, LE.Get;
    found, error := [], None;
    ghost var c := env.Here(post, post);
    PrependNothing(LE.CheckReference(c, id, p, t, env.bindings));
    for i := 0 to |t|
      invariant error == None
      invariant LE.Prepend(found, LE.CheckReference(c, id, p, t[i..], env.bindings))
                == LE.CheckReference(c, id, p, t, old(env.bindings))
    {
      assert t[i..][1..] == t[i + 1..] && t[i..][0] == t[i];
      ReferenceNext(c, id, p, t[i..], env.bindings, found);
      var row := LE.RowValue(env.m, p.child, t[i].1);
      if row.Err? {
        return found, Some(row.code);
      }
      env.bindings := env.bindings[p.x := row.value];
      var key := env.Eval(p.parentKey, post, post);
      if key.Err? {
        return found, Some(key.code);
      }
      if LE.Get(post, p.parent, key.value).None? {
        found := found + [LE.Violation(id, Some(t[i].0))];
      }
    }
    PrependEnd(found, None);
  }

  lemma ReferenceNext(c: LE.Ctx, id: InvariantId, p: Predicate, t: LE.Table, b: LE.Bindings, found: seq<LE.Violation>)
    requires p.ExistsReference? && t != []
    ensures LE.Prepend(found, LE.CheckReference(c, id, p, t, b))
            == match LE.RowValue(c.m, p.child, t[0].1)
               case Err(e) => LE.Checked(found, Some(e))
               case Ok(row) =>
                 match LE.Eval(c, p.parentKey, b[p.x := row])
                 case Err(e) => LE.Checked(found, Some(e))
                 case Ok(k) =>
                   LE.Prepend(if LE.Get(c.cand, p.parent, k.value).None?
                              then found + [LE.Violation(id, Some(t[0].0))] else found,
                              LE.CheckReference(c, id, p, t[1..], k.b))
  {
    hide LE.RowValue, LE.Eval, LE.Get, LE.Prepend, LE.Fail;
    PrependLaws(found);
  }

  /** Adds each row that passes the filter to the total of its group. */
  method Totals(env: Env, p: Predicate, t: LE.Table, zero: Value, post: LE.State) returns (r: Result<LE.Groups>)
    requires p.Aggregate?
    modifies env`bindings
    ensures match LE.Totals(old(env.Here(post, post)), p, t, old(env.bindings), zero, [])
            case Err(e) => r == Err(e)
            case Ok(g) => r == Ok(g.value) && env.bindings == g.b
  {
    hide LE.Passes, LE.RowValue, LE.Eval, LE.AddToGroup;
    var gs: LE.Groups := [];
    ghost var c := env.Here(post, post);
    for i := 0 to |t|
      invariant LE.Totals(c, p, t[i..], env.bindings, zero, gs) == LE.Totals(c, p, t, old(env.bindings), zero, [])
    {
      assert t[i..][1..] == t[i + 1..] && t[i..][0] == t[i];
      var row := LE.RowValue(env.m, p.record, t[i].1);
      if row.Err? {
        return Err(row.code);
      }
      env.bindings := env.bindings[p.x := row.value];
      var keep := env.Test(p.filter, post, post);
      if keep.Err? {
        return Err(keep.code);
      }
      if keep.value {
        var g: Option<Value> := None;
        if p.groupBy.Some? {
          var v := env.Eval(p.groupBy.value, post, post);
          if v.Err? {
            return Err(v.code);
          }
          g := Some(v.value);
        }
        var contrib := Ok(U64(1));
        if p.op == Sum {
          contrib := env.Eval(p.value, post, post);
        }
        if contrib.Err? {
          return Err(contrib.code);
        }
        var more := LE.AddToGroup(gs, g, zero, contrib.value);
        if more.Err? {
          return more;
        }
        gs := more.value;
      }
    }
    r := Ok(gs);
  }

  method CheckGroups(env: Env, id: InvariantId, p: Predicate, gs: LE.Groups, post: LE.State)
    returns (found: seq<LE.Violation>, error: Option<ErrorCode>)
    requires p.Aggregate?
    modifies env
    ensures LE.Checked(found, error) == LE.CheckGroups(old(env.Here(post, post)), id, p, gs, old(env.bindings))
  {
    hide LE.Prepend, LE.Eval, LE.Holds;
    found, error := [], None;
    ghost var c := env.Here(post, post);
    PrependNothing(LE.CheckGroups(c, id, p, gs, env.bindings));
    for i := 0 to |gs|
      invariant error == None
      invariant LE.Prepend(found, LE.CheckGroups(c, id, p, gs[i..], env.bindings))
                == LE.CheckGroups(c, id, p, gs, old(env.bindings))
    {
      assert gs[i..][1..] == gs[i + 1..] && gs[i..][0] == gs[i];
      GroupsNext(c, id, p, gs[i..], env.bindings, found);
      env.group := gs[i].0;
      assert env.Here(post, post) == c.(group := gs[i].0);
      var bound := env.Eval(p.bound, post, post);
      if bound.Err? {
        return found, Some(bound.code);
      }
      var holds := LE.Holds(p.cmp, gs[i].1, bound.value);
      if holds.Err? {
        return found, Some(holds.code);
      }
      if !holds.value {
        found := found + [LE.Violation(id, gs[i].0)];
      }
    }
    PrependEnd(found, None);
  }

  lemma GroupsNext(c: LE.Ctx, id: InvariantId, p: Predicate, gs: LE.Groups, b: LE.Bindings, found: seq<LE.Violation>)
    requires p.Aggregate? && gs != []
    ensures LE.Prepend(found, LE.CheckGroups(c, id, p, gs, b))
            == match LE.Eval(c.(group := gs[0].0), p.bound, b)
               case Err(e) => LE.Checked(found, Some(e))
               case Ok(bound) =>
                 match LE.Holds(p.cmp, gs[0].1, bound.value)
                 case Err(e) => LE.Checked(found, Some(e))
                 case Ok(h) =>
                   LE.Prepend(if h then found else found + [LE.Violation(id, gs[0].0)],
                              LE.CheckGroups(c, id, p, gs[1..], bound.b))
  {
    hide LE.Eval, LE.Holds, LE.Prepend, LE.Fail;
    PrependLaws(found);
  }

  method CheckAggregate(env: Env, id: InvariantId, p: Predicate, t: LE.Table, post: LE.State)
    returns (found: seq<LE.Violation>, error: Option<ErrorCode>)
    requires p.Aggregate? && env.bindings == map[]
    modifies env
    ensures LE.Checked(found, error) == LE.CheckAggregate(old(env.Here(post, post)), id, p, t)
  {
    hide LE.Totals, LE.CheckGroups;
    var zero := if p.op == Count then Ok(U64(0)) else LE.ZeroOf(p.ty);
    if zero.Err? {
      return [], Some(zero.code);
    }
    var gs := Totals(env, p, t, zero.value, post);
    if gs.Err? {
      return [], Some(gs.code);
    }
    var groups := gs.value;
    if p.groupBy.None? && groups == [] {
      groups := [(None, zero.value)];
    }
    found, error := CheckGroups(env, id, p, groups, post);
  }

  method CheckTransition(pre: LE.State, id: InvariantId, p: Predicate, t: LE.Table)
    returns (found: seq<LE.Violation>, error: Option<ErrorCode>)
    requires p.Transition?
    ensures LE.Checked(found, error) == LE.CheckTransition(pre, id, p, t)
  {
    hide LE.Prepend, LE.Get;
    found, error := [], None;
    PrependNothing(LE.CheckTransition(pre, id, p, t));
    for i := 0 to |t|
      invariant error == None
      invariant LE.Prepend(found, LE.CheckTransition(pre, id, p, t[i..])) == LE.CheckTransition(pre, id, p, t)
    {
      assert t[i..][1..] == t[i + 1..] && t[i..][0] == t[i];
      TransitionNext(pre, id, p, t[i..], found);
      var was := LE.Get(pre, p.record, t[i].0);
      if was.Some? {
        if p.field !in was.value || p.field !in t[i].1 {
          return found, Some(Panic);
        }
        var o, n := was.value[p.field], t[i].1[p.field];
        if o != n && o.Enum? && n.Enum? && (o.variant, n.variant) !in p.edges {
          found := found + [LE.Violation(id, Some(t[i].0))];
        }
      }
    }
    PrependEnd(found, None);
  }

  lemma TransitionNext(pre: LE.State, id: InvariantId, p: Predicate, t: LE.Table, found: seq<LE.Violation>)
    requires p.Transition? && t != []
    ensures LE.Prepend(found, LE.CheckTransition(pre, id, p, t))
            == match LE.Get(pre, p.record, t[0].0)
               case None => LE.Prepend(found, LE.CheckTransition(pre, id, p, t[1..]))
               case Some(was) =>
                 if p.field !in was || p.field !in t[0].1 then LE.Checked(found, Some(Panic))
                 else
                   var o, n := was[p.field], t[0].1[p.field];
                   var bad := o != n && o.Enum? && n.Enum? && (o.variant, n.variant) !in p.edges;
                   LE.Prepend(if bad then found + [LE.Violation(id, Some(t[0].0))] else found,
                              LE.CheckTransition(pre, id, p, t[1..]))
  {
    hide LE.Get, LE.Prepend, LE.Fail;
    PrependLaws(found);
  }

  method CheckInvariant(m: Module, inv: Invariant, pre: LE.State, post: LE.State) returns (c: LE.Checked)
    ensures c == LE.CheckInvariant(m, inv, pre, post)
  {
    hide LE.CheckForAll, LE.CheckUnique, LE.CheckReference, LE.CheckAggregate, LE.CheckTransition;
    var env := new Env(m, []);
    var found, error := [], None;
    match inv.law {
      case ForAll(r, _, _, _) => found, error := CheckForAll(env, inv.id, inv.law, LE.TableOf(post, r), post);
      case Unique(r, _, _, _) => found, error := CheckUnique(env, inv.id, inv.law, LE.TableOf(post, r), post);
      case ExistsReference(r, _, _, _) =>
        found, error := CheckReference(env, inv.id, inv.law, LE.TableOf(post, r), post);
      case Aggregate(_, r, _, _, _, _, _, _, _) =>
        found, error := CheckAggregate(env, inv.id, inv.law, LE.TableOf(post, r), post);
      case Transition(r, _, _) => found, error := CheckTransition(pre, inv.id, inv.law, LE.TableOf(post, r));
      case RequiresFact(_, _, _) =>
    }
    if error == Some(NumericOverflow) || error == Some(MissingRecord) {
      found, error := found + [LE.Violation(inv.id, None)], None;
    }
    c := LE.Checked(found, error);
  }

  // ---------------------------------------------------------------------------
  // Operations
  // ---------------------------------------------------------------------------

  predicate InScope(scope: Option<set<InvariantId>>, id: InvariantId) {
    scope.Some? ==> id in scope.value
  }

  method CheckScoped(m: Module, pre: LE.State, post: LE.State, scope: Option<set<InvariantId>>)
    returns (r: Result<seq<LE.Violation>>)
    ensures r == LE.CheckScoped(m, m.invariants, pre, post, scope)
  {
    hide LE.CheckInvariant;
    var invs := m.invariants;
    var out: seq<LE.Violation> := [];
    AfterNothing(LE.CheckScoped(m, invs, pre, post, scope));
    for i := 0 to |invs|
      invariant LE.CheckScoped(m, invs, pre, post, scope) == After(out, LE.CheckScoped(m, invs[i..], pre, post, scope))
    {
      assert invs[i..][1..] == invs[i + 1..] && invs[i..][0] == invs[i];
      if InScope(scope, invs[i].id) {
        var c := CheckInvariant(m, invs[i], pre, post);
        if c.error.Some? {
          return Err(c.error.value);
        }
        AfterMore(out, c.found, LE.CheckScoped(m, invs[i + 1..], pre, post, scope));
        out := out + c.found;
      }
    }
    assert out + [] == out;
    r := Ok(out);
  }

  ghost function After<T>(a: seq<T>, rest: Result<seq<T>>): Result<seq<T>> {
    match rest
    case Err(e) => Err(e)
    case Ok(b) => Ok(a + b)
  }

  lemma AfterNothing<T>(rest: Result<seq<T>>)
    ensures After([], rest) == rest
  {
    if rest.Ok? {
      assert [] + rest.value == rest.value;
    }
  }

  lemma AfterMore<T>(a: seq<T>, b: seq<T>, rest: Result<seq<T>>)
    ensures After(a, After(b, rest)) == After(a + b, rest)
  {
    if rest.Ok? {
      assert a + (b + rest.value) == (a + b) + rest.value;
    }
  }

  method CheckFacts(invs: seq<Invariant>, op: OpRef, args: seq<Value>, pre: LE.State, scope: Option<set<InvariantId>>)
    returns (r: Result<LE.Or<()>>)
    ensures r == LE.CheckFacts(invs, op, args, pre, scope)
  {
    hide LE.FactKey, LE.Get;
    for i := 0 to |invs|
      invariant LE.CheckFacts(invs[i..], op, args, pre, scope) == LE.CheckFacts(invs, op, args, pre, scope)
    {
      assert invs[i..][1..] == invs[i + 1..] && invs[i..][0] == invs[i];
      var law := invs[i].law;
      if InScope(scope, invs[i].id) && law.RequiresFact? && law.operation == op.operation {
        var key := LE.FactKey(args, law.keyParams);
        if key.Err? {
          return Err(key.code);
        }
        if LE.Get(pre, law.fact, key.value).None? {
          return Ok(LE.Stop(LE.Rejection(MissingDependency, LE.AtInvariant(invs[i].id))));
        }
      }
    }
    r := Ok(LE.Go(()));
  }

  /** Captures the reads in order, each seeing the bindings of those before it. */
  method ReadInputs(c: LE.Ctx, rds: seq<Read>, b0: LE.Bindings) returns (r: LE.Or<(LE.Bindings, LE.Bindings)>)
    ensures r == LE.ReadAll(c, rds, b0, map[])
  {
    hide LE.ReadOne;
    var b, captured: LE.Bindings := b0, map[];
    for i := 0 to |rds|
      invariant LE.ReadAll(c, rds[i..], b, captured) == LE.ReadAll(c, rds, b0, map[])
    {
      assert rds[i..][1..] == rds[i + 1..] && rds[i..][0] == rds[i];
      var v := LE.ReadOne(c, rds[i].kind, b);
      if v.Err? {
        return LE.Stop(LE.Rejection(v.code, LE.Reading));
      }
      b := v.value.b[rds[i].binding := v.value.value];
      captured := captured[rds[i].binding := v.value.value];
    }
    r := LE.Go((b, captured));
  }

  /** Applies the effects in source order to the candidate state. */
  method RunEffects(m: Module, args: seq<Value>, pre: LE.State, efs: seq<Effect>, p0: LE.Progress)
    returns (r: LE.Or<LE.Progress>)
    ensures r == LE.RunEffects(m, args, pre, efs, p0)
  {
    hide LE.RunEffect;
    var p := p0;
    for i := 0 to |efs|
      invariant LE.RunEffects(m, args, pre, efs[i..], p) == LE.RunEffects(m, args, pre, efs, p0)
    {
      assert efs[i..][1..] == efs[i + 1..] && efs[i..][0] == efs[i];
      var q := LE.RunEffect(m, args, pre, efs[i], p);
      if q.Stop? {
        return q;
      }
      p := q.value;
    }
    r := LE.Go(p);
  }

  method EvaluateWithScope(m: Module, r: OpRef, args: seq<Value>, pre: LE.State, scope: Option<set<InvariantId>>)
    returns (out: Result<LE.Outcome>)
    ensures out == LE.EvaluateWithScope(m, r, args, pre, scope)
  {
    hide LE.Demand, LE.ReadAll, LE.RunEffects, LE.CheckFacts, LE.CheckScoped, LE.Finish, LE.ArgsFit, FindOperation;
    var found := FindOperation(m.operations, r);
    if found.Err? {
      return Err(found.code);
    }
    var op := found.value;
    if !LE.ArgsFit(args, op.params) {
      return Ok(LE.Rejected(LE.Rejection(TypeMismatch, LE.Definedness)));
    }
    var c := LE.Ctx(m, args, None, pre, pre);
    var b := LE.Demand(c, op.pre, map[], PreconditionRejected, LE.Precondition);
    if b.Stop? {
      return Ok(LE.Rejected(b.why));
    }
    var inputs := ReadInputs(c, op.inputs, b.value);
    if inputs.Stop? {
      return Ok(LE.Rejected(inputs.why));
    }
    var p := RunEffects(m, args, pre, op.effects, LE.Progress(pre, inputs.value.0, [], []));
    if p.Stop? {
      return Ok(LE.Rejected(p.why));
    }
    var post := LE.Demand(LE.Ctx(m, args, None, pre, p.value.cand), op.post, p.value.b, PostconditionRejected,
                          LE.Postcondition);
    if post.Stop? {
      return Ok(LE.Rejected(post.why));
    }
    var facts := CheckFacts(m.invariants, r, args, pre, scope);
    if facts.Err? {
      return Err(facts.code);
    }
    if facts.value.Stop? {
      return Ok(LE.Rejected(facts.value.why));
    }
    var violations := CheckScoped(m, pre, p.value.cand, scope);
    if violations.Err? {
      return Err(violations.code);
    }
    if violations.value != [] {
      return Ok(LE.Rejected(LE.Rejection(InvariantRejected, LE.AtInvariant(violations.value[0].id))));
    }
    out := Ok(LE.Finish(m, op, args, pre, p.value.(b := post.value), inputs.value.1));
  }
}
