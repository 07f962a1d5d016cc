/**
  Aggregate laws: the totals the checker keeps while it goes through a table are, group by group, the
  sums over the rows of the group, and a group is reported exactly when its sum breaks its bound.
 */
module LangTotals {
  import opened Basics
  import opened LangTypes
  import opened LangEval
  import opened LangOrder
  import opened LangMeaning
  import opened LangLaws

  // ---------------------------------------------------------------------------
  // Sums over rows
  // ---------------------------------------------------------------------------

  /** What a chosen row adds, and to which group. */
  datatype Share = Share(group: Option<Value>, value: Value)

  ghost function ShareOf(c: Ctx, p: Predicate, row: Fields): Result<Option<Share>>
    requires p.Aggregate?
  {
    var f :- Chosen(c, p.record, p.x, p.filter, row);
    if !f.value then Ok(None)
    else if p.groupBy.None? then
      if p.op == Count then Ok(Some(Share(None, U64(1))))
      else
        var v :- Eval(c, p.value, f.b);
        Ok(Some(Share(None, v.value)))
    else
      var g :- Eval(c, p.groupBy.value, f.b);
      if p.op == Count then Ok(Some(Share(Some(g.value), U64(1))))
      else
        var v :- Eval(c, p.value, g.b);
        Ok(Some(Share(Some(g.value), v.value)))
  }

  ghost predicate InGroup(c: Ctx, p: Predicate, row: Fields, g: Option<Value>)
    requires p.Aggregate?
  {
    ShareOf(c, p, row).Ok? && ShareOf(c, p, row).value.Some? && ShareOf(c, p, row).value.value.group == g
  }

  /** The sum over the rows of the group. */
  ghost function GroupSum(c: Ctx, p: Predicate, t: Table, g: Option<Value>): int
    requires p.Aggregate?
  {
    if t == [] then 0
    else
      var last := t[|t| - 1].1;
      GroupSum(c, p, t[..|t| - 1], g)
      + if InGroup(c, p, last, g) then Amount(ShareOf(c, p, last).value.value.value) else 0
  }

  ghost predicate Occurs(c: Ctx, p: Predicate, t: Table, g: Option<Value>)
    requires p.Aggregate?
  {
    exists i :: 0 <= i < |t| && InGroup(c, p, t[i].1, g)
  }

  /** Why the totals stop at row `i`: its own error, a value of another kind, or a sum out of range. */
  ghost function RowFault(c: Ctx, p: Predicate, zero: Value, t: Table, i: nat): Option<ErrorCode>
    requires p.Aggregate? && i < |t|
  {
    var s := ShareOf(c, p, t[i].1);
    if s.Err? then Some(s.code)
    else if s.value.None? then None
    else if Kind(s.value.value.value) != Kind(zero) then Some(TypeMismatch)
    else if !InRange(zero, GroupSum(c, p, t[..i + 1], s.value.value.group)) then Some(NumericOverflow)
    else None
  }

  // ---------------------------------------------------------------------------
  // One addition
  // ---------------------------------------------------------------------------

  ghost predicate GroupLess(g: Option<Value>, h: Option<Value>) {
    match (g, h)
    case (None, Some(_)) => true
    case (Some(x), Some(y)) => Less(x, y)
    case _ => false
  }

  lemma GroupOrder(g: Option<Value>, h: Option<Value>, k: Option<Value>)
    ensures CompareGroup(g, h) < 0 <==> GroupLess(g, h)
    ensures GroupLess(g, h) || g == h || GroupLess(h, g)
    ensures !(GroupLess(g, h) && GroupLess(h, g)) && !GroupLess(g, g)
    ensures GroupLess(g, h) && GroupLess(h, k) ==> GroupLess(g, k)
  {
    hide Less, Compare;
    if g.Some? && h.Some? {
      CompareExact(g.value, h.value);
      TotalOrder(g.value, h.value, if k.Some? then k.value else g.value);
    } else if g.Some? {
      TotalOrder(g.value, g.value, g.value);
    }
  }

  ghost predicate GroupsAscending(gs: Groups) {
    forall i, j :: 0 <= i < j < |gs| ==> GroupLess(gs[i].0, gs[j].0)
  }

  lemma GroupsTail(gs: Groups)
    requires GroupsAscending(gs) && gs != []
    ensures GroupsAscending(gs[1..])
    ensures forall x :: x in gs[1..] ==> GroupLess(gs[0].0, x.0) && x.0 != gs[0].0
  {
    hide GroupLess;
    forall x | x in gs[1..]
      ensures GroupLess(gs[0].0, x.0) && x.0 != gs[0].0
    {
      var i :| 0 <= i < |gs| - 1 && gs[1..][i] == x;
      assert x == gs[i + 1];
      GroupOrder(x.0, x.0, x.0);
    }
  }

  lemma GroupsJoin(x: (Option<Value>, Value), gs: Groups)
    requires GroupsAscending(gs) && forall y :: y in gs ==> GroupLess(x.0, y.0)
    ensures GroupsAscending([x] + gs)
  {
    hide GroupLess;
    var all := [x] + gs;
    forall i, j | 0 <= i < j < |all|
      ensures GroupLess(all[i].0, all[j].0)
    {
      if i > 0 {
        assert all[i] == gs[i - 1] && all[j] == gs[j - 1];
      } else {
        assert all[j] == gs[j - 1] && all[j] in gs;
      }
    }
  }

  /** The total of a group so far. */
  ghost predicate Stands(gs: Groups, g: Option<Value>, zero: Value, was: Value) {
    if exists v :: (g, v) in gs then (g, was) in gs else was == zero
  }

  /** The list `r` is `gs` with the total of `g` set to `v`. */
  ghost predicate Changed(gs: Groups, g: Option<Value>, v: Value, r: Groups) {
    GroupsAscending(r) && forall x :: x in r <==> if x.0 == g then x.1 == v else x in gs
  }

  lemma ChangedFront(gs: Groups, g: Option<Value>, v: Value, zero: Value, was: Value)
    requires GroupsAscending(gs) && (gs == [] || GroupLess(g, gs[0].0)) && Stands(gs, g, zero, was)
    ensures Changed(gs, g, v, [(g, v)] + gs) && was == zero
  {
    hide GroupLess;
    if gs != [] {
      GroupsTail(gs);
      assert gs == [gs[0]] + gs[1..];
      forall y | y in gs
        ensures GroupLess(g, y.0) && y.0 != g
      {
        GroupOrder(g, gs[0].0, y.0);
        GroupOrder(g, y.0, g);
      }
    }
    GroupsJoin((g, v), gs);
  }

  lemma ChangedHere(gs: Groups, g: Option<Value>, v: Value, zero: Value, was: Value)
    requires GroupsAscending(gs) && gs != [] && gs[0].0 == g && Stands(gs, g, zero, was)
    ensures Changed(gs, g, v, [(g, v)] + gs[1..]) && was == gs[0].1
  {
    hide GroupLess;
    GroupsTail(gs);
    assert gs == [gs[0]] + gs[1..];
    assert (g, gs[0].1) in gs;
    GroupsJoin((g, v), gs[1..]);
  }

  lemma ChangedLater(gs: Groups, g: Option<Value>, v: Value, rest: Groups)
    requires GroupsAscending(gs) && gs != [] && GroupLess(gs[0].0, g) && Changed(gs[1..], g, v, rest)
    ensures Changed(gs, g, v, [gs[0]] + rest)
  {
    hide GroupLess;
    GroupsTail(gs);
    GroupOrder(g, gs[0].0, g);
    assert gs == [gs[0]] + gs[1..];
    GroupsJoin(gs[0], rest);
  }

  lemma StandsLater(gs: Groups, g: Option<Value>, zero: Value, was: Value)
    requires gs != [] && gs[0].0 != g && Stands(gs, g, zero, was)
    ensures Stands(gs[1..], g, zero, was)
  {
    assert gs == [gs[0]] + gs[1..];
    forall v
      ensures (g, v) in gs <==> (g, v) in gs[1..]
    {
    }
  }

  lemma AddSteps(gs: Groups, g: Option<Value>, zero: Value, contrib: Value)
    ensures AddToGroup(gs, g, zero, contrib)
            == if gs == [] || GroupLess(g, gs[0].0) then
                 var v := ArithMeans(Add, zero, contrib);
                 if v.Err? then Err(v.code) else Ok([(g, v.value)] + gs)
               else if gs[0].0 == g then
                 var v := ArithMeans(Add, gs[0].1, contrib);
                 if v.Err? then Err(v.code) else Ok([(g, v.value)] + gs[1..])
               else
                 var rest := AddToGroup(gs[1..], g, zero, contrib);
                 if rest.Err? then Err(rest.code) else Ok([gs[0]] + rest.value)
  {
    hide GroupLess, CheckedArith, ArithMeans, CompareGroup;
    ArithExact(Add, zero, contrib);
    if gs != [] {
      GroupOrder(g, gs[0].0, g);
      ArithExact(Add, gs[0].1, contrib);
    }
  }

  /** Adding to a group changes its total alone, or starts the group. */
  lemma {:induction false} AddsExactly(gs: Groups, g: Option<Value>, zero: Value, contrib: Value, was: Value)
    requires GroupsAscending(gs) && Stands(gs, g, zero, was)
    ensures var r, sum := AddToGroup(gs, g, zero, contrib), ArithMeans(Add, was, contrib);
            && (r.Ok? <==> sum.Ok?) && (r.Err? ==> r.code == sum.code)
            && (r.Ok? ==> Changed(gs, g, sum.value, r.value))
    decreases |gs|
  {
    hide GroupLess, GroupsAscending, AddToGroup, ArithMeans, Changed, Stands;
    AddSteps(gs, g, zero, contrib);
    var sum := ArithMeans(Add, was, contrib);
    var v := if sum.Ok? then sum.value else zero;
    if gs != [] {
      GroupOrder(g, gs[0].0, g);
    }
    if gs == [] || GroupLess(g, gs[0].0) {
      ChangedFront(gs, g, v, zero, was);
    } else if gs[0].0 == g {
      ChangedHere(gs, g, v, zero, was);
    } else {
      GroupsTail(gs);
      StandsLater(gs, g, zero, was);
      AddsExactly(gs[1..], g, zero, contrib, was);
      if sum.Ok? {
        ChangedLater(gs, g, v, AddToGroup(gs[1..], g, zero, contrib).value);
      }
    }
  }

  // ---------------------------------------------------------------------------
  // A whole table
  // ---------------------------------------------------------------------------

  ghost predicate IsZero(zero: Value) {
    zero == I64(0) || zero == U64(0)
  }

  /** The list has each group that occurs, once, in order, with the sum over its rows. */
  ghost predicate Represents(c: Ctx, p: Predicate, zero: Value, t: Table, gs: Groups)
    requires p.Aggregate?
  {
    && GroupsAscending(gs)
    && forall x :: x in gs <==> Occurs(c, p, t, x.0) && x.1 == Number(zero, GroupSum(c, p, t, x.0))
  }

  lemma {:induction false} NoSum(c: Ctx, p: Predicate, t: Table, g: Option<Value>)
    requires p.Aggregate? && !Occurs(c, p, t, g)
    ensures GroupSum(c, p, t, g) == 0
  {
    hide InGroup;
    if t != [] {
      var k := |t| - 1;
      assert !InGroup(c, p, t[k].1, g);
      forall i | 0 <= i < k
        ensures !InGroup(c, p, t[..k][i].1, g)
      {
        assert t[..k][i] == t[i];
      }
      NoSum(c, p, t[..k], g);
    }
  }

  lemma OccursNext(c: Ctx, p: Predicate, t: Table, g: Option<Value>)
    requires p.Aggregate? && t != []
    ensures Occurs(c, p, t, g) <==> Occurs(c, p, t[..|t| - 1], g) || InGroup(c, p, t[|t| - 1].1, g)
  {
    hide InGroup;
    var k := |t| - 1;
    if Occurs(c, p, t[..k], g) {
      var i :| 0 <= i < k && InGroup(c, p, t[..k][i].1, g);
      assert t[i] == t[..k][i];
    }
    if Occurs(c, p, t, g) {
      var i :| 0 <= i < |t| && InGroup(c, p, t[i].1, g);
      if i < k {
        assert t[..k][i] == t[i];
      }
    }
  }

  /** What a group stands at is its sum, also before its first row. */
  lemma StandsAtSum(c: Ctx, p: Predicate, zero: Value, t: Table, gs: Groups, g: Option<Value>)
    requires p.Aggregate? && IsZero(zero) && Represents(c, p, zero, t, gs)
    ensures Stands(gs, g, zero, Number(zero, GroupSum(c, p, t, g)))
  {
    hide Occurs, GroupSum, GroupsAscending;
    var was := Number(zero, GroupSum(c, p, t, g));
    if Occurs(c, p, t, g) {
      assert (g, was) in gs;
    } else {
      NoSum(c, p, t, g);
      forall v
        ensures (g, v) !in gs
      {
      }
    }
  }

  /** A row that is not chosen changes no sum. */
  lemma SkipRow(c: Ctx, p: Predicate, zero: Value, t: Table, gs: Groups)
    requires p.Aggregate? && t != [] && Represents(c, p, zero, t[..|t| - 1], gs)
    requires ShareOf(c, p, t[|t| - 1].1) == Ok(None)
    ensures Represents(c, p, zero, t, gs)
  {
    hide Occurs, ShareOf, GroupsAscending;
    forall g
      ensures Occurs(c, p, t, g) <==> Occurs(c, p, t[..|t| - 1], g)
      ensures GroupSum(c, p, t, g) == GroupSum(c, p, t[..|t| - 1], g)
    {
      OccursNext(c, p, t, g);
    }
  }

  /** A chosen row moves the sum of its own group, by its value. */
  lemma AddRow(c: Ctx, p: Predicate, zero: Value, t: Table, gs: Groups)
    requires p.Aggregate? && IsZero(zero) && t != [] && Represents(c, p, zero, t[..|t| - 1], gs)
    requires ShareOf(c, p, t[|t| - 1].1).Ok? && ShareOf(c, p, t[|t| - 1].1).value.Some?
    ensures var s := ShareOf(c, p, t[|t| - 1].1).value.value;
            var r, fault := AddToGroup(gs, s.group, zero, s.value), RowFault(c, p, zero, t, |t| - 1);
            && (r.Ok? <==> fault.None?) && (r.Err? ==> fault == Some(r.code))
            && (r.Ok? ==> Represents(c, p, zero, t, r.value))
  {
    hide Occurs, ShareOf, GroupsAscending, Stands, AddToGroup, GroupSum;
    var k := |t| - 1;
    var s := ShareOf(c, p, t[k].1).value.value;
    var was := Number(zero, GroupSum(c, p, t[..k], s.group));
    StandsAtSum(c, p, zero, t[..k], gs, s.group);
    AddsExactly(gs, s.group, zero, s.value, was);
    assert t[..k + 1] == t;
    forall g
      ensures Occurs(c, p, t, g) <==> Occurs(c, p, t[..k], g) || g == s.group
      ensures GroupSum(c, p, t, g) == GroupSum(c, p, t[..k], g) + if g == s.group then Amount(s.value) else 0
    {
      OccursNext(c, p, t, g);
      SumNext(c, p, t, g);
    }
  }

  lemma SumNext(c: Ctx, p: Predicate, t: Table, g: Option<Value>)
    requires p.Aggregate? && t != []
    ensures GroupSum(c, p, t, g) == GroupSum(c, p, t[..|t| - 1], g)
                                    + if InGroup(c, p, t[|t| - 1].1, g)
                                      then Amount(ShareOf(c, p, t[|t| - 1].1).value.value.value) else 0
  {
  }

  /** The first row is judged alone, and leaves no more than itself bound. */
  lemma TotalsFirst(c: Ctx, p: Predicate, t: Table, b: Bindings) returns (left: Bindings)
    requires p.Aggregate? && Only(b, p.x) && t != []
    ensures Only(left, p.x)
    ensures forall zero, gs ::
              Totals(c, p, t, b, zero, gs)
              == (var s := ShareOf(c, p, t[0].1);
                  if s.Err? then Err(s.code)
                  else if s.value.None? then Totals(c, p, t[1..], left, zero, gs)
                  else
                    var more := AddToGroup(gs, s.value.value.group, zero, s.value.value.value);
                    if more.Err? then Err(more.code) else Totals(c, p, t[1..], left, zero, more.value))
  {
    hide Passes, Eval, RowValue, Part, Only, AddToGroup;
    left := b;
    var row := RowValue(c.m, p.record, t[0].1);
    if row.Ok? {
      OnlyRow(b, p.x, row.value);
      PassesShrinks(c, p.filter, map[p.x := row.value]);
      var f := Passes(c, p.filter, map[p.x := row.value]);
      if f.Ok? {
        OnlyPart(f.value.b, map[p.x := row.value], p.x);
        left := f.value.b;
        if f.value.value {
          left := ShareLeaves(c, p, f.value.b);
        }
      }
    }
  }

  lemma ShareLeaves(c: Ctx, p: Predicate, b: Bindings) returns (left: Bindings)
    requires p.Aggregate? && Only(b, p.x)
    ensures Only(left, p.x)
    ensures EvalOption(c, p.groupBy, b).Ok? ==>
            Contribution(c, p, EvalOption(c, p.groupBy, b).value.b).Ok? ==>
            Contribution(c, p, EvalOption(c, p.groupBy, b).value.b).value.b == left
  {
    hide Eval, Part, Only;
    left := b;
    if p.groupBy.Some? {
      EvalShrinks(c, p.groupBy.value, b);
      if Eval(c, p.groupBy.value, b).Ok? {
        OnlyPart(Eval(c, p.groupBy.value, b).value.b, b, p.x);
        left := Eval(c, p.groupBy.value, b).value.b;
      }
    }
    if p.op != Count {
      EvalShrinks(c, p.value, left);
      if Eval(c, p.value, left).Ok? {
        OnlyPart(Eval(c, p.value, left).value.b, left, p.x);
        left := Eval(c, p.value, left).value.b;
      }
    }
  }

  ghost predicate FirstRowFault(c: Ctx, p: Predicate, zero: Value, t: Table, i: nat)
    requires p.Aggregate?
  {
    i < |t| && RowFault(c, p, zero, t, i).Some? && forall j :: 0 <= j < i ==> RowFault(c, p, zero, t, j).None?
  }

  /** Totals of the first `k` rows lead to the totals of all rows, or to the first fault. */
  lemma {:induction false} TotalsFrom(c: Ctx, p: Predicate, t: Table, k: nat, b: Bindings, zero: Value, gs: Groups)
    requires p.Aggregate? && IsZero(zero) && k <= |t| && Only(b, p.x) && Represents(c, p, zero, t[..k], gs)
    requires forall i :: 0 <= i < k ==> RowFault(c, p, zero, t, i).None?
    ensures var r := Totals(c, p, t[k..], b, zero, gs);
            && (r.Ok? ==> Only(r.value.b, p.x) && Represents(c, p, zero, t, r.value.value)
                          && forall i :: 0 <= i < |t| ==> RowFault(c, p, zero, t, i).None?)
            && (r.Err? ==> exists i: nat ::
                  FirstRowFault(c, p, zero, t, i) && RowFault(c, p, zero, t, i) == Some(r.code))
    decreases |t| - k
  {
    hide Represents, ShareOf, Only, AddToGroup, GroupSum;
    if k == |t| {
      assert t[..k] == t;
      assert t[k..] == [];
    } else {
      var left := TotalsFirst(c, p, t[k..], b);
      var s := ShareOf(c, p, t[k].1);
      assert t[k..][0] == t[k] && t[k..][1..] == t[k + 1..];
      var u := t[..k + 1];
      assert u[..k] == t[..k] && u[k] == t[k] && |u| == k + 1;
      FaultWithin(c, p, zero, t, k);
      if s.Err? {
        assert FirstRowFault(c, p, zero, t, k);
      } else if s.value.None? {
        SkipRow(c, p, zero, u, gs);
        TotalsFrom(c, p, t, k + 1, left, zero, gs);
      } else {
        AddRow(c, p, zero, u, gs);
        var more := AddToGroup(gs, s.value.value.group, zero, s.value.value.value);
        if more.Err? {
          assert FirstRowFault(c, p, zero, t, k);
        } else {
          TotalsFrom(c, p, t, k + 1, left, zero, more.value);
        }
      }
    }
  }

  lemma FaultWithin(c: Ctx, p: Predicate, zero: Value, t: Table, k: nat)
    requires p.Aggregate? && k < |t|
    ensures RowFault(c, p, zero, t[..k + 1], k) == RowFault(c, p, zero, t, k)
  {
    hide ShareOf, GroupSum;
    assert t[..k + 1][..k + 1] == t[..k + 1];
  }

  /**
    The totals of a table: every group that occurs, once, with the sum over its rows; or the first row
    whose own evaluation, whose kind, or whose running sum is at fault.
   */
  lemma TotalsExactly(c: Ctx, p: Predicate, t: Table, zero: Value)
    requires p.Aggregate? && IsZero(zero)
    ensures var r := Totals(c, p, t, map[], zero, []);
            && (r.Ok? <==> forall i :: 0 <= i < |t| ==> RowFault(c, p, zero, t, i).None?)
            && (r.Ok? ==> Only(r.value.b, p.x) && Represents(c, p, zero, t, r.value.value))
            && (r.Err? ==> exists i: nat ::
                  FirstRowFault(c, p, zero, t, i) && RowFault(c, p, zero, t, i) == Some(r.code))
  {
    hide ShareOf, Totals, RowFault;
    assert t[..0] == [] && t[0..] == t;
    assert Represents(c, p, zero, [], []) by {
      assert forall g :: !Occurs(c, p, [], g);
    }
    TotalsFrom(c, p, t, 0, map[], zero, []);
  }

  // ---------------------------------------------------------------------------
  // Bounds
  // ---------------------------------------------------------------------------

  /** A group breaks the law when its total does not stand in the relation to its bound. */
  ghost function GroupFate(c: Ctx, p: Predicate, x: (Option<Value>, Value)): Fate
    requires p.Aggregate?
  {
    var bound :- Eval(c.(group := x.0), p.bound, map[]);
    if Kind(x.1) != Kind(bound.value) then Err(TypeMismatch)
    else Ok(if Relates(p.cmp, x.1, bound.value) then None else Some(x.0))
  }

  lemma {:induction false} GroupsExactly(c: Ctx, id: InvariantId, p: Predicate, gs: Groups, b: Bindings,
                                         fates: seq<Fate>)
    requires p.Aggregate? && Only(b, p.x) && p.x !in Free(p.bound) && |fates| == |gs|
    requires forall i :: 0 <= i < |gs| ==> fates[i] == GroupFate(c, p, gs[i])
    ensures Tells(id, fates, CheckGroups(c, id, p, gs, b))
    decreases |gs|
  {
    hide Tells, Eval, Holds, Relates, Free, Part, Only;
    if gs == [] {
      TellsNothing(id);
    } else {
      assert fates[0] == GroupFate(c, p, gs[0]);
      var d := c.(group := gs[0].0);
      BoundBlind(d, p, b);
      var bound := Eval(d, p.bound, b);
      if bound.Err? {
        TellsError(id, fates);
      } else {
        ComparesExactly(p.cmp, gs[0].1, bound.value.value);
        if fates[0].Err? {
          TellsError(id, fates);
        } else {
          EvalShrinks(d, p.bound, b);
          OnlyPart(bound.value.b, b, p.x);
          GroupsExactly(c, id, p, gs[1..], bound.value.b, fates[1..]);
          TellsNext(id, fates, CheckGroups(c, id, p, gs[1..], bound.value.b));
        }
      }
    }
  }

  /** The bound does not see what the rows left bound. */
  lemma BoundBlind(c: Ctx, p: Predicate, b: Bindings)
    requires p.Aggregate? && Only(b, p.x) && p.x !in Free(p.bound)
    ensures Eval(c, p.bound, b).Ok? <==> Eval(c, p.bound, map[]).Ok?
    ensures Eval(c, p.bound, b).Ok? ==> Eval(c, p.bound, b).value.value == Eval(c, p.bound, map[]).value.value
    ensures Eval(c, p.bound, b).Err? ==> Eval(c, p.bound, b).code == Eval(c, p.bound, map[]).code
  {
    hide Eval, Free;
    EvalAlike(c, p.bound, b, map[], Free(p.bound));
  }

  ghost function ZeroFor(p: Predicate): Value
    requires p.Aggregate?
  {
    if p.op == Sum && p.ty.TI64? then I64(0) else U64(0)
  }

  /** The groups a law judges: those that occur, and the whole table when it does not group. */
  ghost predicate Judged(c: Ctx, p: Predicate, t: Table, gs: Groups)
    requires p.Aggregate?
  {
    if p.groupBy.None? then gs == [(None, Number(ZeroFor(p), GroupSum(c, p, t, None)))]
    else Represents(c, p, ZeroFor(p), t, gs)
  }

  lemma UngroupedJudged(c: Ctx, p: Predicate, t: Table, gs: Groups)
    requires p.Aggregate? && p.groupBy.None? && Represents(c, p, ZeroFor(p), t, gs)
    ensures Judged(c, p, t, if gs == [] then [(None, ZeroFor(p))] else gs)
  {
    hide GroupSum, GroupLess;
    assert Occurs(c, p, t, None) ==> (None, Number(ZeroFor(p), GroupSum(c, p, t, None))) in gs;
    forall g, i | 0 <= i < |t| && InGroup(c, p, t[i].1, g)
      ensures g == None
    {
    }
    forall x | x in gs
      ensures x == (None, Number(ZeroFor(p), GroupSum(c, p, t, None)))
    {
    }
    if |gs| > 1 {
      assert gs[0] in gs && gs[1] in gs;
      GroupOrder(gs[0].0, gs[1].0, None);
      assert false;
    } else if |gs| == 1 {
      assert gs[0] in gs;
    } else {
      NoSum(c, p, t, None);
    }
  }

  lemma JudgedUnique(c: Ctx, p: Predicate, zero: Value, t: Table, gs: Groups, hs: Groups)
    requires p.Aggregate? && Represents(c, p, zero, t, gs) && Represents(c, p, zero, t, hs)
    ensures gs == hs
  {
    hide Occurs, GroupSum, GroupsAscending;
    GroupsUnique(gs, hs);
  }

  lemma {:induction false} GroupsUnique(gs: Groups, hs: Groups)
    requires GroupsAscending(gs) && GroupsAscending(hs) && forall x :: x in gs <==> x in hs
    ensures gs == hs
  {
    hide GroupLess;
    assert hs != [] ==> hs[0] in gs;
    if gs != [] {
      assert gs[0] in hs;
      GroupsTail(gs);
      GroupsTail(hs);
      assert gs == [gs[0]] + gs[1..] && hs == [hs[0]] + hs[1..];
      if gs[0] != hs[0] {
        GroupOrder(gs[0].0, hs[0].0, gs[0].0);
        assert false;
      }
      forall x
        ensures x in gs[1..] <==> x in hs[1..]
      {
        assert x in gs[1..] <==> x in gs && x != gs[0];
        assert x in hs[1..] <==> x in hs && x != hs[0];
      }
      GroupsUnique(gs[1..], hs[1..]);
    }
  }

  /**
    An aggregate law over a numeric type: the check stops at the first row fault, and otherwise
    reports, in group order, exactly the groups whose sum breaks the bound.
   */
  lemma AggregateExactly(c: Ctx, id: InvariantId, p: Predicate, t: Table, gs: Groups, fates: seq<Fate>)
    requires p.Aggregate? && p.x !in Free(p.bound) && (p.op == Count || p.ty.TI64? || p.ty.TU64?)
    requires Judged(c, p, t, gs) && |fates| == |gs|
    requires forall i :: 0 <= i < |gs| ==> fates[i] == GroupFate(c, p, gs[i])
    ensures if exists i: nat :: FirstRowFault(c, p, ZeroFor(p), t, i)
            then exists i: nat :: FirstRowFault(c, p, ZeroFor(p), t, i)
                             && CheckAggregate(c, id, p, t) == Fail(RowFault(c, p, ZeroFor(p), t, i).value)
            else Tells(id, fates, CheckAggregate(c, id, p, t))
  {
    hide Totals, CheckGroups, Represents, RowFault, GroupFate, Tells, Free, Only, GroupSum;
    var zero := ZeroFor(p);
    TotalsExactly(c, p, t, zero);
    var r := Totals(c, p, t, map[], zero, []);
    if r.Ok? {
      var hs := if p.groupBy.None? && r.value.value == [] then [(None, zero)] else r.value.value;
      if p.groupBy.None? {
        UngroupedJudged(c, p, t, r.value.value);
      } else {
        JudgedUnique(c, p, zero, t, gs, hs);
      }
      assert gs == hs;
      GroupsExactly(c, id, p, gs, r.value.b, fates);
    }
  }

  // ---------------------------------------------------------------------------
  // When an invariant holds
  // ---------------------------------------------------------------------------

  lemma TellsClean(id: InvariantId, fates: seq<Fate>, out: Checked)
    requires Tells(id, fates, out)
    ensures out == Checked([], None) <==> forall i :: 0 <= i < |fates| ==> fates[i] == Ok(None)
  {
    var n: nat, js: seq<nat> :| TellsAt(id, fates, out, n, js);
    assert js != [] ==> fates[js[0]].value.Some?;
    if out == Checked([], None) {
      assert js == [] && n == |fates|;
      forall i | 0 <= i < |fates|
        ensures fates[i] == Ok(None)
      {
        assert i !in js;
      }
    }
  }

  /** Every chosen row makes the body true. */
  ghost predicate ForAllHolds(c: Ctx, p: Predicate, t: Table)
    requires p.ForAll?
  {
    forall i :: 0 <= i < |t| ==> ForAllFate(c, p, t[i]) == Ok(None)
  }

  /** No two chosen rows have the same key. */
  ghost predicate UniqueHolds(c: Ctx, p: Predicate, t: Table)
    requires p.Unique?
  {
    && (forall i :: 0 <= i < |t| ==> KeyOf(c, p, t[i].1).Ok?)
    && (forall i, j :: 0 <= i < j < |t| && KeyOf(c, p, t[i].1) == KeyOf(c, p, t[j].1) ==>
          KeyOf(c, p, t[j].1) == Ok(None))
  }

  ghost predicate ReferenceHolds(c: Ctx, p: Predicate, t: Table)
    requires p.ExistsReference?
  {
    forall i :: 0 <= i < |t| ==> ReferenceFate(c, p, t[i]) == Ok(None)
  }

  ghost predicate TransitionHolds(pre: State, p: Predicate, t: Table)
    requires p.Transition?
  {
    forall i :: 0 <= i < |t| ==> TransitionFate(pre, p, t[i]) == Ok(None)
  }

  /** The sums exist, and each stands in the relation to its bound. */
  ghost predicate AggregateHolds(c: Ctx, p: Predicate, t: Table)
    requires p.Aggregate?
  {
    && (p.op == Count || p.ty.TI64? || p.ty.TU64?)
    && (forall i :: 0 <= i < |t| ==> RowFault(c, p, ZeroFor(p), t, i).None?)
    && (forall g :: (if p.groupBy.None? then g == None else Occurs(c, p, t, g)) ==>
          GroupFate(c, p, (g, Number(ZeroFor(p), GroupSum(c, p, t, g)))) == Ok(None))
  }

  /** What the law of an invariant says of a change from `pre` to `post`. */
  ghost predicate LawHolds(m: Module, inv: Invariant, pre: State, post: State) {
    var c := Ctx(m, [], None, post, post);
    match inv.law
    case ForAll(r, _, _, _) => ForAllHolds(c, inv.law, TableOf(post, r))
    case Unique(r, _, _, _) => UniqueHolds(c, inv.law, TableOf(post, r))
    case ExistsReference(r, _, _, _) => ReferenceHolds(c, inv.law, TableOf(post, r))
    case Aggregate(_, r, _, _, _, _, _, _, _) => AggregateHolds(c, inv.law, TableOf(post, r))
    case Transition(r, _, _) => TransitionHolds(pre, inv.law, TableOf(post, r))
    case RequiresFact(_, _, _) => true
  }

  lemma UniqueClean(c: Ctx, p: Predicate, t: Table)
    requires p.Unique?
    ensures UniqueHolds(c, p, t) <==> forall i :: 0 <= i < |t| ==> UniqueFate(c, p, t, i) == Ok(None)
  {
    hide KeyOf;
    if forall i :: 0 <= i < |t| ==> UniqueFate(c, p, t, i) == Ok(None) {
      forall i, j | 0 <= i < j < |t| && KeyOf(c, p, t[i].1) == KeyOf(c, p, t[j].1)
        ensures KeyOf(c, p, t[j].1) == Ok(None)
      {
        assert UniqueFate(c, p, t, j) == Ok(None);
      }
      forall i | 0 <= i < |t|
        ensures KeyOf(c, p, t[i].1).Ok?
      {
        assert UniqueFate(c, p, t, i) == Ok(None);
      }
    }
  }

  /** The totals as a list, for any table without faults. */
  lemma JudgedExists(c: Ctx, p: Predicate, t: Table) returns (gs: Groups)
    requires p.Aggregate? && forall i :: 0 <= i < |t| ==> RowFault(c, p, ZeroFor(p), t, i).None?
    ensures Judged(c, p, t, gs)
  {
    hide Represents, RowFault, Totals, GroupSum;
    TotalsExactly(c, p, t, ZeroFor(p));
    gs := Totals(c, p, t, map[], ZeroFor(p), []).value.value;
    if p.groupBy.None? {
      UngroupedJudged(c, p, t, gs);
      gs := if gs == [] then [(None, ZeroFor(p))] else gs;
    }
  }

  lemma AggregateClean(c: Ctx, id: InvariantId, p: Predicate, t: Table)
    requires p.Aggregate? && p.x !in Free(p.bound)
    ensures CheckAggregate(c, id, p, t) == Checked([], None) <==> AggregateHolds(c, p, t)
  {
    hide CheckGroups, Totals, RowFault, GroupFate, GroupSum, Free, Occurs;
    if p.op == Count || p.ty.TI64? || p.ty.TU64? {
      TotalsExactly(c, p, t, ZeroFor(p));
      if forall i :: 0 <= i < |t| ==> RowFault(c, p, ZeroFor(p), t, i).None? {
        FaultlessClean(c, id, p, t);
      }
    }
  }

  lemma FaultlessClean(c: Ctx, id: InvariantId, p: Predicate, t: Table)
    requires p.Aggregate? && p.x !in Free(p.bound) && (p.op == Count || p.ty.TI64? || p.ty.TU64?)
    requires forall i :: 0 <= i < |t| ==> RowFault(c, p, ZeroFor(p), t, i).None?
    ensures CheckAggregate(c, id, p, t) == Checked([], None)
            <==> forall g :: (if p.groupBy.None? then g == None else Occurs(c, p, t, g)) ==>
                   GroupFate(c, p, (g, Number(ZeroFor(p), GroupSum(c, p, t, g)))) == Ok(None)
  {
    hide CheckAggregate, RowFault, GroupFate, Represents, GroupSum, Tells, Free, Occurs;
    var gs := JudgedExists(c, p, t);
    var fates := seq(|gs|, i requires 0 <= i < |gs| => GroupFate(c, p, gs[i]));
    AggregateExactly(c, id, p, t, gs, fates);
    assert !exists i: nat :: FirstRowFault(c, p, ZeroFor(p), t, i);
    TellsClean(id, fates, CheckAggregate(c, id, p, t));
    GroupsClean(c, p, t, gs, fates);
  }

  lemma GroupsClean(c: Ctx, p: Predicate, t: Table, gs: Groups, fates: seq<Fate>)
    requires p.Aggregate? && Judged(c, p, t, gs) && |fates| == |gs|
    requires forall i :: 0 <= i < |gs| ==> fates[i] == GroupFate(c, p, gs[i])
    ensures (forall i :: 0 <= i < |fates| ==> fates[i] == Ok(None))
            <==> forall g :: (if p.groupBy.None? then g == None else Occurs(c, p, t, g)) ==>
                   GroupFate(c, p, (g, Number(ZeroFor(p), GroupSum(c, p, t, g)))) == Ok(None)
  {
    hide GroupFate, GroupSum, Occurs, GroupsAscending;
    if forall i :: 0 <= i < |fates| ==> fates[i] == Ok(None) {
      forall g | if p.groupBy.None? then g == None else Occurs(c, p, t, g)
        ensures GroupFate(c, p, (g, Number(ZeroFor(p), GroupSum(c, p, t, g)))) == Ok(None)
      {
        var x := (g, Number(ZeroFor(p), GroupSum(c, p, t, g)));
        assert x in gs;
        var i :| 0 <= i < |gs| && gs[i] == x;
        assert fates[i] == Ok(None);
      }
    }
    if forall g :: (if p.groupBy.None? then g == None else Occurs(c, p, t, g)) ==>
             GroupFate(c, p, (g, Number(ZeroFor(p), GroupSum(c, p, t, g)))) == Ok(None) {
      forall i | 0 <= i < |fates|
        ensures fates[i] == Ok(None)
      {
        assert gs[i] in gs;
        assert gs[i] == (gs[i].0, gs[i].1);
      }
    }
  }

  /** An invariant is passed over in silence exactly when its law holds. */
  lemma InvariantHoldsExactly(m: Module, inv: Invariant, pre: State, post: State)
    requires inv.law.Aggregate? ==> inv.law.x !in Free(inv.law.bound)
    ensures CheckInvariant(m, inv, pre, post) == Checked([], None) <==> LawHolds(m, inv, pre, post)
  {
    hide CheckForAll, CheckUnique, CheckReference, CheckAggregate, CheckTransition, ForAllFate, ReferenceFate,
         TransitionFate, UniqueFate, UniqueHolds, AggregateHolds, Tells, Free, TableOf;
    var c, p := Ctx(m, [], None, post, post), inv.law;
    match p
    case ForAll(r, _, _, _) =>
      var t := TableOf(post, r);
      var fates := seq(|t|, i requires 0 <= i < |t| => ForAllFate(c, p, t[i]));
      ForAllExactly(c, inv.id, p, t, map[], fates);
      TellsClean(inv.id, fates, CheckForAll(c, inv.id, p, t, map[]));
    case Unique(r, _, _, _) =>
      var t := TableOf(post, r);
      var fates := seq(|t|, i requires 0 <= i < |t| => UniqueFate(c, p, t, i));
      UniqueExactly(c, inv.id, p, t, fates);
      TellsClean(inv.id, fates, CheckUnique(c, inv.id, p, t, map[], {}));
      UniqueClean(c, p, t);
    case ExistsReference(r, _, _, _) =>
      var t := TableOf(post, r);
      var fates := seq(|t|, i requires 0 <= i < |t| => ReferenceFate(c, p, t[i]));
      ReferenceExactly(c, inv.id, p, t, map[], fates);
      TellsClean(inv.id, fates, CheckReference(c, inv.id, p, t, map[]));
    case Aggregate(_, r, _, _, _, _, _, _, _) => AggregateClean(c, inv.id, p, TableOf(post, r));
    case Transition(r, _, _) =>
      var t := TableOf(post, r);
      var fates := seq(|t|, i requires 0 <= i < |t| => TransitionFate(pre, p, t[i]));
      TransitionExactly(pre, inv.id, p, t, fates);
      TellsClean(inv.id, fates, CheckTransition(pre, inv.id, p, t));
    case RequiresFact(_, _, _) =>
  }

  /**
    A law that becomes undefined, by overflow or a missing row, counts as one more violation without an
    instance; any other error of the check is passed on.
   */
  lemma UndefinedViolates(m: Module, inv: Invariant, pre: State, post: State)
    ensures var law, c := CheckLaw(m, inv, pre, post), CheckInvariant(m, inv, pre, post);
            && c.error != Some(NumericOverflow) && c.error != Some(MissingRecord)
            && law.found <= c.found
            && (law.error == Some(NumericOverflow) || law.error == Some(MissingRecord) ==>
                  c.error == None && c.found[|law.found|..] == [Violation(inv.id, None)])
            && (law.error != Some(NumericOverflow) && law.error != Some(MissingRecord) ==> c == law)
  {
    hide CheckLaw;
  }
}
