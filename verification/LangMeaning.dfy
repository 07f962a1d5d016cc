/**
  What an expression means, with lexical scoping: a sum binds its variable in its body and nowhere
  else. The interpreter keeps one map of bindings that a sum writes to and removes from; it computes
  the meaning, and gives the map back unchanged, whenever no sum reuses a variable that is bound.
 */
module LangMeaning {
  import opened Basics
  import opened LangTypes
  import opened LangEval
  import opened LangOrder

  // ---------------------------------------------------------------------------
  // Numbers, sets and members
  // ---------------------------------------------------------------------------

  /** The number a value holds, if it holds one. */
  ghost function Amount(v: Value): int {
    match v
    case I64(i) => i
    case U64(n) => n
    case _ => 0
  }

  ghost predicate Numeric(v: Value) {
    v.I64? || v.U64?
  }

  /** A number of the kind of `v` can be `z`. */
  ghost predicate InRange(v: Value, z: int) {
    (v.I64? && -0x8000_0000_0000_0000 <= z < 0x8000_0000_0000_0000) || (v.U64? && 0 <= z < 0x1_0000_0000_0000_0000)
  }

  /** The number `z`, of the kind of `v`. */
  ghost function Number(v: Value, z: int): Value {
    if v.I64? then I64(z) else U64(z)
  }

  ghost function ArithMeans(op: ArithOp, a: Value, b: Value): Result<Value> {
    if !Numeric(a) || Kind(a) != Kind(b) then Err(TypeMismatch)
    else
      var x, y := Amount(a), Amount(b);
      var z := match op
               case Add => x + y
               case Sub => x - y
               case Mul => x * y;
      if InRange(a, z) then Ok(Number(a, z)) else Err(NumericOverflow)
  }

  lemma ArithExact(op: ArithOp, a: Value, b: Value)
    ensures CheckedArith(op, a, b) == ArithMeans(op, a, b)
  {
  }

  ghost predicate Ascending(s: seq<Value>) {
    forall i, j :: 0 <= i < j < |s| ==> Less(s[i], s[j])
  }

  lemma {:induction false} AddItemExact(s: seq<Value>, v: Value)
    requires Ascending(s)
    ensures Ascending(AddItem(s, v))
    ensures forall x :: x in AddItem(s, v) <==> x in s || x == v
  {
    hide Less, Compare;
    if s != [] {
      CompareExact(v, s[0]);
      var rest := AddItem(s[1..], v);
      AddItemExact(s[1..], v);
      assert s == [s[0]] + s[1..];
      forall x | x in s[1..]
        ensures Less(s[0], x)
      {
        var i :| 0 <= i < |s| - 1 && s[1..][i] == x;
        assert x == s[i + 1];
      }
      forall x | x in s
        ensures TotalAt(v, s[0], x)
      {
        TotalOrder(v, s[0], x);
      }
      if Compare(v, s[0]) > 0 {
        TotalOrder(v, s[0], v);
        AscendingJoin(s[0], rest);
      } else if Compare(v, s[0]) < 0 {
        AscendingJoin(v, s);
      }
    }
  }

  ghost predicate TotalAt(a: Value, b: Value, c: Value) {
    Less(a, b) && Less(b, c) ==> Less(a, c)
  }

  lemma AscendingJoin(v: Value, s: seq<Value>)
    requires Ascending(s) && forall x :: x in s ==> Less(v, x)
    ensures Ascending([v] + s)
  {
    hide Less;
    var t := [v] + s;
    forall i, j | 0 <= i < j < |t|
      ensures Less(t[i], t[j])
    {
      if i > 0 {
        assert t[i] == s[i - 1] && t[j] == s[j - 1];
      } else {
        assert t[j] == s[j - 1] && t[j] in s;
      }
    }
  }

  lemma {:induction false} RemoveItemExact(s: seq<Value>, v: Value)
    requires Ascending(s)
    ensures Ascending(RemoveItem(s, v))
    ensures forall x :: x in RemoveItem(s, v) <==> x in s && x != v
  {
    hide Less;
    if s != [] {
      assert s == [s[0]] + s[1..];
      forall x | x in s[1..]
        ensures Less(s[0], x) && x != s[0]
      {
        var i :| 0 <= i < |s| - 1 && s[1..][i] == x;
        assert x == s[i + 1];
        TotalOrder(x, x, x);
      }
      RemoveItemExact(s[1..], v);
      if s[0] != v {
        AscendingJoin(s[0], RemoveItem(s[1..], v));
      }
    }
  }

  /** A set literal is the ascending list of its distinct values. */
  lemma {:induction false} SetFromExact(vs: seq<Value>)
    ensures Ascending(SetFrom(vs))
    ensures forall x :: x in SetFrom(vs) <==> x in vs
  {
    hide Less, AddItem;
    if vs != [] {
      var k := |vs| - 1;
      SetFromExact(vs[..k]);
      AddItemExact(SetFrom(vs[..k]), vs[k]);
      assert vs == vs[..k] + [vs[k]];
    }
  }

  /** Ascending lists with the same values are the same list. */
  lemma {:induction false} AscendingUnique(s: seq<Value>, t: seq<Value>)
    requires Ascending(s) && Ascending(t) && forall x :: x in s <==> x in t
    ensures s == t
  {
    hide Less;
    assert t != [] ==> t[0] in s;
    if s != [] {
      assert s[0] in t;
      var i :| 0 <= i < |t| && t[i] == s[0];
      var j :| 0 <= j < |s| && s[j] == t[0];
      if i > 0 && j > 0 {
        TotalOrder(s[0], t[0], s[0]);
        assert false;
      }
      assert s[0] == t[0];
      forall x
        ensures x in s[1..] <==> x in t[1..]
      {
        TailMember(s, x);
        TailMember(t, x);
      }
      AscendingUnique(s[1..], t[1..]);
      assert s == [s[0]] + s[1..] && t == [t[0]] + t[1..];
    }
  }

  lemma TailMember(s: seq<Value>, x: Value)
    requires Ascending(s) && s != []
    ensures x in s[1..] <==> x in s && x != s[0]
  {
    hide Less;
    assert s == [s[0]] + s[1..];
    if x in s[1..] {
      var i :| 0 <= i < |s| - 1 && s[1..][i] == x;
      assert x == s[i + 1];
      TotalOrder(x, x, x);
    }
  }

  /** Members in ascending order of their names. */
  ghost predicate NamesAscending(ms: seq<Member>) {
    forall i, j :: 0 <= i < j < |ms| ==> BytesLess(ms[i].name, ms[j].name)
  }

  /** A name stands for the one member that carries it. */
  lemma {:induction false} GetMemberExact(ms: seq<Member>, n: Name)
    requires NamesAscending(ms)
    ensures forall v :: GetMember(ms, n) == Some(v) <==> Member(n, v) in ms
  {
    hide BytesLess;
    if ms != [] {
      NamesTail(ms);
      GetMemberExact(ms[1..], n);
      assert ms == [ms[0]] + ms[1..];
      forall m | m in ms[1..]
        ensures m.name != ms[0].name
      {
        BytesExact(ms[0].name, m.name);
        BytesLevel(ms[0].name, m.name);
      }
    }
  }

  lemma NamesJoin(x: Member, ms: seq<Member>)
    requires NamesAscending(ms) && forall m :: m in ms ==> BytesLess(x.name, m.name)
    ensures NamesAscending([x] + ms)
  {
    hide BytesLess;
    var all := [x] + ms;
    forall i, j | 0 <= i < j < |all|
      ensures BytesLess(all[i].name, all[j].name)
    {
      if i > 0 {
        assert all[i] == ms[i - 1] && all[j] == ms[j - 1];
      } else {
        assert all[j] == ms[j - 1] && all[j] in ms;
      }
    }
  }

  lemma NamesTail(ms: seq<Member>)
    requires NamesAscending(ms) && ms != []
    ensures NamesAscending(ms[1..]) && forall m :: m in ms[1..] ==> BytesLess(ms[0].name, m.name)
  {
    hide BytesLess;
    forall m | m in ms[1..]
      ensures BytesLess(ms[0].name, m.name)
    {
      var i :| 0 <= i < |ms| - 1 && ms[1..][i] == m;
      assert m == ms[i + 1];
    }
  }

  /** Storing a member under a name replaces what the name stood for, and nothing else. */
  lemma {:induction false} PutMemberExact(ms: seq<Member>, n: Name, v: Value)
    requires NamesAscending(ms)
    ensures NamesAscending(PutMember(ms, n, v))
    ensures forall x :: x in PutMember(ms, n, v) <==> x == Member(n, v) || (x in ms && x.name != n)
  {
    hide BytesLess, CompareBytes;
    if ms != [] {
      var a, rest := ms[0], PutMember(ms[1..], n, v);
      NamesTail(ms);
      PutMemberExact(ms[1..], n, v);
      assert ms == [a] + ms[1..];
      BytesExact(n, a.name);
      BytesExact(a.name, n);
      BytesMirror(n, a.name);
      forall m | m in ms[1..]
        ensures m.name != a.name && (BytesLess(n, a.name) ==> BytesLess(n, m.name))
      {
        BytesExact(a.name, m.name);
        BytesLevel(a.name, m.name);
        BytesExact(n, m.name);
        if BytesLess(n, a.name) {
          BytesChain(n, a.name, m.name);
        }
      }
      BytesLevel(n, a.name);
      if CompareBytes(n, a.name) == 0 {
        NamesJoin(Member(n, v), ms[1..]);
      } else if CompareBytes(n, a.name) < 0 {
        forall m | m in ms
          ensures BytesLess(n, m.name) && m.name != n
        {
          BytesExact(n, m.name);
          BytesLevel(n, m.name);
        }
        NamesJoin(Member(n, v), ms);
      } else {
        NamesJoin(a, rest);
      }
    }
  }

  /** The last declared field of that name which the row has. */
  ghost predicate FieldNamed(fs: seq<FieldDef>, row: Fields, n: Name, j: nat) {
    && j < |fs| && fs[j].name == n && fs[j].id in row
    && forall k :: j < k < |fs| ==> fs[k].name != n || fs[k].id !in row
  }

  /** A row value has one member per name, with the value of the field of that name. */
  lemma {:induction false} RowFieldsExact(fs: seq<FieldDef>, row: Fields)
    ensures NamesAscending(RowFields(fs, row))
    ensures forall n, v ::
              Member(n, v) in RowFields(fs, row) <==> exists j: nat :: FieldNamed(fs, row, n, j) && v == row[fs[j].id]
  {
    hide PutMember;
    if fs != [] {
      var k := |fs| - 1;
      var init, last := fs[..k], fs[k];
      RowFieldsExact(init, row);
      var rest := RowFields(init, row);
      if last.id in row {
        PutMemberExact(rest, last.name, row[last.id]);
      }
      forall n, v
        ensures Member(n, v) in RowFields(fs, row)
                <==> exists j: nat :: FieldNamed(fs, row, n, j) && v == row[fs[j].id]
      {
        LastField(fs, row, n);
        if last.id in row && last.name == n {
          assert FieldNamed(fs, row, n, k);
        } else {
          assert Member(n, v) in RowFields(fs, row) <==> Member(n, v) in rest;
          if Member(n, v) in rest {
            var j: nat :| FieldNamed(init, row, n, j) && v == row[init[j].id];
            assert FieldNamed(fs, row, n, j) && v == row[fs[j].id];
          }
        }
      }
    }
  }

  lemma LastField(fs: seq<FieldDef>, row: Fields, n: Name)
    requires fs != []
    ensures forall j: nat :: FieldNamed(fs, row, n, j) <==>
              if fs[|fs| - 1].id in row && fs[|fs| - 1].name == n then j == |fs| - 1
              else FieldNamed(fs[..|fs| - 1], row, n, j)
  {
  }

  // ---------------------------------------------------------------------------
  // Meaning
  // ---------------------------------------------------------------------------

  ghost function MemberMeans(ms: seq<Member>, n: Name): Result<Value> {
    match GetMember(ms, n)
    case Some(v) => Ok(v)
    case None => Err(InvalidIr)
  }

  ghost function UnaryMeans(c: Ctx, u: UnaryOp, v: Value): Result<Value> {
    match u
    case Field(n) => if v.Row? then MemberMeans(v.fields, n) else Err(TypeMismatch)
    case StructField(n) => if v.Struct? then MemberMeans(v.members, n) else Err(TypeMismatch)
    case RowLookup(r, s) =>
      var state := if s == PreState then c.pre else c.cand;
      if Get(state, r, v).None? then Err(MissingRecord) else RowValue(c.m, r, Get(state, r, v).value)
    case Exists(r, s) => Ok(Bool(Get(if s == PreState then c.pre else c.cand, r, v).Some?))
    case MakeSome => Ok(SomeOf(v))
    case Neg => if !v.I64? then Err(TypeMismatch) else if InRange(v, -v.i) then Ok(I64(-v.i)) else Err(NumericOverflow)
    case Not => if v.Bool? then Ok(Bool(!v.b)) else Err(TypeMismatch)
    case IsNone => Ok(Bool(v == NoneOf))
    case IsSome => Ok(Bool(exists x :: v == SomeOf(x)))
    case Size => if v.SetOf? then Ok(U64(|v.items|)) else Err(TypeMismatch)
  }

  /** Operators that always look at both operands. */
  ghost function BothMean(op: BinOp, l: Value, r: Value): Result<Value>
    requires !op.And? && !op.Or?
  {
    match op
    case Arith(a) => ArithMeans(a, l, r)
    case Cmp(o) => if Kind(l) != Kind(r) then Err(TypeMismatch) else Ok(Bool(Relates(o, l, r)))
    case In => if r.SetOf? then Ok(Bool(l in r.items)) else Err(TypeMismatch)
  }

  /** The connectives look at the right operand only when the left one leaves them open. */
  ghost function ConnectiveMeans(op: BinOp, l: Value, r: Result<Value>): Result<Value>
    requires op.And? || op.Or?
  {
    match l
    case Bool(x) =>
      if (op.And? && !x) || (op.Or? && x) then Ok(l)
      else (match r
            case Ok(Bool(y)) => Ok(Bool(if op.And? then x && y else x || y))
            case Ok(_) => Err(TypeMismatch)
            case Err(er) => Err(er))
    case _ => Err(TypeMismatch)
  }

  ghost function Means(c: Ctx, b: Bindings, e: Expr): Result<Value>
    decreases e, 0
  {
    match e
    case Lit(v) => Ok(v)
    case Param(i) => if i < |c.args| then Ok(c.args[i]) else Err(InvalidIr)
    case Binding(x) => if x in b then Ok(b[x]) else Err(InvalidIr)
    case GroupKey => if c.group.Some? then Ok(c.group.value) else Err(InvalidIr)
    case Unary(u, x) =>
      var v :- Means(c, b, x);
      UnaryMeans(c, u, v)
    case Bin(op, lhs, rhs) =>
      var l :- Means(c, b, lhs);
      if op.And? || op.Or? then ConnectiveMeans(op, l, Means(c, b, rhs))
      else
        var r :- Means(c, b, rhs);
        BothMean(op, l, r)
    case UnwrapOr(x, fallback) =>
      var v :- Means(c, b, x);
      (match v
       case SomeOf(y) => Ok(y)
       case NoneOf => Means(c, b, fallback)
       case _ => Err(TypeMismatch))
    case MakeTuple(parts) =>
      var vs :- AllMean(c, b, parts);
      Ok(Tuple(vs))
    case MakeSet(parts) =>
      var vs :- AllMean(c, b, parts);
      Ok(SetOf(SetFrom(vs)))
    case MakeStruct(members) =>
      var ms :- MembersMean(c, b, members, []);
      Ok(Struct(ms))
    case SumOver(x, over, ty, each) =>
      var s :- Means(c, b, over);
      if !s.SetOf? then Err(TypeMismatch)
      else if !ty.TI64? && !ty.TU64? then Err(TypeMismatch)
      else SumMeans(c, b, x, s.items, each, if ty.TI64? then I64(0) else U64(0))
  }

  ghost function AllMean(c: Ctx, b: Bindings, es: seq<Expr>): Result<seq<Value>>
    decreases es, 0
  {
    if es == [] then Ok([])
    else
      var v :- Means(c, b, es[0]);
      var vs :- AllMean(c, b, es[1..]);
      Ok([v] + vs)
  }

  ghost function MembersMean(c: Ctx, b: Bindings, ms: seq<ExprMember>, acc: seq<Member>): Result<seq<Member>>
    decreases ms, 0
  {
    if ms == [] then Ok(acc)
    else
      var m := ms[0];
      var v :- Means(c, b, m.e);
      MembersMean(c, b, ms[1..], PutMember(acc, m.name, v))
  }

  /** Every item is added with the variable bound to it; `total` is what the items before it came to. */
  ghost function SumMeans(c: Ctx, b: Bindings, x: BindingId, items: seq<Value>, each: Expr, total: Value): Result<Value>
    decreases each, 1, |items|
  {
    if items == [] then Ok(total)
    else
      var v :- Means(c, b[x := items[0]], each);
      var sum :- ArithMeans(Add, total, v);
      SumMeans(c, b, x, items[1..], each, sum)
  }

  /** No sum in `e` binds a variable that is bound around it. */
  ghost predicate Fresh(e: Expr, bound: set<BindingId>) {
    match e
    case Unary(_, x) => Fresh(x, bound)
    case Bin(_, lhs, rhs) => Fresh(lhs, bound) && Fresh(rhs, bound)
    case UnwrapOr(x, fallback) => Fresh(x, bound) && Fresh(fallback, bound)
    case MakeTuple(parts) => forall i :: 0 <= i < |parts| ==> Fresh(parts[i], bound)
    case MakeSet(parts) => forall i :: 0 <= i < |parts| ==> Fresh(parts[i], bound)
    case MakeStruct(members) => forall i :: 0 <= i < |members| ==> Fresh(members[i].e, bound)
    case SumOver(x, over, _, each) => x !in bound && Fresh(over, bound) && Fresh(each, bound + {x})
    case _ => true
  }

  // ---------------------------------------------------------------------------
  // The interpreter computes it
  // ---------------------------------------------------------------------------

  lemma UnaryExact(c: Ctx, u: UnaryOp, v: Value)
    ensures ApplyUnary(c, u, v) == UnaryMeans(c, u, v)
  {
    hide Get, RowValue, GetMember;
    if v.SomeOf? {
      assert v == SomeOf(v.inner);
    }
  }

  lemma BothExact(op: BinOp, l: Value, r: Value)
    requires !op.And? && !op.Or?
    ensures Decided(op, l) == None && ApplyBin(op, l, r) == BothMean(op, l, r)
  {
    hide CheckedArith, ArithMeans, Holds, Relates;
    match op
    case Arith(a) => ArithExact(a, l, r);
    case Cmp(o) => ComparesExactly(o, l, r);
    case In =>
  }

  lemma ConnectiveExact(op: BinOp, l: Value, r: Result<Value>)
    requires op.And? || op.Or?
    ensures ConnectiveMeans(op, l, r)
            == match Decided(op, l)
               case Some(d) => d
               case None => match r case Err(er) => Err(er) case Ok(v) => ApplyBin(op, l, v)
  {
  }

  /** Evaluation gives the meaning, and the bindings as they were. */
  lemma {:induction false} EvalIsMeaning(c: Ctx, e: Expr, b: Bindings)
    requires Fresh(e, b.Keys)
    ensures Eval(c, e, b) == Wrap(Means(c, b, e), b)
    decreases e, 1
  {
    hide ApplyUnary, UnaryMeans, ApplyBin, BothMean, Decided, ConnectiveMeans, SetFrom, EvalAll, AllMean, EvalMembers,
         MembersMean, SumItems, SumMeans;
    match e
    case Unary(u, x) =>
      EvalIsMeaning(c, x, b);
      if Means(c, b, x).Ok? {
        UnaryExact(c, u, Means(c, b, x).value);
      }
    case Bin(op, lhs, rhs) => BinIsMeaning(c, op, lhs, rhs, b);
    case UnwrapOr(x, fallback) =>
      EvalIsMeaning(c, x, b);
      EvalIsMeaning(c, fallback, b);
    case MakeTuple(parts) => AllIsMeaning(c, parts, b);
    case MakeSet(parts) => AllIsMeaning(c, parts, b);
    case MakeStruct(members) => MembersIsMeaning(c, members, b, []);
    case SumOver(x, over, ty, each) =>
      EvalIsMeaning(c, over, b);
      var s, zero := Means(c, b, over), ZeroOf(ty);
      if s.Ok? && s.value.SetOf? && zero.Ok? {
        assert b - {x} == b;
        SumIsMeaning(c, b, x, s.value.items, each, b, zero.value);
      }
    case _ =>
  }

  lemma {:induction false} BinIsMeaning(c: Ctx, op: BinOp, lhs: Expr, rhs: Expr, b: Bindings)
    requires Fresh(lhs, b.Keys) && Fresh(rhs, b.Keys)
    ensures Eval(c, Bin(op, lhs, rhs), b) == Wrap(Means(c, b, Bin(op, lhs, rhs)), b)
    decreases Bin(op, lhs, rhs), 0
  {
    hide ApplyUnary, UnaryMeans, ApplyBin, BothMean, Decided, ConnectiveMeans, SetFrom, EvalAll, AllMean, EvalMembers,
         MembersMean, SumItems, SumMeans, Eval, Fresh;
    EvalIsMeaning(c, lhs, b);
    EvalIsMeaning(c, rhs, b);
    BinSteps(c, op, lhs, rhs, b);
    var l, r := Means(c, b, lhs), Means(c, b, rhs);
    if l.Ok? {
      if op.And? || op.Or? {
        ConnectiveExact(op, l.value, r);
      } else if r.Ok? {
        BothExact(op, l.value, r.value);
      } else {
        BothExact(op, l.value, l.value);
      }
    }
  }

  lemma {:induction false} AllIsMeaning(c: Ctx, es: seq<Expr>, b: Bindings)
    requires forall i :: 0 <= i < |es| ==> Fresh(es[i], b.Keys)
    ensures EvalAll(c, es, b) == match AllMean(c, b, es) case Err(er) => Err(er) case Ok(vs) => Ok(Got(vs, b))
    decreases es, 0
  {
    hide Eval, Means, Fresh;
    if es != [] {
      EvalIsMeaning(c, es[0], b);
      AllIsMeaning(c, es[1..], b);
    }
  }

  lemma {:induction false} MembersIsMeaning(c: Ctx, ms: seq<ExprMember>, b: Bindings, acc: seq<Member>)
    requires forall i :: 0 <= i < |ms| ==> Fresh(ms[i].e, b.Keys)
    ensures EvalMembers(c, ms, b, acc)
            == match MembersMean(c, b, ms, acc) case Err(er) => Err(er) case Ok(vs) => Ok(Got(vs, b))
    decreases ms, 0
  {
    hide Eval, Means, Fresh, PutMember;
    if ms != [] {
      var x := ms[0];
      EvalIsMeaning(c, x.e, b);
      if Means(c, b, x.e).Ok? {
        MembersIsMeaning(c, ms[1..], b, PutMember(acc, x.name, Means(c, b, x.e).value));
      }
    }
  }

  /** Between two items the variable may still be bound to the last one; no more than that is left over. */
  lemma {:induction false} SumIsMeaning(c: Ctx, b: Bindings, x: BindingId, items: seq<Value>, each: Expr,
                                        left: Bindings,
                                        total: Value)
    requires x !in b && left - {x} == b && Fresh(each, b.Keys + {x})
    ensures match SumMeans(c, b, x, items, each, total)
            case Err(er) => SumItems(c, x, items, each, left, total) == Err(er)
            case Ok(v) =>
              && SumItems(c, x, items, each, left, total).Ok?
              && SumItems(c, x, items, each, left, total).value.value == v
              && SumItems(c, x, items, each, left, total).value.b - {x} == b
    decreases each, 2, |items|
  {
    hide Eval, Means, Fresh, CheckedArith, ArithMeans;
    if items != [] {
      var inner := b[x := items[0]];
      Rebind(b, left, x, items[0]);
      EvalIsMeaning(c, each, inner);
      var v := Means(c, inner, each);
      if v.Ok? {
        ArithExact(Add, total, v.value);
        if ArithMeans(Add, total, v.value).Ok? {
          SumIsMeaning(c, b, x, items[1..], each, inner, ArithMeans(Add, total, v.value).value);
        }
      }
    }
  }

  lemma Rebind(b: Bindings, left: Bindings, x: BindingId, v: Value)
    requires x !in b && left - {x} == b
    ensures left[x := v] == b[x := v] && b[x := v] - {x} == b && b[x := v].Keys == b.Keys + {x}
  {
    assert forall k :: k in left && k != x ==> k in (left - {x});
  }

  /** Why variables must not be reused: after a sum over a bound variable, the variable is unbound. */
  lemma ReuseUnbinds(c: Ctx, x: BindingId, n: int)
    requires 0 <= n < 0x1_0000_0000_0000_0000
    ensures var e := Bin(Arith(Add), SumOver(x, Lit(SetOf([])), TU64, Lit(U64(0))), Binding(x));
            && Means(c, map[x := U64(n)], e) == Ok(U64(n))
            && Eval(c, e, map[x := U64(n)]) == Err(InvalidIr)
  {
    var sum := SumOver(x, Lit(SetOf([])), TU64, Lit(U64(0)));
    var b: Bindings := map[x := U64(n)];
    assert Eval(c, Lit(SetOf([])), b) == Ok(Got(SetOf([]), b));
    assert b - {x} == map[];
    assert Eval(c, sum, b) == Ok(Got(U64(0), map[]));
    assert Means(c, b, sum) == Ok(U64(0));
    BinSteps(c, Arith(Add), sum, Binding(x), b);
  }

  // ---------------------------------------------------------------------------
  // Sums
  // ---------------------------------------------------------------------------

  ghost function SumOf(vs: seq<Value>): int {
    if vs == [] then 0 else Amount(vs[0]) + SumOf(vs[1..])
  }

  /** All numbers are of the kind of `total`, and no partial sum leaves its range. */
  ghost predicate Addable(total: Value, vs: seq<Value>) {
    && (forall i :: 0 <= i < |vs| ==> Kind(vs[i]) == Kind(total))
    && (forall k :: 0 <= k <= |vs| ==> InRange(total, Amount(total) + SumOf(vs[..k])))
  }

  lemma AddableNext(total: Value, vs: seq<Value>)
    requires Numeric(total) && InRange(total, Amount(total)) && vs != []
    ensures Addable(total, vs)
            <==> ArithMeans(Add, total, vs[0]).Ok? && Addable(ArithMeans(Add, total, vs[0]).value, vs[1..])
  {
    var sum := Number(total, Amount(total) + Amount(vs[0]));
    forall k | 0 <= k < |vs|
      ensures SumOf(vs[..k + 1]) == Amount(vs[0]) + SumOf(vs[1..][..k])
    {
      assert vs[..k + 1][0] == vs[0] && vs[..k + 1][1..] == vs[1..][..k];
    }
    if Addable(total, vs) {
      assert InRange(total, Amount(total) + SumOf(vs[..0 + 1]));
      assert vs[1..][..0] == [];
      forall k | 0 <= k <= |vs[1..]|
        ensures InRange(sum, Amount(sum) + SumOf(vs[1..][..k]))
      {
        assert InRange(total, Amount(total) + SumOf(vs[..k + 1]));
      }
    }
    if ArithMeans(Add, total, vs[0]).Ok? && Addable(sum, vs[1..]) {
      forall k | 0 <= k <= |vs|
        ensures InRange(total, Amount(total) + SumOf(vs[..k]))
      {
        if k > 0 {
          assert InRange(sum, Amount(sum) + SumOf(vs[1..][..k - 1]));
        }
      }
      assert forall i :: 0 < i < |vs| ==> vs[i] == vs[1..][i - 1];
    }
  }

  /** A sum over items with values `vs` is their sum, exactly when they can be added up in order. */
  lemma {:induction false} SumsExactly(c: Ctx, b: Bindings, x: BindingId, items: seq<Value>, each: Expr, total: Value,
                                       vs: seq<Value>)
    requires |vs| == |items| && Numeric(total) && InRange(total, Amount(total))
    requires forall i :: 0 <= i < |items| ==> Means(c, b[x := items[i]], each) == Ok(vs[i])
    ensures SumMeans(c, b, x, items, each, total).Ok? <==> Addable(total, vs)
    ensures Addable(total, vs) ==>
              SumMeans(c, b, x, items, each, total) == Ok(Number(total, Amount(total) + SumOf(vs)))
    decreases |items|
  {
    hide Means, Addable;
    if items != [] {
      AddableNext(total, vs);
      var sum := ArithMeans(Add, total, vs[0]);
      if sum.Ok? {
        SumsExactly(c, b, x, items[1..], each, sum.value, vs[1..]);
      }
    } else {
      AddableNone(total);
    }
  }

  lemma AddableNone(total: Value)
    requires InRange(total, Amount(total))
    ensures Addable(total, [])
  {
  }

  // ---------------------------------------------------------------------------
  // Declarations
  // ---------------------------------------------------------------------------

  /** `x` is the first of `xs` with the property. */
  ghost predicate IsFirst<T>(xs: seq<T>, hit: T -> bool, x: T) {
    exists j :: 0 <= j < |xs| && xs[j] == x && hit(x) && forall i :: 0 <= i < j ==> !hit(xs[i])
  }

  ghost predicate Absent<T>(xs: seq<T>, hit: T -> bool) {
    forall i :: 0 <= i < |xs| ==> !hit(xs[i])
  }

  lemma NoneAbsent<T>(xs: seq<T>, hit: T -> bool)
    requires xs == []
    ensures Absent(xs, hit)
  {
  }

  lemma FirstLater<T>(xs: seq<T>, hit: T -> bool)
    requires xs != []
    ensures hit(xs[0]) ==> IsFirst(xs, hit, xs[0]) && !Absent(xs, hit)
    ensures !hit(xs[0]) ==> (Absent(xs, hit) <==> Absent(xs[1..], hit))
    ensures !hit(xs[0]) ==> forall x :: IsFirst(xs[1..], hit, x) ==> IsFirst(xs, hit, x)
  {
    assert forall i :: 0 < i < |xs| ==> xs[i] == xs[1..][i - 1];
    assert forall i :: 0 <= i < |xs| - 1 ==> xs[1..][i] == xs[i + 1];
    if !hit(xs[0]) {
      forall x | IsFirst(xs[1..], hit, x)
        ensures IsFirst(xs, hit, x)
      {
        var j :| 0 <= j < |xs| - 1 && xs[1..][j] == x && hit(x) && forall i :: 0 <= i < j ==> !hit(xs[1..][i]);
        assert xs[j + 1] == x;
      }
    }
  }

  lemma {:induction false} RecordFound(rs: seq<RecordDef>, key: RecordId)
    ensures var r, named := FindRecord(rs, key), (x: RecordDef) => x.id == key;
            if r.Ok? then IsFirst(rs, named, r.value) else Absent(rs, named) && r == Err(InvalidIr)
  {
    hide IsFirst, Absent;
    if rs == [] {
      NoneAbsent(rs, (x: RecordDef) => x.id == key);
    } else {
      FirstLater(rs, (x: RecordDef) => x.id == key);
      RecordFound(rs[1..], key);
    }
  }

  lemma {:induction false} ResourceFound(rs: seq<ResourceDef>, key: ResourceId)
    ensures var r, named := FindResource(rs, key), (x: ResourceDef) => x.id == key;
            if r.Ok? then IsFirst(rs, named, r.value) else Absent(rs, named) && r == Err(InvalidIr)
  {
    hide IsFirst, Absent;
    if rs == [] {
      NoneAbsent(rs, (x: ResourceDef) => x.id == key);
    } else {
      FirstLater(rs, (x: ResourceDef) => x.id == key);
      ResourceFound(rs[1..], key);
    }
  }

  lemma {:induction false} EnumFound(es: seq<EnumDef>, key: EnumId)
    ensures var r, named := FindEnum(es, key), (x: EnumDef) => x.id == key;
            if r.Ok? then IsFirst(es, named, r.value) else Absent(es, named) && r == Err(InvalidIr)
  {
    hide IsFirst, Absent;
    if es == [] {
      NoneAbsent(es, (x: EnumDef) => x.id == key);
    } else {
      FirstLater(es, (x: EnumDef) => x.id == key);
      EnumFound(es[1..], key);
    }
  }

  lemma {:induction false} InvariantFound(invs: seq<Invariant>, key: InvariantId)
    ensures var r, named := FindInvariant(invs, key), (x: Invariant) => x.id == key;
            if r.Ok? then IsFirst(invs, named, r.value) else Absent(invs, named) && r == Err(InvalidIr)
  {
    hide IsFirst, Absent;
    if invs == [] {
      NoneAbsent(invs, (x: Invariant) => x.id == key);
    } else {
      FirstLater(invs, (x: Invariant) => x.id == key);
      InvariantFound(invs[1..], key);
    }
  }

  lemma {:induction false} OperationFound(ops: seq<Operation>, key: OpRef)
    ensures var r, named := FindOperation(ops, key), (x: Operation) => x.identity == key;
            if r.Ok? then IsFirst(ops, named, r.value) else Absent(ops, named) && r == Err(InvalidIr)
  {
    hide IsFirst, Absent;
    if ops == [] {
      NoneAbsent(ops, (x: Operation) => x.identity == key);
    } else {
      FirstLater(ops, (x: Operation) => x.identity == key);
      OperationFound(ops[1..], key);
    }
  }

  lemma {:induction false} FieldFound(fs: seq<FieldDef>, key: FieldId)
    ensures var r, named := FindField(fs, key), (x: FieldDef) => x.id == key;
            if r.Some? then IsFirst(fs, named, r.value) else Absent(fs, named)
  {
    hide IsFirst, Absent;
    if fs == [] {
      NoneAbsent(fs, (x: FieldDef) => x.id == key);
    } else {
      FirstLater(fs, (x: FieldDef) => x.id == key);
      FieldFound(fs[1..], key);
    }
  }

  /** Texts fit their type up to its bound, variants only their own enumeration. */
  lemma FitsExactly(v: Value, max: nat, e: EnumId, ty: Type)
    ensures Fits(v, TBytes(max)) <==> v.Bytes? && |v.bytes| <= max
    ensures Fits(v, TString(max)) <==> v.Str? && |v.chars| <= max
    ensures Fits(v, TEnum(e)) <==> v.Enum? && v.enumId == e
    ensures Fits(v, TOption(ty)) <==> v.NoneOf? || (v.SomeOf? && Fits(v.inner, ty))
  {
  }
}
