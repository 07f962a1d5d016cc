/**
  The order of values. `Less` says what it is, place by place; `Compare` decides it, it is a strict
  total order, and the six comparisons of the language are its relations.
 */
module LangOrder {
  import opened Basics
  import opened LangTypes
  import opened LangEval

  // ---------------------------------------------------------------------------
  // The order, declared
  // ---------------------------------------------------------------------------

  /** The two sequences part at `k`: equal before it, and there `a` ends first. */
  ghost predicate EndsAt<T>(a: seq<T>, b: seq<T>, k: nat) {
    k == |a| < |b| && a == b[..k]
  }

  ghost predicate PartsAt<T>(a: seq<T>, b: seq<T>, k: nat) {
    k < |a| && k < |b| && a[..k] == b[..k]
  }

  ghost predicate BytesLess(a: seq<Byte>, b: seq<Byte>) {
    exists k: nat :: EndsAt(a, b, k) || (PartsAt(a, b, k) && a[k] < b[k])
  }

  ghost predicate ItemsLess(a: seq<Value>, b: seq<Value>)
    decreases a, 0
  {
    exists k: nat :: EndsAt(a, b, k) || (PartsAt(a, b, k) && Less(a[k], b[k]))
  }

  ghost predicate MembersLess(a: seq<Member>, b: seq<Member>)
    decreases a, 0
  {
    exists k: nat :: EndsAt(a, b, k) || (PartsAt(a, b, k) && MemberLess(a[k], b[k]))
  }

  ghost predicate MemberLess(x: Member, y: Member)
    decreases x, 0
  {
    BytesLess(x.name, y.name) || (x.name == y.name && Less(x.value, y.value))
  }

  /** Across kinds by kind; within a kind by content. */
  ghost predicate Less(a: Value, b: Value)
    decreases a, 1
  {
    Kind(a) < Kind(b) || (Kind(a) == Kind(b) && LessAlike(a, b))
  }

  ghost predicate LessAlike(a: Value, b: Value)
    requires Kind(a) == Kind(b)
    decreases a, 0
  {
    match a
    case Bool(x) => !x && b.b
    case I64(x) => x < b.i
    case U64(x) => x < b.n
    case Uuid(x) => BytesLess(x, b.id)
    case Bytes(x) => BytesLess(x, b.bytes)
    case Str(x) => BytesLess(x, b.chars)
    case Enum(e, x) => e < b.enumId || (e == b.enumId && x < b.variant)
    case SomeOf(x) => Less(x, b.inner)
    case SetOf(x) => ItemsLess(x, b.items)
    case Tuple(x) => ItemsLess(x, b.parts)
    case Row(r, x) => r < b.record || (r == b.record && MembersLess(x, b.fields))
    case Struct(x) => MembersLess(x, b.members)
    case Unit => false
    case NoneOf => false
  }

  // ---------------------------------------------------------------------------
  // Compare decides it
  // ---------------------------------------------------------------------------

  ghost function Verdict(less: bool, same: bool): int {
    if less then -1 else if same then 0 else 1
  }

  /** Where two sequences part, seen from the second place on. */
  lemma OnwardAt<T>(a: seq<T>, b: seq<T>, k: nat)
    requires a != [] && b != []
    ensures EndsAt(a, b, k + 1) <==> a[0] == b[0] && EndsAt(a[1..], b[1..], k)
    ensures PartsAt(a, b, k + 1) <==> a[0] == b[0] && PartsAt(a[1..], b[1..], k)
  {
    if k + 1 <= |a| && k + 1 <= |b| {
      assert a[..k + 1] == [a[0]] + a[1..][..k] && b[..k + 1] == [b[0]] + b[1..][..k];
      assert a[..k + 1] == b[..k + 1] <==> a[0] == b[0] && a[1..][..k] == b[1..][..k];
    }
    if k == |a| - 1 && |a| < |b| {
      assert a[..k + 1] == a && a[1..][..k] == a[1..];
    }
  }

  lemma Rejoin<T>(a: seq<T>, b: seq<T>)
    requires a != [] && b != []
    ensures a == b <==> a[0] == b[0] && a[1..] == b[1..]
  {
    assert a == [a[0]] + a[1..] && b == [b[0]] + b[1..];
  }

  lemma BytesOnward(a: seq<Byte>, b: seq<Byte>)
    requires a != [] && b != []
    ensures BytesLess(a, b) <==> a[0] < b[0] || (a[0] == b[0] && BytesLess(a[1..], b[1..]))
  {
    assert PartsAt(a, b, 0) && !EndsAt(a, b, 0);
    if a[0] == b[0] && BytesLess(a[1..], b[1..]) {
      var x, y := a[1..], b[1..];
      var k: nat :| EndsAt(x, y, k) || (PartsAt(x, y, k) && x[k] < y[k]);
      OnwardAt(a, b, k);
      assert EndsAt(a, b, k + 1) || (PartsAt(a, b, k + 1) && a[k + 1] < b[k + 1]);
    }
    if BytesLess(a, b) {
      var k: nat :| EndsAt(a, b, k) || (PartsAt(a, b, k) && a[k] < b[k]);
      if k > 0 {
        var j: nat := k - 1;
        OnwardAt(a, b, j);
        assert EndsAt(a[1..], b[1..], j) || (PartsAt(a[1..], b[1..], j) && a[1..][j] < b[1..][j]);
      }
    }
  }

  lemma {:induction false} BytesExact(a: seq<Byte>, b: seq<Byte>)
    ensures CompareBytes(a, b) == Verdict(BytesLess(a, b), a == b)
  {
    if a != [] && b != [] {
      BytesOnward(a, b);
      Rejoin(a, b);
      BytesExact(a[1..], b[1..]);
    } else if b != [] {
      assert EndsAt(a, b, 0);
    }
  }

  lemma ItemsSooner(a: seq<Value>, b: seq<Value>)
    requires a != [] && b != [] && a[0] == b[0] && ItemsLess(a[1..], b[1..])
    ensures ItemsLess(a, b)
  {
    hide Less;
    var x, y := a[1..], b[1..];
    var k: nat :| EndsAt(x, y, k) || (PartsAt(x, y, k) && Less(x[k], y[k]));
    OnwardAt(a, b, k);
    assert EndsAt(a, b, k + 1) || (PartsAt(a, b, k + 1) && Less(a[k + 1], b[k + 1]));
  }

  lemma ItemsLater(a: seq<Value>, b: seq<Value>)
    requires a != [] && b != [] && ItemsLess(a, b) && !Less(a[0], b[0])
    ensures a[0] == b[0] && ItemsLess(a[1..], b[1..])
  {
    hide Less;
    var x, y := a[1..], b[1..];
    var k: nat :| EndsAt(a, b, k) || (PartsAt(a, b, k) && Less(a[k], b[k]));
    var j: nat := k - 1;
    OnwardAt(a, b, j);
    assert EndsAt(x, y, j) || (PartsAt(x, y, j) && Less(x[j], y[j]));
  }

  lemma ItemsOnward(a: seq<Value>, b: seq<Value>)
    requires a != [] && b != []
    ensures ItemsLess(a, b) <==> Less(a[0], b[0]) || (a[0] == b[0] && ItemsLess(a[1..], b[1..]))
  {
    if Less(a[0], b[0]) {
      assert PartsAt(a, b, 0);
    } else if ItemsLess(a, b) {
      ItemsLater(a, b);
    }
    if a[0] == b[0] && ItemsLess(a[1..], b[1..]) {
      ItemsSooner(a, b);
    }
  }

  lemma MembersSooner(a: seq<Member>, b: seq<Member>)
    requires a != [] && b != [] && a[0] == b[0] && MembersLess(a[1..], b[1..])
    ensures MembersLess(a, b)
  {
    hide MemberLess;
    var x, y := a[1..], b[1..];
    var k: nat :| EndsAt(x, y, k) || (PartsAt(x, y, k) && MemberLess(x[k], y[k]));
    OnwardAt(a, b, k);
    assert EndsAt(a, b, k + 1) || (PartsAt(a, b, k + 1) && MemberLess(a[k + 1], b[k + 1]));
  }

  lemma MembersLater(a: seq<Member>, b: seq<Member>)
    requires a != [] && b != [] && MembersLess(a, b) && !MemberLess(a[0], b[0])
    ensures a[0] == b[0] && MembersLess(a[1..], b[1..])
  {
    hide MemberLess;
    var x, y := a[1..], b[1..];
    var k: nat :| EndsAt(a, b, k) || (PartsAt(a, b, k) && MemberLess(a[k], b[k]));
    var j: nat := k - 1;
    OnwardAt(a, b, j);
    assert EndsAt(x, y, j) || (PartsAt(x, y, j) && MemberLess(x[j], y[j]));
  }

  lemma MembersOnward(a: seq<Member>, b: seq<Member>)
    requires a != [] && b != []
    ensures MembersLess(a, b) <==> MemberLess(a[0], b[0]) || (a[0] == b[0] && MembersLess(a[1..], b[1..]))
  {
    if MemberLess(a[0], b[0]) {
      assert PartsAt(a, b, 0);
    } else if MembersLess(a, b) {
      MembersLater(a, b);
    }
    if a[0] == b[0] && MembersLess(a[1..], b[1..]) {
      MembersSooner(a, b);
    }
  }

  /** `Compare` decides exactly the declared order. */
  lemma {:induction false} CompareExact(a: Value, b: Value)
    ensures Compare(a, b) == Verdict(Less(a, b), a == b)
    decreases a, 1
  {
    if Kind(a) == Kind(b) {
      AlikeExact(a, b);
    }
  }

  lemma {:induction false} AlikeExact(a: Value, b: Value)
    requires Kind(a) == Kind(b)
    ensures Compare(a, b) == Verdict(LessAlike(a, b), a == b)
    decreases a, 0
  {
    hide Less, CompareBytes, CompareSeq, CompareFields, BytesLess, ItemsLess, MembersLess;
    match a
    case Uuid(x) => BytesExact(x, b.id);
    case Bytes(x) => BytesExact(x, b.bytes);
    case Str(x) => BytesExact(x, b.chars);
    case SomeOf(x) => CompareExact(x, b.inner);
    case SetOf(x) => ItemsExact(x, b.items);
    case Tuple(x) => ItemsExact(x, b.parts);
    case Row(_, x) => MembersExact(x, b.fields);
    case Struct(x) => MembersExact(x, b.members);
    case _ =>
  }

  lemma {:induction false} ItemsExact(a: seq<Value>, b: seq<Value>)
    ensures CompareSeq(a, b) == Verdict(ItemsLess(a, b), a == b)
    decreases a, 0
  {
    hide Less, Compare, ItemsLess;
    if a != [] && b != [] {
      ItemsOnward(a, b);
      Rejoin(a, b);
      CompareExact(a[0], b[0]);
      ItemsExact(a[1..], b[1..]);
    } else {
      ItemsEnd(a, b);
    }
  }

  lemma ItemsEnd(a: seq<Value>, b: seq<Value>)
    requires a == [] || b == []
    ensures ItemsLess(a, b) <==> a == [] && b != []
  {
    if a == [] && b != [] {
      assert EndsAt(a, b, 0);
    }
  }

  lemma MembersEnd(a: seq<Member>, b: seq<Member>)
    requires a == [] || b == []
    ensures MembersLess(a, b) <==> a == [] && b != []
  {
    if a == [] && b != [] {
      assert EndsAt(a, b, 0);
    }
  }

  lemma {:induction false} MembersExact(a: seq<Member>, b: seq<Member>)
    ensures CompareFields(a, b) == Verdict(MembersLess(a, b), a == b)
    decreases a, 0
  {
    hide Less, Compare, CompareBytes, BytesLess, MembersLess;
    if a != [] && b != [] {
      MembersOnward(a, b);
      Rejoin(a, b);
      BytesExact(a[0].name, b[0].name);
      CompareExact(a[0].value, b[0].value);
      MembersExact(a[1..], b[1..]);
    } else {
      MembersEnd(a, b);
    }
  }

  // ---------------------------------------------------------------------------
  // A strict total order
  // ---------------------------------------------------------------------------

  lemma {:induction false} BytesMirror(a: seq<Byte>, b: seq<Byte>)
    ensures CompareBytes(a, b) == -CompareBytes(b, a)
  {
    if a != [] && b != [] {
      BytesMirror(a[1..], b[1..]);
    }
  }

  lemma {:induction false} Mirror(a: Value, b: Value)
    ensures Compare(a, b) == -Compare(b, a)
    decreases a
  {
    hide CompareBytes, CompareSeq, CompareFields;
    if Kind(a) == Kind(b) {
      match a
      case Uuid(x) => BytesMirror(x, b.id);
      case Bytes(x) => BytesMirror(x, b.bytes);
      case Str(x) => BytesMirror(x, b.chars);
      case SomeOf(x) => Mirror(x, b.inner);
      case SetOf(x) => ItemsMirror(x, b.items);
      case Tuple(x) => ItemsMirror(x, b.parts);
      case Row(_, x) => MembersMirror(x, b.fields);
      case Struct(x) => MembersMirror(x, b.members);
      case _ =>
    }
  }

  lemma {:induction false} ItemsMirror(a: seq<Value>, b: seq<Value>)
    ensures CompareSeq(a, b) == -CompareSeq(b, a)
    decreases a
  {
    hide Compare;
    if a != [] && b != [] {
      Mirror(a[0], b[0]);
      ItemsMirror(a[1..], b[1..]);
    }
  }

  lemma {:induction false} MembersMirror(a: seq<Member>, b: seq<Member>)
    ensures CompareFields(a, b) == -CompareFields(b, a)
    decreases a
  {
    hide Compare, CompareBytes;
    if a != [] && b != [] {
      BytesMirror(a[0].name, b[0].name);
      Mirror(a[0].value, b[0].value);
      MembersMirror(a[1..], b[1..]);
    }
  }

  lemma {:induction false} BytesChain(a: seq<Byte>, b: seq<Byte>, c: seq<Byte>)
    requires CompareBytes(a, b) < 0 && CompareBytes(b, c) < 0
    ensures CompareBytes(a, c) < 0
  {
    if a != [] && b != [] && c != [] && a[0] == b[0] == c[0] {
      BytesChain(a[1..], b[1..], c[1..]);
    }
  }

  /** Only equal values are level. */
  lemma Level(a: Value, b: Value)
    ensures Compare(a, b) == 0 <==> a == b
  {
    hide Compare, Less;
    CompareExact(a, b);
    Mirror(a, a);
  }

  lemma BytesLevel(a: seq<Byte>, b: seq<Byte>)
    ensures CompareBytes(a, b) == 0 <==> a == b
  {
    hide CompareBytes, BytesLess;
    BytesExact(a, b);
    BytesMirror(a, a);
  }

  lemma {:induction false} Chain(a: Value, b: Value, c: Value)
    requires Compare(a, b) < 0 && Compare(b, c) < 0
    ensures Compare(a, c) < 0
    decreases a, 1
  {
    hide Compare, Kind;
    if Kind(a) == Kind(b) == Kind(c) {
      AlikeChain(a, b, c);
    } else {
      KindsApart(a, b);
      KindsApart(b, c);
      KindsApart(a, c);
    }
  }

  lemma KindsApart(a: Value, b: Value)
    ensures Kind(a) != Kind(b) ==> Compare(a, b) == Sign(Kind(a) - Kind(b))
  {
  }

  lemma {:induction false} AlikeChain(a: Value, b: Value, c: Value)
    requires Kind(a) == Kind(b) == Kind(c) && Compare(a, b) < 0 && Compare(b, c) < 0
    ensures Compare(a, c) < 0
    decreases a, 0
  {
    hide CompareBytes, CompareSeq, CompareFields;
    match a
    case Uuid(x) => BytesChain(x, b.id, c.id);
    case Bytes(x) => BytesChain(x, b.bytes, c.bytes);
    case Str(x) => BytesChain(x, b.chars, c.chars);
    case SomeOf(x) => Chain(x, b.inner, c.inner);
    case SetOf(x) => ItemsChain(x, b.items, c.items);
    case Tuple(x) => ItemsChain(x, b.parts, c.parts);
    case Row(r, x) =>
      if r == b.record == c.record {
        MembersChain(x, b.fields, c.fields);
      }
    case Struct(x) => MembersChain(x, b.members, c.members);
    case _ =>
  }

  lemma {:induction false} ItemsChain(a: seq<Value>, b: seq<Value>, c: seq<Value>)
    requires CompareSeq(a, b) < 0 && CompareSeq(b, c) < 0
    ensures CompareSeq(a, c) < 0
    decreases a, 0
  {
    hide Compare;
    if a != [] && b != [] && c != [] {
      Level(a[0], b[0]);
      Level(b[0], c[0]);
      if a[0] == b[0] && b[0] == c[0] {
        ItemsChain(a[1..], b[1..], c[1..]);
      } else if a[0] != b[0] && b[0] != c[0] {
        Chain(a[0], b[0], c[0]);
      }
    }
  }

  lemma {:induction false} MembersChain(a: seq<Member>, b: seq<Member>, c: seq<Member>)
    requires CompareFields(a, b) < 0 && CompareFields(b, c) < 0
    ensures CompareFields(a, c) < 0
    decreases a, 0
  {
    hide Compare, CompareBytes;
    if a != [] && b != [] && c != [] {
      var x, y, z := a[0], b[0], c[0];
      BytesLevel(x.name, y.name);
      BytesLevel(y.name, z.name);
      Level(x.value, y.value);
      Level(y.value, z.value);
      if x.name != y.name && y.name != z.name {
        BytesChain(x.name, y.name, z.name);
      } else if x.name == y.name == z.name {
        if x.value == y.value && y.value == z.value {
          MembersChain(a[1..], b[1..], c[1..]);
        } else if x.value != y.value && y.value != z.value {
          Chain(x.value, y.value, z.value);
        }
      }
    }
  }

  /** Of two values exactly one of `a < b`, `a == b`, `b < a` holds, and `<` is transitive. */
  lemma TotalOrder(a: Value, b: Value, c: Value)
    ensures Less(a, b) || a == b || Less(b, a)
    ensures !(Less(a, b) && Less(b, a)) && !Less(a, a)
    ensures Less(a, b) && Less(b, c) ==> Less(a, c)
  {
    hide Compare, Less;
    CompareExact(a, b);
    CompareExact(b, a);
    CompareExact(a, a);
    CompareExact(b, c);
    CompareExact(a, c);
    Mirror(a, b);
    Mirror(a, a);
    if Less(a, b) && Less(b, c) {
      Chain(a, b, c);
    }
  }

  // ---------------------------------------------------------------------------
  // Comparisons of the language
  // ---------------------------------------------------------------------------

  /** What a comparison of two values of one kind says. */
  ghost predicate Relates(op: CmpOp, a: Value, b: Value) {
    match op
    case CEq => a == b
    case CNe => a != b
    case CLt => Less(a, b)
    case CLe => Less(a, b) || a == b
    case CGt => Less(b, a)
    case CGe => Less(b, a) || a == b
  }

  /** Comparing values of different kinds is an error; otherwise the answer is the relation. */
  lemma ComparesExactly(op: CmpOp, a: Value, b: Value)
    ensures Holds(op, a, b) == if Kind(a) != Kind(b) then Err(TypeMismatch) else Ok(Relates(op, a, b))
  {
    hide Compare, Less;
    CompareExact(a, b);
    CompareExact(b, a);
    Mirror(a, b);
  }

  /** A binary operator whose right operand is evaluated too. */
  lemma BinSteps(c: Ctx, op: BinOp, lhs: Expr, rhs: Expr, b: Bindings)
    ensures Eval(c, Bin(op, lhs, rhs), b)
            == match Eval(c, lhs, b)
               case Err(er) => Err(er)
               case Ok(l) =>
                 match Decided(op, l.value)
                 case Some(d) => Wrap(d, l.b)
                 case None =>
                   match Eval(c, rhs, l.b)
                   case Err(er) => Err(er)
                   case Ok(r) => Wrap(ApplyBin(op, l.value, r.value), r.b)
  {
    hide ApplyBin, Decided, ApplyUnary, SetFrom, EvalAll, EvalMembers, SumItems, Leaf, Wrap;
  }

  /** The same for expressions, whose operands are evaluated left to right. */
  lemma ComparisonMeans(c: Ctx, op: CmpOp, lhs: Expr, rhs: Expr, b: Bindings)
    requires Eval(c, lhs, b).Ok? && Eval(c, rhs, Eval(c, lhs, b).value.b).Ok?
    ensures var l := Eval(c, lhs, b).value;
            var r := Eval(c, rhs, l.b).value;
            Eval(c, Bin(Cmp(op), lhs, rhs), b)
            == if Kind(l.value) != Kind(r.value) then Err(TypeMismatch)
               else Ok(Got(Bool(Relates(op, l.value, r.value)), r.b))
  {
    hide Holds, Relates, Eval;
    BinSteps(c, Cmp(op), lhs, rhs, b);
    var l := Eval(c, lhs, b).value;
    ComparesExactly(op, l.value, Eval(c, rhs, l.b).value.value);
  }

  lemma NumbersLess(x: int, y: int)
    ensures Less(I64(x), I64(y)) <==> x < y
    ensures Less(U64(x), U64(y)) <==> x < y
  {
    assert LessAlike(I64(x), I64(y)) <==> x < y;
    assert LessAlike(U64(x), U64(y)) <==> x < y;
  }

  /** On numbers the six comparisons are the relations of the integers. */
  lemma NumbersCompare(c: Ctx, op: CmpOp, lhs: Expr, rhs: Expr, b: Bindings, x: int, y: int)
    requires Eval(c, lhs, b).Ok? && Eval(c, rhs, Eval(c, lhs, b).value.b).Ok?
    requires var l := Eval(c, lhs, b).value;
             var r := Eval(c, rhs, l.b).value;
             (l.value == I64(x) && r.value == I64(y)) || (l.value == U64(x) && r.value == U64(y))
    ensures Eval(c, Bin(Cmp(op), lhs, rhs), b).Ok?
    ensures Eval(c, Bin(Cmp(op), lhs, rhs), b).value.value
            == Bool(match op
                    case CEq => x == y
                    case CNe => x != y
                    case CLt => x < y
                    case CLe => x <= y
                    case CGt => x > y
                    case CGe => x >= y)
  {
    hide Eval, Less;
    ComparisonMeans(c, op, lhs, rhs, b);
    NumbersLess(x, y);
    NumbersLess(y, x);
  }
}
