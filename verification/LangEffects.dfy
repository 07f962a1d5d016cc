/**
  What each literal effect does, said of the places of a state: the value at every record, key and
  field before and after. On ordered states, the only ones there are, that determines every table.
 */
module LangEffects {
  import opened Basics
  import opened LangTypes
  import opened LangEval
  import opened LangOrder
  import opened LangMeaning

  // ---------------------------------------------------------------------------
  // Tables
  // ---------------------------------------------------------------------------

  ghost predicate KeysAscending(t: Table) {
    forall i, j :: 0 <= i < j < |t| ==> Less(t[i].0, t[j].0)
  }

  /** Every table is in key order, one row per key. */
  ghost predicate Ordered(s: State) {
    forall r :: KeysAscending(TableOf(s, r))
  }

  lemma KeysTail(t: Table)
    requires KeysAscending(t) && t != []
    ensures KeysAscending(t[1..])
    ensures forall x :: x in t[1..] ==> Less(t[0].0, x.0) && x.0 != t[0].0
  {
    hide Less;
    forall x | x in t[1..]
      ensures Less(t[0].0, x.0) && x.0 != t[0].0
    {
      var i :| 0 <= i < |t| - 1 && t[1..][i] == x;
      assert x == t[i + 1];
      TotalOrder(x.0, x.0, x.0);
    }
  }

  lemma KeysJoin(x: (Value, Fields), t: Table)
    requires KeysAscending(t) && forall y :: y in t ==> Less(x.0, y.0)
    ensures KeysAscending([x] + t)
  {
    hide Less;
    var u := [x] + t;
    forall i, j | 0 <= i < j < |u|
      ensures Less(u[i].0, u[j].0)
    {
      if i > 0 {
        assert u[i] == t[i - 1] && u[j] == t[j - 1];
      } else {
        assert u[j] == t[j - 1] && u[j] in t;
      }
    }
  }

  /** Looking up a key finds the one row stored under it. */
  lemma {:induction false} LookupExact(t: Table, k: Value)
    requires KeysAscending(t)
    ensures forall row :: Lookup(t, k) == Some(row) <==> (k, row) in t
  {
    hide Less;
    if t != [] {
      KeysTail(t);
      LookupExact(t[1..], k);
      assert t == [t[0]] + t[1..];
    }
  }

  lemma {:induction false} LookupReplace(t: Table, k: Value, row: Fields, q: Value)
    requires Lookup(t, k).Some?
    ensures Lookup(Replace(t, k, row), q) == if q == k then Some(row) else Lookup(t, q)
  {
    if t[0].0 == k {
      var u := [(k, row)] + t[1..];
      assert u[0] == (k, row) && u[1..] == t[1..];
    } else {
      LookupReplace(t[1..], k, row, q);
      var u := [t[0]] + Replace(t[1..], k, row);
      assert u[0] == t[0] && u[1..] == Replace(t[1..], k, row);
    }
  }

  lemma {:induction false} LookupInsert(t: Table, k: Value, row: Fields, q: Value)
    requires Lookup(t, k).None?
    ensures Lookup(InsertRow(t, k, row), q) == if q == k then Some(row) else Lookup(t, q)
  {
    if t == [] || Compare(k, t[0].0) < 0 {
      var u := [(k, row)] + t;
      assert u[0] == (k, row) && u[1..] == t;
    } else {
      LookupInsert(t[1..], k, row, q);
      var u := [t[0]] + InsertRow(t[1..], k, row);
      assert u[0] == t[0] && u[1..] == InsertRow(t[1..], k, row);
    }
  }

  lemma LookupGone(t: Table)
    requires KeysAscending(t) && t != []
    ensures Lookup(t[1..], t[0].0) == None
  {
    hide Less, Lookup;
    KeysTail(t);
    LookupExact(t[1..], t[0].0);
  }

  lemma LookupFirst(t: Table, u: Table, q: Value)
    requires t != [] && u != [] && u == [t[0]] + u[1..]
    ensures Lookup(u, q) == if t[0].0 == q then Some(t[0].1) else Lookup(u[1..], q)
  {
    assert u[0] == t[0];
  }

  lemma {:induction false} LookupRemove(t: Table, k: Value, q: Value)
    requires KeysAscending(t)
    ensures Lookup(RemoveRow(t, k), q) == if q == k then None else Lookup(t, q)
  {
    hide KeysAscending, Lookup;
    if t != [] {
      assert t == [t[0]] + t[1..];
      LookupFirst(t, t, q);
      if t[0].0 == k {
        LookupGone(t);
      } else {
        KeysTail(t);
        LookupRemove(t[1..], k, q);
        LookupFirst(t, RemoveRow(t, k), q);
      }
    } else {
      LookupNone(q);
    }
  }

  lemma LookupNone(q: Value)
    ensures Lookup([], q) == None
  {
  }

  lemma {:induction false} ReplaceKeys(t: Table, k: Value, row: Fields)
    ensures |Replace(t, k, row)| == |t| && forall i :: 0 <= i < |t| ==> Replace(t, k, row)[i].0 == t[i].0
  {
    if t != [] && t[0].0 != k {
      ReplaceKeys(t[1..], k, row);
    }
  }

  lemma {:induction false} InsertKeys(t: Table, k: Value, row: Fields)
    requires KeysAscending(t) && Lookup(t, k).None?
    ensures KeysAscending(InsertRow(t, k, row))
    ensures forall x :: x in InsertRow(t, k, row) ==> x in t || x == (k, row)
  {
    hide Less, Compare;
    if t != [] {
      KeysTail(t);
      CompareExact(k, t[0].0);
      if Compare(k, t[0].0) < 0 {
        forall y | y in t
          ensures Less(k, y.0)
        {
          TotalOrder(k, t[0].0, y.0);
        }
        KeysJoin((k, row), t);
      } else {
        TotalOrder(k, t[0].0, k);
        InsertKeys(t[1..], k, row);
        KeysJoin(t[0], InsertRow(t[1..], k, row));
      }
    }
  }

  lemma {:induction false} RemoveKeys(t: Table, k: Value)
    requires KeysAscending(t)
    ensures KeysAscending(RemoveRow(t, k)) && forall x :: x in RemoveRow(t, k) ==> x in t
  {
    hide Less;
    if t != [] {
      KeysTail(t);
      RemoveKeys(t[1..], k);
      if t[0].0 != k {
        KeysJoin(t[0], RemoveRow(t[1..], k));
      }
    }
  }

  /** A table in key order is determined by what its keys lead to. */
  lemma {:induction false} TablesEqual(t: Table, u: Table)
    requires KeysAscending(t) && KeysAscending(u) && forall k :: Lookup(t, k) == Lookup(u, k)
    ensures t == u
  {
    hide Less;
    assert t != [] ==> Lookup(t, t[0].0).Some?;
    assert u != [] ==> Lookup(u, u[0].0).Some?;
    if t != [] && u != [] {
      KeysTail(t);
      KeysTail(u);
      LookupExact(t, u[0].0);
      LookupExact(u, t[0].0);
      assert Lookup(t, t[0].0) == Some(t[0].1) && Lookup(u, u[0].0) == Some(u[0].1);
      assert (t[0].0, t[0].1) in u && (u[0].0, u[0].1) in t;
      assert t == [t[0]] + t[1..] && u == [u[0]] + u[1..];
      if t[0].0 != u[0].0 {
        TotalOrder(t[0].0, u[0].0, t[0].0);
        assert false;
      }
      forall k
        ensures Lookup(t[1..], k) == Lookup(u[1..], k)
      {
        LookupExact(t[1..], k);
        LookupExact(u[1..], k);
        if k != t[0].0 {
          assert Lookup(t, k) == Lookup(t[1..], k) && Lookup(u, k) == Lookup(u[1..], k);
        }
      }
      TablesEqual(t[1..], u[1..]);
    }
  }

  // ---------------------------------------------------------------------------
  // Places
  // ---------------------------------------------------------------------------

  /** A place in the state: record, key and field. */
  datatype Place = Place(record: RecordId, key: Value, field: FieldId)

  /** What is there; a missing row and a missing field are different errors. */
  ghost function ValueAt(s: State, p: Place): Result<Value> {
    GetSlot(s, p.record, p.key, p.field)
  }

  /** Reading a place means finding its row in the table of its record, and its field in the row. */
  lemma ReadExact(s: State, p: Place)
    requires Ordered(s)
    ensures forall v :: ValueAt(s, p) == Ok(v) <==>
              exists row :: (p.key, row) in TableOf(s, p.record) && p.field in row && row[p.field] == v
    ensures ValueAt(s, p) == Err(MissingRecord) <==> forall x :: x in TableOf(s, p.record) ==> x.0 != p.key
    ensures ValueAt(s, p).Err? ==> ValueAt(s, p).code in {MissingRecord, InvalidIr}
  {
    hide KeysAscending, Lookup;
    var t := TableOf(s, p.record);
    assert KeysAscending(t);
    LookupExact(t, p.key);
    if Lookup(t, p.key).None? {
      forall x | x in t
        ensures x.0 != p.key
      {
        assert x == (x.0, x.1);
      }
    } else {
      assert (p.key, Lookup(t, p.key).value) in t;
    }
  }

  /** Ordered states that agree on every place have the same tables. */
  lemma PlacesDetermine(s: State, t: State, r: RecordId)
    requires Ordered(s) && Ordered(t) && forall p :: ValueAt(s, p) == ValueAt(t, p)
    ensures TableOf(s, r) == TableOf(t, r)
  {
    hide KeysAscending, Lookup, TableOf;
    forall k
      ensures Lookup(TableOf(s, r), k) == Lookup(TableOf(t, r), k)
    {
      var a, b := Lookup(TableOf(s, r), k), Lookup(TableOf(t, r), k);
      assert ValueAt(s, Place(r, k, 0)) == ValueAt(t, Place(r, k, 0));
      assert a.Some? <==> b.Some?;
      if a.Some? {
        forall f: FieldId
          ensures f in a.value <==> f in b.value
          ensures f in a.value ==> a.value[f] == b.value[f]
        {
          assert ValueAt(s, Place(r, k, f)) == ValueAt(t, Place(r, k, f));
        }
        assert a.value == b.value;
      }
    }
    assert KeysAscending(TableOf(s, r)) && KeysAscending(TableOf(t, r));
    TablesEqual(TableOf(s, r), TableOf(t, r));
  }

  lemma GetPut(s: State, r: RecordId, t: Table, r': RecordId, k: Value)
    ensures Get(PutTable(s, r, t), r', k) == if r' == r then Lookup(t, k) else Get(s, r', k)
  {
  }

  /** Exactly these places hold new values; everything else, and which rows there are, stays. */
  ghost predicate Writes(s: State, s': State, news: map<Place, Value>) {
    && (Ordered(s) ==> Ordered(s'))
    && forall q :: ValueAt(s', q) == if q in news then Ok(news[q]) else ValueAt(s, q)
  }

  lemma ReadAfterSet(s: State, p: Place, v: Value, q: Place)
    requires ValueAt(s, p).Ok?
    ensures ValueAt(SetSlot(s, p.record, p.key, p.field, v), q) == if q == p then Ok(v) else ValueAt(s, q)
  {
    hide Lookup, Replace, PutTable;
    var row := Get(s, p.record, p.key).value;
    var t := Replace(TableOf(s, p.record), p.key, row[p.field := v]);
    GetPut(s, p.record, t, q.record, q.key);
    LookupReplace(TableOf(s, p.record), p.key, row[p.field := v], q.key);
  }

  lemma PutOrdered(s: State, r: RecordId, t: Table)
    requires Ordered(s) && KeysAscending(t)
    ensures Ordered(PutTable(s, r, t))
  {
    hide KeysAscending;
    forall x
      ensures KeysAscending(TableOf(PutTable(s, r, t), x))
    {
      assert KeysAscending(TableOf(s, x));
    }
  }

  lemma SetWrites(s: State, p: Place, v: Value)
    requires ValueAt(s, p).Ok?
    ensures Writes(s, SetSlot(s, p.record, p.key, p.field, v), map[p := v])
  {
    hide ValueAt, SetSlot;
    var s' := SetSlot(s, p.record, p.key, p.field, v);
    forall q
      ensures ValueAt(s', q) == if q == p then Ok(v) else ValueAt(s, q)
    {
      ReadAfterSet(s, p, v, q);
    }
    if Ordered(s) {
      SetOrdered(s, p, v);
    }
  }

  lemma SetOrdered(s: State, p: Place, v: Value)
    requires Ordered(s)
    ensures Ordered(SetSlot(s, p.record, p.key, p.field, v))
  {
    hide Less, Replace, Lookup;
    var t := TableOf(s, p.record);
    assert KeysAscending(t);
    if Get(s, p.record, p.key).Some? {
      var row := Get(s, p.record, p.key).value[p.field := v];
      ReplaceKeys(t, p.key, row);
      PutOrdered(s, p.record, Replace(t, p.key, row));
    }
  }

  // ---------------------------------------------------------------------------
  // Effects on one place
  // ---------------------------------------------------------------------------

  /** The effect succeeds, and all it does is write `v` at `p`. */
  ghost predicate Sets(s: State, r: Result<State>, p: Place, v: Value) {
    r.Ok? && Writes(s, r.value, map[p := v])
  }

  ghost predicate IsPositive(v: Value) {
    Numeric(v) && Amount(v) > 0
  }

  lemma AssignMeans(m: Module, s: State, p: Place, v: Value)
    ensures var r, ty, was := ApplyLiteral(m, s, Assign(p.record, p.key, p.field, v)), FieldType(m, p.record, p.field),
                              ValueAt(s, p);
            if ty.Err? then r == Err(ty.code)
            else if !Fits(v, ty.value) then r == Err(TypeMismatch)
            else if was.Err? then r == Err(was.code)
            else Sets(s, r, p, v)
  {
    hide SetSlot, GetSlot, FieldType, Fits, Writes;
    if ValueAt(s, p).Ok? {
      SetWrites(s, p, v);
    }
  }

  /** A place holding `was` now holds the number `z`, if the amount is of its kind and `z` in range. */
  ghost predicate Counts(s: State, r: Result<State>, p: Place, amount: Value, was: Value, z: int) {
    if !Numeric(was) || Kind(was) != Kind(amount) then r == Err(TypeMismatch)
    else if !InRange(was, z) then r == Err(NumericOverflow)
    else Sets(s, r, p, Number(was, z))
  }

  /** Adding to, or subtracting from, what is at a place. */
  lemma AdjustMeans(s: State, p: Place, op: ArithOp, amount: Value)
    requires op != Mul
    ensures var r, was := Adjust(s, p.record, p.key, p.field, op, amount), ValueAt(s, p);
            if was.Err? then r == Err(was.code)
            else if op == Add then Counts(s, r, p, amount, was.value, Amount(was.value) + Amount(amount))
            else Counts(s, r, p, amount, was.value, Amount(was.value) - Amount(amount))
  {
    hide SetSlot, GetSlot, CheckedArith, Writes;
    if ValueAt(s, p).Ok? {
      ArithExact(op, ValueAt(s, p).value, amount);
      if CheckedArith(op, ValueAt(s, p).value, amount).Ok? {
        SetWrites(s, p, CheckedArith(op, ValueAt(s, p).value, amount).value);
      }
    }
  }

  lemma IncrementMeans(m: Module, s: State, p: Place, amount: Value)
    ensures var r, was := ApplyLiteral(m, s, Increment(p.record, p.key, p.field, amount)), ValueAt(s, p);
            if !IsPositive(amount) then r == Err(ArithmeticError)
            else if was.Err? then r == Err(was.code)
            else Counts(s, r, p, amount, was.value, Amount(was.value) + Amount(amount))
  {
    hide Adjust, ValueAt, Counts;
    AdjustMeans(s, p, Add, amount);
  }

  lemma DecrementMeans(m: Module, s: State, p: Place, amount: Value)
    ensures var r, was := ApplyLiteral(m, s, Decrement(p.record, p.key, p.field, amount)), ValueAt(s, p);
            if !IsPositive(amount) then r == Err(ArithmeticError)
            else if was.Err? then r == Err(was.code)
            else Counts(s, r, p, amount, was.value, Amount(was.value) - Amount(amount))
  {
    hide Adjust, ValueAt, Counts;
    AdjustMeans(s, p, Sub, amount);
  }

  /** The place must hold exactly the expected value. */
  lemma SwapMeans(m: Module, s: State, p: Place, expected: Value, v: Value)
    ensures var r, was := ApplyLiteral(m, s, CompareAndSwap(p.record, p.key, p.field, expected, v)), ValueAt(s, p);
            if was.Err? then r == Err(was.code)
            else if was.value != expected then r == Err(Conflict)
            else Sets(s, r, p, v)
  {
    hide SetSlot, GetSlot, Writes;
    if ValueAt(s, p).Ok? {
      SetWrites(s, p, v);
    }
  }

  /** An enum value in state `from` becomes the same enum in state `next`. */
  lemma AdvanceMeans(m: Module, s: State, p: Place, from: nat, next: nat)
    ensures var r, was := ApplyLiteral(m, s, Advance(p.record, p.key, p.field, from, next)), ValueAt(s, p);
            if was.Err? then r == Err(was.code)
            else if !was.value.Enum? || was.value.variant != from then r == Err(Conflict)
            else Sets(s, r, p, Enum(was.value.enumId, next))
  {
    hide SetSlot, GetSlot, Writes;
    if ValueAt(s, p).Ok? && ValueAt(s, p).value.Enum? {
      SetWrites(s, p, Enum(ValueAt(s, p).value.enumId, next));
    }
  }

  /** The set at the place gains the value. */
  lemma AddMeans(m: Module, s: State, p: Place, v: Value, items: seq<Value>)
    requires ValueAt(s, p).Ok? && ValueAt(s, p).value.SetOf? ==>
               && Ascending(ValueAt(s, p).value.items) && Ascending(items)
               && forall x :: x in items <==> x in ValueAt(s, p).value.items || x == v
    ensures var r, was := ApplyLiteral(m, s, AddToSet(p.record, p.key, p.field, v)), ValueAt(s, p);
            if was.Err? then r == Err(was.code)
            else if !was.value.SetOf? then r == Err(TypeMismatch)
            else Sets(s, r, p, SetOf(items))
  {
    hide SetSlot, GetSlot, Writes, Ascending, AddItem;
    if ValueAt(s, p).Ok? && ValueAt(s, p).value.SetOf? {
      var was := ValueAt(s, p).value.items;
      AddItemExact(was, v);
      AscendingUnique(items, AddItem(was, v));
      SetWrites(s, p, SetOf(items));
    }
  }

  /** The set at the place loses the value. */
  lemma RemoveMeans(m: Module, s: State, p: Place, v: Value, items: seq<Value>)
    requires ValueAt(s, p).Ok? && ValueAt(s, p).value.SetOf? ==>
               && Ascending(ValueAt(s, p).value.items) && Ascending(items)
               && forall x :: x in items <==> x in ValueAt(s, p).value.items && x != v
    ensures var r, was := ApplyLiteral(m, s, RemoveFromSet(p.record, p.key, p.field, v)), ValueAt(s, p);
            if was.Err? then r == Err(was.code)
            else if !was.value.SetOf? then r == Err(TypeMismatch)
            else Sets(s, r, p, SetOf(items))
  {
    hide SetSlot, GetSlot, Writes, Ascending, RemoveItem;
    if ValueAt(s, p).Ok? && ValueAt(s, p).value.SetOf? {
      var was := ValueAt(s, p).value.items;
      RemoveItemExact(was, v);
      AscendingUnique(items, RemoveItem(was, v));
      SetWrites(s, p, SetOf(items));
    }
  }

  // ---------------------------------------------------------------------------
  // Transfers
  // ---------------------------------------------------------------------------

  lemma WritesTwo(s: State, s1: State, s2: State, p: Place, v: Value, q: Place, w: Value)
    requires p != q && Writes(s, s1, map[p := v]) && Writes(s1, s2, map[q := w])
    ensures Writes(s, s2, map[p := v, q := w])
  {
    hide Ordered, ValueAt;
  }

  /** What a place can be after `delta` is added to its number, or why not. */
  ghost function Moved(was: Result<Value>, amount: Value, delta: int): Result<Value> {
    if was.Err? then was
    else if !Numeric(was.value) || Kind(was.value) != Kind(amount) then Err(TypeMismatch)
    else if !InRange(was.value, Amount(was.value) + delta) then Err(NumericOverflow)
    else Ok(Number(was.value, Amount(was.value) + delta))
  }

  /**
    The amount leaves the source and arrives at the destination; both must stay in range, and no
    other place changes.
   */
  lemma TransferMeans(m: Module, s: State, src: Place, dst: Place, amount: Value)
    ensures var r := ApplyLiteral(m, s, Transfer(src.record, src.key, src.field, dst.record, dst.key, dst.field,
                                                 amount));
            var less, more := Moved(ValueAt(s, src), amount, -Amount(amount)), Moved(ValueAt(s, dst), amount,
                Amount(amount));
            if !IsPositive(amount) then r == Err(ArithmeticError)
            else if src == dst then r == Err(UnsupportedEffect)
            else if less.Err? then r == Err(less.code)
            else if more.Err? then r == Err(more.code)
            else r.Ok? && Writes(s, r.value, map[src := less.value, dst := more.value])
  {
    hide Adjust, ValueAt, Writes;
    if IsPositive(amount) && src != dst {
      AdjustMeans(s, src, Sub, amount);
      var s1 := Adjust(s, src.record, src.key, src.field, Sub, amount);
      if s1.Ok? {
        ReadOther(s, s1.value, src, Moved(ValueAt(s, src), amount, -Amount(amount)).value, dst);
        AdjustMeans(s1.value, dst, Add, amount);
        var s2 := Adjust(s1.value, dst.record, dst.key, dst.field, Add, amount);
        if s2.Ok? {
          WritesTwo(s, s1.value, s2.value, src, Moved(ValueAt(s, src), amount, -Amount(amount)).value,
                    dst, Moved(ValueAt(s, dst), amount, Amount(amount)).value);
        }
      }
    }
  }

  lemma ReadOther(s: State, s': State, p: Place, v: Value, q: Place)
    requires Writes(s, s', map[p := v]) && q != p
    ensures ValueAt(s', q) == ValueAt(s, q)
  {
  }

  // ---------------------------------------------------------------------------
  // Rows
  // ---------------------------------------------------------------------------

  /** Exactly the row of `k` is new, with these fields. */
  ghost predicate AddsRow(s: State, s': State, r: RecordId, k: Value, row: Fields) {
    && (Ordered(s) ==> Ordered(s'))
    && forall q :: ValueAt(s', q) == if q.record != r || q.key != k then ValueAt(s, q)
                                  else if q.field in row then Ok(row[q.field]) else Err(InvalidIr)
  }

  /** Exactly the row of `k` is gone. */
  ghost predicate DropsRow(s: State, s': State, r: RecordId, k: Value) {
    && Ordered(s')
    && forall q :: ValueAt(s', q) == if q.record != r || q.key != k then ValueAt(s, q) else Err(MissingRecord)
  }

  ghost predicate HasKey(s: State, r: RecordId, k: Value) {
    exists x :: x in TableOf(s, r) && x.0 == k
  }

  lemma {:induction false} KeyFound(t: Table, k: Value)
    ensures Lookup(t, k).Some? <==> exists x :: x in t && x.0 == k
  {
    if t != [] {
      KeyFound(t[1..], k);
      assert t == [t[0]] + t[1..];
      if t[0].0 == k {
        assert t[0] in t;
      }
    }
  }

  lemma DeleteMeans(m: Module, s: State, r: RecordId, k: Value)
    requires Ordered(s)
    ensures var res := ApplyLiteral(m, s, Delete(r, k));
            if !HasKey(s, r, k) then res == Err(MissingRecord) else res.Ok? && DropsRow(s, res.value, r, k)
  {
    hide Lookup, RemoveRow, KeysAscending;
    var t := TableOf(s, r);
    assert KeysAscending(t);
    KeyFound(t, k);
    if Lookup(t, k).Some? {
      var s' := PutTable(s, r, RemoveRow(t, k));
      RemoveKeys(t, k);
      PutOrdered(s, r, RemoveRow(t, k));
      forall q: Place
        ensures ValueAt(s', q) == if q.record != r || q.key != k then ValueAt(s, q) else Err(MissingRecord)
      {
        GetPut(s, r, RemoveRow(t, k), q.record, q.key);
        LookupRemove(t, k, q.key);
      }
    }
  }

  lemma InsertAdds(s: State, r: RecordId, k: Value, row: Fields)
    requires Get(s, r, k).None?
    ensures AddsRow(s, PutTable(s, r, InsertRow(TableOf(s, r), k, row)), r, k, row)
  {
    hide Lookup, InsertRow, KeysAscending;
    var t := TableOf(s, r);
    var s' := PutTable(s, r, InsertRow(t, k, row));
    if Ordered(s) {
      assert KeysAscending(t);
      InsertKeys(t, k, row);
      PutOrdered(s, r, InsertRow(t, k, row));
    }
    forall q: Place
      ensures ValueAt(s', q) == if q.record != r || q.key != k then ValueAt(s, q)
                             else if q.field in row then Ok(row[q.field]) else Err(InvalidIr)
    {
      GetPut(s, r, InsertRow(t, k, row), q.record, q.key);
      LookupInsert(t, k, row, q.key);
    }
  }

  /** What is wrong with a declared field among the given ones, if anything. */
  ghost function FieldFault(f: FieldDef, given: Fields): Option<ErrorCode> {
    if f.id !in given then Some(InvalidIr) else if !Fits(given[f.id], f.ty) then Some(TypeMismatch) else None
  }

  /** The first declared field that is at fault. */
  ghost predicate FirstFault(fs: seq<FieldDef>, given: Fields, i: nat) {
    i < |fs| && FieldFault(fs[i], given).Some? && forall j :: 0 <= j < i ==> FieldFault(fs[j], given).None?
  }

  /** The given values of exactly the declared fields. */
  ghost predicate RowOf(fs: seq<FieldDef>, given: Fields, row: Fields) {
    && (forall f :: f in row <==> exists i :: 0 <= i < |fs| && fs[i].id == f)
    && (forall f :: f in row ==> f in given && row[f] == given[f])
  }

  /** A row is built exactly when no declared field is at fault, and otherwise the first fault is reported. */
  lemma {:induction false} BuildsExactly(fs: seq<FieldDef>, given: Fields)
    ensures BuildRow(fs, given).Ok? <==> forall i :: 0 <= i < |fs| ==> FieldFault(fs[i], given).None?
    ensures BuildRow(fs, given).Ok? ==> RowOf(fs, given, BuildRow(fs, given).value)
    ensures BuildRow(fs, given).Err? ==>
              exists i: nat :: FirstFault(fs, given, i)
                          && FieldFault(fs[i], given) == Some(BuildRow(fs, given).code)
  {
    hide Fits, RowOf;
    if fs != [] {
      var k := |fs| - 1;
      var init := fs[..k];
      BuildsExactly(init, given);
      if BuildRow(init, given).Err? {
        var i: nat :| FirstFault(init, given, i) && FieldFault(init[i], given) == Some(BuildRow(init, given).code);
        FaultEarlier(fs, given, i);
      } else {
        assert forall i :: 0 <= i < k ==> fs[i] == init[i];
        if FieldFault(fs[k], given).Some? {
          FaultLast(fs, given);
        } else {
          RowGrows(fs, given, BuildRow(init, given).value);
        }
      }
    } else {
      RowNone(given);
    }
  }

  lemma FaultEarlier(fs: seq<FieldDef>, given: Fields, i: nat)
    requires fs != [] && FirstFault(fs[..|fs| - 1], given, i)
    ensures FirstFault(fs, given, i) && fs[i] == fs[..|fs| - 1][i]
  {
    hide FieldFault;
  }

  lemma FaultLast(fs: seq<FieldDef>, given: Fields)
    requires fs != [] && FieldFault(fs[|fs| - 1], given).Some?
    requires forall i :: 0 <= i < |fs| - 1 ==> FieldFault(fs[i], given).None?
    ensures FirstFault(fs, given, |fs| - 1)
  {
    hide FieldFault;
  }

  lemma RowNone(given: Fields)
    ensures RowOf([], given, map[])
  {
  }

  lemma RowGrows(fs: seq<FieldDef>, given: Fields, row: Fields)
    requires fs != [] && RowOf(fs[..|fs| - 1], given, row) && fs[|fs| - 1].id in given
    ensures RowOf(fs, given, row[fs[|fs| - 1].id := given[fs[|fs| - 1].id]])
  {
    var k := |fs| - 1;
    var init, row' := fs[..k], row[fs[k].id := given[fs[k].id]];
    forall f
      ensures f in row' <==> exists i :: 0 <= i < |fs| && fs[i].id == f
    {
      if f in row {
        var i :| 0 <= i < |init| && init[i].id == f;
        assert fs[i].id == f;
      } else if i :| 0 <= i < |fs| && fs[i].id == f {
        if i < k {
          assert init[i].id == f;
        }
      }
    }
  }

  /** A record that is not declared, or the first declared field at fault, refuses an insertion. */
  lemma InsertRefused(m: Module, s: State, r: RecordId, k: Value, given: Fields, isFact: bool)
    ensures var res, def := ApplyLiteral(m, s, Insert(r, k, given, isFact)), FindRecord(m.records, r);
            && (def.Err? ==> res == Err(def.code))
            && (def.Ok? ==> forall i: nat :: FirstFault(def.value.fields, given, i) ==>
                  res == Err(FieldFault(def.value.fields[i], given).value))
  {
    hide BuildRow, Lookup, InsertRow, FindRecord, FieldFault;
    var def := FindRecord(m.records, r);
    if def.Ok? {
      BuildsExactly(def.value.fields, given);
      forall i: nat, j: nat | FirstFault(def.value.fields, given, i) && FirstFault(def.value.fields, given, j)
        ensures i == j
      {
      }
    }
  }

  /**
    With every declared field given, an insertion still needs its key in the primary key field and no
    row under that key; only a fact may be inserted again, with the same content, and that does nothing.
   */
  lemma InsertMeans(m: Module, s: State, k: Value, given: Fields, isFact: bool, def: RecordDef, row: Fields,
                    r: RecordId)
    requires FindRecord(m.records, r) == Ok(def) && RowOf(def.fields, given, row)
    requires forall i :: 0 <= i < |def.fields| ==> FieldFault(def.fields[i], given).None?
    ensures var res := ApplyLiteral(m, s, Insert(r, k, given, isFact));
            if def.primaryKey !in row then res == Err(Panic)
            else if row[def.primaryKey] != k then res == Err(IdentityMismatch)
            else if Get(s, r, k).Some? then
              res == if isFact && Get(s, r, k).value == row then Ok(s) else Err(DuplicateIdentity)
            else res.Ok? && AddsRow(s, res.value, r, k, row)
  {
    hide BuildRow, Lookup, InsertRow, FindRecord, AddsRow, FieldFault;
    BuildsExactly(def.fields, given);
    SameRow(def.fields, given, row, BuildRow(def.fields, given).value);
    if Get(s, r, k).None? {
      InsertAdds(s, r, k, row);
    }
  }

  lemma SameRow(fs: seq<FieldDef>, given: Fields, a: Fields, b: Fields)
    requires RowOf(fs, given, a) && RowOf(fs, given, b)
    ensures a == b
  {
    assert forall f :: f in a <==> f in b;
  }
}
