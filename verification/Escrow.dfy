/**
  Escrow accounting: what Reserve and Release keep about the rows of every resource and about the
  reservations taken from them.
 */
module Escrow {
  import opened Basics
  import opened LangTypes
  import opened LangEval
  import opened LangMeaning
  import opened LangEffects
  import opened ScopedEvaluation

  lemma ArithAmount(op: ArithOp, a: Value, b: Value)
    requires CheckedArith(op, a, b).Ok?
    ensures Amount(CheckedArith(op, a, b).value) == Exact(op, Amount(a), Amount(b))
  {
  }

  lemma ReadAfterAdjust(s: State, p: Place, op: ArithOp, amount: Value, q: Place)
    requires Adjust(s, p.record, p.key, p.field, op, amount).Ok?
    ensures var s' := Adjust(s, p.record, p.key, p.field, op, amount).value;
            && ValueAt(s, p).Ok?
            && (q != p ==> ValueAt(s', q) == ValueAt(s, q))
            && ValueAt(s', p).Ok?
            && Amount(ValueAt(s', p).value) == Exact(op, Amount(ValueAt(s, p).value), Amount(amount))
  {
    hide SetSlot, GetSlot, CheckedArith, Exact;
    var v := CheckedArith(op, ValueAt(s, p).value, amount);
    ReadAfterSet(s, p, v.value, q);
    ReadAfterSet(s, p, v.value, p);
    ArithAmount(op, ValueAt(s, p).value, amount);
  }

  lemma {:induction false} TableAfterSet(s: State, p: Place, v: Value, r: RecordId)
    requires r != p.record
    ensures TableOf(SetSlot(s, p.record, p.key, p.field, v), r) == TableOf(s, r)
  {
    hide Lookup, Replace;
  }

  // ---------------------------------------------------------------------------
  // Modules with separate books
  // ---------------------------------------------------------------------------

  ghost predicate IsResource(m: Module, x: ResourceId, rs: ResourceDef) {
    FindResource(m.resources, x) == Ok(rs)
  }

  /** Resources keep their amounts in different fields and their reservations in records of their own. */
  ghost predicate Separate(m: Module) {
    forall x, y, rx, ry :: IsResource(m, x, rx) && IsResource(m, y, ry) ==>
                             && rx.reservationRecord != ry.record
                             && rx.available != rx.reserved
                             && (x != y ==> rx.reservationRecord != ry.reservationRecord)
                             && (x != y && rx.record == ry.record ==>
                                   {rx.available, rx.reserved} * {ry.available, ry.reserved} == {})
  }

  ghost predicate DistinctFields(fs: seq<FieldDef>) {
    forall i, j :: 0 <= i < j < |fs| ==> fs[i].id != fs[j].id && fs[i].name != fs[j].name
  }

  /** Reservation records have the three fields and two variants the interpreter looks for. */
  ghost predicate Shaped(m: Module, rs: ResourceDef) {
    && FindRecord(m.records, rs.reservationRecord).Ok?
    && DistinctFields(FindRecord(m.records, rs.reservationRecord).value.fields)
    && LayoutOf(m, rs.reservationRecord).Ok?
  }

  ghost predicate Books(m: Module) {
    Separate(m) && forall x, rs :: IsResource(m, x, rs) ==> Shaped(m, rs)
  }

  ghost predicate IsEscrow(e: Applied) {
    e.Reserve? || e.Release?
  }

  // ---------------------------------------------------------------------------
  // Conservation
  // ---------------------------------------------------------------------------

  ghost function Available(rs: ResourceDef, k: Value): Place { Place(rs.record, k, rs.available) }
  ghost function Reserved(rs: ResourceDef, k: Value): Place { Place(rs.record, k, rs.reserved) }

  /** The row of `k` exists with both amounts. */
  ghost predicate HasRow(s: State, rs: ResourceDef, k: Value) {
    ValueAt(s, Available(rs, k)).Ok? && ValueAt(s, Reserved(rs, k)).Ok?
  }

  ghost function Held(s: State, rs: ResourceDef, k: Value): int
    requires HasRow(s, rs, k)
  {
    Amount(ValueAt(s, Reserved(rs, k)).value)
  }

  ghost function Total(s: State, rs: ResourceDef, k: Value): int
    requires HasRow(s, rs, k)
  {
    Amount(ValueAt(s, Available(rs, k)).value) + Amount(ValueAt(s, Reserved(rs, k)).value)
  }

  /** How a shift between the two fields of one row moves the amounts of every row. */
  lemma ShiftMoves(s: State, r: RecordId, key: Value, from: FieldId, to: FieldId, amount: Value, q: Place)
    requires from != to && Shift(s, r, key, from, to, amount).Ok?
    ensures var s' := Shift(s, r, key, from, to, amount).value;
            var a, b := Place(r, key, from), Place(r, key, to);
            && ValueAt(s, a).Ok? && ValueAt(s, b).Ok? && ValueAt(s', a).Ok? && ValueAt(s', b).Ok?
            && (q != a && q != b ==> ValueAt(s', q) == ValueAt(s, q))
            && Amount(ValueAt(s', a).value) == Amount(ValueAt(s, a).value) - Amount(amount)
            && Amount(ValueAt(s', b).value) == Amount(ValueAt(s, b).value) + Amount(amount)
  {
    hide Adjust, ValueAt;
    var a, b := Place(r, key, from), Place(r, key, to);
    var s1 := Adjust(s, r, key, from, Sub, amount).value;
    ReadAfterAdjust(s, a, Sub, amount, b);
    ReadAfterAdjust(s, a, Sub, amount, q);
    ReadAfterAdjust(s1, b, Add, amount, a);
    ReadAfterAdjust(s1, b, Add, amount, q);
  }

  lemma {:induction false} ShiftTables(s: State, r: RecordId, key: Value, from: FieldId, to: FieldId, amount: Value,
                                       other: RecordId)
    requires other != r && Shift(s, r, key, from, to, amount).Ok?
    ensures TableOf(Shift(s, r, key, from, to, amount).value, other) == TableOf(s, other)
  {
    hide SetSlot, GetSlot, CheckedArith, TableOf;
    var v := CheckedArith(Sub, GetSlot(s, r, key, from).value, amount).value;
    var s1 := Adjust(s, r, key, from, Sub, amount).value;
    TableAfterSet(s, Place(r, key, from), v, other);
    var w := CheckedArith(Add, GetSlot(s1, r, key, to).value, amount).value;
    TableAfterSet(s1, Place(r, key, to), w, other);
  }

  lemma ReadTable(s: State, t: State, p: Place)
    requires TableOf(s, p.record) == TableOf(t, p.record)
    ensures ValueAt(s, p) == ValueAt(t, p)
  {
  }

  lemma ShiftBooks(s: State, rs: ResourceDef, key: Value, amount: Value, out: bool, k: Value)
    requires rs.available != rs.reserved
    requires var (f, t) := if out then (rs.available, rs.reserved) else (rs.reserved, rs.available);
             Shift(s, rs.record, key, f, t, amount).Ok?
    ensures var (f, t) := if out then (rs.available, rs.reserved) else (rs.reserved, rs.available);
            var s' := Shift(s, rs.record, key, f, t, amount).value;
            && HasRow(s, rs, key)
            && (HasRow(s, rs, k) <==> HasRow(s', rs, k))
            && (HasRow(s, rs, k) ==>
                  && Total(s', rs, k) == Total(s, rs, k)
                  && Held(s', rs, k) == Held(s, rs, k)
                     + (if k != key then 0 else if out then Amount(amount) else -Amount(amount)))
  {
    hide Shift, ValueAt, Amount;
    var (f, t) := if out then (rs.available, rs.reserved) else (rs.reserved, rs.available);
    ShiftMoves(s, rs.record, key, f, t, amount, Available(rs, k));
    ShiftMoves(s, rs.record, key, f, t, amount, Reserved(rs, k));
  }

  lemma ShiftOther(s: State, rs: ResourceDef, r: RecordId, key: Value, f: FieldId, t: FieldId, amount: Value, k: Value)
    requires f != t && Shift(s, r, key, f, t, amount).Ok?
    requires r == rs.record ==> f !in {rs.available, rs.reserved} && t !in {rs.available, rs.reserved}
    ensures var s' := Shift(s, r, key, f, t, amount).value;
            ValueAt(s', Available(rs, k)) == ValueAt(s, Available(rs, k)) &&
                ValueAt(s', Reserved(rs, k)) == ValueAt(s, Reserved(rs, k))
  {
    hide Shift, ValueAt, Amount;
    ShiftMoves(s, r, key, f, t, amount, Available(rs, k));
    ShiftMoves(s, r, key, f, t, amount, Reserved(rs, k));
  }

  // ---------------------------------------------------------------------------
  // Reservations
  // ---------------------------------------------------------------------------

  ghost predicate IsActive(l: Layout, row: Fields) {
    l.state in row && row[l.state].Enum? && row[l.state].variant == l.active
  }

  /** What a reservation row holds back from the row of `k`. */
  ghost function Holding(l: Layout, row: Fields, k: Value): int {
    if IsActive(l, row) && l.resource in row && l.amount in row && row[l.resource] == k then Amount(row[l.amount])
    else 0
  }

  /** Sum of the active reservations of `k`. */
  ghost function ActiveSum(l: Layout, t: Table, k: Value): int {
    if t == [] then 0 else Holding(l, t[0].1, k) + ActiveSum(l, t[1..], k)
  }

  lemma {:induction false} SumReplace(l: Layout, t: Table, id: Value, row: Fields, k: Value)
    requires Lookup(t, id).Some?
    ensures ActiveSum(l, Replace(t, id, row), k) ==
            ActiveSum(l, t, k) - Holding(l, Lookup(t, id).value, k) + Holding(l, row, k)
  {
    hide Holding;
    if t[0].0 == id {
      var u := [(id, row)] + t[1..];
      assert u[0] == (id, row) && u[1..] == t[1..];
    } else {
      SumReplace(l, t[1..], id, row, k);
      var u := [t[0]] + Replace(t[1..], id, row);
      assert u[0] == t[0] && u[1..] == Replace(t[1..], id, row);
    }
  }

  lemma {:induction false} SumInsert(l: Layout, t: Table, id: Value, row: Fields, k: Value)
    ensures ActiveSum(l, InsertRow(t, id, row), k) == ActiveSum(l, t, k) + Holding(l, row, k)
  {
    hide Holding;
    if t == [] || Compare(id, t[0].0) < 0 {
      var u := [(id, row)] + t;
      assert u[0] == (id, row) && u[1..] == t;
    } else {
      SumInsert(l, t[1..], id, row, k);
      var u := [t[0]] + InsertRow(t[1..], id, row);
      assert u[0] == t[0] && u[1..] == InsertRow(t[1..], id, row);
    }
  }

  lemma {:induction false} NamedField(fs: seq<FieldDef>, name: Name)
    ensures FindFieldNamed(fs, name).Some? ==>
            FindFieldNamed(fs, name).value in fs && FindFieldNamed(fs, name).value.name == name
  {
    if fs != [] && fs[0].name != name {
      NamedField(fs[1..], name);
    }
  }

  lemma {:induction false} FieldById(fs: seq<FieldDef>, f: FieldDef)
    requires DistinctFields(fs) && f in fs
    ensures FindField(fs, f.id) == Some(f)
  {
    if fs[0] != f {
      var i :| 0 < i < |fs| && fs[i] == f;
      assert fs[0].id != fs[i].id;
      FieldById(fs[1..], f);
    }
  }

  lemma {:induction false} Positions(names: seq<Name>, name: Name)
    ensures Position(names, name).Some? ==>
            Position(names, name).value < |names| && names[Position(names, name).value] == name
  {
    if names != [] && names[0] != name {
      Positions(names[1..], name);
    }
  }

  lemma {:induction false} RowHolds(m: Module, def: RecordDef, fs: seq<FieldDef>, q: Claim, f: FieldDef)
    requires DistinctFields(fs) && ReservationRow(m, def, fs, q).Ok? && f in fs
    ensures f.id in ReservationRow(m, def, fs, q).value
    ensures ReservationField(m, def, f, q) == Ok(ReservationRow(m, def, fs, q).value[f.id])
  {
    hide ReservationField;
    var n := |fs| - 1;
    var rest := fs[..n];
    assert fs == rest + [fs[n]];
    if f != fs[n] {
      var i :| 0 <= i < n && fs[i] == f;
      assert f == rest[i] && f.id != fs[n].id;
      RowHolds(m, def, rest, q, f);
    }
  }

  /** The reservation record's definition and layout fit together. */
  lemma LayoutFields(m: Module, rs: ResourceDef)
    requires Shaped(m, rs)
    ensures var def, l := FindRecord(m.records, rs.reservationRecord).value, LayoutOf(m, rs.reservationRecord).value;
            && def.id == rs.reservationRecord == l.record
            && l.active != l.released
            && l.state != l.resource && l.state != l.amount
            && (exists f :: f in def.fields && f.name == RESOURCE && f.id == l.resource)
            && (exists f :: f in def.fields && f.name == AMOUNT && f.id == l.amount)
            && (exists f :: f in def.fields && f.name == STATE && f.id == l.state && f.ty == TEnum(l.e))
            && VariantOf(m, l.e, ACTIVE) == Ok(l.active)
  {
    var def := FindRecord(m.records, rs.reservationRecord).value;
    FoundId(m.records, rs.reservationRecord);
    NamedField(def.fields, STATE);
    NamedField(def.fields, RESOURCE);
    NamedField(def.fields, AMOUNT);
    var st := FindFieldNamed(def.fields, STATE).value;
    FieldById(def.fields, st);
    FieldById(def.fields, FindFieldNamed(def.fields, RESOURCE).value);
    FieldById(def.fields, FindFieldNamed(def.fields, AMOUNT).value);
    if st.ty.TEnum? && FindEnum(m.enums, st.ty.e).Ok? {
      var vs := FindEnum(m.enums, st.ty.e).value.variants;
      Positions(vs, ACTIVE);
      Positions(vs, RELEASED);
    }
  }

  lemma {:induction false} FoundId(rs: seq<RecordDef>, id: RecordId)
    ensures FindRecord(rs, id).Ok? ==> FindRecord(rs, id).value.id == id
  {
    if rs != [] && rs[0].id != id {
      FoundId(rs[1..], id);
    }
  }

  /** A stored reservation is active and holds its amount from its own row. */
  lemma StoredHolding(m: Module, rs: ResourceDef, q: Claim, k: Value)
    requires Shaped(m, rs)
    requires ReservationRow(m, FindRecord(m.records, rs.reservationRecord).value,
                            FindRecord(m.records, rs.reservationRecord).value.fields, q).Ok?
    ensures var def, l := FindRecord(m.records, rs.reservationRecord).value, LayoutOf(m, rs.reservationRecord).value;
            var row := ReservationRow(m, def, def.fields, q).value;
            IsActive(l, row) && Holding(l, row, k) == if k == q.key then Amount(q.amount) else 0
  {
    hide ReservationRow, LayoutOf, FindRecord, VariantOf;
    LayoutFields(m, rs);
    var def, l := FindRecord(m.records, rs.reservationRecord).value, LayoutOf(m, rs.reservationRecord).value;
    var f :| f in def.fields && f.name == RESOURCE && f.id == l.resource;
    var g :| g in def.fields && g.name == AMOUNT && g.id == l.amount;
    var h :| h in def.fields && h.name == STATE && h.id == l.state && h.ty == TEnum(l.e);
    RowHolds(m, def, def.fields, q, f);
    RowHolds(m, def, def.fields, q, g);
    RowHolds(m, def, def.fields, q, h);
  }

  // ---------------------------------------------------------------------------
  // One effect
  // ---------------------------------------------------------------------------

  /** How much an effect moves into the held amount of resource `x`. */
  ghost function Delta(e: Applied, x: ResourceId): int {
    match e
    case Reserve(y, q) => if y == x then Amount(q.amount) else 0
    case Release(y, q) => if y == x then -Amount(q.amount) else 0
    case _ => 0
  }

  /** The books of one row after an effect that moved `delta` into its held amount. */
  ghost predicate RowMoved(s: State, s': State, rs: ResourceDef, k: Value, delta: int) {
    && (HasRow(s, rs, k) <==> HasRow(s', rs, k))
    && (HasRow(s, rs, k) ==> Total(s', rs, k) == Total(s, rs, k) && Held(s', rs, k) == Held(s, rs, k) + delta)
  }

  lemma RowsSame(s: State, s': State, rs: ResourceDef, k: Value)
    requires TableOf(s, rs.record) == TableOf(s', rs.record)
    ensures RowMoved(s, s', rs, k, 0)
  {
    ReadTable(s, s', Available(rs, k));
    ReadTable(s, s', Reserved(rs, k));
  }

  lemma StoredTable(m: Module, s: State, r: RecordId, q: Claim)
    requires StoreReservation(m, s, r, q).Ok?
    ensures var def := FindRecord(m.records, r).value;
            && FindRecord(m.records, r).Ok? && ReservationRow(m, def, def.fields, q).Ok?
            && Lookup(TableOf(s, r), q.id).None?
            && StoreReservation(m, s, r, q).value
               == PutTable(s, r, InsertRow(TableOf(s, r), q.id, ReservationRow(m, def, def.fields, q).value))
  {
    hide ReservationRow, FindRecord, Lookup, InsertRow;
  }

  /** Reserving from `x` itself. */
  lemma ReserveMoves(m: Module, s: State, x: ResourceId, q: Claim, rs: ResourceDef, k: Value)
    requires Books(m) && IsResource(m, x, rs) && ApplyReserve(m, s, x, q).Ok?
    ensures var s' := ApplyReserve(m, s, x, q).value;
            var l := LayoutOf(m, rs.reservationRecord).value;
            var delta := if k == q.key then Amount(q.amount) else 0;
            && RowMoved(s, s', rs, k, delta)
            && ActiveSum(l, TableOf(s', rs.reservationRecord), k) ==
               ActiveSum(l, TableOf(s, rs.reservationRecord), k) + delta
  {
    hide Shift, ValueAt, StoreReservation, LayoutOf, ReservationRow, FindRecord, FindResource, ActiveSum, Holding,
         InsertRow, Lookup,
         Amount, Positive;
    assert Shaped(m, rs) && rs.reservationRecord != rs.record && rs.available != rs.reserved;
    var r := rs.reservationRecord;
    var l := LayoutOf(m, r).value;
    var s1 := Shift(s, rs.record, q.key, rs.available, rs.reserved, q.amount).value;
    ShiftBooks(s, rs, q.key, q.amount, true, k);
    ShiftTables(s, rs.record, q.key, rs.available, rs.reserved, q.amount, r);
    StoredTable(m, s1, r, q);
    var def := FindRecord(m.records, r).value;
    var row := ReservationRow(m, def, def.fields, q).value;
    var s' := ApplyReserve(m, s, x, q).value;
    assert TableOf(s', r) == InsertRow(TableOf(s1, r), q.id, row) && TableOf(s', rs.record) == TableOf(s1, rs.record);
    RowsSame(s1, s', rs, k);
    SumInsert(l, TableOf(s, r), q.id, row, k);
    StoredHolding(m, rs, q, k);
  }

  lemma ClosedTable(s: State, l: Layout, q: Claim)
    requires CloseReservation(s, l, q).Ok?
    ensures var t := TableOf(s, l.record);
            && Lookup(t, q.id).Some?
            && var row := Lookup(t, q.id).value;
               && IsActive(l, row) && l.resource in row && l.amount in row
               && row[l.resource] == q.key && row[l.amount] == q.amount
               && CloseReservation(s, l, q).value
                  == PutTable(s, l.record, Replace(t, q.id, row[l.state := Enum(l.e, l.released)]))
  {
    hide Lookup, Replace;
  }

  /** Releasing a reservation of `x` itself. */
  lemma ReleaseMoves(m: Module, s: State, x: ResourceId, q: Claim, rs: ResourceDef, k: Value)
    requires Books(m) && IsResource(m, x, rs) && ApplyRelease(m, s, x, q).Ok?
    ensures var s' := ApplyRelease(m, s, x, q).value;
            var l := LayoutOf(m, rs.reservationRecord).value;
            var delta := if k == q.key then -Amount(q.amount) else 0;
            && RowMoved(s, s', rs, k, delta)
            && ActiveSum(l, TableOf(s', rs.reservationRecord), k) ==
               ActiveSum(l, TableOf(s, rs.reservationRecord), k) + delta
  {
    hide Shift, ValueAt, CloseReservation, LayoutOf, FindResource, ActiveSum, Replace, Lookup, Amount, Positive,
         FindRecord;
    assert Shaped(m, rs) && rs.reservationRecord != rs.record && rs.available != rs.reserved;
    var r := rs.reservationRecord;
    var l := LayoutOf(m, r).value;
    LayoutFields(m, rs);
    ClosedTable(s, l, q);
    var s1 := CloseReservation(s, l, q).value;
    var row := Lookup(TableOf(s, r), q.id).value;
    var closed := row[l.state := Enum(l.e, l.released)];
    RowsSame(s, s1, rs, k);
    ShiftBooks(s1, rs, q.key, q.amount, false, k);
    ShiftTables(s1, rs.record, q.key, rs.reserved, rs.available, q.amount, r);
    SumReplace(l, TableOf(s, r), q.id, closed, k);
    assert Holding(l, row, k) == (if k == q.key then Amount(q.amount) else 0) && Holding(l, closed, k) == 0;
  }

  /** Nothing of resource `ry` is kept where `rs` keeps its books. */
  ghost predicate Apart(rs: ResourceDef, ry: ResourceDef) {
    && rs.reservationRecord != ry.record && rs.record != ry.reservationRecord
    && rs.reservationRecord != ry.reservationRecord && ry.available != ry.reserved
    && (ry.record == rs.record ==>
          ry.available !in {rs.available, rs.reserved} && ry.reserved !in {rs.available, rs.reserved})
  }

  lemma SeparateApart(m: Module, x: ResourceId, rs: ResourceDef, y: ResourceId, ry: ResourceDef)
    requires Separate(m) && IsResource(m, x, rs) && IsResource(m, y, ry) && x != y
    ensures Apart(rs, ry)
  {
    var ours, theirs := {rs.available, rs.reserved}, {ry.available, ry.reserved};
    assert rs.reservationRecord != ry.record && ry.reservationRecord != rs.record;
    if rs.record == ry.record {
      assert ours * theirs == {};
      assert ry.available !in ours * theirs && ry.reserved !in ours * theirs;
    }
  }

  lemma OthersReserve(m: Module, s: State, rs: ResourceDef, y: ResourceId, ry: ResourceDef, q: Claim, k: Value)
    requires Apart(rs, ry) && IsResource(m, y, ry) && ApplyReserve(m, s, y, q).Ok?
    ensures var s' := ApplyReserve(m, s, y, q).value;
            RowMoved(s, s', rs, k, 0) && TableOf(s', rs.reservationRecord) == TableOf(s, rs.reservationRecord)
  {
    hide Shift, ValueAt, StoreReservation, ReservationRow, FindRecord, FindResource, InsertRow, Lookup, Amount,
         Positive;
    var s1 := Shift(s, ry.record, q.key, ry.available, ry.reserved, q.amount).value;
    ShiftOther(s, rs, ry.record, q.key, ry.available, ry.reserved, q.amount, k);
    ShiftTables(s, ry.record, q.key, ry.available, ry.reserved, q.amount, rs.reservationRecord);
    StoredTable(m, s1, ry.reservationRecord, q);
    RowsSame(s1, ApplyReserve(m, s, y, q).value, rs, k);
  }

  lemma OthersRelease(m: Module, s: State, rs: ResourceDef, y: ResourceId, ry: ResourceDef, q: Claim, k: Value)
    requires Apart(rs, ry) && IsResource(m, y, ry) && Shaped(m, ry) && ApplyRelease(m, s, y, q).Ok?
    ensures var s' := ApplyRelease(m, s, y, q).value;
            RowMoved(s, s', rs, k, 0) && TableOf(s', rs.reservationRecord) == TableOf(s, rs.reservationRecord)
  {
    hide Shift, ValueAt, CloseReservation, LayoutOf, FindRecord, FindResource, Replace, Lookup, Amount, Positive;
    LayoutFields(m, ry);
    var l := LayoutOf(m, ry.reservationRecord).value;
    ClosedTable(s, l, q);
    var s1 := CloseReservation(s, l, q).value;
    RowsSame(s, s1, rs, k);
    ShiftOther(s1, rs, ry.record, q.key, ry.reserved, ry.available, q.amount, k);
    ShiftTables(s1, ry.record, q.key, ry.reserved, ry.available, q.amount, rs.reservationRecord);
  }

  /** An effect on another resource leaves these books alone. */
  lemma OthersRest(m: Module, s: State, e: Applied, x: ResourceId, rs: ResourceDef, k: Value)
    requires Books(m) && IsResource(m, x, rs) && IsEscrow(e) && e.resource != x && ApplyLiteral(m, s, e).Ok?
    ensures var s' := ApplyLiteral(m, s, e).value;
            RowMoved(s, s', rs, k, 0) && TableOf(s', rs.reservationRecord) == TableOf(s, rs.reservationRecord)
  {
    hide Shift, StoreReservation, CloseReservation, LayoutOf, FindResource, Positive, Separate, Shaped, RowMoved,
         TableOf;
    var ry := FindResource(m.resources, e.resource).value;
    assert IsResource(m, e.resource, ry);
    assert Shaped(m, ry);
    SeparateApart(m, x, rs, e.resource, ry);
    if e.Reserve? {
      OthersReserve(m, s, rs, e.resource, ry, e.claim, k);
    } else {
      OthersRelease(m, s, rs, e.resource, ry, e.claim, k);
    }
  }

  /** The held amount of every row moves exactly as the sum of its active reservations. */
  lemma EffectMoves(m: Module, s: State, e: Applied, x: ResourceId, rs: ResourceDef, k: Value)
    requires Books(m) && IsResource(m, x, rs) && IsEscrow(e) && ApplyLiteral(m, s, e).Ok?
    ensures var s' := ApplyLiteral(m, s, e).value;
            var l := LayoutOf(m, rs.reservationRecord).value;
            var delta := if k == e.claim.key then Delta(e, x) else 0;
            && RowMoved(s, s', rs, k, delta)
            && ActiveSum(l, TableOf(s', rs.reservationRecord), k) ==
               ActiveSum(l, TableOf(s, rs.reservationRecord), k) + delta
  {
    hide Books, ApplyReserve, ApplyRelease, ActiveSum, RowMoved, LayoutOf, Amount, FindResource;
    if e.resource != x {
      OthersRest(m, s, e, x, rs, k);
    } else if e.Reserve? {
      ReserveMoves(m, s, x, e.claim, rs, k);
    } else {
      ReleaseMoves(m, s, x, e.claim, rs, k);
    }
  }

  // ---------------------------------------------------------------------------
  // Every sequence of effects
  // ---------------------------------------------------------------------------

  /** The effect has nothing to do with the records `rs` keeps its books in. */
  ghost predicate Elsewhere(m: Module, e: Applied, rs: ResourceDef) {
    rs.record !in AppliedRecords(m, e) && rs.reservationRecord !in AppliedRecords(m, e)
  }

  /** The books are touched by Reserve and Release only. */
  ghost predicate Guarded(m: Module, es: seq<Applied>, rs: ResourceDef) {
    forall i :: 0 <= i < |es| ==> IsEscrow(es[i]) || Elsewhere(m, es[i], rs)
  }

  lemma ElsewhereRests(m: Module, s: State, e: Applied, rs: ResourceDef, k: Value)
    requires Elsewhere(m, e, rs) && ApplyLiteral(m, s, e).Ok?
    ensures var s' := ApplyLiteral(m, s, e).value;
            RowMoved(s, s', rs, k, 0) && TableOf(s', rs.reservationRecord) == TableOf(s, rs.reservationRecord)
  {
    hide ApplyLiteral, AppliedRecords, RowMoved, TableOf;
    ApplyFrame(m, s, e);
    RowsSame(s, ApplyLiteral(m, s, e).value, rs, k);
  }

  /** The held amount of `k` is the sum of its active reservations. */
  ghost predicate Balanced(m: Module, s: State, rs: ResourceDef, k: Value)
    requires LayoutOf(m, rs.reservationRecord).Ok?
  {
    HasRow(s, rs, k) ==>
      Held(s, rs, k) == ActiveSum(LayoutOf(m, rs.reservationRecord).value, TableOf(s, rs.reservationRecord), k)
  }

  /**
    Over every successful sequence of effects, of which only Reserve and Release, on any of the
    module's resources, touch this resource's records: rows neither appear nor vanish, each row's
    available and reserved amounts keep their sum, and a row whose reserved amount is the sum of its
    active reservations stays so.
   */
  lemma {:induction false} EscrowAccounting(m: Module, s: State, es: seq<Applied>, x: ResourceId, rs: ResourceDef,
                                            k: Value)
    requires Books(m) && IsResource(m, x, rs) && Guarded(m, es, rs) && ApplyAll(m, s, es).Ok?
    ensures var s' := ApplyAll(m, s, es).value;
            && (HasRow(s, rs, k) <==> HasRow(s', rs, k))
            && (HasRow(s, rs, k) ==> Total(s', rs, k) == Total(s, rs, k))
            && LayoutOf(m, rs.reservationRecord).Ok?
            && (Balanced(m, s, rs, k) ==> Balanced(m, s', rs, k))
    decreases |es|
  {
    hide ApplyLiteral, ActiveSum, LayoutOf, HasRow, Total, Held, FindResource, Separate, Amount;
    assert Shaped(m, rs);
    if es != [] {
      if IsEscrow(es[0]) {
        EffectMoves(m, s, es[0], x, rs, k);
      } else {
        ElsewhereRests(m, s, es[0], rs, k);
      }
      EscrowAccounting(m, ApplyLiteral(m, s, es[0]).value, es[1..], x, rs, k);
    }
  }

  datatype Status = Absent | Active | Closed

  ghost function StatusOf(s: State, l: Layout, id: Value): Status {
    match Lookup(TableOf(s, l.record), id)
    case None => Absent
    case Some(row) => if IsActive(l, row) then Active else Closed
  }

  /** A reservation goes from absent to active to closed, one Reserve and one Release, and nothing else moves it. */
  lemma StatusMoves(m: Module, s: State, e: Applied, x: ResourceId, rs: ResourceDef, id: Value)
    requires Books(m) && IsResource(m, x, rs) && IsEscrow(e) && ApplyLiteral(m, s, e).Ok?
    ensures var s' := ApplyLiteral(m, s, e).value;
            var l := LayoutOf(m, rs.reservationRecord).value;
            if e.resource == x && e.claim.id == id
            then if e.Reserve? then StatusOf(s, l, id) == Absent && StatusOf(s', l, id) == Active
                 else StatusOf(s, l, id) == Active && StatusOf(s', l, id) == Closed
            else StatusOf(s', l, id) == StatusOf(s, l, id)
  {
    hide Shift, ValueAt, StoreReservation, CloseReservation, LayoutOf, ReservationRow, FindRecord, FindResource,
         InsertRow, Replace,
         Lookup, Amount, Positive, Holding;
    assert Shaped(m, rs) && rs.reservationRecord != rs.record;
    LayoutFields(m, rs);
    var r, q := rs.reservationRecord, e.claim;
    var l := LayoutOf(m, r).value;
    if e.resource != x {
      OthersRest(m, s, e, x, rs, id);
    } else if e.Reserve? {
      var s1 := Shift(s, rs.record, q.key, rs.available, rs.reserved, q.amount).value;
      ShiftTables(s, rs.record, q.key, rs.available, rs.reserved, q.amount, r);
      StoredTable(m, s1, r, q);
      var def := FindRecord(m.records, r).value;
      LookupInsert(TableOf(s1, r), q.id, ReservationRow(m, def, def.fields, q).value, id);
      StoredHolding(m, rs, q, q.key);
    } else {
      ClosedTable(s, l, q);
      var s1 := CloseReservation(s, l, q).value;
      var row := Lookup(TableOf(s, r), q.id).value;
      LookupReplace(TableOf(s, r), q.id, row[l.state := Enum(l.e, l.released)], id);
      ShiftTables(s1, rs.record, q.key, rs.reserved, rs.available, q.amount, r);
    }
  }

  lemma StatusRests(m: Module, s: State, e: Applied, rs: ResourceDef, id: Value)
    requires LayoutOf(m, rs.reservationRecord).Ok?
    requires LayoutOf(m, rs.reservationRecord).value.record == rs.reservationRecord
    requires ApplyLiteral(m, s, e).Ok?
    requires TableOf(ApplyLiteral(m, s, e).value, rs.reservationRecord) == TableOf(s, rs.reservationRecord)
    ensures var l := LayoutOf(m, rs.reservationRecord).value;
            StatusOf(ApplyLiteral(m, s, e).value, l, id) == StatusOf(s, l, id)
  {
  }

  /** How often a reservation is credited back in a sequence of effects. */
  ghost function Releases(es: seq<Applied>, x: ResourceId, id: Value): nat {
    if es == [] then 0
    else (if es[0].Release? && es[0].resource == x && es[0].claim.id == id then 1 else 0) + Releases(es[1..], x, id)
  }

  /** No reservation is credited back twice, and one that is closed is never credited back again. */
  lemma {:induction false} ReleasedOnce(m: Module, s: State, es: seq<Applied>, x: ResourceId, rs: ResourceDef,
                                        id: Value)
    requires Books(m) && IsResource(m, x, rs) && Guarded(m, es, rs) && ApplyAll(m, s, es).Ok?
    ensures var l := LayoutOf(m, rs.reservationRecord).value;
            Releases(es, x, id) <= if StatusOf(s, l, id) == Closed then 0 else 1
    decreases |es|
  {
    hide ApplyLiteral, LayoutOf, StatusOf, FindResource, Separate;
    assert Shaped(m, rs);
    if es != [] {
      if IsEscrow(es[0]) {
        StatusMoves(m, s, es[0], x, rs, id);
      } else {
        ElsewhereRests(m, s, es[0], rs, id);
        LayoutFields(m, rs);
        StatusRests(m, s, es[0], rs, id);
      }
      ReleasedOnce(m, ApplyLiteral(m, s, es[0]).value, es[1..], x, rs, id);
    }
  }

  // ---------------------------------------------------------------------------
  // When the effects succeed
  // ---------------------------------------------------------------------------

  /** A shift succeeds exactly when the amount fits out of the one place and into the other. */
  lemma ShiftsExactly(s: State, r: RecordId, k: Value, from: FieldId, to: FieldId, amount: Value)
    requires from != to
    ensures var a, b := Place(r, k, from), Place(r, k, to);
            Shift(s, r, k, from, to, amount).Ok?
            <==> Moved(ValueAt(s, a), amount, -Amount(amount)).Ok? && Moved(ValueAt(s, b), amount, Amount(amount)).Ok?
  {
    hide Adjust, ValueAt, Writes;
    var a, b := Place(r, k, from), Place(r, k, to);
    AdjustMeans(s, a, Sub, amount);
    var s1 := Adjust(s, r, k, from, Sub, amount);
    if s1.Ok? {
      ReadOther(s, s1.value, a, Moved(ValueAt(s, a), amount, -Amount(amount)).value, b);
      AdjustMeans(s1.value, b, Add, amount);
    }
  }

  /**
    A reservation is granted exactly when its amount is positive, the row has that much available and
    room to hold it, the reservation row can be filled in, and its identity is new.
   */
  lemma ReservesExactly(m: Module, s: State, x: ResourceId, q: Claim, rs: ResourceDef)
    requires Books(m) && IsResource(m, x, rs)
    ensures var def, l := FindRecord(m.records, rs.reservationRecord).value, LayoutOf(m, rs.reservationRecord).value;
            ApplyLiteral(m, s, Reserve(x, q)).Ok?
            <==> && IsPositive(q.amount)
                 && Moved(ValueAt(s, Available(rs, q.key)), q.amount, -Amount(q.amount)).Ok?
                 && Moved(ValueAt(s, Reserved(rs, q.key)), q.amount, Amount(q.amount)).Ok?
                 && ReservationRow(m, def, def.fields, q).Ok?
                 && StatusOf(s, l, q.id) == Absent
  {
    hide Shift, ValueAt, LayoutOf, ReservationRow, FindRecord, FindResource, InsertRow, Lookup, Moved, Separate;
    assert Shaped(m, rs) && rs.reservationRecord != rs.record && rs.available != rs.reserved by {
      SeparateSelf(m, x, rs);
    }
    LayoutFields(m, rs);
    ShiftsExactly(s, rs.record, q.key, rs.available, rs.reserved, q.amount);
    if Shift(s, rs.record, q.key, rs.available, rs.reserved, q.amount).Ok? {
      ShiftTables(s, rs.record, q.key, rs.available, rs.reserved, q.amount, rs.reservationRecord);
    }
  }

  lemma SeparateSelf(m: Module, x: ResourceId, rs: ResourceDef)
    requires Books(m) && IsResource(m, x, rs)
    ensures Shaped(m, rs) && rs.reservationRecord != rs.record && rs.available != rs.reserved
  {
    hide Shaped;
  }

  /**
    A release is granted exactly when it names an active reservation by identity, row and whole amount,
    and the amount fits back.
   */
  lemma ReleasesExactly(m: Module, s: State, x: ResourceId, q: Claim, rs: ResourceDef)
    requires Books(m) && IsResource(m, x, rs)
    ensures var l := LayoutOf(m, rs.reservationRecord).value;
            var row := Lookup(TableOf(s, rs.reservationRecord), q.id);
            ApplyLiteral(m, s, Release(x, q)).Ok?
            <==> && IsPositive(q.amount)
                 && row.Some? && IsActive(l, row.value)
                 && l.resource in row.value && row.value[l.resource] == q.key
                 && l.amount in row.value && row.value[l.amount] == q.amount
                 && Moved(ValueAt(s, Reserved(rs, q.key)), q.amount, -Amount(q.amount)).Ok?
                 && Moved(ValueAt(s, Available(rs, q.key)), q.amount, Amount(q.amount)).Ok?
  {
    hide Shift, ValueAt, LayoutOf, FindRecord, FindResource, Replace, Lookup, Moved, Separate;
    SeparateSelf(m, x, rs);
    LayoutFields(m, rs);
    var l := LayoutOf(m, rs.reservationRecord).value;
    if CloseReservation(s, l, q).Ok? {
      ClosedTable(s, l, q);
      var s1 := CloseReservation(s, l, q).value;
      ReadTable(s, s1, Available(rs, q.key));
      ReadTable(s, s1, Reserved(rs, q.key));
      ShiftsExactly(s1, rs.record, q.key, rs.reserved, rs.available, q.amount);
    }
  }
}
