/** The sequential reference interpreter, as functions of values. */
module LangEval {
  import opened Basics
  import opened LangTypes

  // ---------------------------------------------------------------------------
  // State
  // ---------------------------------------------------------------------------

  type Fields = map<FieldId, Value>

  /** Rows of one record in key order. */
  type Table = seq<(Value, Fields)>

  datatype State = State(rows: map<RecordId, Table>)

  function TableOf(s: State, r: RecordId): Table {
    if r in s.rows then s.rows[r] else []
  }

  function Lookup(t: Table, k: Value): Option<Fields> {
    if t == [] then None else if t[0].0 == k then Some(t[0].1) else Lookup(t[1..], k)
  }

  function Get(s: State, r: RecordId, k: Value): Option<Fields> {
    Lookup(TableOf(s, r), k)
  }

  /** Replaces the row of `k`, which the table holds. */
  function Replace(t: Table, k: Value, row: Fields): Table {
    if t == [] then [] else if t[0].0 == k then [(k, row)] + t[1..] else [t[0]] + Replace(t[1..], k, row)
  }

  function InsertRow(t: Table, k: Value, row: Fields): Table {
    if t == [] || Compare(k, t[0].0) < 0 then [(k, row)] + t else [t[0]] + InsertRow(t[1..], k, row)
  }

  function RemoveRow(t: Table, k: Value): Table {
    if t == [] then [] else if t[0].0 == k then t[1..] else [t[0]] + RemoveRow(t[1..], k)
  }

  function PutTable(s: State, r: RecordId, t: Table): State {
    State(s.rows[r := t])
  }

  // ---------------------------------------------------------------------------
  // Scalars
  // ---------------------------------------------------------------------------

  const I64_MIN: int := -0x8000_0000_0000_0000
  const I64_MAX: int := 0x7fff_ffff_ffff_ffff
  const U64_MAX: int := 0xffff_ffff_ffff_ffff

  function Exact(op: ArithOp, x: int, y: int): int {
    match op
    case Add => x + y
    case Sub => x - y
    case Mul => x * y
  }

  function CheckedArith(op: ArithOp, a: Value, b: Value): Result<Value> {
    match (a, b)
    case (I64(x), I64(y)) =>
      var z := Exact(op, x, y);
      if I64_MIN <= z <= I64_MAX then Ok(I64(z)) else Err(NumericOverflow)
    case (U64(x), U64(y)) =>
      var z := Exact(op, x, y);
      if 0 <= z <= U64_MAX then Ok(U64(z)) else Err(NumericOverflow)
    case _ => Err(TypeMismatch)
  }

  function Holds(c: CmpOp, a: Value, b: Value): Result<bool> {
    if Kind(a) != Kind(b) then Err(TypeMismatch)
    else
      var o := Compare(a, b);
      Ok(match c
         case CEq => o == 0
         case CNe => o != 0
         case CLt => o < 0
         case CLe => o <= 0
         case CGt => o > 0
         case CGe => o >= 0)
  }

  function ZeroOf(ty: Type): Result<Value> {
    match ty
    case TI64 => Ok(I64(0))
    case TU64 => Ok(U64(0))
    case _ => Err(TypeMismatch)
  }

  function AsBool(v: Value): Result<bool> {
    match v
    case Bool(b) => Ok(b)
    case _ => Err(TypeMismatch)
  }

  // ---------------------------------------------------------------------------
  // Expressions
  // ---------------------------------------------------------------------------

  type Bindings = map<BindingId, Value>

  /** What an expression is evaluated against. */
  datatype Ctx = Ctx(m: Module, args: seq<Value>, group: Option<Value>, pre: State, cand: State)

  /** Evaluation hands the bindings on, because a sum leaves its variable unbound. */
  datatype Got<+T> = Got(value: T, b: Bindings)

  function RowFields(fs: seq<FieldDef>, row: Fields): seq<Member> {
    if fs == [] then []
    else
      var last := fs[|fs| - 1];
      var rest := RowFields(fs[..|fs| - 1], row);
      if last.id in row then PutMember(rest, last.name, row[last.id]) else rest
  }

  function RowValue(m: Module, r: RecordId, row: Fields): Result<Value> {
    match FindRecord(m.records, r)
    case Err(_) => Err(Panic)
    case Ok(def) => Ok(Row(r, RowFields(def.fields, row)))
  }

  function StateOf(c: Ctx, s: StateRef): State {
    if s == PreState then c.pre else c.cand
  }

  function Wrap(r: Result<Value>, b: Bindings): Result<Got<Value>> {
    match r
    case Err(e) => Err(e)
    case Ok(v) => Ok(Got(v, b))
  }

  function Leaf(c: Ctx, e: Expr, b: Bindings): Result<Value> {
    match e
    case Lit(v) => Ok(v)
    case Param(i) => if i < |c.args| then Ok(c.args[i]) else Err(InvalidIr)
    case Binding(x) => if x in b then Ok(b[x]) else Err(InvalidIr)
    case GroupKey => if c.group.Some? then Ok(c.group.value) else Err(InvalidIr)
    case _ => Err(InvalidIr)
  }

  function MemberOf(ms: seq<Member>, name: Name): Result<Value> {
    match GetMember(ms, name)
    case Some(x) => Ok(x)
    case None => Err(InvalidIr)
  }

  function ApplyUnary(c: Ctx, u: UnaryOp, v: Value): Result<Value> {
    match u
    case Field(name) => if v.Row? then MemberOf(v.fields, name) else Err(TypeMismatch)
    case StructField(name) => if v.Struct? then MemberOf(v.members, name) else Err(TypeMismatch)
    case RowLookup(r, s) =>
      (match Get(StateOf(c, s), r, v)
       case None => Err(MissingRecord)
       case Some(row) => RowValue(c.m, r, row))
    case Exists(r, s) => Ok(Bool(Get(StateOf(c, s), r, v).Some?))
    case MakeSome => Ok(SomeOf(v))
    case Neg =>
      if !v.I64? then Err(TypeMismatch)
      else if I64_MIN <= -v.i <= I64_MAX then Ok(I64(-v.i)) else Err(NumericOverflow)
    case Not => if v.Bool? then Ok(Bool(!v.b)) else Err(TypeMismatch)
    case IsNone => Ok(Bool(v.NoneOf?))
    case IsSome => Ok(Bool(v.SomeOf?))
    case Size => if v.SetOf? then Ok(U64(|v.items|)) else Err(TypeMismatch)
  }

  /** The result when the left operand alone decides it. */
  function Decided(op: BinOp, l: Value): Option<Result<Value>> {
    if op.And? || op.Or? then
      if !l.Bool? then Some(Err(TypeMismatch))
      else if l.b == op.Or? then Some(Ok(l))
      else None
    else None
  }

  function ApplyBin(op: BinOp, l: Value, r: Value): Result<Value> {
    match op
    case Arith(a) => CheckedArith(a, l, r)
    case Cmp(o) => (match Holds(o, l, r) case Err(e) => Err(e) case Ok(t) => Ok(Bool(t)))
    case In => if r.SetOf? then Ok(Bool(l in r.items)) else Err(TypeMismatch)
    case _ => if r.Bool? then Ok(r) else Err(TypeMismatch)
  }

  function Eval(c: Ctx, e: Expr, b: Bindings): Result<Got<Value>>
    decreases e, 0
  {
    match e
    case Unary(u, x) =>
      (match Eval(c, x, b)
       case Err(er) => Err(er)
       case Ok(v) => Wrap(ApplyUnary(c, u, v.value), v.b))
    case Bin(op, lhs, rhs) =>
      (match Eval(c, lhs, b)
       case Err(er) => Err(er)
       case Ok(l) =>
         match Decided(op, l.value)
         case Some(d) => Wrap(d, l.b)
         case None =>
           match Eval(c, rhs, l.b)
           case Err(er) => Err(er)
           case Ok(r) => Wrap(ApplyBin(op, l.value, r.value), r.b))
    case UnwrapOr(x, fallback) =>
      (match Eval(c, x, b)
       case Err(er) => Err(er)
       case Ok(v) =>
         if v.value.SomeOf? then Ok(Got(v.value.inner, v.b))
         else if v.value.NoneOf? then Eval(c, fallback, v.b)
         else Err(TypeMismatch))
    case MakeTuple(parts) =>
      (match EvalAll(c, parts, b)
       case Err(er) => Err(er)
       case Ok(vs) => Ok(Got(Tuple(vs.value), vs.b)))
    case MakeSet(parts) =>
      (match EvalAll(c, parts, b)
       case Err(er) => Err(er)
       case Ok(vs) => Ok(Got(SetOf(SetFrom(vs.value)), vs.b)))
    case MakeStruct(members) =>
      (match EvalMembers(c, members, b, [])
       case Err(er) => Err(er)
       case Ok(ms) => Ok(Got(Struct(ms.value), ms.b)))
    case SumOver(x, over, ty, each) =>
      (match Eval(c, over, b)
       case Err(er) => Err(er)
       case Ok(s) =>
         if !s.value.SetOf? then Err(TypeMismatch)
         else match ZeroOf(ty)
           case Err(er) => Err(er)
           case Ok(zero) =>
             match SumItems(c, x, s.value.items, each, s.b, zero)
             case Err(er) => Err(er)
             case Ok(t) => Ok(Got(t.value, t.b - {x})))
    case _ => Wrap(Leaf(c, e, b), b)
  }

  function EvalAll(c: Ctx, es: seq<Expr>, b: Bindings): Result<Got<seq<Value>>>
    decreases es, 0
  {
    if es == [] then Ok(Got([], b))
    else match Eval(c, es[0], b)
      case Err(er) => Err(er)
      case Ok(v) =>
        match EvalAll(c, es[1..], v.b)
        case Err(er) => Err(er)
        case Ok(vs) => Ok(Got([v.value] + vs.value, vs.b))
  }

  function EvalMembers(c: Ctx, ms: seq<ExprMember>, b: Bindings, acc: seq<Member>): Result<Got<seq<Member>>>
    decreases ms, 0
  {
    if ms == [] then Ok(Got(acc, b))
    else
      var x := ms[0];
      match Eval(c, x.e, b)
      case Err(er) => Err(er)
      case Ok(v) => EvalMembers(c, ms[1..], v.b, PutMember(acc, x.name, v.value))
  }

  function SetFrom(vs: seq<Value>): seq<Value> {
    if vs == [] then [] else AddItem(SetFrom(vs[..|vs| - 1]), vs[|vs| - 1])
  }

  function SumItems(c: Ctx, x: BindingId, items: seq<Value>, each: Expr, b: Bindings, acc: Value): Result<Got<Value>>
    decreases each, 1, |items|
  {
    if items == [] then Ok(Got(acc, b))
    else match Eval(c, each, b[x := items[0]])
      case Err(er) => Err(er)
      case Ok(v) =>
        match CheckedArith(Add, acc, v.value)
        case Err(er) => Err(er)
        case Ok(sum) => SumItems(c, x, items[1..], each, v.b, sum)
  }

  // ---------------------------------------------------------------------------
  // Literal effects
  // ---------------------------------------------------------------------------

  /** A reservation: the row it is taken from, its own identity, and how much it holds. */
  datatype Claim = Claim(key: Value, id: Value, amount: Value)

  datatype Applied =
    | Assign(record: RecordId, key: Value, field: FieldId, value: Value)
    | Increment(record: RecordId, key: Value, field: FieldId, amount: Value)
    | Decrement(record: RecordId, key: Value, field: FieldId, amount: Value)
    | Insert(record: RecordId, key: Value, fields: Fields, isFact: bool)
    | Delete(record: RecordId, key: Value)
    | AddToSet(record: RecordId, key: Value, field: FieldId, value: Value)
    | RemoveFromSet(record: RecordId, key: Value, field: FieldId, value: Value)
    | CompareAndSwap(record: RecordId, key: Value, field: FieldId, expected: Value, value: Value)
    | Reserve(resource: ResourceId, claim: Claim)
    | Release(resource: ResourceId, claim: Claim)
    | Transfer(record: RecordId, key: Value, field: FieldId, toRecord: RecordId, toKey: Value, toField: FieldId,
               amount: Value)
    | Advance(record: RecordId, key: Value, field: FieldId, from: nat, next: nat)

  const RESOURCE: Name := [114, 101, 115, 111, 117, 114, 99, 101]
  const AMOUNT: Name := [97, 109, 111, 117, 110, 116]
  const STATE: Name := [115, 116, 97, 116, 101]
  const ACTIVE: Name := [65, 99, 116, 105, 118, 101]
  const RELEASED: Name := [82, 101, 108, 101, 97, 115, 101, 100]

  predicate Positive(v: Value) {
    (v.I64? && v.i > 0) || (v.U64? && v.n > 0)
  }

  function GetSlot(s: State, r: RecordId, k: Value, f: FieldId): Result<Value> {
    match Get(s, r, k)
    case None => Err(MissingRecord)
    case Some(row) => if f in row then Ok(row[f]) else Err(InvalidIr)
  }

  /** Writes an existing slot. */
  function SetSlot(s: State, r: RecordId, k: Value, f: FieldId, v: Value): State {
    match Get(s, r, k)
    case None => s
    case Some(row) => PutTable(s, r, Replace(TableOf(s, r), k, row[f := v]))
  }

  function Adjust(s: State, r: RecordId, k: Value, f: FieldId, op: ArithOp, amount: Value): Result<State> {
    match GetSlot(s, r, k, f)
    case Err(e) => Err(e)
    case Ok(slot) =>
      match CheckedArith(op, slot, amount)
      case Err(e) => Err(e)
      case Ok(v) => Ok(SetSlot(s, r, k, f, v))
  }

  function FieldType(m: Module, r: RecordId, f: FieldId): Result<Type> {
    var def :- FindRecord(m.records, r);
    match FindField(def.fields, f)
    case None => Err(InvalidIr)
    case Some(fd) => Ok(fd.ty)
  }

  /** The row an insertion stores: every declared field, present and of its type. */
  function BuildRow(fs: seq<FieldDef>, given: Fields): Result<Fields> {
    if fs == [] then Ok(map[])
    else
      var last := fs[|fs| - 1];
      var rest :- BuildRow(fs[..|fs| - 1], given);
      if last.id !in given then Err(InvalidIr)
      else if !Fits(given[last.id], last.ty) then Err(TypeMismatch)
      else Ok(rest[last.id := given[last.id]])
  }

  function InsertNew(m: Module, s: State, r: RecordId, k: Value, given: Fields, isFact: bool): Result<State> {
    var def :- FindRecord(m.records, r);
    var row :- BuildRow(def.fields, given);
    if def.primaryKey !in row then Err(Panic)
    else if row[def.primaryKey] != k then Err(IdentityMismatch)
    else match Get(s, r, k)
      case Some(existing) => if isFact && existing == row then Ok(s) else Err(DuplicateIdentity)
      case None => Ok(PutTable(s, r, InsertRow(TableOf(s, r), k, row)))
  }

  function VariantOf(m: Module, e: EnumId, name: Name): Result<nat> {
    var def :- FindEnum(m.enums, e);
    match Position(def.variants, name)
    case None => Err(Panic)
    case Some(i) => Ok(i)
  }

  function ReservationField(m: Module, def: RecordDef, f: FieldDef, q: Claim): Result<Value> {
    if f.name == RESOURCE then Ok(q.key)
    else if f.name == AMOUNT then Ok(q.amount)
    else if f.name == STATE then
      if f.ty.TEnum? then var a :- VariantOf(m, f.ty.e, ACTIVE); Ok(Enum(f.ty.e, a)) else Err(Panic)
    else if f.id == def.primaryKey then Ok(q.id)
    else Err(InvalidIr)
  }

  function ReservationRow(m: Module, def: RecordDef, fs: seq<FieldDef>, q: Claim): Result<Fields> {
    if fs == [] then Ok(map[])
    else
      var last := fs[|fs| - 1];
      var rest :- ReservationRow(m, def, fs[..|fs| - 1], q);
      var v :- ReservationField(m, def, last, q);
      Ok(rest[last.id := v])
  }

  /** Moves an amount from one field of a row to another. */
  function Shift(s: State, r: RecordId, k: Value, from: FieldId, to: FieldId, amount: Value): Result<State> {
    match Adjust(s, r, k, from, Sub, amount)
    case Err(e) => Err(e)
    case Ok(s1) => Adjust(s1, r, k, to, Add, amount)
  }

  function InsertFresh(s: State, r: RecordId, k: Value, row: Fields): Result<State> {
    if Get(s, r, k).Some? then Err(DuplicateIdentity) else Ok(PutTable(s, r, InsertRow(TableOf(s, r), k, row)))
  }

  function StoreReservation(m: Module, s: State, r: RecordId, q: Claim): Result<State> {
    match FindRecord(m.records, r)
    case Err(e) => Err(e)
    case Ok(def) =>
      match ReservationRow(m, def, def.fields, q)
      case Err(e) => Err(e)
      case Ok(row) => InsertFresh(s, r, q.id, row)
  }

  function ApplyReserve(m: Module, s: State, resource: ResourceId, q: Claim): Result<State> {
    if !Positive(q.amount) then Err(ArithmeticError)
    else match FindResource(m.resources, resource)
      case Err(e) => Err(e)
      case Ok(rs) =>
        match Shift(s, rs.record, q.key, rs.available, rs.reserved, q.amount)
        case Err(e) => Err(e)
        case Ok(s1) => StoreReservation(m, s1, rs.reservationRecord, q)
  }

  /** Where the reservation record keeps its state, resource and amount, and its two variants. */
  datatype Layout = Layout(record: RecordId, state: FieldId, resource: FieldId, amount: FieldId, e: EnumId,
                           active: nat, released: nat)

  function LayoutOf(m: Module, reservationRecord: RecordId): Result<Layout> {
    var def :- FindRecord(m.records, reservationRecord);
    match (FindFieldNamed(def.fields, STATE), FindFieldNamed(def.fields, RESOURCE), FindFieldNamed(def.fields, AMOUNT))
    case (Some(st), Some(re), Some(am)) =>
      var ty :- FieldType(m, def.id, st.id);
      if !ty.TEnum? then Err(Panic)
      else
        var a :- VariantOf(m, ty.e, ACTIVE);
        var r :- VariantOf(m, ty.e, RELEASED);
        Ok(Layout(def.id, st.id, re.id, am.id, ty.e, a, r))
    case _ => Err(Panic)
  }

  /** Why a reservation cannot be released, if it cannot. */
  function Refusal(l: Layout, row: Fields, q: Claim): Option<ErrorCode> {
    if l.resource !in row || l.amount !in row || l.state !in row then Some(Panic)
    else if row[l.resource] != q.key then Some(IdentityMismatch)
    else if row[l.amount] != q.amount then Some(UnsupportedEffect)
    else if !(row[l.state].Enum? && row[l.state].variant == l.active) then Some(Conflict)
    else None
  }

  /** Marks a reservation released, if it is the one claimed and still active. */
  function CloseReservation(s: State, l: Layout, q: Claim): Result<State> {
    match Get(s, l.record, q.id)
    case None => Err(MissingRecord)
    case Some(row) =>
      match Refusal(l, row, q)
      case Some(e) => Err(e)
      case None => Ok(SetSlot(s, l.record, q.id, l.state, Enum(l.e, l.released)))
  }

  function ApplyRelease(m: Module, s: State, resource: ResourceId, q: Claim): Result<State> {
    if !Positive(q.amount) then Err(ArithmeticError)
    else match FindResource(m.resources, resource)
      case Err(e) => Err(e)
      case Ok(rs) =>
        match LayoutOf(m, rs.reservationRecord)
        case Err(e) => Err(e)
        case Ok(l) =>
          match CloseReservation(s, l, q)
          case Err(e) => Err(e)
          case Ok(s1) => Shift(s1, rs.record, q.key, rs.reserved, rs.available, q.amount)
  }

  function ApplyLiteral(m: Module, s: State, a: Applied): Result<State> {
    match a
    case Assign(r, k, f, v) =>
      var ty :- FieldType(m, r, f);
      if !Fits(v, ty) then Err(TypeMismatch)
      else
        var slot :- GetSlot(s, r, k, f);
        Ok(SetSlot(s, r, k, f, v))
    case Increment(r, k, f, amount) =>
      if !Positive(amount) then Err(ArithmeticError) else Adjust(s, r, k, f, Add, amount)
    case Decrement(r, k, f, amount) =>
      if !Positive(amount) then Err(ArithmeticError) else Adjust(s, r, k, f, Sub, amount)
    case Insert(r, k, given, isFact) => InsertNew(m, s, r, k, given, isFact)
    case Delete(r, k) =>
      if Get(s, r, k).None? then Err(MissingRecord) else Ok(PutTable(s, r, RemoveRow(TableOf(s, r), k)))
    case AddToSet(r, k, f, v) =>
      var slot :- GetSlot(s, r, k, f);
      if slot.SetOf? then Ok(SetSlot(s, r, k, f, SetOf(AddItem(slot.items, v)))) else Err(TypeMismatch)
    case RemoveFromSet(r, k, f, v) =>
      var slot :- GetSlot(s, r, k, f);
      if slot.SetOf? then Ok(SetSlot(s, r, k, f, SetOf(RemoveItem(slot.items, v)))) else Err(TypeMismatch)
    case CompareAndSwap(r, k, f, expected, v) =>
      var slot :- GetSlot(s, r, k, f);
      if slot != expected then Err(Conflict) else Ok(SetSlot(s, r, k, f, v))
    case Reserve(resource, q) => ApplyReserve(m, s, resource, q)
    case Release(resource, q) => ApplyRelease(m, s, resource, q)
    case Transfer(r, k, f, r', k', f', amount) =>
      if !Positive(amount) then Err(ArithmeticError)
      else if (r, k, f) == (r', k', f') then Err(UnsupportedEffect)
      else
        var s1 :- Adjust(s, r, k, f, Sub, amount);
        Adjust(s1, r', k', f', Add, amount)
    case Advance(r, k, f, from, next) =>
      var slot :- GetSlot(s, r, k, f);
      if slot.Enum? && slot.variant == from then Ok(SetSlot(s, r, k, f, Enum(slot.enumId, next))) else Err(Conflict)
  }

  /** Applies a list of literal effects in order; all or nothing. */
  function ApplyAll(m: Module, s: State, es: seq<Applied>): Result<State>
    decreases |es|
  {
    if es == [] then Ok(s)
    else
      var s1 :- ApplyLiteral(m, s, es[0]);
      ApplyAll(m, s1, es[1..])
  }

  // ---------------------------------------------------------------------------
  // Invariants
  // ---------------------------------------------------------------------------

  datatype Violation = Violation(id: InvariantId, instance: Option<Value>)

  /** Violations recorded so far, and the error that stopped the check, if any. */
  datatype Checked = Checked(found: seq<Violation>, error: Option<ErrorCode>)

  function Fail(c: ErrorCode): Checked { Checked([], Some(c)) }

  function Prepend(vs: seq<Violation>, c: Checked): Checked {
    Checked(vs + c.found, c.error)
  }

  function Passes(c: Ctx, filter: Option<Expr>, b: Bindings): Result<Got<bool>> {
    match filter
    case None => Ok(Got(true, b))
    case Some(f) =>
      var v :- Eval(c, f, b);
      var t :- AsBool(v.value);
      Ok(Got(t, v.b))
  }

  function CheckForAll(c: Ctx, id: InvariantId, p: Predicate, t: Table, b: Bindings): Checked
    requires p.ForAll?
  {
    if t == [] then Checked([], None)
    else match RowValue(c.m, p.record, t[0].1)
      case Err(e) => Fail(e)
      case Ok(row) =>
        match Passes(c, p.filter, b[p.x := row])
        case Err(e) => Fail(e)
        case Ok(f) =>
          if !f.value then CheckForAll(c, id, p, t[1..], f.b)
          else match Passes(c, Some(p.body), f.b)
            case Err(e) => Fail(e)
            case Ok(h) =>
              Prepend(if h.value then [] else [Violation(id, Some(t[0].0))], CheckForAll(c, id, p, t[1..], h.b))
  }

  function CheckUnique(c: Ctx, id: InvariantId, p: Predicate, t: Table, b: Bindings, seen: set<Value>): Checked
    requires p.Unique?
  {
    if t == [] then Checked([], None)
    else match RowValue(c.m, p.record, t[0].1)
      case Err(e) => Fail(e)
      case Ok(row) =>
        match Passes(c, p.filter, b[p.x := row])
        case Err(e) => Fail(e)
        case Ok(f) =>
          if !f.value then CheckUnique(c, id, p, t[1..], f.b, seen)
          else match Eval(c, p.key, f.b)
            case Err(e) => Fail(e)
            case Ok(u) =>
              Prepend(if u.value in seen then [Violation(id, Some(u.value))] else [],
                      CheckUnique(c, id, p, t[1..], u.b, seen + {u.value}))
  }

  function CheckReference(c: Ctx, id: InvariantId, p: Predicate, t: Table, b: Bindings): Checked
    requires p.ExistsReference?
  {
    if t == [] then Checked([], None)
    else match RowValue(c.m, p.child, t[0].1)
      case Err(e) => Fail(e)
      case Ok(row) =>
        match Eval(c, p.parentKey, b[p.x := row])
        case Err(e) => Fail(e)
        case Ok(k) =>
          Prepend(if Get(c.cand, p.parent, k.value).None? then [Violation(id, Some(t[0].0))] else [],
                  CheckReference(c, id, p, t[1..], k.b))
  }

  /** Totals per group, in group order. */
  type Groups = seq<(Option<Value>, Value)>

  function CompareGroup(a: Option<Value>, b: Option<Value>): int {
    match (a, b)
    case (None, None) => 0
    case (None, Some(_)) => -1
    case (Some(_), None) => 1
    case (Some(x), Some(y)) => Compare(x, y)
  }

  function AddToGroup(gs: Groups, g: Option<Value>, zero: Value, contrib: Value): Result<Groups> {
    if gs == [] || CompareGroup(g, gs[0].0) < 0 then
      var v :- CheckedArith(Add, zero, contrib);
      Ok([(g, v)] + gs)
    else if gs[0].0 == g then
      var v :- CheckedArith(Add, gs[0].1, contrib);
      Ok([(g, v)] + gs[1..])
    else
      var rest :- AddToGroup(gs[1..], g, zero, contrib);
      Ok([gs[0]] + rest)
  }

  function EvalOption(c: Ctx, e: Option<Expr>, b: Bindings): Result<Got<Option<Value>>> {
    match e
    case None => Ok(Got(None, b))
    case Some(x) =>
      var v :- Eval(c, x, b);
      Ok(Got(Some(v.value), v.b))
  }

  function Contribution(c: Ctx, p: Predicate, b: Bindings): Result<Got<Value>>
    requires p.Aggregate?
  {
    if p.op == Count then Ok(Got(U64(1), b)) else Eval(c, p.value, b)
  }

  function Totals(c: Ctx, p: Predicate, t: Table, b: Bindings, zero: Value, gs: Groups): Result<Got<Groups>>
    requires p.Aggregate?
  {
    if t == [] then Ok(Got(gs, b))
    else
      var row :- RowValue(c.m, p.record, t[0].1);
      var f :- Passes(c, p.filter, b[p.x := row]);
      if !f.value then Totals(c, p, t[1..], f.b, zero, gs)
      else
        var g :- EvalOption(c, p.groupBy, f.b);
        var v :- Contribution(c, p, g.b);
        var gs' :- AddToGroup(gs, g.value, zero, v.value);
        Totals(c, p, t[1..], v.b, zero, gs')
  }

  function CheckGroups(c: Ctx, id: InvariantId, p: Predicate, gs: Groups, b: Bindings): Checked
    requires p.Aggregate?
    decreases |gs|
  {
    if gs == [] then Checked([], None)
    else match Eval(c.(group := gs[0].0), p.bound, b)
      case Err(e) => Fail(e)
      case Ok(bound) =>
        match Holds(p.cmp, gs[0].1, bound.value)
        case Err(e) => Fail(e)
        case Ok(h) =>
          Prepend(if h then [] else [Violation(id, gs[0].0)], CheckGroups(c, id, p, gs[1..], bound.b))
  }

  function CheckAggregate(c: Ctx, id: InvariantId, p: Predicate, t: Table): Checked
    requires p.Aggregate?
  {
    match if p.op == Count then Ok(U64(0)) else ZeroOf(p.ty)
    case Err(e) => Fail(e)
    case Ok(zero) =>
      match Totals(c, p, t, map[], zero, [])
      case Err(e) => Fail(e)
      case Ok(r) =>
        var gs := if p.groupBy.None? && r.value == [] then [(None, zero)] else r.value;
        CheckGroups(c, id, p, gs, r.b)
  }

  function CheckTransition(pre: State, id: InvariantId, p: Predicate, t: Table): Checked
    requires p.Transition?
  {
    if t == [] then Checked([], None)
    else match Get(pre, p.record, t[0].0)
      case None => CheckTransition(pre, id, p, t[1..])
      case Some(old_) =>
        if p.field !in old_ || p.field !in t[0].1 then Fail(Panic)
        else
          var o, n := old_[p.field], t[0].1[p.field];
          var bad := o != n && o.Enum? && n.Enum? && (o.variant, n.variant) !in p.edges;
          Prepend(if bad then [Violation(id, Some(t[0].0))] else [], CheckTransition(pre, id, p, t[1..]))
  }

  function CheckLaw(m: Module, inv: Invariant, pre: State, post: State): Checked {
    var c := Ctx(m, [], None, post, post);
    match inv.law
    case ForAll(r, _, _, _) => CheckForAll(c, inv.id, inv.law, TableOf(post, r), map[])
    case Unique(r, _, _, _) => CheckUnique(c, inv.id, inv.law, TableOf(post, r), map[], {})
    case ExistsReference(r, _, _, _) => CheckReference(c, inv.id, inv.law, TableOf(post, r), map[])
    case Aggregate(_, r, _, _, _, _, _, _, _) => CheckAggregate(c, inv.id, inv.law, TableOf(post, r))
    case Transition(r, _, _) => CheckTransition(pre, inv.id, inv.law, TableOf(post, r))
    case RequiresFact(_, _, _) => Checked([], None)
  }

  /** An expression that becomes undefined in the candidate state counts as a violation. */
  function CheckInvariant(m: Module, inv: Invariant, pre: State, post: State): Checked {
    var c := CheckLaw(m, inv, pre, post);
    if c.error == Some(NumericOverflow) || c.error == Some(MissingRecord)
    then Checked(c.found + [Violation(inv.id, None)], None) else c
  }

  /** Checks, in order, the invariants whose id is in scope. */
  function CheckScoped(m: Module, invs: seq<Invariant>, pre: State, post: State,
                       scope: Option<set<InvariantId>>): Result<seq<Violation>>
  {
    if invs == [] then Ok([])
    else if scope.Some? && invs[0].id !in scope.value then CheckScoped(m, invs[1..], pre, post, scope)
    else
      var c := CheckInvariant(m, invs[0], pre, post);
      if c.error.Some? then Err(c.error.value)
      else
        var rest :- CheckScoped(m, invs[1..], pre, post, scope);
        Ok(c.found + rest)
  }

  function CheckInvariants(m: Module, pre: State, post: State): Result<seq<Violation>> {
    CheckScoped(m, m.invariants, pre, post, None)
  }

  // ---------------------------------------------------------------------------
  // Operations
  // ---------------------------------------------------------------------------

  datatype Stage = Definedness | Precondition | Reading | AtEffect(id: nat) | Postcondition
      | AtInvariant(inv: InvariantId) | Returning

  datatype Rejection = Rejection(code: ErrorCode, stage: Stage)

  datatype Candidate = Candidate(post: State, effects: seq<Applied>, result: Value, captured: Bindings,
                                 guards: seq<(nat, bool)>)

  datatype Outcome = Rejected(why: Rejection) | Accepted(cand: Candidate)

  /** Evaluation that has not been rejected yet, or the rejection. */
  datatype Or<+T> = Go(value: T) | Stop(why: Rejection) {
    predicate IsFailure() { Stop? }
    function PropagateFailure<U>(): Or<U>
      requires Stop?
    {
      Stop(why)
    }
    function Extract(): T
      requires Go?
    {
      value
    }
  }

  function At<T>(r: Result<T>, stage: Stage): Or<T> {
    match r
    case Ok(v) => Go(v)
    case Err(e) => Stop(Rejection(e, stage))
  }

  /** Evaluates a condition; anything but true rejects with `code`. */
  function Demand(c: Ctx, e: Expr, b: Bindings, code: ErrorCode, stage: Stage): Or<Bindings> {
    var v :- At(Eval(c, e, b), stage);
    if v.value == Bool(true) then Go(v.b) else Stop(Rejection(code, stage))
  }

  predicate ArgsFit(args: seq<Value>, params: seq<Type>) {
    |args| == |params| && forall i :: 0 <= i < |args| ==> Fits(args[i], params[i])
  }

  function ScanRows(c: Ctx, r: RecordId, x: BindingId, filter: Expr, t: Table, b: Bindings,
                    found: seq<Value>): Result<Got<seq<Value>>>
  {
    if t == [] then Ok(Got(found, b))
    else
      var row :- RowValue(c.m, r, t[0].1);
      var v :- Eval(c, filter, b[x := row]);
      ScanRows(c, r, x, filter, t[1..], v.b, if v.value == Bool(true) then AddItem(found, row) else found)
  }

  function ReadOne(c: Ctx, rd: ReadKind, b: Bindings): Result<Got<Value>> {
    match rd
    case ReadRow(r, key) =>
      var k :- Eval(c, key, b);
      (match Get(c.pre, r, k.value)
       case None => Err(MissingRecord)
       case Some(row) => var v :- RowValue(c.m, r, row); Ok(Got(v, k.b)))
    case ReadOptional(r, key) =>
      var k :- Eval(c, key, b);
      (match Get(c.pre, r, k.value)
       case None => Ok(Got(NoneOf, k.b))
       case Some(row) => var v :- RowValue(c.m, r, row); Ok(Got(SomeOf(v), k.b)))
    case ReadExists(r, key) =>
      var k :- Eval(c, key, b);
      Ok(Got(Bool(Get(c.pre, r, k.value).Some?), k.b))
    case Scan(r, x, filter) =>
      var s :- ScanRows(c, r, x, filter, TableOf(c.pre, r), b, []);
      Ok(Got(SetOf(s.value), s.b - {x}))
  }

  /** Bindings after all reads, and the captured values alone. */
  function ReadAll(c: Ctx, rds: seq<Read>, b: Bindings, captured: Bindings): Or<(Bindings, Bindings)> {
    if rds == [] then Go((b, captured))
    else
      var v :- At(ReadOne(c, rds[0].kind, b), Reading);
      ReadAll(c, rds[1..], v.b[rds[0].binding := v.value], captured[rds[0].binding := v.value])
  }

  function EvalFields(c: Ctx, fs: seq<(FieldId, Expr)>, b: Bindings, acc: Fields): Result<Got<Fields>> {
    if fs == [] then Ok(Got(acc, b))
    else
      var v :- Eval(c, fs[0].1, b);
      EvalFields(c, fs[1..], v.b, acc[fs[0].0 := v.value])
  }

  /** The literal form of an effect in the current candidate state. */
  function Literal(c: Ctx, k: EffectKind, b: Bindings): Result<Got<Applied>> {
    match k
    case EAssign(p, value) =>
      var key :- Eval(c, p.key, b);
      var v :- Eval(c, value, key.b);
      Ok(Got(Assign(p.record, key.value, p.field, v.value), v.b))
    case EIncrement(p, amount) =>
      var key :- Eval(c, p.key, b);
      var v :- Eval(c, amount, key.b);
      Ok(Got(Increment(p.record, key.value, p.field, v.value), v.b))
    case EDecrement(p, amount) =>
      var key :- Eval(c, p.key, b);
      var v :- Eval(c, amount, key.b);
      Ok(Got(Decrement(p.record, key.value, p.field, v.value), v.b))
    case EInsert(r, key, fields) =>
      var kv :- Eval(c, key, b);
      var fs :- EvalFields(c, fields, kv.b, map[]);
      Ok(Got(Insert(r, kv.value, fs.value, false), fs.b))
    case EDelete(r, key) =>
      var kv :- Eval(c, key, b);
      Ok(Got(Delete(r, kv.value), kv.b))
    case EAddToSet(p, value) =>
      var key :- Eval(c, p.key, b);
      var v :- Eval(c, value, key.b);
      Ok(Got(AddToSet(p.record, key.value, p.field, v.value), v.b))
    case ERemoveFromSet(p, value) =>
      var key :- Eval(c, p.key, b);
      var v :- Eval(c, value, key.b);
      Ok(Got(RemoveFromSet(p.record, key.value, p.field, v.value), v.b))
    case ECompareAndSwap(p, expected, value) =>
      var key :- Eval(c, p.key, b);
      var e :- Eval(c, expected, key.b);
      var v :- Eval(c, value, e.b);
      Ok(Got(CompareAndSwap(p.record, key.value, p.field, e.value, v.value), v.b))
    case EReserve(resource, key, reservation, amount) =>
      var kv :- Eval(c, key, b);
      var rv :- Eval(c, reservation, kv.b);
      var av :- Eval(c, amount, rv.b);
      Ok(Got(Reserve(resource, Claim(kv.value, rv.value, av.value)), av.b))
    case ERelease(resource, key, reservation, amount) =>
      var kv :- Eval(c, key, b);
      var rv :- Eval(c, reservation, kv.b);
      var av :- Eval(c, amount, rv.b);
      Ok(Got(Release(resource, Claim(kv.value, rv.value, av.value)), av.b))
    case ETransfer(src, dst, amount) =>
      var sk :- Eval(c, src.key, b);
      var dk :- Eval(c, dst.key, sk.b);
      var av :- Eval(c, amount, dk.b);
      Ok(Got(Transfer(src.record, sk.value, src.field, dst.record, dk.value, dst.field, av.value), av.b))
    case EAdvance(p, from, next) =>
      var key :- Eval(c, p.key, b);
      Ok(Got(Advance(p.record, key.value, p.field, from, next), key.b))
    case EEmitFact(r, key, fields) =>
      var kv :- Eval(c, key, b);
      var fs :- EvalFields(c, fields, kv.b, map[]);
      Ok(Got(Insert(r, kv.value, fs.value, true), fs.b))
  }

  /** The candidate state under construction, with what has been recorded on the way. */
  datatype Progress = Progress(cand: State, b: Bindings, applied: seq<Applied>, guards: seq<(nat, bool)>)

  function RunEffect(m: Module, args: seq<Value>, pre: State, ef: Effect, p: Progress): Or<Progress> {
    var c := Ctx(m, args, None, pre, p.cand);
    var stage := AtEffect(ef.id);
    var g :- (match ef.guard
              case None => Go(Got(Bool(true), p.b))
              case Some(e) => At(Eval(c, e, p.b), stage));
    var guards := if ef.guard.None? then p.guards else p.guards + [(ef.id, g.value == Bool(true))];
    if g.value != Bool(true) then Go(p.(b := g.b, guards := guards))
    else
      var a :- At(Literal(c, ef.kind, g.b), stage);
      var s :- At(ApplyLiteral(m, p.cand, a.value), stage);
      Go(Progress(s, a.b, p.applied + [a.value], guards))
  }

  function RunEffects(m: Module, args: seq<Value>, pre: State, efs: seq<Effect>, p: Progress): Or<Progress>
    decreases |efs|
  {
    if efs == [] then Go(p)
    else
      var q :- RunEffect(m, args, pre, efs[0], p);
      RunEffects(m, args, pre, efs[1..], q)
  }

  function FactKey(args: seq<Value>, ps: seq<nat>): Result<Value> {
    if exists i :: 0 <= i < |ps| && ps[i] >= |args| then Err(Panic)
    else if |ps| == 1 then Ok(args[ps[0]])
    else Ok(Tuple(seq(|ps|, i requires 0 <= i < |ps| => args[ps[i]])))
  }

  /** Invocation-time prerequisites of the invariants in scope. */
  function CheckFacts(invs: seq<Invariant>, op: OpRef, args: seq<Value>, pre: State,
                      scope: Option<set<InvariantId>>): Result<Or<()>>
  {
    if invs == [] then Ok(Go(()))
    else if scope.Some? && invs[0].id !in scope.value then CheckFacts(invs[1..], op, args, pre, scope)
    else match invs[0].law
      case RequiresFact(operation, ps, fact) =>
        if operation != op.operation then CheckFacts(invs[1..], op, args, pre, scope)
        else
          var key :- FactKey(args, ps);
          if Get(pre, fact, key).None? then Ok(Stop(Rejection(MissingDependency, AtInvariant(invs[0].id))))
          else CheckFacts(invs[1..], op, args, pre, scope)
      case _ => CheckFacts(invs[1..], op, args, pre, scope)
  }

  /** Everything before the invariants. */
  function RunBody(m: Module, op: Operation, args: seq<Value>, pre: State): Or<(Progress, Bindings)> {
    if !ArgsFit(args, op.params) then Stop(Rejection(TypeMismatch, Definedness))
    else
      var c := Ctx(m, args, None, pre, pre);
      var b :- Demand(c, op.pre, map[], PreconditionRejected, Precondition);
      var rd :- ReadAll(c, op.inputs, b, map[]);
      var p :- RunEffects(m, args, pre, op.effects, Progress(pre, rd.0, [], []));
      var b' :- Demand(Ctx(m, args, None, pre, p.cand), op.post, p.b, PostconditionRejected, Postcondition);
      Go((p.(b := b'), rd.1))
  }

  function Finish(m: Module, op: Operation, args: seq<Value>, pre: State, p: Progress, captured: Bindings): Outcome {
    match Eval(Ctx(m, args, None, pre, p.cand), op.result, p.b)
    case Err(e) => Rejected(Rejection(e, Returning))
    case Ok(v) => Accepted(Candidate(p.cand, p.applied, v.value, captured, p.guards))
  }

  function EvaluateWithScope(m: Module, r: OpRef, args: seq<Value>, pre: State,
                             scope: Option<set<InvariantId>>): Result<Outcome>
  {
    var op :- FindOperation(m.operations, r);
    match RunBody(m, op, args, pre)
    case Stop(why) => Ok(Rejected(why))
    case Go(body) =>
      var facts :- CheckFacts(m.invariants, r, args, pre, scope);
      if facts.Stop? then Ok(Rejected(facts.why))
      else
        var vs :- CheckScoped(m, m.invariants, pre, body.0.cand, scope);
        if vs != [] then Ok(Rejected(Rejection(InvariantRejected, AtInvariant(vs[0].id))))
        else Ok(Finish(m, op, args, pre, body.0, body.1))
  }

  function Evaluate(m: Module, r: OpRef, args: seq<Value>, pre: State): Result<Outcome> {
    EvaluateWithScope(m, r, args, pre, None)
  }

  predicate Resolves(m: Module, ids: set<InvariantId>) {
    forall id :: id in ids ==> FindInvariant(m.invariants, id).Ok?
  }

  /** Evaluation of a partly loaded state against a chosen set of invariants. */
  function EvaluateScoped(m: Module, r: OpRef, args: seq<Value>, pre: State, ids: set<InvariantId>): Result<Outcome> {
    if !Resolves(m, ids) then Err(InvalidIr) else EvaluateWithScope(m, r, args, pre, Some(ids))
  }
}
