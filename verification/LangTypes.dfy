/** Values, expressions and modules of the restricted operation language. */
module LangTypes {
  import opened Basics

  type RecordId = nat
  type FieldId = nat
  type BindingId = nat
  type EnumId = nat
  type InvariantId = nat
  type ResourceId = nat
  type Name = seq<Byte>

  datatype ErrorCode =
    | TypeMismatch | PreconditionRejected | PostconditionRejected | MissingRecord | MissingDependency
    | InvariantRejected | NumericOverflow | ArithmeticError | InvalidIr | IdentityMismatch
    | DuplicateIdentity | Conflict | UnsupportedEffect
    | Panic // an index or unwrap of the interpreter that well-formed modules never reach

  datatype Result<+T> = Ok(value: T) | Err(code: ErrorCode) {
    predicate IsFailure() { Err? }
    function PropagateFailure<U>(): Result<U>
      requires Err?
    {
      Err(code)
    }
    function Extract(): T
      requires Ok?
    {
      value
    }
  }

  // ---------------------------------------------------------------------------
  // Values: sets and field maps are kept as sorted sequences
  // ---------------------------------------------------------------------------

  datatype Value =
    | Unit
    | Bool(b: bool)
    | I64(i: int)
    | U64(n: int)
    | Uuid(id: seq<Byte>)
    | Bytes(bytes: seq<Byte>)
    | Str(chars: seq<Byte>)
    | Enum(enumId: EnumId, variant: nat)
    | NoneOf
    | SomeOf(inner: Value)
    | SetOf(items: seq<Value>)
    | Tuple(parts: seq<Value>)
    | Row(record: RecordId, fields: seq<Member>)
    | Struct(members: seq<Member>)

  datatype Member = Member(name: Name, value: Value)

  datatype Type =
    | TBool | TI64 | TU64 | TUuid | TUnit
    | TBytes(max: nat)
    | TString(max: nat)
    | TEnum(e: EnumId)
    | TOption(inner: Type)
    | TSet(inner: Type)
    | TTuple(parts: seq<Type>)
    | TRow(record: RecordId)
    | TStruct(members: seq<(Name, Type)>)

  function Sign(x: int): int {
    if x < 0 then -1 else if x > 0 then 1 else 0
  }

  function CompareBytes(a: seq<Byte>, b: seq<Byte>): int {
    if a == [] then (if b == [] then 0 else -1)
    else if b == [] then 1
    else if a[0] != b[0] then (if a[0] < b[0] then -1 else 1)
    else CompareBytes(a[1..], b[1..])
  }

  function Kind(v: Value): nat {
    match v
    case Unit => 0
    case Bool(_) => 1
    case I64(_) => 2
    case U64(_) => 3
    case Uuid(_) => 4
    case Bytes(_) => 5
    case Str(_) => 6
    case Enum(_, _) => 8
    case NoneOf => 9
    case SomeOf(_) => 10
    case SetOf(_) => 11
    case Tuple(_) => 12
    case Row(_, _) => 13
    case Struct(_) => 14
  }

  /** The total order of values: within a kind by content, across kinds by kind. */
  function Compare(a: Value, b: Value): int
    decreases a
  {
    match (a, b)
    case (Bool(x), Bool(y)) => if x == y then 0 else if x then 1 else -1
    case (I64(x), I64(y)) => Sign(x - y)
    case (U64(x), U64(y)) => Sign(x - y)
    case (Uuid(x), Uuid(y)) => CompareBytes(x, y)
    case (Bytes(x), Bytes(y)) => CompareBytes(x, y)
    case (Str(x), Str(y)) => CompareBytes(x, y)
    case (Enum(e, x), Enum(f, y)) => if e != f then Sign(e - f) else Sign(x - y)
    case (SomeOf(x), SomeOf(y)) => Compare(x, y)
    case (SetOf(x), SetOf(y)) => CompareSeq(x, y)
    case (Tuple(x), Tuple(y)) => CompareSeq(x, y)
    case (Row(r, x), Row(s, y)) => if r != s then Sign(r - s) else CompareFields(x, y)
    case (Struct(x), Struct(y)) => CompareFields(x, y)
    case _ => Sign(Kind(a) - Kind(b))
  }

  function CompareSeq(a: seq<Value>, b: seq<Value>): int
    decreases a
  {
    if a == [] then (if b == [] then 0 else -1)
    else if b == [] then 1
    else
      var c := Compare(a[0], b[0]);
      if c != 0 then c else CompareSeq(a[1..], b[1..])
  }

  function CompareFields(a: seq<Member>, b: seq<Member>): int
    decreases a
  {
    if a == [] then (if b == [] then 0 else -1)
    else if b == [] then 1
    else
      var x, y := a[0], b[0];
      var n := CompareBytes(x.name, y.name);
      if n != 0 then n
      else
        var c := Compare(x.value, y.value);
        if c != 0 then c else CompareFields(a[1..], b[1..])
  }

  /** Sorted insertion; an equal element stays. */
  function AddItem(s: seq<Value>, v: Value): seq<Value> {
    if s == [] then [v]
    else
      var c := Compare(v, s[0]);
      if c == 0 then s else if c < 0 then [v] + s else [s[0]] + AddItem(s[1..], v)
  }

  function RemoveItem(s: seq<Value>, v: Value): seq<Value> {
    if s == [] then []
    else if s[0] == v then s[1..]
    else [s[0]] + RemoveItem(s[1..], v)
  }

  /** Sorted insertion by name; an equal name is overwritten. */
  function PutMember(s: seq<Member>, n: Name, v: Value): seq<Member> {
    if s == [] then [Member(n, v)]
    else
      var c := CompareBytes(n, s[0].name);
      if c == 0 then [Member(n, v)] + s[1..]
      else if c < 0 then [Member(n, v)] + s
      else [s[0]] + PutMember(s[1..], n, v)
  }

  function GetMember(s: seq<Member>, n: Name): Option<Value> {
    if s == [] then None else if s[0].name == n then Some(s[0].value) else GetMember(s[1..], n)
  }

  /** A value fits its declared type. */
  predicate Fits(v: Value, ty: Type)
    decreases v
  {
    match (v, ty)
    case (Bool(_), TBool) => true
    case (I64(_), TI64) => true
    case (U64(_), TU64) => true
    case (Uuid(_), TUuid) => true
    case (Unit, TUnit) => true
    case (Bytes(s), TBytes(max)) => |s| <= max
    case (Str(s), TString(max)) => |s| <= max
    case (Enum(e, _), TEnum(f)) => e == f
    case (NoneOf, TOption(_)) => true
    case (SomeOf(x), TOption(t)) => Fits(x, t)
    case (SetOf(s), TSet(t)) => forall i :: 0 <= i < |s| ==> Fits(s[i], t)
    case (Tuple(s), TTuple(ts)) => |s| == |ts| && forall i :: 0 <= i < |s| ==> Fits(s[i], ts[i])
    case (Row(r, _), TRow(q)) => r == q
    case (Struct(ms), TStruct(ts)) =>
      |ms| == |ts| && forall i :: 0 <= i < |ts| ==>
          exists j :: 0 <= j < |ms| && ms[j].name == ts[i].0 && Fits(ms[j].value, ts[i].1)
    case _ => false
  }

  // ---------------------------------------------------------------------------
  // Expressions
  // ---------------------------------------------------------------------------

  datatype CmpOp = CEq | CNe | CLt | CLe | CGt | CGe
  datatype ArithOp = Add | Sub | Mul
  datatype BinOp = And | Or | Arith(a: ArithOp) | Cmp(c: CmpOp) | In
  datatype StateRef = PreState | CandidateState

  /** Nodes with one operand. */
  datatype UnaryOp =
    | Field(name: Name)
    | StructField(name: Name)
    | RowLookup(record: RecordId, state: StateRef)
    | Exists(record: RecordId, state: StateRef)
    | MakeSome
    | Neg
    | Not
    | IsNone
    | IsSome
    | Size

  datatype Expr =
    | Lit(v: Value)
    | Param(i: nat)
    | Binding(x: BindingId)
    | GroupKey
    | Unary(u: UnaryOp, e: Expr)
    | Bin(op: BinOp, lhs: Expr, rhs: Expr)
    | UnwrapOr(e: Expr, fallback: Expr)
    | MakeTuple(parts: seq<Expr>)
    | MakeSet(parts: seq<Expr>)
    | MakeStruct(members: seq<ExprMember>)
    | SumOver(x: BindingId, over: Expr, ty: Type, each: Expr)

  datatype ExprMember = ExprMember(name: Name, e: Expr)

  // ---------------------------------------------------------------------------
  // Modules
  // ---------------------------------------------------------------------------

  datatype FieldDef = FieldDef(id: FieldId, name: Name, ty: Type)
  datatype RecordDef = RecordDef(id: RecordId, fields: seq<FieldDef>, primaryKey: FieldId)
  datatype EnumDef = EnumDef(id: EnumId, variants: seq<Name>)
  datatype ResourceDef = ResourceDef(id: ResourceId, record: RecordId, available: FieldId, reserved: FieldId,
                                     reservationRecord: RecordId)

  datatype AggregateOp = Sum | Count

  datatype Predicate =
    | ForAll(record: RecordId, x: BindingId, filter: Option<Expr>, body: Expr)
    | Unique(record: RecordId, x: BindingId, filter: Option<Expr>, key: Expr)
    | ExistsReference(child: RecordId, x: BindingId, parentKey: Expr, parent: RecordId)
    | Aggregate(op: AggregateOp, record: RecordId, x: BindingId, filter: Option<Expr>, groupBy: Option<Expr>,
                ty: Type, value: Expr, cmp: CmpOp, bound: Expr)
    | Transition(record: RecordId, field: FieldId, edges: set<(nat, nat)>)
    | RequiresFact(operation: nat, keyParams: seq<nat>, fact: RecordId)

  datatype Scope = PerKey(record: RecordId) | PerGroup(record: RecordId) | Global(records: seq<RecordId>)

  datatype Invariant = Invariant(id: InvariantId, scope: Scope, dependencies: seq<RecordId>, law: Predicate)

  datatype ReadKind =
    | ReadRow(record: RecordId, key: Expr)
    | ReadOptional(record: RecordId, key: Expr)
    | ReadExists(record: RecordId, key: Expr)
    | Scan(record: RecordId, x: BindingId, filter: Expr)

  datatype Read = Read(binding: BindingId, kind: ReadKind)

  datatype Path = Path(record: RecordId, key: Expr, field: FieldId)

  datatype EffectKind =
    | EAssign(path: Path, value: Expr)
    | EIncrement(path: Path, amount: Expr)
    | EDecrement(path: Path, amount: Expr)
    | EInsert(record: RecordId, key: Expr, fields: seq<(FieldId, Expr)>)
    | EDelete(record: RecordId, key: Expr)
    | EAddToSet(path: Path, value: Expr)
    | ERemoveFromSet(path: Path, value: Expr)
    | ECompareAndSwap(path: Path, expected: Expr, value: Expr)
    | EReserve(resource: ResourceId, key: Expr, reservation: Expr, amount: Expr)
    | ERelease(resource: ResourceId, key: Expr, reservation: Expr, amount: Expr)
    | ETransfer(source: Path, destination: Path, amount: Expr)
    | EAdvance(path: Path, from: nat, next: nat)
    | EEmitFact(record: RecordId, key: Expr, fields: seq<(FieldId, Expr)>)

  datatype Effect = Effect(id: nat, guard: Option<Expr>, kind: EffectKind)

  datatype OpRef = OpRef(operation: nat, version: nat)

  /** Records named by the footprint of an operation, by purpose. */
  datatype Footprint = Footprint(read: seq<RecordId>, written: seq<RecordId>, tested: seq<RecordId>,
                                 facts: seq<RecordId>)

  datatype Operation = Operation(identity: OpRef, params: seq<Type>, pre: Expr, inputs: seq<Read>, effects: seq<Effect>,
                                 post: Expr, result: Expr, footprint: Footprint)

  datatype Module = Module(records: seq<RecordDef>, enums: seq<EnumDef>, resources: seq<ResourceDef>,
                           invariants: seq<Invariant>, operations: seq<Operation>)

  function FindRecord(rs: seq<RecordDef>, id: RecordId): Result<RecordDef> {
    if rs == [] then Err(InvalidIr) else if rs[0].id == id then Ok(rs[0]) else FindRecord(rs[1..], id)
  }

  function FindEnum(es: seq<EnumDef>, id: EnumId): Result<EnumDef> {
    if es == [] then Err(InvalidIr) else if es[0].id == id then Ok(es[0]) else FindEnum(es[1..], id)
  }

  function FindResource(rs: seq<ResourceDef>, id: ResourceId): Result<ResourceDef> {
    if rs == [] then Err(InvalidIr) else if rs[0].id == id then Ok(rs[0]) else FindResource(rs[1..], id)
  }

  function FindInvariant(invs: seq<Invariant>, id: InvariantId): Result<Invariant> {
    if invs == [] then Err(InvalidIr) else if invs[0].id == id then Ok(invs[0]) else FindInvariant(invs[1..], id)
  }

  function FindOperation(ops: seq<Operation>, r: OpRef): Result<Operation> {
    if ops == [] then Err(InvalidIr) else if ops[0].identity == r then Ok(ops[0]) else FindOperation(ops[1..], r)
  }

  function FindField(fs: seq<FieldDef>, id: FieldId): Option<FieldDef> {
    if fs == [] then None else if fs[0].id == id then Some(fs[0]) else FindField(fs[1..], id)
  }

  function FindFieldNamed(fs: seq<FieldDef>, name: Name): Option<FieldDef> {
    if fs == [] then None else if fs[0].name == name then Some(fs[0]) else FindFieldNamed(fs[1..], name)
  }

  function Position(names: seq<Name>, name: Name): Option<nat> {
    if names == [] then None
    else if names[0] == name then Some(0)
    else match Position(names[1..], name)
      case None => None
      case Some(k) => Some(k + 1)
  }
}
