/** Order-preserving, self-delimiting keys: byte order of encodings is value order of the elements. */
module KeyCodec {
  import opened Basics

  const TWO_16 := 0x1_0000
  const TWO_32 := 0x1_0000_0000
  const TWO_63 := 0x8000_0000_0000_0000
  const TWO_64 := 0x1_0000_0000_0000_0000
  const TWO_127 := 0x8000_0000_0000_0000_0000_0000_0000_0000
  const TWO_128 := 0x1_0000_0000_0000_0000_0000_0000_0000_0000

  datatype Elem =
    | U64(n: nat)
    | I64(i: int)
    | Boolean(b: bool)
    | Id16(id: seq<Byte>)
    | Bytes(bytes: seq<Byte>)
    | Decimal(coefficient: int)
    | Variant(index: nat)
    | Nothing
    | Something
    | Tuple(arity: nat)

  /** Within the machine width of its kind. */
  predicate Fits(e: Elem) {
    match e
    case U64(n) => n < TWO_64
    case I64(i) => -TWO_63 <= i < TWO_63
    case Id16(id) => |id| == 16
    case Decimal(c) => -TWO_127 <= c < TWO_127
    case Variant(k) => k < TWO_32
    case Tuple(k) => k < TWO_16
    case _ => true
  }

  predicate AllFit(es: seq<Elem>) {
    forall i :: 0 <= i < |es| ==> Fits(es[i])
  }

  // ---------------------------------------------------------------------------
  // Orders
  // ---------------------------------------------------------------------------

  function Order(a: int, b: int): int {
    if a < b then -1 else if a > b then 1 else 0
  }

  /** Lexicographic order of byte strings; a proper prefix comes first. */
  function Compare(a: seq<Byte>, b: seq<Byte>): int {
    if a == [] then (if b == [] then 0 else -1)
    else if b == [] then 1
    else if a[0] != b[0] then (if a[0] < b[0] then -1 else 1)
    else Compare(a[1..], b[1..])
  }

  function Tag(e: Elem): Byte {
    match e
    case U64(_) => 0x10
    case I64(_) => 0x11
    case Boolean(_) => 0x12
    case Id16(_) => 0x13
    case Bytes(_) => 0x14
    case Decimal(_) => 0x15
    case Variant(_) => 0x16
    case Nothing => 0x17
    case Something => 0x17
    case Tuple(_) => 0x18
  }

  function Bit(b: bool): nat {
    if b then 1 else 0
  }

  /** By tag, then by value. */
  function CompareElem(x: Elem, y: Elem): int {
    match (x, y)
    case (U64(a), U64(b)) => Order(a, b)
    case (I64(a), I64(b)) => Order(a, b)
    case (Boolean(a), Boolean(b)) => Order(Bit(a), Bit(b))
    case (Id16(a), Id16(b)) => Compare(a, b)
    case (Bytes(a), Bytes(b)) => Compare(a, b)
    case (Decimal(a), Decimal(b)) => Order(a, b)
    case (Variant(a), Variant(b)) => Order(a, b)
    case (Nothing, Something) => -1
    case (Something, Nothing) => 1
    case (Tuple(a), Tuple(b)) => Order(a, b)
    case _ => Order(Tag(x), Tag(y))
  }

  function CompareElems(a: seq<Elem>, b: seq<Elem>): int {
    if a == [] then (if b == [] then 0 else -1)
    else if b == [] then 1
    else if CompareElem(a[0], b[0]) != 0 then CompareElem(a[0], b[0])
    else CompareElems(a[1..], b[1..])
  }

  // ---------------------------------------------------------------------------
  // Encoding
  // ---------------------------------------------------------------------------

  function Last(n: nat): Byte {
    n % 256
  }

  /** `k` bytes, most significant first. */
  function BigEndian(n: nat, k: nat): (r: seq<Byte>)
    ensures |r| == k
  {
    if k == 0 then [] else BigEndian(n / 256, k - 1) + [Last(n)]
  }

  function Power(k: nat): nat {
    if k == 0 then 1 else 256 * Power(k - 1)
  }

  /** Two's complement with the sign bit flipped, so that unsigned order is signed order. */
  function Flip(v: int, half: nat): nat
    requires v + half >= 0
  {
    v + half
  }

  function EscapeByte(b: Byte): seq<Byte> {
    if b == 0 then [0, 0xff] else [b]
  }

  function Escape(s: seq<Byte>): seq<Byte> {
    if s == [] then [] else EscapeByte(s[0]) + Escape(s[1..])
  }

  function Payload(e: Elem): seq<Byte>
    requires Fits(e)
  {
    match e
    case U64(n) => BigEndian(n, 8)
    case I64(i) => BigEndian(Flip(i, TWO_63), 8)
    case Boolean(b) => [if b then 1 else 0]
    case Id16(id) => id
    case Bytes(s) => Escape(s) + [0, 0]
    case Decimal(c) => BigEndian(Flip(c, TWO_127), 16)
    case Variant(k) => BigEndian(k, 4)
    case Nothing => [0]
    case Something => [1]
    case Tuple(k) => BigEndian(k, 2)
  }

  function Encode(e: Elem): seq<Byte>
    requires Fits(e)
  {
    [Tag(e)] + Payload(e)
  }

  function EncodeAll(es: seq<Elem>): seq<Byte>
    requires AllFit(es)
  {
    if es == [] then [] else Encode(es[0]) + EncodeAll(es[1..])
  }

  // ---------------------------------------------------------------------------
  // Byte order is value order
  // ---------------------------------------------------------------------------

  lemma {:induction false} CompareCommon(p: seq<Byte>, s: seq<Byte>, t: seq<Byte>)
    ensures Compare(p + s, p + t) == Compare(s, t)
  {
    if p == [] {
      assert p + s == s && p + t == t;
    } else {
      assert (p + s)[1..] == p[1..] + s && (p + t)[1..] == p[1..] + t;
      CompareCommon(p[1..], s, t);
    }
  }

  lemma CompareHeads(a: Byte, s: seq<Byte>, b: Byte, t: seq<Byte>)
    ensures Compare([a] + s, [b] + t) == if a != b then Order(a, b) else Compare(s, t)
  {
    assert ([a] + s)[1..] == s && ([b] + t)[1..] == t;
  }

  lemma {:induction false} CompareEqual(a: seq<Byte>, b: seq<Byte>)
    ensures Compare(a, b) == 0 <==> a == b
  {
    if a != [] && b != [] && a[0] == b[0] {
      CompareEqual(a[1..], b[1..]);
      assert a == [a[0]] + a[1..] && b == [b[0]] + b[1..];
    }
  }

  /** Strings of one length: what follows matters only if they are equal. */
  lemma {:induction false} CompareSameLength(a: seq<Byte>, s: seq<Byte>, b: seq<Byte>, t: seq<Byte>)
    requires |a| == |b|
    ensures Compare(a + s, b + t) == if a == b then Compare(s, t) else Compare(a, b)
  {
    if a == [] {
      assert a + s == s && b + t == t;
    } else {
      assert (a + s)[1..] == a[1..] + s && (b + t)[1..] == b[1..] + t;
      CompareSameLength(a[1..], s, b[1..], t);
      assert a == [a[0]] + a[1..] && b == [b[0]] + b[1..];
    }
  }

  lemma {:induction false} BigEndianOrder(n: nat, m: nat, k: nat, s: seq<Byte>, t: seq<Byte>)
    requires n < Power(k) && m < Power(k)
    ensures Compare(BigEndian(n, k) + s, BigEndian(m, k) + t) == if n != m then Order(n, m) else Compare(s, t)
    decreases k
  {
    if k == 0 {
      assert BigEndian(n, k) + s == s && BigEndian(m, k) + t == t;
    } else {
      var a, b := BigEndian(n / 256, k - 1), BigEndian(m / 256, k - 1);
      assert BigEndian(n, k) + s == a + ([Last(n)] + s) && BigEndian(m, k) + t == b + ([Last(m)] + t);
      BigEndianOrder(n / 256, m / 256, k - 1, [Last(n)] + s, [Last(m)] + t);
      CompareHeads(Last(n), s, Last(m), t);
    }
  }

  lemma {:induction false} EscapeOrder(a: seq<Byte>, b: seq<Byte>, s: seq<Byte>, t: seq<Byte>)
    ensures Compare(Escape(a) + ([0, 0] + s), Escape(b) + ([0, 0] + t)) ==
            if a != b then Compare(a, b) else Compare(s, t)
  {
    var x, y := Escape(a) + ([0, 0] + s), Escape(b) + ([0, 0] + t);
    if a == [] && b == [] {
      assert x == [0, 0] + s && y == [0, 0] + t;
      CompareCommon([0, 0], s, t);
    } else if a == [] {
      Terminates(s, b, t);
      assert x == [0, 0] + s;
    } else if b == [] {
      Terminates(t, a, s);
      assert y == [0, 0] + t;
      CompareFlip(x, y);
    } else {
      hide Escape, EscapeByte;
      EscapeOrder(a[1..], b[1..], s, t);
      EscapeHead(a, [0, 0] + s);
      EscapeHead(b, [0, 0] + t);
      HeadOrder(a[0], Escape(a[1..]) + ([0, 0] + s), b[0], Escape(b[1..]) + ([0, 0] + t));
      assert a == [a[0]] + a[1..] && b == [b[0]] + b[1..];
    }
  }

  lemma HeadOrder(x: Byte, s: seq<Byte>, y: Byte, t: seq<Byte>)
    ensures Compare(EscapeByte(x) + s, EscapeByte(y) + t) == if x < y then -1 else if x > y then 1 else Compare(s, t)
  {
    if x == y {
      CompareCommon(EscapeByte(x), s, t);
    } else {
      assert (EscapeByte(x) + s)[0] == x && (EscapeByte(y) + t)[0] == y;
    }
  }

  lemma EscapeHead(b: seq<Byte>, t: seq<Byte>)
    requires b != []
    ensures Escape(b) + t == EscapeByte(b[0]) + (Escape(b[1..]) + t)
  {
  }

  /** The terminator comes before an escaped zero byte, and before any other byte. */
  lemma TerminatorFirst(s: seq<Byte>, x: Byte, rest: seq<Byte>)
    ensures Compare([0, 0] + s, EscapeByte(x) + rest) == -1
  {
    hide Compare;
    assert [0, 0] + s == [0] + ([0] + s);
    if x == 0 {
      assert [0, 0xff] + rest == [0] + ([0xff] + rest);
      CompareHeads(0, [0] + s, 0, [0xff] + rest);
      CompareHeads(0, s, 0xff, rest);
    } else {
      CompareHeads(0, [0] + s, x, rest);
    }
  }

  /** The terminator comes before any further byte, escaped or not. */
  lemma Terminates(s: seq<Byte>, b: seq<Byte>, t: seq<Byte>)
    requires b != []
    ensures Compare([0, 0] + s, Escape(b) + ([0, 0] + t)) == -1
  {
    hide Compare, Escape, EscapeByte;
    EscapeHead(b, [0, 0] + t);
    TerminatorFirst(s, b[0], Escape(b[1..]) + ([0, 0] + t));
  }

  lemma {:induction false} CompareFlip(a: seq<Byte>, b: seq<Byte>)
    ensures Compare(a, b) == -Compare(b, a)
  {
    if a != [] && b != [] && a[0] == b[0] {
      CompareFlip(a[1..], b[1..]);
    }
  }

  lemma Powers()
    ensures Power(2) == TWO_16 && Power(4) == TWO_32 && Power(8) == TWO_64 && Power(16) == TWO_128
  {
    assert Power(1) == 256 && Power(2) == 65536 && Power(3) == 16777216 && Power(4) == TWO_32;
    assert Power(5) == 256 * TWO_32 && Power(6) == 65536 * TWO_32 && Power(7) == 16777216 * TWO_32 &&
           Power(8) == TWO_64;
    assert Power(9) == 256 * TWO_64 && Power(10) == 65536 * TWO_64 && Power(11) == 16777216 * TWO_64;
    assert Power(12) == TWO_32 * TWO_64;
    assert Power(13) == 256 * TWO_32 * TWO_64 && Power(14) == 65536 * TWO_32 * TWO_64;
    assert Power(15) == 16777216 * TWO_32 * TWO_64;
  }

  /** Payloads of one tag, with anything after them. */
  lemma PayloadOrder(x: Elem, y: Elem, s: seq<Byte>, t: seq<Byte>)
    requires Fits(x) && Fits(y) && Tag(x) == Tag(y)
    ensures Compare(Payload(x) + s, Payload(y) + t) == if x != y then CompareElem(x, y) else Compare(s, t)
  {
    hide BigEndian, Escape, Compare, Power;
    Powers();
    match x
    case U64(n) => BigEndianOrder(n, y.n, 8, s, t);
    case I64(i) => BigEndianOrder(Flip(i, TWO_63), Flip(y.i, TWO_63), 8, s, t);
    case Boolean(b) => CompareHeads(Bit(b), s, Bit(y.b), t);
    case Id16(id) => CompareSameLength(id, s, y.id, t);
    case Bytes(a) =>
      EscapeOrder(a, y.bytes, s, t);
      assert Payload(x) + s == Escape(a) + ([0, 0] + s) && Payload(y) + t == Escape(y.bytes) + ([0, 0] + t);
    case Decimal(c) => BigEndianOrder(Flip(c, TWO_127), Flip(y.coefficient, TWO_127), 16, s, t);
    case Variant(k) => BigEndianOrder(k, y.index, 4, s, t);
    case Nothing => CompareHeads(0, s, if y.Nothing? then 0 else 1, t);
    case Something => CompareHeads(1, s, if y.Nothing? then 0 else 1, t);
    case Tuple(k) => BigEndianOrder(k, y.arity, 2, s, t);
  }

  /** Different elements decide the order whatever follows; equal ones leave it to what follows. */
  lemma ElemOrder(x: Elem, y: Elem, s: seq<Byte>, t: seq<Byte>)
    requires Fits(x) && Fits(y)
    ensures Compare(Encode(x) + s, Encode(y) + t) == if x != y then CompareElem(x, y) else Compare(s, t)
  {
    hide Payload, Compare;
    assert Encode(x) + s == [Tag(x)] + (Payload(x) + s) && Encode(y) + t == [Tag(y)] + (Payload(y) + t);
    CompareHeads(Tag(x), Payload(x) + s, Tag(y), Payload(y) + t);
    if Tag(x) == Tag(y) {
      PayloadOrder(x, y, s, t);
    }
  }

  lemma ElemsDiffer(x: Elem, y: Elem)
    ensures CompareElem(x, y) == 0 <==> x == y
  {
    hide Compare;
    if x.Id16? && y.Id16? {
      CompareEqual(x.id, y.id);
    }
    if x.Bytes? && y.Bytes? {
      CompareEqual(x.bytes, y.bytes);
    }
  }

  /** Comparing encodings byte by byte is comparing the element lists. */
  lemma {:induction false} OrderPreserved(a: seq<Elem>, b: seq<Elem>)
    requires AllFit(a) && AllFit(b)
    ensures Compare(EncodeAll(a), EncodeAll(b)) == CompareElems(a, b)
    decreases |a|
  {
    if a != [] && b != [] {
      hide Compare, Encode, CompareElem;
      ElemOrder(a[0], b[0], EncodeAll(a[1..]), EncodeAll(b[1..]));
      ElemsDiffer(a[0], b[0]);
      if a[0] == b[0] {
        OrderPreserved(a[1..], b[1..]);
      }
    }
  }

  // ---------------------------------------------------------------------------
  // Reading
  // ---------------------------------------------------------------------------

  datatype KeyError = Truncated | BadBool | BadEscape | BadOption | UnknownTag | Trailing

  datatype Result<+T> = Ok(value: T) | Err(error: KeyError)

  /** A value and the position after it. */
  datatype At<+T> = At(value: T, pos: nat)

  function FromBigEndian(b: seq<Byte>): nat {
    if b == [] then 0 else 256 * FromBigEndian(b[..|b| - 1]) + b[|b| - 1]
  }

  function ReadNumber(src: seq<Byte>, pos: nat, k: nat): Result<At<nat>>
    requires pos <= |src|
  {
    if pos + k > |src| then Err(Truncated) else Ok(At(FromBigEndian(src[pos..pos + k]), pos + k))
  }

  /** Bytes up to the terminator, unescaped. */
  function Unescape(src: seq<Byte>, pos: nat, acc: seq<Byte>): Result<At<seq<Byte>>>
    requires pos <= |src|
    decreases |src| - pos
  {
    if pos + 1 > |src| then Err(Truncated)
    else if src[pos] != 0 then Unescape(src, pos + 1, acc + [src[pos]])
    else if pos + 2 > |src| then Err(Truncated)
    else if src[pos + 1] == 0 then Ok(At(acc, pos + 2))
    else if src[pos + 1] == 0xff then Unescape(src, pos + 2, acc + [0])
    else Err(BadEscape)
  }

  /** One element whose tag is at `pos`. */
  function ReadElem(src: seq<Byte>, pos: nat): Result<At<Elem>>
    requires pos <= |src|
  {
    if pos + 1 > |src| then Err(Truncated)
    else
      var tag, p := src[pos], pos + 1;
      if tag == 0x10 then
        (match ReadNumber(src, p, 8) case Err(e) => Err(e) case Ok(r) => Ok(At(U64(r.value), r.pos)))
      else if tag == 0x11 then
        (match ReadNumber(src, p, 8) case Err(e) => Err(e) case Ok(r) => Ok(At(I64(r.value - TWO_63), r.pos)))
      else if tag == 0x12 then
        if p + 1 > |src| then Err(Truncated)
        else if src[p] == 0 then Ok(At(Boolean(false), p + 1))
        else if src[p] == 1 then Ok(At(Boolean(true), p + 1))
        else Err(BadBool)
      else if tag == 0x13 then
        if p + 16 > |src| then Err(Truncated) else Ok(At(Id16(src[p..p + 16]), p + 16))
      else if tag == 0x14 then
        (match Unescape(src, p, []) case Err(e) => Err(e) case Ok(r) => Ok(At(Bytes(r.value), r.pos)))
      else if tag == 0x15 then
        (match ReadNumber(src, p, 16) case Err(e) => Err(e) case Ok(r) => Ok(At(Decimal(r.value - TWO_127), r.pos)))
      else if tag == 0x16 then
        (match ReadNumber(src, p, 4) case Err(e) => Err(e) case Ok(r) => Ok(At(Variant(r.value), r.pos)))
      else if tag == 0x17 then
        if p + 1 > |src| then Err(Truncated)
        else if src[p] == 0 then Ok(At(Nothing, p + 1))
        else if src[p] == 1 then Ok(At(Something, p + 1))
        else Err(BadOption)
      else if tag == 0x18 then
        (match ReadNumber(src, p, 2) case Err(e) => Err(e) case Ok(r) => Ok(At(Tuple(r.value), r.pos)))
      else Err(UnknownTag)
  }

  lemma {:induction false} ReadAdvances(src: seq<Byte>, pos: nat, acc: seq<Byte>)
    requires pos <= |src|
    ensures Unescape(src, pos, acc).Ok? ==> pos < Unescape(src, pos, acc).value.pos <= |src|
    decreases |src| - pos
  {
    if pos + 1 <= |src| && src[pos] != 0 {
      ReadAdvances(src, pos + 1, acc + [src[pos]]);
    } else if pos + 2 <= |src| && src[pos] == 0 && src[pos + 1] == 0xff {
      ReadAdvances(src, pos + 2, acc + [0]);
    }
  }

  lemma ElemAdvances(src: seq<Byte>, pos: nat)
    requires pos <= |src|
    ensures ReadElem(src, pos).Ok? ==> pos < ReadElem(src, pos).value.pos <= |src|
  {
    if pos + 1 <= |src| {
      ReadAdvances(src, pos + 1, []);
    }
  }

  /** A known number of elements, after which nothing may follow. */
  function ReadKey(src: seq<Byte>, pos: nat, n: nat): Result<seq<Elem>>
    requires pos <= |src|
    decreases n
  {
    if n == 0 then (if pos == |src| then Ok([]) else Err(Trailing))
    else
      ElemAdvances(src, pos);
      match ReadElem(src, pos)
      case Err(e) => Err(e)
      case Ok(r) =>
        match ReadKey(src, r.pos, n - 1)
        case Err(e) => Err(e)
        case Ok(rest) => Ok([r.value] + rest)
  }

  /** All elements of a key, to its very end. */
  function ReadAll(src: seq<Byte>, pos: nat): Result<seq<Elem>>
    requires pos <= |src|
    decreases |src| - pos
  {
    if pos == |src| then Ok([])
    else
      ElemAdvances(src, pos);
      match ReadElem(src, pos)
      case Err(e) => Err(e)
      case Ok(r) =>
        match ReadAll(src, r.pos)
        case Err(e) => Err(e)
        case Ok(rest) => Ok([r.value] + rest)
  }

  // ---------------------------------------------------------------------------
  // Reader after writer
  // ---------------------------------------------------------------------------

  lemma {:induction false} BigEndianRead(n: nat, k: nat)
    requires n < Power(k)
    ensures FromBigEndian(BigEndian(n, k)) == n
    decreases k
  {
    if k > 0 {
      BigEndianRead(n / 256, k - 1);
      var b := BigEndian(n, k);
      assert b[..|b| - 1] == BigEndian(n / 256, k - 1) && b[|b| - 1] == Last(n);
    }
  }

  /** The format's own table: the tag, and what follows it. */
  ghost predicate Layout(t: seq<Byte>, e: Elem) {
    && t != []
    && var rest := t[1..];
      match e
      case U64(n) => t[0] == 0x10 && |rest| == 8 && FromBigEndian(rest) == n
      case I64(i) => t[0] == 0x11 && |rest| == 8 && FromBigEndian(rest) == i + 0x8000_0000_0000_0000
      case Boolean(b) => t == if b then [0x12, 1] else [0x12, 0]
      case Id16(id) => t[0] == 0x13 && rest == id
      case Bytes(s) => t[0] == 0x14 && Delimited(rest, s)
      case Decimal(c) =>
        t[0] == 0x15 && |rest| == 16 && FromBigEndian(rest) == c + 0x8000_0000_0000_0000_0000_0000_0000_0000
      case Variant(k) => t[0] == 0x16 && |rest| == 4 && FromBigEndian(rest) == k
      case Nothing => t == [0x17, 0]
      case Something => t == [0x17, 1]
      case Tuple(k) => t[0] == 0x18 && |rest| == 2 && FromBigEndian(rest) == k
  }

  /** Every zero byte is followed by an all-ones byte, and two zero bytes end it. */
  ghost predicate Delimited(t: seq<Byte>, s: seq<Byte>) {
    exists parts: seq<seq<Byte>> ::
      && |parts| == |s| && t == Concat(parts) + [0, 0]
      && forall i :: 0 <= i < |s| ==> parts[i] == if s[i] == 0 then [0, 0xff] else [s[i]]
  }

  lemma {:induction false} Escapes(s: seq<Byte>) returns (parts: seq<seq<Byte>>)
    ensures |parts| == |s| && Escape(s) == Concat(parts)
    ensures forall i :: 0 <= i < |s| ==> parts[i] == if s[i] == 0 then [0, 0xff] else [s[i]]
  {
    parts := [];
    if s != [] {
      var rest := Escapes(s[1..]);
      parts := [EscapeByte(s[0])] + rest;
      assert parts[1..] == rest;
    }
  }

  lemma WritesLayout(e: Elem)
    requires Fits(e)
    ensures Layout(Encode(e), e)
  {
    hide BigEndian, FromBigEndian, Escape, Power;
    Powers();
    assert Encode(e)[1..] == Payload(e);
    match e
    case U64(n) => BigEndianRead(n, 8);
    case I64(i) => BigEndianRead(i + TWO_63, 8);
    case Decimal(c) => BigEndianRead(c + TWO_127, 16);
    case Variant(k) => BigEndianRead(k, 4);
    case Tuple(k) => BigEndianRead(k, 2);
    case Bytes(s) => var parts := Escapes(s);
    case _ =>
  }

  lemma NumberAt(n: nat, k: nat, src: seq<Byte>, pos: nat, rest: seq<Byte>)
    requires n < Power(k) && pos <= |src| && src[pos..] == BigEndian(n, k) + rest
    ensures ReadNumber(src, pos, k) == Ok(At(n, pos + k))
  {
    BigEndianRead(n, k);
    var all := src[pos..];
    assert |all| == |src| - pos;
    assert src[pos..pos + k] == all[..k] == BigEndian(n, k);
  }

  lemma {:induction false} EscapedAt(s: seq<Byte>, src: seq<Byte>, pos: nat, rest: seq<Byte>, acc: seq<Byte>)
    requires pos <= |src| && src[pos..] == Escape(s) + ([0, 0] + rest)
    ensures Unescape(src, pos, acc) == Ok(At(acc + s, pos + |Escape(s)| + 2))
    decreases |s|
  {
    var all := src[pos..];
    assert |all| == |src| - pos;
    if s == [] {
      assert all == [0, 0] + rest;
      assert src[pos] == all[0] == 0 && src[pos + 1] == all[1] == 0;
      assert acc + s == acc;
    } else {
      var f := EscapeByte(s[0]);
      assert all == f + (Escape(s[1..]) + ([0, 0] + rest));
      assert src[pos] == all[0] == f[0];
      if s[0] == 0 {
        assert src[pos + 1] == all[1] == 0xff;
      }
      assert src[pos + |f|..] == all[|f|..] == Escape(s[1..]) + ([0, 0] + rest);
      EscapedAt(s[1..], src, pos + |f|, rest, acc + [s[0]]);
      assert (acc + [s[0]]) + s[1..] == acc + s;
    }
  }

  /** Reading where an element was written gives it back and stops right after it. */
  lemma ReadWritten(e: Elem, src: seq<Byte>, pos: nat, rest: seq<Byte>)
    requires Fits(e) && pos <= |src| && src[pos..] == Encode(e) + rest
    ensures ReadElem(src, pos) == Ok(At(e, pos + |Encode(e)|))
  {
    hide BigEndian, Escape, Unescape, ReadNumber, Power;
    Powers();
    var all, b := src[pos..], Payload(e);
    assert |all| == |src| - pos && all == [Tag(e)] + (b + rest);
    assert src[pos] == all[0] == Tag(e);
    assert src[pos + 1..] == all[1..] == b + rest;
    var p := pos + 1;
    match e
    case U64(n) => NumberAt(n, 8, src, p, rest);
    case I64(i) => NumberAt(Flip(i, TWO_63), 8, src, p, rest);
    case Boolean(_) => assert src[p] == src[p..][0];
    case Id16(id) => assert src[p..p + 16] == src[p..][..16] == id;
    case Bytes(s) =>
      assert b + rest == Escape(s) + ([0, 0] + rest);
      EscapedAt(s, src, p, rest, []);
      assert [] + s == s;
    case Decimal(c) => NumberAt(Flip(c, TWO_127), 16, src, p, rest);
    case Variant(k) => NumberAt(k, 4, src, p, rest);
    case Nothing => assert src[p] == src[p..][0];
    case Something => assert src[p] == src[p..][0];
    case Tuple(k) => NumberAt(k, 2, src, p, rest);
  }

  lemma {:induction false} ReadAllAt(es: seq<Elem>, src: seq<Byte>, pos: nat)
    requires AllFit(es) && pos <= |src| && src[pos..] == EncodeAll(es)
    ensures ReadAll(src, pos) == Ok(es)
    decreases |es|
  {
    hide ReadElem, Encode;
    if es == [] {
      assert pos == |src|;
    } else {
      var f, rest := Encode(es[0]), EncodeAll(es[1..]);
      ReadWritten(es[0], src, pos, rest);
      EncodeLength(es[0]);
      var all := src[pos..];
      assert |all| == |src| - pos;
      assert src[pos + |f|..] == all[|f|..] == rest;
      ReadAllAt(es[1..], src, pos + |f|);
      assert [es[0]] + es[1..] == es;
    }
  }

  lemma EncodeLength(e: Elem)
    requires Fits(e)
    ensures |Encode(e)| > 0
  {
  }

  /** The reader inverts the writer. */
  lemma ReadAllWritten(es: seq<Elem>)
    requires AllFit(es)
    ensures ReadAll(EncodeAll(es), 0) == Ok(es)
  {
    assert EncodeAll(es)[0..] == EncodeAll(es);
    ReadAllAt(es, EncodeAll(es), 0);
  }

  // ---------------------------------------------------------------------------
  // Writer after reader: only canonical bytes are accepted
  // ---------------------------------------------------------------------------

  lemma {:induction false} BigEndianWrite(b: seq<Byte>)
    ensures FromBigEndian(b) < Power(|b|) && BigEndian(FromBigEndian(b), |b|) == b
    decreases |b|
  {
    if b != [] {
      var k := |b| - 1;
      BigEndianWrite(b[..k]);
      var n := FromBigEndian(b[..k]);
      assert FromBigEndian(b) == 256 * n + b[k];
      assert FromBigEndian(b) / 256 == n && Last(FromBigEndian(b)) == b[k];
      assert b == b[..k] + [b[k]];
    }
  }

  lemma NumberWrite(src: seq<Byte>, pos: nat, k: nat)
    requires pos + k <= |src|
    ensures var n := FromBigEndian(src[pos..pos + k]); n < Power(k) && BigEndian(n, k) == src[pos..pos + k]
  {
    BigEndianWrite(src[pos..pos + k]);
  }

  lemma {:induction false} UnescapedWrite(src: seq<Byte>, pos: nat, acc: seq<Byte>)
    requires pos <= |src| && Unescape(src, pos, acc).Ok?
    ensures var r := Unescape(src, pos, acc).value;
            && pos <= r.pos <= |src| && |acc| <= |r.value| && r.value[..|acc|] == acc
            && src[pos..r.pos] == Escape(r.value[|acc|..]) + [0, 0]
    decreases |src| - pos
  {
    var r := Unescape(src, pos, acc).value;
    if src[pos] == 0 && src[pos + 1] == 0 {
      assert src[pos..pos + 2] == [0, 0] && acc[..|acc|] == acc && acc[|acc|..] == [];
    } else {
      var b := src[pos];
      var f := EscapeByte(b);
      assert src[pos..pos + |f|] == f;
      UnescapedWrite(src, pos + |f|, acc + [b]);
      var more := r.value[|acc| + 1..];
      assert r.value[..|acc| + 1] == acc + [b];
      assert r.value[|acc|] == b && r.value[|acc|..] == [b] + more;
      assert src[pos..r.pos] == src[pos..pos + |f|] + src[pos + |f|..r.pos];
      assert r.value[..|acc|] == r.value[..|acc| + 1][..|acc|] == acc;
    }
  }

  lemma TextWrite(src: seq<Byte>, pos: nat)
    requires pos <= |src| && Unescape(src, pos, []).Ok?
    ensures var r := Unescape(src, pos, []).value;
            pos <= r.pos <= |src| && src[pos..r.pos] == Escape(r.value) + [0, 0]
  {
    UnescapedWrite(src, pos, []);
    var r := Unescape(src, pos, []).value;
    assert r.value[0..] == r.value;
  }

  /** One tag byte and a payload are the encoding of the element they are read as. */
  lemma TagAndPayload(src: seq<Byte>, pos: nat, end: nat, e: Elem)
    requires Fits(e) && pos < end <= |src| && src[pos] == Tag(e) && src[pos + 1..end] == Payload(e)
    ensures Encode(e) == src[pos..end]
  {
    hide Payload, Tag, Fits;
    assert src[pos..end] == [src[pos]] + src[pos + 1..end];
  }

  lemma PayloadRead(src: seq<Byte>, pos: nat)
    requires pos <= |src| && ReadElem(src, pos).Ok?
    ensures var r := ReadElem(src, pos).value;
            && Fits(r.value) && pos < r.pos <= |src|
            && src[pos] == Tag(r.value) && src[pos + 1..r.pos] == Payload(r.value)
  {
    hide BigEndian, Escape, Unescape, Power, FromBigEndian;
    Powers();
    ElemAdvances(src, pos);
    var r, p := ReadElem(src, pos).value, pos + 1;
    match r.value
    case U64(_) => NumberWrite(src, p, 8);
    case I64(_) => NumberWrite(src, p, 8);
    case Boolean(_) => assert src[p..r.pos] == [src[p]];
    case Id16(_) =>
    case Bytes(s) => TextWrite(src, p);
    case Decimal(_) => NumberWrite(src, p, 16);
    case Variant(_) => NumberWrite(src, p, 4);
    case Nothing => assert src[p..r.pos] == [src[p]];
    case Something => assert src[p..r.pos] == [src[p]];
    case Tuple(_) => NumberWrite(src, p, 2);
  }

  /** What was read, written again, is the bytes that were read. */
  lemma WriteRead(src: seq<Byte>, pos: nat)
    requires pos <= |src| && ReadElem(src, pos).Ok?
    ensures var r := ReadElem(src, pos).value;
            Fits(r.value) && pos < r.pos <= |src| && Encode(r.value) == src[pos..r.pos]
  {
    hide ReadElem, Payload, Tag, Fits, Encode;
    PayloadRead(src, pos);
    TagAndPayload(src, pos, ReadElem(src, pos).value.pos, ReadElem(src, pos).value.value);
  }

  lemma {:induction false} WriteReadAll(src: seq<Byte>, pos: nat)
    requires pos <= |src| && ReadAll(src, pos).Ok?
    ensures AllFit(ReadAll(src, pos).value) && EncodeAll(ReadAll(src, pos).value) == src[pos..]
    decreases |src| - pos
  {
    hide ReadElem, Encode;
    if pos < |src| {
      ElemAdvances(src, pos);
      WriteRead(src, pos);
      var r := ReadElem(src, pos).value;
      WriteReadAll(src, r.pos);
      var es, rest := ReadAll(src, pos).value, ReadAll(src, r.pos).value;
      assert es[0] == r.value && es[1..] == rest;
      forall i | 0 <= i < |es|
        ensures Fits(es[i])
      {
        if i > 0 {
          assert es[i] == rest[i - 1];
        }
      }
      assert src[pos..] == src[pos..r.pos] + src[r.pos..];
    }
  }

  /** A byte string is accepted exactly if it is the encoding of some element list, which is then read. */
  lemma AcceptsCanonical(src: seq<Byte>, es: seq<Elem>)
    ensures ReadAll(src, 0) == Ok(es) <==> AllFit(es) && src == EncodeAll(es)
  {
    hide ReadAll, EncodeAll;
    if ReadAll(src, 0) == Ok(es) {
      WriteReadAll(src, 0);
      assert src[0..] == src;
    }
    if AllFit(es) && src == EncodeAll(es) {
      ReadAllWritten(es);
    }
  }

  /** Reading a known number of elements to the end is reading all of them, if there are that many. */
  lemma {:induction false} KeyIsAll(src: seq<Byte>, pos: nat, n: nat, es: seq<Elem>)
    requires pos <= |src|
    ensures ReadKey(src, pos, n) == Ok(es) <==> ReadAll(src, pos) == Ok(es) && |es| == n
    decreases n
  {
    hide ReadElem;
    ElemAdvances(src, pos);
    if n > 0 {
      AtEnd(src);
      if ReadElem(src, pos).Ok? && es != [] {
        KeyIsAll(src, ReadElem(src, pos).value.pos, n - 1, es[1..]);
        RestOf(ReadElem(src, pos).value.value, ReadKey(src, ReadElem(src, pos).value.pos, n - 1), es);
        RestOf(ReadElem(src, pos).value.value, ReadAll(src, ReadElem(src, pos).value.pos), es);
      }
    }
  }

  lemma AtEnd(src: seq<Byte>)
    ensures ReadElem(src, |src|) == Err(Truncated)
  {
  }

  lemma RestOf(e: Elem, r: Result<seq<Elem>>, es: seq<Elem>)
    requires es != []
    ensures r.Ok? ==> ([e] + r.value == es <==> e == es[0] && r.value == es[1..])
  {
    if r.Ok? {
      assert ([e] + r.value)[1..] == r.value;
    }
  }

  /** Exactly the encoding of a list of elements is read as that many elements with nothing left over. */
  lemma KeyExactly(src: seq<Byte>, es: seq<Elem>)
    ensures ReadKey(src, 0, |es|) == Ok(es) <==> AllFit(es) && src == EncodeAll(es)
  {
    hide ReadKey, ReadAll, EncodeAll;
    KeyIsAll(src, 0, |es|, es);
    AcceptsCanonical(src, es);
  }

  // ---------------------------------------------------------------------------
  // Prefix scans
  // ---------------------------------------------------------------------------

  ghost predicate HasPrefix(s: seq<Byte>, p: seq<Byte>) {
    |p| <= |s| && s[..|p|] == p
  }

  /** `u` is greater than every string that starts with `p`. */
  ghost predicate Bounds(p: seq<Byte>, u: seq<Byte>) {
    forall s :: HasPrefix(s, p) ==> Compare(s, u) < 0
  }

  ghost predicate AllOnes(p: seq<Byte>) {
    forall i :: 0 <= i < |p| ==> p[i] == 0xff
  }

  lemma {:induction false} AbovePrefix(q: seq<Byte>, c: Byte, s: seq<Byte>)
    requires c < 0xff && |q| < |s| && s[..|q|] == q && s[|q|] <= c
    ensures Compare(s, q + [(c + 1)]) < 0
  {
    var rest := s[|q|..];
    assert s == q + rest;
    CompareCommon(q, rest, [c + 1]);
  }

  /** Below the bound, some string with the prefix is at least as great. */
  lemma {:induction false} Reached(p: seq<Byte>, k: nat, t: seq<Byte>) returns (s: seq<Byte>)
    requires k < |p| && p[k] < 0xff && (forall i :: k < i < |p| ==> p[i] == 0xff)
    requires Compare(t, p[..k] + [(p[k] + 1)]) < 0
    ensures HasPrefix(s, p) && Compare(s, t) >= 0
    decreases |p|
  {
    if t == [] {
      s := p;
    } else if k == 0 {
      assert p[..0] == [];
      s := ReachedTop(p, t);
    } else if t[0] != p[0] {
      assert (p[..k] + [(p[k] + 1)])[0] == p[0];
      s := p;
    } else {
      var u := p[..k] + [(p[k] + 1)];
      assert u[0] == p[0] && u[1..] == p[1..][..k - 1] + [(p[1..][k - 1] + 1)];
      forall i | k - 1 < i < |p[1..]|
        ensures p[1..][i] == 0xff
      {
        assert p[1..][i] == p[i + 1];
      }
      var s' := Reached(p[1..], k - 1, t[1..]);
      s := [p[0]] + s';
      assert s[1..] == s';
      assert s[..|p|] == [p[0]] + s'[..|p| - 1] == p;
    }
  }

  lemma ReachedTop(p: seq<Byte>, t: seq<Byte>) returns (s: seq<Byte>)
    requires p != [] && t != [] && p[0] < 0xff && (forall i :: 0 < i < |p| ==> p[i] == 0xff)
    requires Compare(t, [(p[0] + 1)]) < 0
    ensures HasPrefix(s, p) && Compare(s, t) >= 0
  {
    if t[0] < p[0] {
      s := p;
    } else {
      assert t[0] == p[0];
      forall i | 0 <= i < |p[1..]|
        ensures p[1..][i] == 0xff
      {
        assert p[1..][i] == p[i + 1];
      }
      var s' := OnesReach(p[1..], t[1..]);
      s := [p[0]] + s';
      assert s[1..] == s';
      assert s[..|p|] == [p[0]] + s'[..|p| - 1] == p;
    }
  }

  /** No string bounds a prefix of ones only. */
  lemma {:induction false} OnesReach(p: seq<Byte>, t: seq<Byte>) returns (s: seq<Byte>)
    requires AllOnes(p)
    ensures HasPrefix(s, p) && Compare(s, t) >= 0
    decreases |p|, |t|
  {
    if t == [] {
      s := p;
    } else if p == [] {
      s := t;
      CompareEqual(s, t);
    } else {
      forall i | 0 <= i < |p[1..]|
        ensures p[1..][i] == 0xff
      {
        assert p[1..][i] == p[i + 1];
      }
      var s' := OnesReach(p[1..], t[1..]);
      s := [p[0]] + s';
      assert s[1..] == s';
      assert s[..|p|] == [p[0]] + s'[..|p| - 1] == p;
    }
  }

  /** The least string above all strings with the prefix, or none when the prefix is all ones. */
  method PrefixUpperBound(p: seq<Byte>) returns (u: Option<seq<Byte>>)
    ensures u.None? <==> AllOnes(p)
    ensures u.None? ==> forall t :: !Bounds(p, t)
    ensures u.Some? ==> Bounds(p, u.value) && forall t :: Bounds(p, t) ==> Compare(u.value, t) <= 0
  {
    var out := p;
    while out != []
      invariant |out| <= |p| && out == p[..|out|]
      invariant forall i :: |out| <= i < |p| ==> p[i] == 0xff
      decreases |out|
    {
      var k := |out| - 1;
      var last := out[k];
      out := out[..k];
      if last < 0xff {
        out := out + [last + 1];
        assert p[k] == last && p[..k] + [p[k] + 1] == out;
        LeastBound(p, k);
        return Some(out);
      }
    }
    forall t
      ensures !Bounds(p, t)
    {
      var s := OnesReach(p, t);
    }
    u := None;
  }

  lemma LeastBound(p: seq<Byte>, k: nat)
    requires k < |p| && p[k] < 0xff && (forall i :: k < i < |p| ==> p[i] == 0xff)
    ensures var u := p[..k] + [(p[k] + 1)];
            Bounds(p, u) && forall t :: Bounds(p, t) ==> Compare(u, t) <= 0
  {
    var u := p[..k] + [(p[k] + 1)];
    forall s | HasPrefix(s, p)
      ensures Compare(s, u) < 0
    {
      assert s[..k] == s[..|p|][..k] == p[..k] && s[k] == s[..|p|][k];
      AbovePrefix(p[..k], p[k], s);
    }
    forall t | Bounds(p, t)
      ensures Compare(u, t) <= 0
    {
      NotBelow(p, k, t);
      CompareFlip(u, t);
    }
  }

  lemma NotBelow(p: seq<Byte>, k: nat, t: seq<Byte>)
    requires k < |p| && p[k] < 0xff && (forall i :: k < i < |p| ==> p[i] == 0xff) && Bounds(p, t)
    ensures Compare(t, p[..k] + [(p[k] + 1)]) >= 0
  {
    if Compare(t, p[..k] + [(p[k] + 1)]) < 0 {
      var s := Reached(p, k, t);
      assert false;
    }
  }

  // ---------------------------------------------------------------------------
  // The writer and the reader as they run
  // ---------------------------------------------------------------------------

  lemma EscapeNext(v: seq<Byte>, i: nat, buf: seq<Byte>)
    requires i < |v|
    ensures var next := if v[i] == 0 then buf + [v[i]] + [0xff] else buf + [v[i]];
            next + Escape(v[i + 1..]) == buf + Escape(v[i..])
  {
    assert v[i..][1..] == v[i + 1..];
    var rest := Escape(v[i + 1..]);
    assert Escape(v[i..]) == EscapeByte(v[i]) + rest;
    assert buf + (EscapeByte(v[i]) + rest) == (buf + EscapeByte(v[i])) + rest;
    assert v[i] == 0 ==> buf + [v[i]] + [0xff] == buf + EscapeByte(v[i]);
  }

  class KeyWriter {
    var buf: seq<Byte>

    constructor ()
      ensures buf == []
    {
      buf := [];
    }

    method Number(tag: Byte, n: nat, k: nat)
      modifies this
      ensures buf == old(buf) + ([tag] + BigEndian(n, k))
    {
      buf := buf + [tag];
      buf := buf + BigEndian(n, k);
    }

    method Small(tag: Byte, b: Byte)
      modifies this
      ensures buf == old(buf) + [tag, b]
    {
      buf := buf + [tag];
      buf := buf + [b];
    }

    /** Escapes zeros one byte at a time and ends with the terminator. */
    method Escaped(v: seq<Byte>)
      modifies this
      ensures buf == old(buf) + ([0x14] + (Escape(v) + [0, 0]))
    {
      buf := buf + [0x14];
      ghost var head := buf;
      for i := 0 to |v|
        invariant buf + Escape(v[i..]) == head + Escape(v)
      {
        EscapeNext(v, i, buf);
        buf := buf + [v[i]];
        if v[i] == 0 {
          buf := buf + [0xff];
        }
      }
      assert buf == head + Escape(v);
      buf := buf + [0];
      buf := buf + [0];
    }

    method Push(e: Elem)
      requires Fits(e)
      modifies this
      ensures buf == old(buf) + Encode(e)
    {
      match e {
        case U64(n) => Number(0x10, n, 8);
        case I64(i) => Number(0x11, Flip(i, TWO_63), 8);
        case Boolean(b) => Small(0x12, if b then 1 else 0);
        case Id16(id) => buf := buf + ([0x13] + id);
        case Bytes(v) => Escaped(v);
        case Decimal(c) => Number(0x15, Flip(c, TWO_127), 16);
        case Variant(k) => Number(0x16, k, 4);
        case Nothing => Small(0x17, 0);
        case Something => Small(0x17, 1);
        case Tuple(k) => Number(0x18, k, 2);
      }
    }
  }

  class KeyReader {
    const src: seq<Byte>
    var pos: nat

    ghost predicate Valid()
      reads this
    {
      pos <= |src|
    }

    constructor (src: seq<Byte>)
      ensures this.src == src && pos == 0 && Valid()
    {
      this.src, pos := src, 0;
    }

    method Take(n: nat) returns (r: Result<seq<Byte>>)
      requires Valid()
      modifies this
      ensures Valid()
      ensures if old(pos) + n > |src| then r == Err(Truncated)
              else r == Ok(src[old(pos)..old(pos) + n]) && pos == old(pos) + n
    {
      if pos + n > |src| {
        return Err(Truncated);
      }
      r := Ok(src[pos..pos + n]);
      pos := pos + n;
    }

    /** The unescaping loop. */
    method Text() returns (r: Result<seq<Byte>>)
      requires Valid()
      modifies this
      ensures Valid()
      ensures match Unescape(src, old(pos), [])
              case Err(e) => r == Err(e)
              case Ok(a) => r == Ok(a.value) && pos == a.pos
    {
      var out: seq<Byte> := [];
      while true
        invariant Valid() && Unescape(src, pos, out) == Unescape(src, old(pos), [])
        decreases |src| - pos
      {
        var b := Take(1);
        if b.Err? {
          return b;
        }
        if b.value[0] == 0 {
          var n := Take(1);
          if n.Err? {
            return n;
          }
          if n.value[0] == 0 {
            return Ok(out);
          }
          if n.value[0] != 0xff {
            return Err(BadEscape);
          }
          out := out + [0];
        } else {
          out := out + [b.value[0]];
        }
      }
    }

    method Number(k: nat) returns (r: Result<nat>)
      requires Valid()
      modifies this
      ensures Valid()
      ensures match ReadNumber(src, old(pos), k)
              case Err(e) => r == Err(e)
              case Ok(a) => r == Ok(a.value) && pos == a.pos
    {
      var b := Take(k);
      r := if b.Err? then Err(b.error) else Ok(FromBigEndian(b.value));
    }

    method Elem() returns (r: Result<Elem>)
      requires Valid()
      modifies this
      ensures Valid()
      ensures match ReadElem(src, old(pos))
              case Err(e) => r == Err(e)
              case Ok(a) => r == Ok(a.value) && pos == a.pos
    {
      hide Unescape, ReadNumber;
      var t := Take(1);
      if t.Err? {
        return Err(t.error);
      }
      var tag := t.value[0];
      assert tag == src[old(pos)];
      if tag == 0x10 || tag == 0x11 {
        var n := Number(8);
        r := if n.Err? then Err(n.error) else if tag == 0x10 then Ok(U64(n.value)) else Ok(I64(n.value - TWO_63));
      } else if tag == 0x12 {
        var b := Take(1);
        r := if b.Err? then Err(b.error)
             else if b.value[0] == 0 then Ok(Boolean(false))
             else if b.value[0] == 1 then Ok(Boolean(true))
             else Err(BadBool);
      } else if tag == 0x13 {
        var b := Take(16);
        r := if b.Err? then Err(b.error) else Ok(Id16(b.value));
      } else if tag == 0x14 {
        var s := Text();
        r := if s.Err? then Err(s.error) else Ok(Bytes(s.value));
      } else if tag == 0x15 {
        var n := Number(16);
        r := if n.Err? then Err(n.error) else Ok(Decimal(n.value - TWO_127));
      } else if tag == 0x16 {
        var n := Number(4);
        r := if n.Err? then Err(n.error) else Ok(Variant(n.value));
      } else if tag == 0x17 {
        var b := Take(1);
        r := if b.Err? then Err(b.error)
             else if b.value[0] == 0 then Ok(Nothing)
             else if b.value[0] == 1 then Ok(Something)
             else Err(BadOption);
      } else if tag == 0x18 {
        var n := Number(2);
        r := if n.Err? then Err(n.error) else Ok(Tuple(n.value));
      } else {
        r := Err(UnknownTag);
      }
    }

    method Finish() returns (error: Option<KeyError>)
      requires Valid()
      ensures error == if pos == |src| then None else Some(Trailing)
    {
      error := if pos != |src| then Some(Trailing) else None;
    }

    /** A caller that knows how many elements a key has reads them and checks that nothing is left. */
    method Key(n: nat) returns (r: Result<seq<Elem>>)
      requires Valid()
      modifies this
      ensures r == ReadKey(src, old(pos), n)
    {
      hide ReadElem;
      var es: seq<Elem> := [];
      PrefixedNone(ReadKey(src, pos, n));
      for i := 0 to n
        invariant Valid() && Prefixed(es, ReadKey(src, pos, n - i)) == ReadKey(src, old(pos), n)
      {
        var e := Elem();
        if e.Err? {
          return Err(e.error);
        }
        PrefixedMore(es, e.value, ReadKey(src, pos, n - i - 1));
        es := es + [e.value];
      }
      var error := Finish();
      if error.Some? {
        return Err(error.value);
      }
      assert es + [] == es;
      return Ok(es);
    }
  }

  ghost function Prefixed(es: seq<Elem>, r: Result<seq<Elem>>): Result<seq<Elem>> {
    if r.Ok? then Ok(es + r.value) else r
  }

  lemma PrefixedNone(r: Result<seq<Elem>>)
    ensures Prefixed([], r) == r
  {
    if r.Ok? {
      assert [] + r.value == r.value;
    }
  }

  lemma PrefixedMore(es: seq<Elem>, e: Elem, r: Result<seq<Elem>>)
    ensures Prefixed(es + [e], r) == Prefixed(es, Prefixed([e], r))
  {
    if r.Ok? {
      assert (es + [e]) + r.value == es + ([e] + r.value);
    }
  }
}
