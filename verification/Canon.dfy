/**
  Restricted canonical JSON (a subset of RFC 8259 without numbers and without insignificant
  whitespace): a printer, and a strict parser that accepts exactly what the printer produces.
 */
module Canon {
  import opened Basics

  /** Objects list their members in strictly increasing key order, as a sorted map does. */
  datatype Value =
    | Null
    | Bool(b: bool)
    | Str(s: seq<Byte>)
    | Array(items: seq<Value>)
    | Object(members: seq<Member>)

  datatype Member = Member(key: seq<Byte>, value: Value)

  datatype Error = NonCanonical | ResourceLimit

  datatype Result<+T> = Ok(value: T) | Err(error: Error)

  /** Decoder limits, and what counts as well-formed UTF-8. */
  datatype Limits = Limits(payload: nat, depth: nat, collection: nat, scalar: nat, utf8: seq<Byte> -> bool)

  // ---------------------------------------------------------------------------
  // Printing
  // ---------------------------------------------------------------------------

  const QUOTE: Byte := 34
  const COMMA: Byte := 44
  const COLON: Byte := 58
  const OPEN: Byte := 91
  const BACKSLASH: Byte := 92
  const CLOSE: Byte := 93
  const BRACE: Byte := 123
  const UNBRACE: Byte := 125

  const NULL: seq<Byte> := [110, 117, 108, 108]
  const TRUE: seq<Byte> := [116, 114, 117, 101]
  const FALSE: seq<Byte> := [102, 97, 108, 115, 101]

  /** Lowercase hexadecimal digit. */
  function Hex(n: nat): Byte
    requires n < 16
  {
    if n < 10 then 48 + n else 87 + n
  }

  function EscapeByte(b: Byte): seq<Byte> {
    if b == QUOTE || b == BACKSLASH then [BACKSLASH, b]
    else if b < 32 then [BACKSLASH, 117, 48, 48, Hex(b / 16), Hex(b % 16)]
    else [b]
  }

  function Escape(s: seq<Byte>): seq<Byte> {
    if s == [] then [] else EscapeByte(s[0]) + Escape(s[1..])
  }

  function EncodeString(s: seq<Byte>): seq<Byte> {
    [QUOTE] + Escape(s) + [QUOTE]
  }

  function Encode(v: Value): seq<Byte>
    decreases v
  {
    match v
    case Null => NULL
    case Bool(b) => if b then TRUE else FALSE
    case Str(s) => EncodeString(s)
    case Array(items) => [OPEN] + EncodeItems(items) + [CLOSE]
    case Object(members) => [BRACE] + EncodeMembers(members) + [UNBRACE]
  }

  /** Comma-separated. */
  function EncodeItems(items: seq<Value>): seq<Byte>
    decreases items
  {
    if items == [] then []
    else if |items| == 1 then Encode(items[0])
    else Encode(items[0]) + [COMMA] + EncodeItems(items[1..])
  }

  function EncodeMember(m: Member): seq<Byte>
    decreases m, 1
  {
    EncodeString(m.key) + [COLON] + Encode(m.value)
  }

  function EncodeMembers(ms: seq<Member>): seq<Byte>
    decreases ms
  {
    if ms == [] then []
    else if |ms| == 1 then EncodeMember(ms[0])
    else EncodeMember(ms[0]) + [COMMA] + EncodeMembers(ms[1..])
  }

  // ---------------------------------------------------------------------------
  // Values a decoder may return
  // ---------------------------------------------------------------------------

  predicate Less(a: seq<Byte>, b: seq<Byte>) {
    if b == [] then false
    else if a == [] then true
    else if a[0] != b[0] then a[0] < b[0]
    else Less(a[1..], b[1..])
  }

  predicate Ascii(s: seq<Byte>) {
    forall i :: 0 <= i < |s| ==> s[i] < 128
  }

  predicate StringFits(l: Limits, s: seq<Byte>) {
    |Escape(s)| <= l.scalar + 8 && l.utf8(s)
  }

  /** Within the limits at nesting depth `d`, with ASCII keys in strictly increasing order. */
  predicate Fits(l: Limits, v: Value, d: nat)
    decreases v
  {
    match v
    case Null => true
    case Bool(_) => true
    case Str(s) => StringFits(l, s)
    case Array(items) => d < l.depth && |items| <= l.collection && ItemsFit(l, items, d + 1)
    case Object(ms) => d < l.depth && |ms| <= l.collection && MembersFit(l, ms, d + 1) && KeysAscend(ms)
  }

  predicate ItemsFit(l: Limits, items: seq<Value>, d: nat)
    decreases items
  {
    items == [] || (Fits(l, items[0], d) && ItemsFit(l, items[1..], d))
  }

  predicate MembersFit(l: Limits, ms: seq<Member>, d: nat)
    decreases ms
  {
    ms == [] ||
    (StringFits(l, ms[0].key) && Ascii(ms[0].key) && Fits(l, ms[0].value, d) && MembersFit(l, ms[1..], d))
  }

  predicate KeysAscend(ms: seq<Member>) {
    forall i :: 0 <= i < |ms| - 1 ==> Less(ms[i].key, ms[i + 1].key)
  }

  // ---------------------------------------------------------------------------
  // Parsing
  // ---------------------------------------------------------------------------

  /** A parsed value and the position after it. */
  datatype At<+T> = At(value: T, pos: nat)

  function Peek(src: seq<Byte>, pos: nat): int {
    if pos < |src| then src[pos] else -1
  }

  function Literal(src: seq<Byte>, pos: nat, lit: seq<Byte>, v: Value): Result<At<Value>> {
    if pos + |lit| <= |src| && src[pos..pos + |lit|] == lit then Ok(At(v, pos + |lit|)) else Err(NonCanonical)
  }

  predicate IsHex(b: Byte) {
    48 <= b <= 57 || 97 <= b <= 102
  }

  function Unhex(b: Byte): nat
    requires IsHex(b)
  {
    if b <= 57 then b - 48 else b - 87
  }

  /** What a backslash at `pos` stands for, and the position after the escape. */
  function ParseEscape(src: seq<Byte>, pos: nat): Result<At<Byte>>
    requires pos < |src|
  {
    var c := Peek(src, pos + 1);
    if c == QUOTE then Ok(At(QUOTE, pos + 2))
    else if c == BACKSLASH then Ok(At(BACKSLASH, pos + 2))
    else if c != 117 || pos + 6 > |src| then Err(NonCanonical)
    else
      var h := src[pos + 2..pos + 6];
      if !(IsHex(h[0]) && IsHex(h[1]) && IsHex(h[2]) && IsHex(h[3])) then Err(NonCanonical)
      else
        var cp := 4096 * Unhex(h[0]) + 256 * Unhex(h[1]) + 16 * Unhex(h[2]) + Unhex(h[3]);
        if cp >= 32 then Err(NonCanonical) else Ok(At(cp, pos + 6))
  }

  /** The rest of a string whose contents began at `start`. */
  function ParseChars(l: Limits, src: seq<Byte>, pos: nat, start: nat, out: seq<Byte>): (r: Result<At<seq<Byte>>>)
    requires start <= pos <= |src|
    ensures r.Ok? ==> pos < r.value.pos <= |src|
    decreases |src| - pos
  {
    if pos == |src| then Err(NonCanonical)
    else if pos - start > l.scalar + 8 then Err(ResourceLimit)
    else if src[pos] == QUOTE then (if l.utf8(out) then Ok(At(out, pos + 1)) else Err(NonCanonical))
    else if src[pos] == BACKSLASH then
      (match ParseEscape(src, pos)
       case Err(e) => Err(e)
       case Ok(c) => ParseChars(l, src, c.pos, start, out + [c.value]))
    else if src[pos] < 32 then Err(NonCanonical)
    else ParseChars(l, src, pos + 1, start, out + [src[pos]])
  }

  function ParseString(l: Limits, src: seq<Byte>, pos: nat): (r: Result<At<seq<Byte>>>)
    requires pos < |src|
    ensures r.Ok? ==> pos < r.value.pos <= |src|
  {
    ParseChars(l, src, pos + 1, pos + 1, [])
  }

  function ParseValue(l: Limits, src: seq<Byte>, pos: nat, d: nat): (r: Result<At<Value>>)
    requires pos <= |src|
    ensures r.Ok? ==> pos < r.value.pos <= |src|
    decreases |src| - pos, 0
  {
    var c := Peek(src, pos);
    if c == 110 then Literal(src, pos, NULL, Null)
    else if c == 116 then Literal(src, pos, TRUE, Bool(true))
    else if c == 102 then Literal(src, pos, FALSE, Bool(false))
    else if c == QUOTE then
      (match ParseString(l, src, pos) case Err(e) => Err(e) case Ok(s) => Ok(At(Str(s.value), s.pos)))
    else if c == OPEN then
      if d + 1 > l.depth then Err(ResourceLimit)
      else if Peek(src, pos + 1) == CLOSE then Ok(At(Array([]), pos + 2))
      else (match ParseItems(l, src, pos + 1, d + 1, []) case Err(e) => Err(e)
            case Ok(a) => Ok(At(Array(a.value), a.pos)))
    else if c == BRACE then
      if d + 1 > l.depth then Err(ResourceLimit)
      else if Peek(src, pos + 1) == UNBRACE then Ok(At(Object([]), pos + 2))
      else (match ParseMembers(l, src, pos + 1, d + 1, []) case Err(e) => Err(e)
            case Ok(a) => Ok(At(Object(a.value), a.pos)))
    else Err(NonCanonical)
  }

  /** Items up to the closing bracket, after those already read. */
  function ParseItems(l: Limits, src: seq<Byte>, pos: nat, d: nat, items: seq<Value>): (r: Result<At<seq<Value>>>)
    requires pos <= |src|
    ensures r.Ok? ==> pos < r.value.pos <= |src|
    decreases |src| - pos, 1
  {
    match ParseValue(l, src, pos, d)
    case Err(e) => Err(e)
    case Ok(v) =>
      var more := items + [v.value];
      if |more| > l.collection then Err(ResourceLimit)
      else if Peek(src, v.pos) == COMMA then ParseItems(l, src, v.pos + 1, d, more)
      else if Peek(src, v.pos) == CLOSE then Ok(At(more, v.pos + 1))
      else Err(NonCanonical)
  }

  /** Key order is checked against the key before. */
  predicate InOrder(ms: seq<Member>, key: seq<Byte>) {
    ms == [] || Less(ms[|ms| - 1].key, key)
  }

  function ParseKey(l: Limits, src: seq<Byte>, pos: nat, ms: seq<Member>): (r: Result<At<seq<Byte>>>)
    requires pos <= |src|
    ensures r.Ok? ==> pos < r.value.pos <= |src|
  {
    if Peek(src, pos) != QUOTE then Err(NonCanonical)
    else match ParseString(l, src, pos)
      case Err(e) => Err(e)
      case Ok(k) =>
        if !Ascii(k.value) || !InOrder(ms, k.value) || Peek(src, k.pos) != COLON then Err(NonCanonical)
        else Ok(At(k.value, k.pos + 1))
  }

  function ParseMembers(l: Limits, src: seq<Byte>, pos: nat, d: nat, ms: seq<Member>): (r: Result<At<seq<Member>>>)
    requires pos <= |src|
    ensures r.Ok? ==> pos < r.value.pos <= |src|
    decreases |src| - pos, 1
  {
    match ParseKey(l, src, pos, ms)
    case Err(e) => Err(e)
    case Ok(k) =>
      match ParseValue(l, src, k.pos, d)
      case Err(e) => Err(e)
      case Ok(v) =>
        var more := ms + [Member(k.value, v.value)];
        if |more| > l.collection then Err(ResourceLimit)
        else if Peek(src, v.pos) == COMMA then ParseMembers(l, src, v.pos + 1, d, more)
        else if Peek(src, v.pos) == UNBRACE then Ok(At(more, v.pos + 1))
        else Err(NonCanonical)
  }

  function Decode(l: Limits, bytes: seq<Byte>): Result<Value> {
    if |bytes| > l.payload then Err(ResourceLimit)
    else match ParseValue(l, bytes, 0, 0)
      case Err(e) => Err(e)
      case Ok(v) =>
        if v.pos != |bytes| then Err(NonCanonical)
        else if Encode(v.value) != bytes then Err(NonCanonical)
        else Ok(v.value)
  }

  // ---------------------------------------------------------------------------
  // Positions
  // ---------------------------------------------------------------------------

  /** The bytes from `pos` on begin with `f`. */
  ghost predicate Starts(src: seq<Byte>, pos: nat, f: seq<Byte>) {
    pos + |f| <= |src| && forall i :: 0 <= i < |f| ==> src[pos + i] == f[i]
  }

  lemma StartsParts(src: seq<Byte>, pos: nat, a: seq<Byte>, b: seq<Byte>)
    requires Starts(src, pos, a + b)
    ensures Starts(src, pos, a) && Starts(src, pos + |a|, b)
  {
    forall i | 0 <= i < |a|
      ensures src[pos + i] == a[i]
    {
      assert (a + b)[i] == a[i];
    }
    forall i | 0 <= i < |b|
      ensures src[pos + |a| + i] == b[i]
    {
      assert src[pos + (|a| + i)] == (a + b)[|a| + i] == b[i];
    }
  }

  lemma StartsPeek(src: seq<Byte>, pos: nat, f: seq<Byte>)
    requires Starts(src, pos, f)
    ensures pos + |f| <= |src| && src[pos..pos + |f|] == f
    ensures f != [] ==> pos < |src| && Peek(src, pos) == src[pos] == f[0]
  {
    if f != [] {
      assert src[pos + 0] == f[0];
    }
  }

  lemma Cut(src: seq<Byte>, a: nat, b: nat, c: nat)
    requires a <= b <= c <= |src|
    ensures src[a..c] == src[a..b] + src[b..c]
  {
  }

  // ---------------------------------------------------------------------------
  // Strings
  // ---------------------------------------------------------------------------

  lemma HexInverse(n: nat)
    requires n < 16
    ensures IsHex(Hex(n)) && Unhex(Hex(n)) == n
  {
  }

  lemma UnhexInverse(b: Byte)
    requires IsHex(b)
    ensures Unhex(b) < 16 && Hex(Unhex(b)) == b
  {
  }

  /** Reading one printed byte. */
  lemma EscapeRead(b: Byte, src: seq<Byte>, pos: nat)
    requires Starts(src, pos, EscapeByte(b))
    ensures pos < |src|
    ensures if b == QUOTE || b == BACKSLASH || b < 32
            then src[pos] == BACKSLASH && ParseEscape(src, pos) == Ok(At(b, pos + |EscapeByte(b)|))
            else src[pos] == b && EscapeByte(b) == [b]
  {
    var f := EscapeByte(b);
    StartsPeek(src, pos, f);
    if b < 32 {
      HexInverse(b / 16);
      HexInverse(b % 16);
      var h := src[pos + 2..pos + 6];
      assert src[pos + 1] == f[1] && src[pos + 2] == f[2] && src[pos + 3] == f[3] && src[pos + 4] == f[4] &&
             src[pos + 5] == f[5];
      assert h[0] == 48 && h[1] == 48 && h[2] == Hex(b / 16) && h[3] == Hex(b % 16);
    } else if |f| > 1 {
      assert src[pos + 1] == f[1];
    }
  }

  /** An accepted escape is the printed form of the byte it stands for. */
  lemma EscapeWrite(src: seq<Byte>, pos: nat)
    requires pos < |src| && src[pos] == BACKSLASH && ParseEscape(src, pos).Ok?
    ensures var r := ParseEscape(src, pos).value;
            r.pos <= |src| && src[pos..r.pos] == EscapeByte(r.value)
  {
    var r := ParseEscape(src, pos).value;
    var c := Peek(src, pos + 1);
    if c == QUOTE || c == BACKSLASH {
      assert src[pos..pos + 2] == [src[pos], src[pos + 1]];
    } else {
      var h := src[pos + 2..pos + 6];
      UnhexInverse(h[0]);
      UnhexInverse(h[1]);
      UnhexInverse(h[2]);
      UnhexInverse(h[3]);
      assert Unhex(h[0]) == 0 && Unhex(h[1]) == 0;
      assert r.value / 16 == Unhex(h[2]) && r.value % 16 == Unhex(h[3]);
      assert src[pos..pos + 6] == [src[pos], src[pos + 1], h[0], h[1], h[2], h[3]];
    }
  }

  /** One accepted character, plain or escaped, is the printed form of its byte. */
  lemma CharWritten(src: seq<Byte>, pos: nat, c: At<Byte>)
    requires pos < |src| && src[pos] != QUOTE
    requires if src[pos] == BACKSLASH then ParseEscape(src, pos) == Ok(c)
             else src[pos] >= 32 && c == At(src[pos], pos + 1)
    ensures pos < c.pos <= |src| && src[pos..c.pos] == EscapeByte(c.value)
  {
    if src[pos] == BACKSLASH {
      EscapeWrite(src, pos);
    } else {
      assert src[pos..pos + 1] == [src[pos]];
    }
  }

  lemma {:induction false} CharsWritten(l: Limits, src: seq<Byte>, pos: nat, start: nat, out: seq<Byte>)
    requires start <= pos <= |src| && ParseChars(l, src, pos, start, out).Ok?
    ensures var r := ParseChars(l, src, pos, start, out).value;
            && |out| <= |r.value| && r.value[..|out|] == out && l.utf8(r.value)
            && src[pos..r.pos] == Escape(r.value[|out|..]) + [QUOTE]
            && r.pos - 1 - start <= l.scalar + 8
    decreases |src| - pos
  {
    hide ParseEscape;
    hide EscapeByte;
    var r := ParseChars(l, src, pos, start, out).value;
    if src[pos] == QUOTE {
      assert src[pos..pos + 1] == [QUOTE] && out[|out|..] == [] && out[..|out|] == out;
    } else {
      var c := if src[pos] == BACKSLASH then ParseEscape(src, pos).value else At(src[pos], pos + 1);
      CharWritten(src, pos, c);
      CharsWritten(l, src, c.pos, start, out + [c.value]);
      CharsJoin(r.value, out, c.value);
      Cut(src, pos, c.pos, r.pos);
    }
  }

  lemma CharsJoin(all: seq<Byte>, out: seq<Byte>, c: Byte)
    requires |out| < |all| && all[..|out| + 1] == out + [c]
    ensures all[..|out|] == out && Escape(all[|out|..]) == EscapeByte(c) + Escape(all[|out| + 1..])
  {
    assert all[..|out|] == all[..|out| + 1][..|out|];
    assert all[|out|] == all[..|out| + 1][|out|] == c;
    assert all[|out|..][1..] == all[|out| + 1..];
  }

  lemma {:induction false} CharsRead(l: Limits, t: seq<Byte>, src: seq<Byte>, pos: nat, start: nat, out: seq<Byte>)
    requires start <= pos <= |src| && Starts(src, pos, Escape(t)) && Peek(src, pos + |Escape(t)|) == QUOTE
    requires pos - start + |Escape(t)| <= l.scalar + 8 && l.utf8(out + t)
    ensures ParseChars(l, src, pos, start, out) == Ok(At(out + t, pos + |Escape(t)| + 1))
    decreases |t|
  {
    hide ParseEscape, Starts, EscapeByte;
    if t == [] {
      assert out + t == out;
    } else {
      var f := EscapeByte(t[0]);
      StartsParts(src, pos, f, Escape(t[1..]));
      EscapeRead(t[0], src, pos);
      StartsPeek(src, pos, f);
      assert (out + [t[0]]) + t[1..] == out + t;
      CharsRead(l, t[1..], src, pos + |f|, start, out + [t[0]]);
    }
  }

  lemma StringWritten(l: Limits, src: seq<Byte>, pos: nat)
    requires pos < |src| && src[pos] == QUOTE && ParseString(l, src, pos).Ok?
    ensures var r := ParseString(l, src, pos).value;
            src[pos..r.pos] == EncodeString(r.value) && StringFits(l, r.value)
  {
    CharsWritten(l, src, pos + 1, pos + 1, []);
    var r := ParseString(l, src, pos).value;
    assert r.value[0..] == r.value;
    Cut(src, pos, pos + 1, r.pos);
    assert src[pos..pos + 1] == [QUOTE];
    assert |src[pos + 1..r.pos]| == r.pos - pos - 1;
  }

  lemma StringParts(src: seq<Byte>, pos: nat, s: seq<Byte>)
    requires Starts(src, pos, EncodeString(s))
    ensures Peek(src, pos) == QUOTE && Starts(src, pos + 1, Escape(s)) && Peek(src, pos + 1 + |Escape(s)|) == QUOTE
    ensures |EncodeString(s)| == |Escape(s)| + 2
  {
    hide Starts, Escape;
    StartsPeek(src, pos, EncodeString(s));
    StartsParts(src, pos, [QUOTE] + Escape(s), [QUOTE]);
    StartsParts(src, pos, [QUOTE], Escape(s));
    StartsPeek(src, pos + 1 + |Escape(s)|, [QUOTE]);
  }

  lemma StringRead(l: Limits, s: seq<Byte>, src: seq<Byte>, pos: nat)
    requires Starts(src, pos, EncodeString(s)) && StringFits(l, s)
    ensures pos < |src| && src[pos] == QUOTE
    ensures ParseString(l, src, pos) == Ok(At(s, pos + |EncodeString(s)|))
  {
    hide Starts, Escape, EncodeString, ParseChars;
    StringParts(src, pos, s);
    assert [] + s == s;
    CharsRead(l, s, src, pos + 1, pos + 1, []);
  }

  // ---------------------------------------------------------------------------
  // Accepted bytes are the printed form of the value they give
  // ---------------------------------------------------------------------------

  lemma {:induction false} ValueWritten(l: Limits, src: seq<Byte>, pos: nat, d: nat)
    requires pos <= |src| && ParseValue(l, src, pos, d).Ok?
    ensures var r := ParseValue(l, src, pos, d).value;
            src[pos..r.pos] == Encode(r.value) && Fits(l, r.value, d)
    decreases |src| - pos, 0
  {
    hide ParseString, ParseItems, ParseMembers, EncodeString, StringFits, EncodeItems, EncodeMembers;
    var c, r := Peek(src, pos), ParseValue(l, src, pos, d).value;
    if c == QUOTE {
      StringWritten(l, src, pos);
    } else if c == OPEN && Peek(src, pos + 1) != CLOSE {
      ItemsWritten(l, src, pos + 1, d + 1, []);
      ArrayJoin(src, pos, r.pos, r.value.items);
    } else if c == BRACE && Peek(src, pos + 1) != UNBRACE {
      MembersWritten(l, src, pos + 1, d + 1, []);
      ObjectJoin(src, pos, r.pos, r.value.members);
    } else if c == OPEN || c == BRACE {
      assert src[pos..pos + 2] == [src[pos], src[pos + 1]];
      EmptyWritten();
    }
  }

  lemma EmptyWritten()
    ensures Encode(Array([])) == [OPEN, CLOSE] && Encode(Object([])) == [BRACE, UNBRACE]
  {
  }

  lemma ArrayJoin(src: seq<Byte>, pos: nat, end: nat, items: seq<Value>)
    requires pos < end <= |src| && src[pos] == OPEN
    requires items[0..] == items ==> src[pos + 1..end] == EncodeItems(items[0..]) + [CLOSE]
    ensures src[pos..end] == Encode(Array(items))
  {
    assert items[0..] == items;
    Cut(src, pos, pos + 1, end);
    assert src[pos..pos + 1] == [OPEN];
  }

  lemma ObjectJoin(src: seq<Byte>, pos: nat, end: nat, ms: seq<Member>)
    requires pos < end <= |src| && src[pos] == BRACE
    requires ms[0..] == ms ==> src[pos + 1..end] == EncodeMembers(ms[0..]) + [UNBRACE]
    ensures src[pos..end] == Encode(Object(ms))
  {
    assert ms[0..] == ms;
    Cut(src, pos, pos + 1, end);
    assert src[pos..pos + 1] == [BRACE];
  }

  /** New items, after those in `items`, were printed with commas and a closing bracket. */
  lemma {:induction false} ItemsWritten(l: Limits, src: seq<Byte>, pos: nat, d: nat, items: seq<Value>)
    requires pos <= |src| && ParseItems(l, src, pos, d, items).Ok?
    ensures var r := ParseItems(l, src, pos, d, items).value;
            && |items| < |r.value| <= l.collection && r.value[..|items|] == items
            && src[pos..r.pos] == EncodeItems(r.value[|items|..]) + [CLOSE]
            && ItemsFit(l, r.value[|items|..], d)
    decreases |src| - pos, 1
  {
    hide ParseValue, Encode, Fits, EncodeItems, ItemsFit;
    ValueWritten(l, src, pos, d);
    var v, r := ParseValue(l, src, pos, d).value, ParseItems(l, src, pos, d, items).value;
    var more := items + [v.value];
    if Peek(src, v.pos) == COMMA {
      ItemsWritten(l, src, v.pos + 1, d, more);
      var tail := r.value[|more|..];
      ListJoin(r.value, items, v.value);
      ItemsJoin(l, v.value, tail, d);
      Separated(src, pos, v.pos, r.pos);
      Regroup(Encode(v.value) + [COMMA], EncodeItems(tail), [CLOSE]);
    } else {
      assert more[|items|..] == [v.value] && more[..|items|] == items;
      OneItem(l, v.value, d);
      Separated(src, pos, v.pos, r.pos);
      assert src[v.pos + 1..r.pos] == [];
    }
  }

  /** A slice around one separator byte. */
  lemma Separated(src: seq<Byte>, pos: nat, mid: nat, end: nat)
    requires pos <= mid < end <= |src|
    ensures src[pos..end] == src[pos..mid] + [src[mid]] + src[mid + 1..end]
  {
    assert src[mid..end] == [src[mid]] + src[mid + 1..end];
  }

  lemma OneItem(l: Limits, v: Value, d: nat)
    requires Fits(l, v, d)
    ensures EncodeItems([v]) == Encode(v) && ItemsFit(l, [v], d)
  {
    hide Encode, Fits;
    assert [v][1..] == [];
    assert ItemsFit(l, [], d);
  }

  lemma ListJoin<T>(all: seq<T>, before: seq<T>, x: T)
    requires |before| < |all| && all[..|before| + 1] == before + [x]
    ensures all[..|before|] == before && all[|before|..] == [x] + all[|before| + 1..]
  {
    assert all[..|before|] == all[..|before| + 1][..|before|];
    assert all[|before|] == all[..|before| + 1][|before|] == x;
  }

  lemma ItemsJoin(l: Limits, v: Value, tail: seq<Value>, d: nat)
    requires tail != [] && Fits(l, v, d) && ItemsFit(l, tail, d)
    ensures EncodeItems([v] + tail) == Encode(v) + [COMMA] + EncodeItems(tail) && ItemsFit(l, [v] + tail, d)
  {
    hide Encode, Fits;
    assert ([v] + tail)[1..] == tail;
  }

  lemma MembersJoin(l: Limits, m: Member, tail: seq<Member>, d: nat)
    requires StringFits(l, m.key) && Ascii(m.key) && Fits(l, m.value, d) && MembersFit(l, tail, d)
    ensures MembersFit(l, [m] + tail, d)
    ensures EncodeMembers([m] + tail) == EncodeMember(m) + if tail == [] then [] else [COMMA] + EncodeMembers(tail)
  {
    hide EncodeMember, StringFits, Ascii, Fits;
    assert ([m] + tail)[1..] == tail && ([m] + tail)[0] == m;
    if tail == [] {
      assert EncodeMember(m) + [] == EncodeMember(m);
    } else {
      assert EncodeMember(m) + [COMMA] + EncodeMembers(tail) == EncodeMember(m) + ([COMMA] + EncodeMembers(tail));
    }
  }

  lemma NoMembersFit(l: Limits, d: nat)
    ensures MembersFit(l, [], d)
  {
  }

  lemma KeyWritten(l: Limits, src: seq<Byte>, pos: nat, ms: seq<Member>)
    requires pos <= |src| && ParseKey(l, src, pos, ms).Ok?
    ensures var k := ParseKey(l, src, pos, ms).value;
            && src[pos..k.pos] == EncodeString(k.value) + [COLON]
            && StringFits(l, k.value) && Ascii(k.value) && InOrder(ms, k.value)
  {
    hide ParseString, EncodeString, StringFits;
    StringWritten(l, src, pos);
    var s := ParseString(l, src, pos).value;
    Cut(src, pos, s.pos, s.pos + 1);
    assert src[s.pos..s.pos + 1] == [COLON];
  }

  lemma MemberWritten(l: Limits, src: seq<Byte>, pos: nat, d: nat, ms: seq<Member>, k: At<seq<Byte>>, v: At<Value>)
    requires pos <= k.pos <= v.pos <= |src|
    requires src[pos..k.pos] == EncodeString(k.value) + [COLON] && src[k.pos..v.pos] == Encode(v.value)
    ensures src[pos..v.pos] == EncodeMember(Member(k.value, v.value))
  {
    hide EncodeString, Encode;
    Cut(src, pos, k.pos, v.pos);
  }

  lemma KeysJoin(ms: seq<Member>, m: Member)
    requires KeysAscend(ms) && InOrder(ms, m.key)
    ensures KeysAscend(ms + [m])
  {
  }

  lemma {:induction false} MembersWritten(l: Limits, src: seq<Byte>, pos: nat, d: nat, ms: seq<Member>)
    requires pos <= |src| && ParseMembers(l, src, pos, d, ms).Ok? && KeysAscend(ms)
    ensures var r := ParseMembers(l, src, pos, d, ms).value;
            && |ms| < |r.value| <= l.collection && r.value[..|ms|] == ms
            && src[pos..r.pos] == EncodeMembers(r.value[|ms|..]) + [UNBRACE]
            && MembersFit(l, r.value[|ms|..], d) && KeysAscend(r.value)
    decreases |src| - pos, 1
  {
    hide ParseValue, ParseKey, Encode, EncodeString, EncodeMember, EncodeMembers, Fits, StringFits, Ascii, InOrder,
         KeysAscend,
         MembersFit;
    KeyWritten(l, src, pos, ms);
    var k := ParseKey(l, src, pos, ms).value;
    ValueWritten(l, src, k.pos, d);
    var v, r := ParseValue(l, src, k.pos, d).value, ParseMembers(l, src, pos, d, ms).value;
    MemberWritten(l, src, pos, d, ms, k, v);
    var m := Member(k.value, v.value);
    var more := ms + [m];
    KeysJoin(ms, m);
    if Peek(src, v.pos) == COMMA {
      MembersWritten(l, src, v.pos + 1, d, more);
      var tail := r.value[|more|..];
      ListJoin(r.value, ms, m);
      MembersJoin(l, m, tail, d);
      Cut(src, pos, v.pos, r.pos);
      Cut(src, v.pos, v.pos + 1, r.pos);
      assert src[v.pos..v.pos + 1] == [COMMA];
    } else {
      NoMembersFit(l, d);
      MembersJoin(l, m, [], d);
      assert more[|ms|..] == [m] + [] && more[..|ms|] == ms;
      Cut(src, pos, v.pos, r.pos);
      assert src[v.pos..v.pos + 1] == [UNBRACE];
    }
  }

  // ---------------------------------------------------------------------------
  // Printed values are accepted
  // ---------------------------------------------------------------------------

  lemma EncodeHead(v: Value)
    ensures Encode(v) != [] && Encode(v)[0] != CLOSE
  {
  }

  lemma LiteralRead(lit: seq<Byte>, v: Value, src: seq<Byte>, pos: nat)
    requires Starts(src, pos, lit) && lit != []
    ensures Literal(src, pos, lit, v) == Ok(At(v, pos + |lit|)) && Peek(src, pos) == lit[0]
  {
    hide Starts;
    StartsPeek(src, pos, lit);
  }

  /** A value within the limits is read back from its printed form, whatever follows. */
  lemma {:induction false} ValueRead(l: Limits, v: Value, src: seq<Byte>, pos: nat, d: nat)
    requires pos <= |src| && Starts(src, pos, Encode(v)) && Fits(l, v, d)
    ensures ParseValue(l, src, pos, d) == Ok(At(v, pos + |Encode(v)|))
    decreases v, 0
  {
    hide ParseString, ParseItems, ParseMembers, EncodeString, StringFits, EncodeItems, EncodeMembers, ItemsFit,
         MembersFit,
         KeysAscend, Starts, Literal;
    match v
    case Null => LiteralRead(NULL, v, src, pos);
    case Bool(b) => LiteralRead(if b then TRUE else FALSE, v, src, pos);
    case Str(s) => StringRead(l, s, src, pos);
    case Array(items) => ArrayRead(l, items, src, pos, d);
    case Object(ms) => ObjectRead(l, ms, src, pos, d);
  }

  lemma Wrapped(src: seq<Byte>, pos: nat, a: Byte, f: seq<Byte>, b: Byte)
    requires Starts(src, pos, [a] + f + [b])
    ensures Peek(src, pos) == a && Starts(src, pos + 1, f) && Peek(src, pos + 1 + |f|) == b && pos + 1 + |f| < |src|
  {
    hide Starts;
    StartsParts(src, pos, [a] + f, [b]);
    StartsParts(src, pos, [a], f);
    StartsPeek(src, pos, [a]);
    StartsPeek(src, pos + 1 + |f|, [b]);
  }

  lemma {:induction false} ArrayRead(l: Limits, items: seq<Value>, src: seq<Byte>, pos: nat, d: nat)
    requires pos <= |src| && Starts(src, pos, Encode(Array(items))) && Fits(l, Array(items), d)
    ensures ParseValue(l, src, pos, d) == Ok(At(Array(items), pos + |Encode(Array(items))|))
    decreases items, 2
  {
    hide ParseItems, EncodeItems, ItemsFit, Starts;
    Wrapped(src, pos, OPEN, EncodeItems(items), CLOSE);
    ItemsHead(items);
    if items != [] {
      StartsPeek(src, pos + 1, EncodeItems(items));
      ItemsRead(l, items, src, pos + 1, d + 1, []);
      assert [] + items == items;
    }
  }

  lemma ItemsHead(items: seq<Value>)
    ensures if items == [] then EncodeItems(items) == [] else EncodeItems(items) != [] && EncodeItems(items)[0] != CLOSE
  {
    hide Encode;
    if items != [] {
      EncodeHead(items[0]);
    }
  }

  /** Where the printed items, split after the first, start. */
  lemma ItemsParts(src: seq<Byte>, pos: nat, items: seq<Value>)
    requires items != [] && Starts(src, pos, EncodeItems(items))
    ensures var f := Encode(items[0]);
            && Starts(src, pos, f)
            && (|items| == 1 ==> EncodeItems(items) == f)
            && (|items| > 1 ==>
                  && Peek(src, pos + |f|) == COMMA && pos + |f| < |src|
                  && Starts(src, pos + |f| + 1, EncodeItems(items[1..]))
                  && |EncodeItems(items)| == |f| + 1 + |EncodeItems(items[1..])|)
  {
    hide Encode, Starts;
    var f := Encode(items[0]);
    if |items| > 1 {
      StartsParts(src, pos, f + [COMMA], EncodeItems(items[1..]));
      StartsParts(src, pos, f, [COMMA]);
      StartsPeek(src, pos + |f|, [COMMA]);
    }
  }

  lemma {:induction false} ItemsRead(l: Limits, new_: seq<Value>, src: seq<Byte>, pos: nat, d: nat, items: seq<Value>)
    requires pos <= |src| && new_ != [] && Starts(src, pos, EncodeItems(new_)) &&
             Peek(src, pos + |EncodeItems(new_)|) == CLOSE
    requires ItemsFit(l, new_, d) && |items| + |new_| <= l.collection
    ensures ParseItems(l, src, pos, d, items) == Ok(At(items + new_, pos + |EncodeItems(new_)| + 1))
    decreases new_, 1
  {
    hide ParseValue, Encode, Fits, EncodeItems, Starts;
    ItemsParts(src, pos, new_);
    var v, f := new_[0], Encode(new_[0]);
    ValueRead(l, v, src, pos, d);
    if |new_| == 1 {
      assert new_ == [v];
    } else {
      assert (items + [v]) + new_[1..] == items + new_;
      ItemsRead(l, new_[1..], src, pos + |f| + 1, d, items + [v]);
    }
  }

  lemma {:induction false} ObjectRead(l: Limits, ms: seq<Member>, src: seq<Byte>, pos: nat, d: nat)
    requires pos <= |src| && Starts(src, pos, Encode(Object(ms))) && Fits(l, Object(ms), d)
    ensures ParseValue(l, src, pos, d) == Ok(At(Object(ms), pos + |Encode(Object(ms))|))
    decreases ms, 2
  {
    hide ParseMembers, EncodeMembers, MembersFit, KeysAscend, Starts;
    Wrapped(src, pos, BRACE, EncodeMembers(ms), UNBRACE);
    MembersHead(ms);
    if ms != [] {
      StartsPeek(src, pos + 1, EncodeMembers(ms));
      assert [] + ms == ms;
      MembersRead(l, ms, src, pos + 1, d + 1, []);
    }
  }

  lemma MembersHead(ms: seq<Member>)
    ensures if ms == [] then EncodeMembers(ms) == [] else EncodeMembers(ms) != [] && EncodeMembers(ms)[0] == QUOTE
  {
    hide Encode, Escape;
  }

  lemma KeyRead(l: Limits, key: seq<Byte>, src: seq<Byte>, pos: nat, ms: seq<Member>)
    requires pos <= |src| && Starts(src, pos, EncodeString(key)) && Peek(src, pos + |EncodeString(key)|) == COLON
    requires StringFits(l, key) && Ascii(key) && InOrder(ms, key)
    ensures ParseKey(l, src, pos, ms) == Ok(At(key, pos + |EncodeString(key)| + 1))
  {
    hide ParseString, EncodeString, StringFits, Starts;
    StringRead(l, key, src, pos);
  }

  lemma KeyInOrder(ms: seq<Member>, new_: seq<Member>)
    requires KeysAscend(ms + new_) && new_ != []
    ensures InOrder(ms, new_[0].key) && (ms + [new_[0]]) + new_[1..] == ms + new_
  {
    if ms != [] {
      var i := |ms| - 1;
      assert Less((ms + new_)[i].key, (ms + new_)[i + 1].key);
    }
  }

  /** Where the key, the value and the rest of the printed members start. */
  lemma MembersParts(src: seq<Byte>, pos: nat, ms: seq<Member>)
    requires ms != [] && Starts(src, pos, EncodeMembers(ms))
    ensures var f, e := EncodeString(ms[0].key), Encode(ms[0].value);
            var at := pos + |f| + 1 + |e|;
            && Starts(src, pos, f) && Peek(src, pos + |f|) == COLON && Starts(src, pos + |f| + 1, e) && at <= |src|
            && (|ms| == 1 ==> |EncodeMembers(ms)| == |f| + 1 + |e|)
            && (|ms| > 1 ==>
                  && Peek(src, at) == COMMA && at < |src| && Starts(src, at + 1, EncodeMembers(ms[1..]))
                  && |EncodeMembers(ms)| == |f| + 1 + |e| + 1 + |EncodeMembers(ms[1..])|)
  {
    hide Encode, EncodeString, Starts;
    var m := ms[0];
    var f, e := EncodeString(m.key), Encode(m.value);
    if |ms| > 1 {
      StartsParts(src, pos, EncodeMember(m) + [COMMA], EncodeMembers(ms[1..]));
      StartsParts(src, pos, EncodeMember(m), [COMMA]);
      StartsPeek(src, pos + |EncodeMember(m)|, [COMMA]);
    }
    StartsParts(src, pos, f + [COLON], e);
    StartsParts(src, pos, f, [COLON]);
    StartsPeek(src, pos + |f|, [COLON]);
    StartsPeek(src, pos + |f| + 1, e);
  }

  lemma {:induction false} MembersRead(l: Limits, new_: seq<Member>, src: seq<Byte>, pos: nat, d: nat, ms: seq<Member>)
    requires pos <= |src| && new_ != [] && Starts(src, pos, EncodeMembers(new_)) &&
             Peek(src, pos + |EncodeMembers(new_)|) == UNBRACE
    requires MembersFit(l, new_, d) && KeysAscend(ms + new_) && |ms| + |new_| <= l.collection
    ensures ParseMembers(l, src, pos, d, ms) == Ok(At(ms + new_, pos + |EncodeMembers(new_)| + 1))
    decreases new_, 1
  {
    hide ParseValue, ParseKey, Encode, EncodeString, Fits, StringFits, Ascii, InOrder, KeysAscend, EncodeMembers,
         Starts;
    MembersParts(src, pos, new_);
    KeyInOrder(ms, new_);
    var m := new_[0];
    KeyRead(l, m.key, src, pos, ms);
    var at := pos + |EncodeString(m.key)| + 1;
    ValueRead(l, m.value, src, at, d);
    if |new_| == 1 {
      assert new_ == [m];
    } else {
      MembersRead(l, new_[1..], src, at + |Encode(m.value)| + 1, d, ms + [m]);
    }
  }

  // ---------------------------------------------------------------------------
  // Main results
  // ---------------------------------------------------------------------------

  /** After a full parse the comparison with the re-encoded value cannot fail. */
  lemma ReencodingAgrees(l: Limits, bytes: seq<Byte>)
    requires ParseValue(l, bytes, 0, 0).Ok? && ParseValue(l, bytes, 0, 0).value.pos == |bytes|
    ensures Encode(ParseValue(l, bytes, 0, 0).value.value) == bytes
  {
    hide ParseValue, Encode;
    ValueWritten(l, bytes, 0, 0);
    assert bytes[0..|bytes|] == bytes;
  }

  /** The decoder accepts exactly the printed forms of the values within its limits. */
  lemma DecodesExactlyCanonical(l: Limits, bytes: seq<Byte>, v: Value)
    ensures Decode(l, bytes) == Ok(v) <==> bytes == Encode(v) && Fits(l, v, 0) && |bytes| <= l.payload
  {
    hide ParseValue, Encode, Fits;
    if Decode(l, bytes) == Ok(v) {
      ValueWritten(l, bytes, 0, 0);
    }
    if bytes == Encode(v) && Fits(l, v, 0) && |bytes| <= l.payload {
      ValueRead(l, v, bytes, 0, 0);
    }
  }

  /** Some limits admit a value whose keys are ASCII and ordered. */
  ghost predicate Ordered(v: Value) {
    exists l :: Fits(l, v, 0)
  }

  lemma {:induction false} Looser(l: Limits, k: Limits, v: Value, d: nat)
    requires Fits(l, v, d) && l.depth <= k.depth && l.collection <= k.collection && l.scalar <= k.scalar
    requires forall s :: k.utf8(s)
    ensures Fits(k, v, d)
    decreases v
  {
    match v
    case Array(items) => LooserItems(l, k, items, d + 1);
    case Object(ms) => LooserMembers(l, k, ms, d + 1);
    case _ =>
  }

  lemma {:induction false} LooserItems(l: Limits, k: Limits, items: seq<Value>, d: nat)
    requires ItemsFit(l, items, d) && l.depth <= k.depth && l.collection <= k.collection && l.scalar <= k.scalar
    requires forall s :: k.utf8(s)
    ensures ItemsFit(k, items, d)
    decreases items
  {
    if items != [] {
      Looser(l, k, items[0], d);
      LooserItems(l, k, items[1..], d);
    }
  }

  lemma {:induction false} LooserMembers(l: Limits, k: Limits, ms: seq<Member>, d: nat)
    requires MembersFit(l, ms, d) && l.depth <= k.depth && l.collection <= k.collection && l.scalar <= k.scalar
    requires forall s :: k.utf8(s)
    ensures MembersFit(k, ms, d)
    decreases ms
  {
    if ms != [] {
      var m := ms[0];
      Looser(l, k, m.value, d);
      LooserMembers(l, k, ms[1..], d);
    }
  }

  /** Printing is injective on values with ordered ASCII keys, of whatever size. */
  lemma EncodeInjective(v: Value, w: Value)
    requires Ordered(v) && Ordered(w) && Encode(v) == Encode(w)
    ensures v == w
  {
    hide Encode, Fits;
    var l :| Fits(l, v, 0);
    var m :| Fits(m, w, 0);
    var k := Limits(|Encode(v)|, l.depth + m.depth, l.collection + m.collection, l.scalar + m.scalar, _ => true);
    Looser(l, k, v, 0);
    Looser(m, k, w, 0);
    DecodesExactlyCanonical(k, Encode(v), v);
    DecodesExactlyCanonical(k, Encode(v), w);
  }

  // ---------------------------------------------------------------------------
  // The parser and the printer as they run
  // ---------------------------------------------------------------------------

  class Parser {
    const l: Limits
    const src: seq<Byte>
    var pos: nat
    var depth: nat

    ghost predicate Valid()
      reads this
    {
      pos <= |src|
    }

    constructor (l: Limits, src: seq<Byte>)
      ensures this.l == l && this.src == src && pos == 0 && depth == 0 && Valid()
    {
      this.l, this.src := l, src;
      pos, depth := 0, 0;
    }

    /** Fills the output buffer character by character up to the closing quote. */
    method ReadString() returns (r: Result<seq<Byte>>)
      requires Valid() && pos < |src|
      modifies this`pos
      ensures Valid()
      ensures match ParseString(l, src, old(pos))
              case Err(e) => r == Err(e)
              case Ok(a) => r == Ok(a.value) && pos == a.pos
    {
      hide ParseEscape;
      pos := pos + 1;
      var start := pos;
      var out: seq<Byte> := [];
      while true
        invariant start == old(pos) + 1 && start <= pos <= |src|
        invariant ParseChars(l, src, pos, start, out) == ParseChars(l, src, start, start, [])
        decreases |src| - pos
      {
        if pos == |src| {
          return Err(NonCanonical);
        }
        if pos - start > l.scalar + 8 {
          return Err(ResourceLimit);
        }
        var c := src[pos];
        if c == QUOTE {
          pos := pos + 1;
          return if l.utf8(out) then Ok(out) else Err(NonCanonical);
        }
        if c == BACKSLASH {
          var e := ParseEscape(src, pos);
          if e.Err? {
            return Err(e.error);
          }
          EscapeEnds(src, pos);
          out := out + [e.value.value];
          pos := e.value.pos;
        } else if c < 32 {
          return Err(NonCanonical);
        } else {
          out := out + [c];
          pos := pos + 1;
        }
      }
    }

    method ReadValue() returns (r: Result<Value>)
      requires Valid()
      modifies this
      ensures Valid()
      ensures match ParseValue(l, src, old(pos), old(depth))
              case Err(e) => r == Err(e)
              case Ok(a) => r == Ok(a.value) && pos == a.pos && depth == old(depth)
      decreases |src| - pos, 2
    {
      hide ParseString, ParseItems, ParseMembers, Literal;
      var c := Peek(src, pos);
      if c == 110 {
        r := ReadLiteral(NULL, Null);
      } else if c == 116 {
        r := ReadLiteral(TRUE, Bool(true));
      } else if c == 102 {
        r := ReadLiteral(FALSE, Bool(false));
      } else if c == QUOTE {
        var s := ReadString();
        r := if s.Err? then Err(s.error) else Ok(Str(s.value));
      } else if c == OPEN {
        r := ReadArray();
      } else if c == BRACE {
        r := ReadObject();
      } else {
        r := Err(NonCanonical);
      }
    }

    method ReadLiteral(lit: seq<Byte>, v: Value) returns (r: Result<Value>)
      requires Valid()
      modifies this`pos
      ensures Valid()
      ensures match Literal(src, old(pos), lit, v)
              case Err(e) => r == Err(e)
              case Ok(a) => r == Ok(a.value) && pos == a.pos
    {
      if pos + |lit| <= |src| && src[pos..pos + |lit|] == lit {
        pos := pos + |lit|;
        return Ok(v);
      }
      r := Err(NonCanonical);
    }

    method ReadArray() returns (r: Result<Value>)
      requires Valid() && Peek(src, pos) == OPEN
      modifies this
      ensures Valid()
      ensures match ParseValue(l, src, old(pos), old(depth))
              case Err(e) => r == Err(e)
              case Ok(a) => r == Ok(a.value) && pos == a.pos && depth == old(depth)
      decreases |src| - pos, 1
    {
      hide ParseString, ParseMembers, Literal;
      depth := depth + 1;
      if depth > l.depth {
        return Err(ResourceLimit);
      }
      pos := pos + 1;
      var items: seq<Value> := [];
      if Peek(src, pos) == CLOSE {
        pos := pos + 1;
        depth := depth - 1;
        return Ok(Array(items));
      }
      ghost var start := pos;
      while true
        invariant Valid() && start <= pos && depth == old(depth) + 1
        invariant ParseItems(l, src, pos, depth, items) == ParseItems(l, src, start, depth, [])
        decreases |src| - pos
      {
        var v := ReadValue();
        if v.Err? {
          return v;
        }
        items := items + [v.value];
        if |items| > l.collection {
          return Err(ResourceLimit);
        }
        if Peek(src, pos) == COMMA {
          pos := pos + 1;
        } else if Peek(src, pos) == CLOSE {
          pos := pos + 1;
          break;
        } else {
          return Err(NonCanonical);
        }
      }
      depth := depth - 1;
      r := Ok(Array(items));
    }

    method ReadKey(ms: seq<Member>) returns (r: Result<seq<Byte>>)
      requires Valid()
      modifies this`pos
      ensures Valid()
      ensures match ParseKey(l, src, old(pos), ms)
              case Err(e) => r == Err(e)
              case Ok(a) => r == Ok(a.value) && pos == a.pos
    {
      hide ParseString;
      if Peek(src, pos) != QUOTE {
        return Err(NonCanonical);
      }
      var k := ReadString();
      if k.Err? {
        return k;
      }
      if !Ascii(k.value) || !InOrder(ms, k.value) || Peek(src, pos) != COLON {
        return Err(NonCanonical);
      }
      pos := pos + 1;
      r := k;
    }

    method ReadObject() returns (r: Result<Value>)
      requires Valid() && Peek(src, pos) == BRACE
      modifies this
      ensures Valid()
      ensures match ParseValue(l, src, old(pos), old(depth))
              case Err(e) => r == Err(e)
              case Ok(a) => r == Ok(a.value) && pos == a.pos && depth == old(depth)
      decreases |src| - pos, 1
    {
      hide ParseString, ParseItems, Literal, ParseKey;
      depth := depth + 1;
      if depth > l.depth {
        return Err(ResourceLimit);
      }
      pos := pos + 1;
      var ms: seq<Member> := [];
      if Peek(src, pos) == UNBRACE {
        pos := pos + 1;
        depth := depth - 1;
        return Ok(Object(ms));
      }
      ghost var start := pos;
      while true
        invariant Valid() && start <= pos && depth == old(depth) + 1
        invariant ParseMembers(l, src, pos, depth, ms) == ParseMembers(l, src, start, depth, [])
        decreases |src| - pos
      {
        var k := ReadKey(ms);
        if k.Err? {
          return Err(k.error);
        }
        var v := ReadValue();
        if v.Err? {
          return v;
        }
        ms := ms + [Member(k.value, v.value)];
        if |ms| > l.collection {
          return Err(ResourceLimit);
        }
        if Peek(src, pos) == COMMA {
          pos := pos + 1;
        } else if Peek(src, pos) == UNBRACE {
          pos := pos + 1;
          break;
        } else {
          return Err(NonCanonical);
        }
      }
      depth := depth - 1;
      r := Ok(Object(ms));
    }
  }

  lemma EscapeEnds(src: seq<Byte>, pos: nat)
    requires pos < |src| && ParseEscape(src, pos).Ok?
    ensures pos < ParseEscape(src, pos).value.pos <= |src|
  {
  }

  method DecodeBytes(l: Limits, bytes: seq<Byte>) returns (r: Result<Value>)
    ensures r == Decode(l, bytes)
  {
    hide ParseValue, Encode;
    if |bytes| > l.payload {
      return Err(ResourceLimit);
    }
    var p := new Parser(l, bytes);
    var v := p.ReadValue();
    if v.Err? {
      return v;
    }
    if p.pos != |bytes| {
      return Err(NonCanonical);
    }
    var again := Print(v.value);
    r := if again != bytes then Err(NonCanonical) else v;
  }

  method PrintString(s: seq<Byte>) returns (out: seq<Byte>)
    ensures out == EncodeString(s)
  {
    out := [QUOTE];
    for i := 0 to |s|
      invariant out + Escape(s[i..]) == [QUOTE] + Escape(s)
    {
      assert s[i..][1..] == s[i + 1..];
      assert Escape(s[i..]) == EscapeByte(s[i]) + Escape(s[i + 1..]);
      assert out + (EscapeByte(s[i]) + Escape(s[i + 1..])) == (out + EscapeByte(s[i])) + Escape(s[i + 1..]);
      out := out + EscapeByte(s[i]);
    }
    out := out + [QUOTE];
  }

  /** Writes a comma before every item but the first. */
  method Print(v: Value) returns (out: seq<Byte>)
    ensures out == Encode(v)
    decreases v, 0
  {
    hide EncodeString, EncodeItems, EncodeMembers;
    match v {
      case Null => out := NULL;
      case Bool(b) => out := if b then TRUE else FALSE;
      case Str(s) => out := PrintString(s);
      case Array(items) =>
        var body := PrintItems(items);
        out := [OPEN] + body + [CLOSE];
      case Object(ms) =>
        var body := PrintMembers(ms);
        out := [BRACE] + body + [UNBRACE];
    }
  }

  /** The items from `i` on, with the comma that separates them from those before. */
  ghost function Pending(items: seq<Value>, i: nat): seq<Byte>
    requires i <= |items|
  {
    if i == |items| then [] else (if i > 0 then [COMMA] else []) + EncodeItems(items[i..])
  }

  lemma PendingNext(items: seq<Value>, i: nat)
    requires i < |items|
    ensures Pending(items, i) == (if i > 0 then [COMMA] else []) + Encode(items[i]) + Pending(items, i + 1)
  {
    hide Encode;
    var rest := items[i..];
    assert rest[0] == items[i] && rest[1..] == items[i + 1..];
  }

  method PrintItems(items: seq<Value>) returns (out: seq<Byte>)
    ensures out == EncodeItems(items)
    decreases items, 1
  {
    hide Encode, EncodeItems, Pending;
    out := [];
    PendingEnds(items);
    for i := 0 to |items|
      invariant out + Pending(items, i) == EncodeItems(items)
    {
      PendingNext(items, i);
      ghost var was := out;
      if i > 0 {
        out := out + [COMMA];
      }
      var one := Print(items[i]);
      out := out + one;
      assert out == was + ((if i > 0 then [COMMA] else []) + one);
      assert out + Pending(items, i + 1) == was + Pending(items, i);
    }
  }

  lemma PendingEnds(items: seq<Value>)
    ensures [] + Pending(items, 0) == EncodeItems(items) && Pending(items, |items|) == []
  {
    hide Encode;
    assert items[0..] == items;
  }

  ghost function PendingMembers(ms: seq<Member>, i: nat): seq<Byte>
    requires i <= |ms|
  {
    if i == |ms| then [] else (if i > 0 then [COMMA] else []) + EncodeMembers(ms[i..])
  }

  lemma PendingMembersNext(ms: seq<Member>, i: nat)
    requires i < |ms|
    ensures PendingMembers(ms, i) == (if i > 0 then [COMMA] else []) + EncodeMember(ms[i]) + PendingMembers(ms, i + 1)
  {
    hide EncodeMember;
    var rest := ms[i..];
    assert rest[0] == ms[i] && rest[1..] == ms[i + 1..];
  }

  lemma PendingMembersEnds(ms: seq<Member>)
    ensures [] + PendingMembers(ms, 0) == EncodeMembers(ms) && PendingMembers(ms, |ms|) == []
  {
    hide EncodeMember;
    assert ms[0..] == ms;
  }

  method PrintMembers(ms: seq<Member>) returns (out: seq<Byte>)
    ensures out == EncodeMembers(ms)
    decreases ms, 1
  {
    hide Encode, EncodeString, EncodeMembers, PendingMembers;
    out := [];
    PendingMembersEnds(ms);
    for i := 0 to |ms|
      invariant out + PendingMembers(ms, i) == EncodeMembers(ms)
    {
      PendingMembersNext(ms, i);
      ghost var was := out;
      var m := ms[i];
      if i > 0 {
        out := out + [COMMA];
      }
      var key := PrintString(m.key);
      var one := Print(m.value);
      out := out + (key + [COLON] + one);
      assert out == was + ((if i > 0 then [COMMA] else []) + EncodeMember(m));
      assert out + PendingMembers(ms, i + 1) == was + PendingMembers(ms, i);
    }
  }
}
