/**
  Canonical bytes are JSON: what the printer writes is a text of RFC 8259 (sections 3, 4, 5 and 7) that
  denotes the value, by rules that know all of JSON's escapes and nothing of the printer.
 */
module CanonJson {
  import opened Basics
  import opened Canon

  /** The bytes of an ASCII text. */
  ghost function Text(s: string): (r: seq<Byte>)
    requires forall i :: 0 <= i < |s| ==> s[i] as int < 128
    ensures |r| == |s| && forall i :: 0 <= i < |s| ==> r[i] == s[i] as int
  {
    seq(|s|, i requires 0 <= i < |s| => s[i] as int)
  }

  ghost predicate Is(b: Byte, c: char) {
    b == c as int
  }

  // ---------------------------------------------------------------------------
  // Strings
  // ---------------------------------------------------------------------------

  /** The value of a hexadecimal digit of either case. */
  ghost function HexValue(b: Byte): Option<nat> {
    if '0' as int <= b <= '9' as int then Some(b - '0' as int)
    else if 'a' as int <= b <= 'f' as int then Some(b - 'a' as int + 10)
    else if 'A' as int <= b <= 'F' as int then Some(b - 'A' as int + 10)
    else None
  }

  /** What a two-character escape stands for. */
  ghost predicate ShortEscape(e: Byte, c: Byte) {
    || (Is(e, '"') && Is(c, '"'))
    || (Is(e, '\\') && Is(c, '\\'))
    || (Is(e, '/') && Is(c, '/'))
    || (Is(e, 'b') && c == 8)
    || (Is(e, 'f') && c == 12)
    || (Is(e, 'n') && c == 10)
    || (Is(e, 'r') && c == 13)
    || (Is(e, 't') && c == 9)
  }

  /** Four hexadecimal digits that spell the ASCII character `c`. */
  ghost predicate LongEscape(h: seq<Byte>, c: Byte) {
    && |h| == 4 && (forall i :: 0 <= i < 4 ==> HexValue(h[i]).Some?) && c < 128
    && c == ((HexValue(h[0]).value * 16 + HexValue(h[1]).value) * 16 + HexValue(h[2]).value) * 16 + HexValue(h[3]).value
  }

  /** A text for one byte of a string: the byte itself, unless it must be escaped, or an escape for it. */
  ghost predicate CharDenotes(t: seq<Byte>, c: Byte) {
    || (|t| == 1 && t[0] == c && c >= 0x20 && !Is(c, '"') && !Is(c, '\\'))
    || (|t| == 2 && Is(t[0], '\\') && ShortEscape(t[1], c))
    || (|t| == 6 && Is(t[0], '\\') && Is(t[1], 'u') && LongEscape(t[2..], c))
  }

  ghost predicate CharsDenote(t: seq<Byte>, s: seq<Byte>) {
    exists parts: seq<seq<Byte>> ::
      |parts| == |s| && t == Concat(parts) && forall i :: 0 <= i < |s| ==> CharDenotes(parts[i], s[i])
  }

  ghost predicate StringDenotes(t: seq<Byte>, s: seq<Byte>) {
    |t| >= 2 && Is(t[0], '"') && Is(t[|t| - 1], '"') && CharsDenote(t[1..|t| - 1], s)
  }

  lemma EscapeDenotes(b: Byte)
    ensures CharDenotes(EscapeByte(b), b)
  {
    if b < 32 {
      var t := EscapeByte(b);
      assert t[2..] == [48, 48, Hex(b / 16), Hex(b % 16)];
      assert b / 16 < 2 && b == (b / 16) * 16 + b % 16;
    }
  }

  lemma {:induction false} EscapesDenote(s: seq<Byte>) returns (parts: seq<seq<Byte>>)
    ensures |parts| == |s| && Escape(s) == Concat(parts) && forall i :: 0 <= i < |s| ==> CharDenotes(parts[i], s[i])
  {
    hide EscapeByte, CharDenotes;
    parts := [];
    if s != [] {
      EscapeDenotes(s[0]);
      var rest := EscapesDenote(s[1..]);
      parts := [EscapeByte(s[0])] + rest;
      assert parts[1..] == rest;
    }
  }

  lemma StringsDenote(s: seq<Byte>)
    ensures StringDenotes(EncodeString(s), s)
  {
    hide CharDenotes;
    var parts := EscapesDenote(s);
    var t := EncodeString(s);
    assert t[1..|t| - 1] == Escape(s);
  }

  // ---------------------------------------------------------------------------
  // Values
  // ---------------------------------------------------------------------------

  /** Texts separated by commas. */
  ghost function Commas(parts: seq<seq<Byte>>): seq<Byte> {
    if parts == [] then [] else if |parts| == 1 then parts[0] else parts[0] + Text(",") + Commas(parts[1..])
  }

  ghost predicate Denotes(t: seq<Byte>, v: Value)
    decreases v
  {
    match v
    case Null => t == Text("null")
    case Bool(b) => t == Text(if b then "true" else "false")
    case Str(s) => StringDenotes(t, s)
    case Array(items) =>
      exists parts: seq<seq<Byte>> ::
        && |parts| == |items| && t == Text("[") + Commas(parts) + Text("]")
        && forall i :: 0 <= i < |items| ==> Denotes(parts[i], items[i])
    case Object(members) =>
      exists keys: seq<seq<Byte>>, parts: seq<seq<Byte>> ::
        && |keys| == |parts| == |members| && t == Text("{") + Commas(Pairs(keys, parts)) + Text("}")
        && forall i :: 0 <= i < |members| ==>
                         StringDenotes(keys[i], members[i].key) && Denotes(parts[i], members[i].value)
  }

  ghost function Pairs(keys: seq<seq<Byte>>, parts: seq<seq<Byte>>): (r: seq<seq<Byte>>)
    requires |keys| == |parts|
    ensures |r| == |keys| && forall i :: 0 <= i < |keys| ==> r[i] == keys[i] + Text(":") + parts[i]
  {
    seq(|keys|, i requires 0 <= i < |keys| => keys[i] + Text(":") + parts[i])
  }

  lemma {:induction false} ItemsDenote(items: seq<Value>) returns (parts: seq<seq<Byte>>)
    ensures |parts| == |items| && EncodeItems(items) == Commas(parts)
    ensures forall i :: 0 <= i < |items| ==> Denotes(parts[i], items[i])
    decreases items, 0
  {
    hide Encode, Denotes;
    parts := [];
    if items != [] {
      PrintsJson(items[0]);
      var rest := ItemsDenote(items[1..]);
      parts := [Encode(items[0])] + rest;
      assert parts[1..] == rest;
      assert Text(",") == [COMMA];
    }
  }

  lemma {:induction false} MembersDenote(ms: seq<Member>) returns (keys: seq<seq<Byte>>, parts: seq<seq<Byte>>)
    ensures |keys| == |parts| == |ms| && EncodeMembers(ms) == Commas(Pairs(keys, parts))
    ensures forall i :: 0 <= i < |ms| ==> StringDenotes(keys[i], ms[i].key) && Denotes(parts[i], ms[i].value)
    decreases ms, 0
  {
    hide Encode, Denotes, StringDenotes, EncodeString;
    keys, parts := [], [];
    if ms != [] {
      var m := ms[0];
      StringsDenote(m.key);
      PrintsJson(m.value);
      var ks, ps := MembersDenote(ms[1..]);
      keys, parts := [EncodeString(m.key)] + ks, [Encode(m.value)] + ps;
      assert Text(",") == [COMMA] && Text(":") == [COLON];
      assert Pairs(keys, parts)[0] == EncodeMember(m);
      assert Pairs(keys, parts)[1..] == Pairs(ks, ps);
    }
  }

  /** The printer writes JSON for the value it is given. */
  lemma {:induction false} PrintsJson(v: Value)
    ensures Denotes(Encode(v), v)
    decreases v, 1
  {
    hide EncodeItems, EncodeMembers, EncodeString, StringDenotes;
    match v
    case Null => assert Encode(v) == Text("null");
    case Bool(b) => assert Encode(v) == Text(if b then "true" else "false");
    case Str(s) => StringsDenote(s);
    case Array(items) =>
      var parts := ItemsDenote(items);
      assert Text("[") == [OPEN] && Text("]") == [CLOSE];
    case Object(members) =>
      var keys, parts := MembersDenote(members);
      assert Text("{") == [BRACE] && Text("}") == [UNBRACE];
  }
}
