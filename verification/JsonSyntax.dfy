/**
  What source/Utility/Value.cpp writes and reads as JSON, as functions on byte strings.

  The printer is in continuation form: `Emit(..., rest)` is the printed text followed by `rest`.
  The parser returns the value read and the text left unread.  Printing and scanning decimal text of
  doubles belongs to the C++ library and enters as the parameter `lib`.
 */
module JsonSyntax {
  import opened ValueTree
  import opened Unicode

  const QUOTE: byte := 0x22
  const BACKSLASH: byte := 0x5C
  const SLASH: byte := 0x2F
  const COMMA: byte := 0x2C
  const COLON: byte := 0x3A
  const LBRACKET: byte := 0x5B
  const RBRACKET: byte := 0x5D
  const LBRACE: byte := 0x7B
  const RBRACE: byte := 0x7D
  const MINUS: byte := 0x2D
  const PLUS: byte := 0x2B
  const DOT: byte := 0x2E
  const ZERO: byte := 0x30
  const NUL: byte := 0
  const BS: byte := 8
  const TAB: byte := 9
  const LF: byte := 10
  const FF: byte := 12
  const CR: byte := 13
  const SPACE: byte := 0x20
  const LETTER_B: byte := 0x62
  const LETTER_E: byte := 0x65
  const UPPER_E: byte := 0x45
  const LETTER_F: byte := 0x66
  const LETTER_N: byte := 0x6E
  const LETTER_R: byte := 0x72
  const LETTER_T: byte := 0x74
  const LETTER_U: byte := 0x75
  const NULL_TEXT: bytes := [0x6E, 0x75, 0x6C, 0x6C]
  const TRUE_TEXT: bytes := [0x74, 0x72, 0x75, 0x65]
  const FALSE_TEXT: bytes := [0x66, 0x61, 0x6C, 0x73, 0x65]

  /** The two library conversions between a double and its decimal text. */
  datatype DoubleText = DoubleText(format: bytes -> bytes, scan: bytes -> bytes)

  predicate IsDigit(c: byte) { 0x30 <= c <= 0x39 }

  predicate IsSpace(c: byte) { c == SPACE || c == LF || c == CR || c == TAB || c == FF }

  // ---------------------------------------------------------------- printing

  function Blanks(n: nat, rest: bytes): bytes {
    if n == 0 then rest else [SPACE] + Blanks(n - 1, rest)
  }

  function EmitNewline(indent: nat, rest: bytes): bytes { [LF] + Blanks(indent, rest) }

  /** The escape for one byte of a string, without the backslash; `None` for a byte written as it is. */
  function EscapeOf(c: byte, slashes: bool): Option<byte> {
    if c == QUOTE || c == BACKSLASH then Some(c)
    else if c == SLASH then if slashes then Some(SLASH) else None
    else if c == BS then Some(LETTER_B)
    else if c == FF then Some(LETTER_F)
    else if c == LF then Some(LETTER_N)
    else if c == CR then Some(LETTER_R)
    else if c == TAB then Some(LETTER_T)
    else None
  }

  /** The characters of a C string: everything before the first NUL. */
  function Cut(s: bytes): bytes {
    if s == [] || s[0] == NUL then [] else [s[0]] + Cut(s[1..])
  }

  function EmitChars(s: bytes, slashes: bool, rest: bytes): bytes {
    if s == [] || s[0] == NUL then rest
    else match EscapeOf(s[0], slashes)
      case Some(e) => [BACKSLASH, e] + EmitChars(s[1..], slashes, rest)
      case None => [s[0]] + EmitChars(s[1..], slashes, rest)
  }

  function EmitString(s: bytes, slashes: bool, rest: bytes): bytes {
    [QUOTE] + EmitChars(s, slashes, [QUOTE] + rest)
  }

  function EmitNat(n: nat, rest: bytes): bytes {
    if n < 10 then [ZERO + n] + rest else EmitNat(n / 10, [ZERO + n % 10] + rest)
  }

  function EmitInt(i: int, rest: bytes): bytes {
    if i < 0 then [MINUS] + EmitNat(-i, rest) else EmitNat(i, rest)
  }

  /** The indentation written before a value; odd indents pack the output. */
  function EmitLead(indent: int, rest: bytes): bytes {
    if indent % 2 == 0 && indent > 0 then EmitNewline(indent, rest) else rest
  }

  /** The indent in force inside a value: a negative even indent means "no line break before me". */
  function Inner(indent: int): int {
    if indent % 2 == 0 && indent < 0 then -indent else indent
  }

  function EmitClose(indent: int, close: byte, rest: bytes): bytes
    requires indent % 2 == 0 ==> indent >= 0
  {
    if indent % 2 == 0 then EmitNewline(indent, [close] + rest) else [close] + rest
  }

  function Emit(lib: DoubleText, v: Value, slashes: bool, indent: int, rest: bytes): bytes
    decreases v, 1
  {
    EmitLead(indent, EmitBody(lib, v, slashes, Inner(indent), rest))
  }

  function EmitBody(lib: DoubleText, v: Value, slashes: bool, indent: int, rest: bytes): bytes
    requires indent % 2 == 0 ==> indent >= 0
    decreases v, 0
  {
    match v
    case Null => NULL_TEXT + rest
    case Bool(b) => (if b then TRUE_TEXT else FALSE_TEXT) + rest
    case Int(i) => EmitInt(i, rest)
    case LongLong(i) => EmitInt(i, rest)
    case UInt(i) => EmitInt(i, rest)
    case ULongLong(i) => EmitInt(i, rest)
    case Double(bits) => lib.format(bits) + rest
    case Str(s) => EmitString(s, slashes, rest)
    case Arr(es) => [LBRACKET] + EmitElems(lib, es, true, slashes, indent, EmitClose(indent, RBRACKET, rest))
    case Hash(en) => [LBRACE] + EmitEntries(lib, en, true, slashes, indent, EmitClose(indent, RBRACE, rest))
  }

  function EmitElems(lib: DoubleText, es: seq<Value>, first: bool, slashes: bool, indent: int, rest: bytes): bytes
    decreases es
  {
    if es == [] then rest
    else
      var text := Emit(lib, es[0], slashes, indent + 2, EmitElems(lib, es[1..], false, slashes, indent, rest));
      if first then text else [COMMA] + text
  }

  function EmitEntries(lib: DoubleText, en: seq<Entry>, first: bool, slashes: bool, indent: int, rest: bytes): bytes
    decreases en
  {
    if en == [] then rest
    else
      var more := EmitEntries(lib, en[1..], false, slashes, indent, rest);
      var value := EmitAfterColon(lib, en[0].value, slashes, indent, more);
      var text := EmitLead(indent + 2, EmitString(en[0].key, slashes, [COLON] + value));
      if first then text else [COMMA] + text
  }

  function EmitAfterColon(lib: DoubleText, v: Value, slashes: bool, indent: int, rest: bytes): bytes
    decreases v, 2
  {
    var value := Emit(lib, v, slashes, -(indent + 2), rest);
    if indent % 2 == 0 then [SPACE] + value else value
  }

  // ----------------------------------------------------------------- parsing

  datatype Parsed<+T> = Fail | Ok(value: T, rest: bytes)

  function SkipSpace(s: bytes): (r: bytes)
    ensures |r| <= |s|
    ensures r != [] ==> !IsSpace(r[0])
  {
    if s != [] && IsSpace(s[0]) then SkipSpace(s[1..]) else s
  }

  /** `requireChar` on each byte of `text`. */
  function Expect(text: bytes, s: bytes): (p: Parsed<()>)
    ensures p.Ok? ==> |p.rest| + |text| == |s|
  {
    if text == [] then Ok((), s)
    else if s == [] || s[0] != text[0] then Fail
    else Expect(text[1..], s[1..])
  }

  function HexDigit(c: byte): (r: Option<int>)
    ensures r.Some? ==> 0 <= r.value < 16
  {
    if IsDigit(c) then Some(c - 0x30)
    else if 0x41 <= c <= 0x46 then Some(c - 0x41 + 10)
    else if 0x61 <= c <= 0x66 then Some(c - 0x61 + 10)
    else None
  }

  /** `getUnicode`: exactly four hexadecimal digits. */
  function Hex4(s: bytes): (p: Parsed<int>)
    ensures p.Ok? ==> 0 <= p.value <= 0xFFFF && |p.rest| < |s|
  {
    if |s| < 4 then Fail
    else
      var a, b, c, d := HexDigit(s[0]), HexDigit(s[1]), HexDigit(s[2]), HexDigit(s[3]);
      if a.None? || b.None? || c.None? || d.None? then Fail
      else Ok(a.value * 0x1000 + b.value * 0x100 + c.value * 0x10 + d.value, s[4..])
  }

  /** After `\u`: one code point, a surrogate pair being two escapes. */
  function ReadCodePoint(s: bytes): (p: Parsed<int>)
    ensures p.Ok? ==> 0 <= p.value <= 0x10FFFF && |p.rest| < |s|
  {
    match Hex4(s)
    case Fail => Fail
    case Ok(u, r) =>
      if !IsHighSurrogate(u) then Ok(u, r)
      else if |r| < 2 || r[0] != BACKSLASH || r[1] != LETTER_U then Fail
      else match Hex4(r[2..])
        case Fail => Fail
        case Ok(l, r2) => if IsLowSurrogate(l) then Ok(Combine(u, l), r2) else Fail
  }

  function ReadUnicode(s: bytes): (p: Parsed<bytes>)
    ensures p.Ok? ==> |p.rest| < |s|
  {
    match ReadCodePoint(s) case Fail => Fail case Ok(u, r) => Ok(Utf8(u), r)
  }

  /** After a backslash. */
  function ReadEscape(s: bytes): (p: Parsed<bytes>)
    ensures p.Ok? ==> |p.rest| < |s|
  {
    if s == [] then Fail
    else if s[0] == QUOTE || s[0] == BACKSLASH || s[0] == SLASH then Ok([s[0]], s[1..])
    else if s[0] == LETTER_B then Ok([BS], s[1..])
    else if s[0] == LETTER_F then Ok([FF], s[1..])
    else if s[0] == LETTER_N then Ok([LF], s[1..])
    else if s[0] == LETTER_R then Ok([CR], s[1..])
    else if s[0] == LETTER_T then Ok([TAB], s[1..])
    else if s[0] == LETTER_U then ReadUnicode(s[1..])
    else Fail
  }

  /** After the opening quote; `acc` is what was read before. */
  function ReadChars(s: bytes, acc: bytes): (p: Parsed<bytes>)
    ensures p.Ok? ==> |p.rest| < |s|
    decreases |s|
  {
    if s == [] then Fail
    else if s[0] == QUOTE then Ok(acc, s[1..])
    else if s[0] != BACKSLASH then ReadChars(s[1..], acc + [s[0]])
    else match ReadEscape(s[1..])
      case Fail => Fail
      case Ok(bs, r) => ReadChars(r, acc + bs)
  }

  function ReadString(s: bytes): (p: Parsed<bytes>)
    ensures p.Ok? ==> |p.rest| < |s|
  {
    if s == [] || s[0] != QUOTE then Fail else ReadChars(s[1..], [])
  }

  /** The run of digits at the front of `s`, appended to `acc`. */
  function ReadDigits(s: bytes, acc: bytes): (r: (bytes, bytes))
    ensures |r.1| <= |s|
  {
    if s != [] && IsDigit(s[0]) then ReadDigits(s[1..], acc + [s[0]]) else (acc, s)
  }

  /** At least one digit. */
  function ReadDigits1(s: bytes, acc: bytes): (p: Parsed<bytes>)
    ensures p.Ok? ==> |p.rest| < |s|
  {
    if s == [] || !IsDigit(s[0]) then Fail
    else var (d, r) := ReadDigits(s[1..], acc + [s[0]]); Ok(d, r)
  }

  function DecimalValue(d: bytes): int {
    if d == [] then 0 else DecimalValue(d[..|d| - 1]) * 10 + (d[|d| - 1] as int - 0x30)
  }

  /** The narrowest of the source's integer types, tried in its order. */
  function NonNegative(n: int): Value {
    if n <= INT_MAX then Int(n) else if n <= UINT_MAX then UInt(n) else ULongLong(n)
  }

  function Negative(n: int): Value {
    if INT_MIN <= n <= INT_MAX then Int(n) else LongLong(n)
  }

  /** `iss >> value` saturates at the limit of the type. */
  function IntegerValue(text: bytes): Value {
    if text != [] && text[0] == MINUS then
      var n := -DecimalValue(text[1..]);
      Negative(if n < LLONG_MIN then LLONG_MIN else n)
    else
      var n := DecimalValue(text);
      NonNegative(if n > ULLONG_MAX then ULLONG_MAX else n)
  }

  /** `.` and digits, if there; the flag says whether they were. */
  function ReadFraction(s: bytes, acc: bytes): (p: Parsed<(bytes, bool)>)
    ensures p.Ok? ==> |p.rest| <= |s|
  {
    if s == [] || s[0] != DOT then Ok((acc, false), s)
    else match ReadDigits1(s[1..], acc + [DOT])
      case Fail => Fail
      case Ok(d, r) => Ok((d, true), r)
  }

  function ReadExponent(s: bytes, acc: bytes): (p: Parsed<(bytes, bool)>)
    ensures p.Ok? ==> |p.rest| <= |s|
  {
    if s == [] || (s[0] != LETTER_E && s[0] != UPPER_E) then Ok((acc, false), s)
    else
      var e := acc + [s[0]];
      var signed := |s| > 1 && (s[1] == PLUS || s[1] == MINUS);
      var (a, t) := if signed then (e + [s[1]], s[2..]) else (e, s[1..]);
      match ReadDigits1(t, a)
      case Fail => Fail
      case Ok(d, r) => Ok((d, true), r)
  }

  /** A leading zero ends the integer part. */
  function ReadIntegerPart(s: bytes, acc: bytes): (p: Parsed<bytes>)
    ensures p.Ok? ==> |p.rest| < |s|
  {
    if s == [] || !IsDigit(s[0]) then Fail
    else if s[0] == ZERO then Ok(acc + [ZERO], s[1..])
    else ReadDigits1(s, acc)
  }

  function ReadNumber(lib: DoubleText, s: bytes): (p: Parsed<Value>)
    ensures p.Ok? ==> |p.rest| < |s|
  {
    var neg := s != [] && s[0] == MINUS;
    match ReadIntegerPart(if neg then s[1..] else s, if neg then [MINUS] else [])
    case Fail => Fail
    case Ok(whole, r) =>
      match ReadFraction(r, whole)
      case Fail => Fail
      case Ok((frac, dotted), r2) =>
        match ReadExponent(r2, frac)
        case Fail => Fail
        case Ok((text, scaled), r3) =>
          Ok(if dotted || scaled then Double(lib.scan(text)) else IntegerValue(text), r3)
  }

  function ReadWord(text: bytes, v: Value, s: bytes): (p: Parsed<Value>)
    ensures p.Ok? ==> |p.rest| + |text| == |s|
  {
    match Expect(text, s) case Fail => Fail case Ok(_, r) => Ok(v, r)
  }

  function ReadValue(lib: DoubleText, s: bytes): (p: Parsed<Value>)
    ensures p.Ok? ==> |p.rest| < |s|
    decreases |s|, 1
  {
    var t := SkipSpace(s);
    if t == [] then Fail
    else if t[0] == LBRACE then ReadEntries(lib, t[1..], [])
    else if t[0] == LBRACKET then ReadElems(lib, t[1..], [])
    else if t[0] == LETTER_T then ReadWord(TRUE_TEXT, Bool(true), t)
    else if t[0] == LETTER_F then ReadWord(FALSE_TEXT, Bool(false), t)
    else if t[0] == LETTER_N then ReadWord(NULL_TEXT, Null, t)
    else if t[0] == QUOTE then match ReadString(t) case Fail => Fail case Ok(str, r) => Ok(Str(str), r)
    else ReadNumber(lib, t)
  }

  /** After `[`; commas are skipped wherever they stand, except before the first element. */
  function ReadElems(lib: DoubleText, s: bytes, acc: seq<Value>): (p: Parsed<Value>)
    ensures p.Ok? ==> |p.rest| < |s|
    decreases |s|, 2
  {
    var t := SkipSpace(s);
    if t == [] then Fail
    else if t[0] == COMMA then if acc == [] then Fail else ReadElems(lib, t[1..], acc)
    else if t[0] == RBRACKET then Ok(Arr(acc), t[1..])
    else match ReadValue(lib, t)
      case Fail => Fail
      case Ok(v, r) => ReadElems(lib, r, acc + [v])
  }

  function ReadEntries(lib: DoubleText, s: bytes, acc: seq<Entry>): (p: Parsed<Value>)
    ensures p.Ok? ==> |p.rest| < |s|
    decreases |s|, 2
  {
    var t := SkipSpace(s);
    if t == [] then Fail
    else if t[0] == COMMA then if acc == [] then Fail else ReadEntries(lib, t[1..], acc)
    else if t[0] == RBRACE then Ok(Hash(acc), t[1..])
    else match ReadString(t)
      case Fail => Fail
      case Ok(k, r) =>
        var u := SkipSpace(r);
        if u == [] || u[0] != COLON then Fail
        else match ReadValue(lib, u[1..])
          case Fail => Fail
          case Ok(v, w) => ReadEntries(lib, w, Insert(acc, k, v))
  }

  /** `FromJSON`: a failed parse leaves the null the value started as. */
  function FromJson(lib: DoubleText, s: bytes): Value {
    match ReadValue(lib, s) case Fail => Null case Ok(v, _) => v
  }

  function ToJson(lib: DoubleText, v: Value, slashes: bool, prettify: bool): bytes {
    Emit(lib, v, slashes, if prettify then 0 else 1, [])
  }
}
