/**
  Reading back what was printed (source/Utility/Value.cpp:35-159 and 161-399).
 */
module JsonRoundTrip {
  import opened Unicode
  import opened ValueTree
  import opened JsonSyntax

  /** The integer types carry no information beyond the number: reading picks one by range. */
  function Renumber(i: int): Value { if i < 0 then Negative(i) else NonNegative(i) }

  /** The tree with its integers re-typed by range and nothing else changed. */
  function Retype(v: Value): Value {
    match v
    case Int(i) => Renumber(i)
    case LongLong(i) => Renumber(i)
    case UInt(i) => Renumber(i)
    case ULongLong(i) => Renumber(i)
    case Arr(es) => Arr(RetypeElems(es))
    case Hash(en) => Hash(RetypeEntries(en))
    case _ => v
  }

  function RetypeElems(es: seq<Value>): (r: seq<Value>)
    ensures |r| == |es| && forall i | 0 <= i < |es| :: r[i] == Retype(es[i])
  {
    if es == [] then [] else [Retype(es[0])] + RetypeElems(es[1..])
  }

  function RetypeEntries(en: seq<Entry>): (r: seq<Entry>)
    ensures |r| == |en| && forall i | 0 <= i < |en| :: r[i] == Entry(en[i].key, Retype(en[i].value))
  {
    if en == [] then [] else [Entry(en[0].key, Retype(en[0].value))] + RetypeEntries(en[1..])
  }

  /**
    What parsing gives back in general: strings and keys also end at their first NUL, so entries whose
    keys agree up to there collapse into one.
   */
  function Readback(v: Value): Value {
    match v
    case Int(i) => Renumber(i)
    case LongLong(i) => Renumber(i)
    case UInt(i) => Renumber(i)
    case ULongLong(i) => Renumber(i)
    case Str(s) => Str(Cut(s))
    case Arr(es) => Arr(ReadbackElems(es))
    case Hash(en) => Hash(ReadbackEntries(en, []))
    case _ => v
  }

  function ReadbackElems(es: seq<Value>): (r: seq<Value>)
    ensures |r| == |es| && forall i | 0 <= i < |es| :: r[i] == Readback(es[i])
  {
    if es == [] then [] else [Readback(es[0])] + ReadbackElems(es[1..])
  }

  function ReadbackEntries(en: seq<Entry>, acc: seq<Entry>): seq<Entry>
    decreases en
  {
    if en == [] then acc
    else ReadbackEntries(en[1..], Insert(acc, Cut(en[0].key), Readback(en[0].value)))
  }

  ghost predicate DoubleFree(v: Value) {
    match v
    case Double(_) => false
    case Arr(es) => forall i | 0 <= i < |es| :: DoubleFree(es[i])
    case Hash(en) => forall i | 0 <= i < |en| :: DoubleFree(en[i].value)
    case _ => true
  }

  ghost predicate NulFree(v: Value) {
    match v
    case Str(s) => NUL !in s
    case Arr(es) => forall i | 0 <= i < |es| :: NulFree(es[i])
    case Hash(en) => forall i | 0 <= i < |en| :: NUL !in en[i].key && NulFree(en[i].value)
    case _ => true
  }

  predicate IsNumeric(v: Value) { v.Int? || v.LongLong? || v.UInt? || v.ULongLong? }

  /** Text that would be taken for more of a number. */
  predicate ExtendsNumber(rest: bytes) {
    rest != [] && (IsDigit(rest[0]) || rest[0] == DOT || rest[0] == LETTER_E || rest[0] == UPPER_E)
  }

  // -------------------------------------------------------------- white space

  lemma {:induction false} SkipBlanks(n: nat, t: bytes)
    ensures SkipSpace(Blanks(n, t)) == SkipSpace(t)
  {
    if n > 0 {
      SkipBlanks(n - 1, t);
      assert ([SPACE] + Blanks(n - 1, t))[1..] == Blanks(n - 1, t);
    }
  }

  lemma SkipNewline(indent: nat, t: bytes)
    ensures SkipSpace(EmitNewline(indent, t)) == SkipSpace(t)
  {
    SkipBlanks(indent, t);
    assert EmitNewline(indent, t)[1..] == Blanks(indent, t);
  }

  lemma SkipLead(indent: int, t: bytes)
    ensures SkipSpace(EmitLead(indent, t)) == SkipSpace(t)
  {
    if indent % 2 == 0 && indent > 0 { SkipNewline(indent, t); }
  }

  lemma SkipClose(indent: int, close: byte, rest: bytes)
    requires indent % 2 == 0 ==> indent >= 0
    requires !IsSpace(close)
    ensures SkipSpace(EmitClose(indent, close, rest)) == [close] + rest
  {
    if indent % 2 == 0 { SkipNewline(indent, [close] + rest); }
  }

  lemma ReadSkipped(lib: DoubleText, s: bytes, t: bytes)
    requires SkipSpace(s) == SkipSpace(t)
    ensures ReadValue(lib, s) == ReadValue(lib, t)
  {}

  // ------------------------------------------------------------------ strings

  lemma ReadOneCharBack(s: bytes, slashes: bool, acc: bytes, rest: bytes)
    requires s != [] && s[0] != NUL
    ensures ReadChars(EmitChars(s, slashes, rest), acc) == ReadChars(EmitChars(s[1..], slashes, rest), acc + [s[0]])
  {
    var text, more := EmitChars(s, slashes, rest), EmitChars(s[1..], slashes, rest);
    match EscapeOf(s[0], slashes)
    case Some(e) =>
      assert text[1..] == [e] + more;
      assert text[1..][1..] == more;
    case None =>
      assert text[1..] == more;
  }

  lemma {:induction false} ReadCharsBack(s: bytes, slashes: bool, acc: bytes, rest: bytes)
    ensures ReadChars(EmitChars(s, slashes, [QUOTE] + rest), acc) == Ok(acc + Cut(s), rest)
  {
    if s == [] || s[0] == NUL {
      assert acc + [] == acc;
      assert ([QUOTE] + rest)[1..] == rest;
    } else {
      ReadOneCharBack(s, slashes, acc, [QUOTE] + rest);
      ReadCharsBack(s[1..], slashes, acc + [s[0]], rest);
      assert acc + [s[0]] + Cut(s[1..]) == acc + Cut(s);
    }
  }

  lemma ReadStringBack(s: bytes, slashes: bool, rest: bytes)
    ensures ReadString(EmitString(s, slashes, rest)) == Ok(Cut(s), rest)
  {
    ReadCharsBack(s, slashes, [], rest);
    assert EmitString(s, slashes, rest)[1..] == EmitChars(s, slashes, [QUOTE] + rest);
    assert [] + Cut(s) == Cut(s);
  }

  // ------------------------------------------------------------------ numbers

  ghost predicate AllDigits(d: bytes) { forall i | 0 <= i < |d| :: IsDigit(d[i]) }

  /** The decimal digits of `n`. */
  function Digits(n: nat): (d: bytes)
    ensures d != [] && AllDigits(d)
    ensures DecimalValue(d) == n
    ensures d[0] == ZERO <==> n == 0
  {
    if n < 10 then [ZERO + n]
    else
      var d := Digits(n / 10) + [ZERO + n % 10];
      assert d[..|d| - 1] == Digits(n / 10);
      d
  }

  lemma {:induction false} EmitNatIsDigits(n: nat, rest: bytes)
    ensures EmitNat(n, rest) == Digits(n) + rest
  {
    if n >= 10 { EmitNatIsDigits(n / 10, [ZERO + n % 10] + rest); }
  }

  lemma {:induction false} ReadDigitsBack(d: bytes, acc: bytes, rest: bytes)
    requires AllDigits(d)
    requires rest == [] || !IsDigit(rest[0])
    ensures ReadDigits(d + rest, acc) == (acc + d, rest)
  {
    if d == [] {
      assert [] + rest == rest && acc + [] == acc;
    } else {
      ReadDigitsBack(d[1..], acc + [d[0]], rest);
      assert (d + rest)[1..] == d[1..] + rest;
      assert acc + [d[0]] + d[1..] == acc + d;
    }
  }

  lemma ReadIntegerPartBack(n: nat, acc: bytes, rest: bytes)
    requires !ExtendsNumber(rest)
    ensures ReadIntegerPart(Digits(n) + rest, acc) == Ok(acc + Digits(n), rest)
  {
    var d := Digits(n);
    assert (d + rest)[1..] == d[1..] + rest;
    if n == 0 {
      assert d == [ZERO];
    } else {
      ReadDigitsBack(d[1..], acc + [d[0]], rest);
      assert acc + [d[0]] + d[1..] == acc + d;
    }
  }

  lemma ReadNumberBack(lib: DoubleText, i: int, rest: bytes)
    requires LLONG_MIN <= i <= ULLONG_MAX
    requires !ExtendsNumber(rest)
    ensures ReadNumber(lib, EmitInt(i, rest)) == Ok(Renumber(i), rest)
  {
    var n := if i < 0 then -i else i;
    EmitNatIsDigits(n, rest);
    if i < 0 {
      ReadIntegerPartBack(n, [MINUS], rest);
      assert EmitInt(i, rest)[1..] == Digits(n) + rest;
      assert ([MINUS] + Digits(n))[1..] == Digits(n);
    } else {
      ReadIntegerPartBack(n, [], rest);
      assert [] + Digits(n) == Digits(n);
    }
  }

  // ----------------------------------------------------------------- the tree

  /** The first byte of a value is neither space nor punctuation. */
  lemma BodyHead(lib: DoubleText, v: Value, slashes: bool, indent: int, rest: bytes)
    requires indent % 2 == 0 ==> indent >= 0
    requires WellFormed(v) && DoubleFree(v)
    ensures var t := EmitBody(lib, v, slashes, indent, rest);
      t != [] && !IsSpace(t[0]) && t[0] != COMMA && t[0] != RBRACKET && t[0] != RBRACE
    ensures IsNumeric(v) ==> EmitBody(lib, v, slashes, indent, rest)[0] == MINUS || IsDigit(EmitBody(lib, v, slashes, indent, rest)[0])
  {
    if IsNumeric(v) { EmitNatIsDigits(if v.i < 0 then -v.i else v.i, rest); }
  }

  lemma EmitHead(lib: DoubleText, v: Value, slashes: bool, indent: int, rest: bytes)
    requires WellFormed(v) && DoubleFree(v)
    ensures var t := SkipSpace(Emit(lib, v, slashes, indent, rest));
      t != [] && t[0] != COMMA && t[0] != RBRACKET && t[0] != RBRACE
  {
    var body := EmitBody(lib, v, slashes, Inner(indent), rest);
    SkipLead(indent, body);
    BodyHead(lib, v, slashes, Inner(indent), rest);
  }

  lemma {:induction false} ReadWordBack(text: bytes, v: Value, rest: bytes)
    ensures ReadWord(text, v, text + rest) == Ok(v, rest)
  {
    if text == [] {
      assert text + rest == rest;
    } else {
      ReadWordBack(text[1..], v, rest);
      assert (text + rest)[1..] == text[1..] + rest;
    }
  }

  lemma {:induction false} ReadBack(lib: DoubleText, v: Value, slashes: bool, indent: int, rest: bytes)
    requires WellFormed(v) && DoubleFree(v)
    requires IsNumeric(v) ==> !ExtendsNumber(rest)
    ensures ReadValue(lib, Emit(lib, v, slashes, indent, rest)) == Ok(Readback(v), rest)
    decreases v, 1
  {
    var body := EmitBody(lib, v, slashes, Inner(indent), rest);
    SkipLead(indent, body);
    ReadSkipped(lib, Emit(lib, v, slashes, indent, rest), body);
    ReadBodyBack(lib, v, slashes, Inner(indent), rest);
  }

  lemma {:induction false} ReadBodyBack(lib: DoubleText, v: Value, slashes: bool, indent: int, rest: bytes)
    requires indent % 2 == 0 ==> indent >= 0
    requires WellFormed(v) && DoubleFree(v)
    requires IsNumeric(v) ==> !ExtendsNumber(rest)
    ensures ReadValue(lib, EmitBody(lib, v, slashes, indent, rest)) == Ok(Readback(v), rest)
    decreases v, 0
  {
    var t := EmitBody(lib, v, slashes, indent, rest);
    BodyHead(lib, v, slashes, indent, rest);
    assert SkipSpace(t) == t;
    if IsNumeric(v) {
      ReadNumberBack(lib, v.i, rest);
    } else {
      match v
      case Null => ReadWordBack(NULL_TEXT, Null, rest);
      case Bool(b) => ReadWordBack(if b then TRUE_TEXT else FALSE_TEXT, v, rest);
      case Str(s) => ReadStringBack(s, slashes, rest);
      case Arr(es) =>
        var close := EmitClose(indent, RBRACKET, rest);
        assert t[1..] == EmitElems(lib, es, true, slashes, indent, close);
        ReadElemsBack(lib, es, true, slashes, indent, rest, []);
        assert [] + ReadbackElems(es) == ReadbackElems(es);
      case Hash(en) =>
        var close := EmitClose(indent, RBRACE, rest);
        assert t[1..] == EmitEntries(lib, en, true, slashes, indent, close);
        ReadEntriesBack(lib, en, true, slashes, indent, rest, []);
      case _ =>
    }
  }

  /** One turn of the array loop, with or without the comma that separates it from the previous one. */
  lemma ReadElemsTurn(lib: DoubleText, first: bool, text: bytes, v: Value, rest: bytes, acc: seq<Value>)
    requires first <==> acc == []
    requires var t := SkipSpace(text); t != [] && t[0] != COMMA && t[0] != RBRACKET
    requires ReadValue(lib, text) == Ok(v, rest)
    ensures ReadElems(lib, if first then text else [COMMA] + text, acc) == ReadElems(lib, rest, acc + [v])
  {
    if !first { assert ([COMMA] + text)[1..] == text; }
    ReadSkipped(lib, text, SkipSpace(text));
  }

  lemma ReadbackOneMore(acc: seq<Value>, es: seq<Value>)
    requires es != []
    ensures (acc + [Readback(es[0])]) + ReadbackElems(es[1..]) == acc + ReadbackElems(es)
  {
    assert ReadbackElems(es) == [Readback(es[0])] + ReadbackElems(es[1..]);
  }

  lemma ReadElemsEnd(lib: DoubleText, indent: int, rest: bytes, acc: seq<Value>)
    requires indent % 2 == 0 ==> indent >= 0
    ensures ReadElems(lib, EmitClose(indent, RBRACKET, rest), acc) == Ok(Arr(acc), rest)
  {
    SkipClose(indent, RBRACKET, rest);
    assert ([RBRACKET] + rest)[1..] == rest;
  }

  lemma {:induction false} ReadElemsBack(lib: DoubleText, es: seq<Value>, first: bool, slashes: bool, indent: int, rest: bytes, acc: seq<Value>)
    requires indent % 2 == 0 ==> indent >= 0
    requires WellFormed(Arr(es)) && DoubleFree(Arr(es))
    requires first <==> acc == []
    ensures ReadElems(lib, EmitElems(lib, es, first, slashes, indent, EmitClose(indent, RBRACKET, rest)), acc)
         == Ok(Arr(acc + ReadbackElems(es)), rest)
    decreases es
  {
    var close := EmitClose(indent, RBRACKET, rest);
    if es == [] {
      ReadElemsEnd(lib, indent, rest, acc);
      assert acc + [] == acc;
    } else {
      var e, tail := es[0], es[1..];
      assert WellFormed(Arr(tail)) && DoubleFree(Arr(tail));
      var more := EmitElems(lib, tail, false, slashes, indent, close);
      var acc' := acc + [Readback(e)];
      ReadElemsBack(lib, tail, false, slashes, indent, rest, acc');
      CommaOrClose(lib, tail, slashes, indent, rest);
      EmitHead(lib, e, slashes, indent + 2, more);
      ReadBack(lib, e, slashes, indent + 2, more);
      ReadElemsTurn(lib, first, Emit(lib, e, slashes, indent + 2, more), Readback(e), more, acc);
      ReadbackOneMore(acc, es);
    }
  }

  /** What follows an element cannot extend it. */
  lemma CommaOrClose(lib: DoubleText, es: seq<Value>, slashes: bool, indent: int, rest: bytes)
    requires indent % 2 == 0 ==> indent >= 0
    ensures !ExtendsNumber(EmitElems(lib, es, false, slashes, indent, EmitClose(indent, RBRACKET, rest)))
  {}

  lemma CommaOrBrace(lib: DoubleText, en: seq<Entry>, slashes: bool, indent: int, rest: bytes)
    requires indent % 2 == 0 ==> indent >= 0
    ensures !ExtendsNumber(EmitEntries(lib, en, false, slashes, indent, EmitClose(indent, RBRACE, rest)))
  {}

  /** One turn of the object loop. */
  lemma ReadEntriesTurn(lib: DoubleText, first: bool, text: bytes, k: bytes, afterKey: bytes, v: Value, rest: bytes, acc: seq<Entry>)
    requires first <==> acc == []
    requires var t := SkipSpace(text); t != [] && t[0] == QUOTE && ReadString(t) == Ok(k, [COLON] + afterKey)
    requires ReadValue(lib, afterKey) == Ok(v, rest)
    ensures ReadEntries(lib, if first then text else [COMMA] + text, acc) == ReadEntries(lib, rest, Insert(acc, k, v))
  {
    if !first { assert ([COMMA] + text)[1..] == text; }
    assert ([COLON] + afterKey)[1..] == afterKey;
  }

  lemma ReadAfterSpace(lib: DoubleText, value: bytes)
    ensures ReadValue(lib, [SPACE] + value) == ReadValue(lib, value)
  {
    assert ([SPACE] + value)[1..] == value;
    ReadSkipped(lib, [SPACE] + value, value);
  }

  lemma {:induction false} ReadAfterColon(lib: DoubleText, v: Value, slashes: bool, indent: int, rest: bytes)
    requires WellFormed(v) && DoubleFree(v)
    requires IsNumeric(v) ==> !ExtendsNumber(rest)
    ensures ReadValue(lib, EmitAfterColon(lib, v, slashes, indent, rest)) == Ok(Readback(v), rest)
    decreases v, 2
  {
    ReadBack(lib, v, slashes, -(indent + 2), rest);
    ReadAfterSpace(lib, Emit(lib, v, slashes, -(indent + 2), rest));
  }

  lemma ReadEntriesEnd(lib: DoubleText, indent: int, rest: bytes, acc: seq<Entry>)
    requires indent % 2 == 0 ==> indent >= 0
    ensures ReadEntries(lib, EmitClose(indent, RBRACE, rest), acc) == Ok(Hash(acc), rest)
  {
    SkipClose(indent, RBRACE, rest);
    assert ([RBRACE] + rest)[1..] == rest;
  }

  /** One entry read back, once its value is. */
  lemma ReadEntryBack(lib: DoubleText, k: bytes, value: bytes, v: Value, first: bool, slashes: bool, indent: int, more: bytes, acc: seq<Entry>)
    requires first <==> acc == []
    requires ReadValue(lib, value) == Ok(v, more)
    ensures var text := EmitLead(indent + 2, EmitString(k, slashes, [COLON] + value));
      ReadEntries(lib, if first then text else [COMMA] + text, acc) == ReadEntries(lib, more, Insert(acc, Cut(k), v))
  {
    var key := EmitString(k, slashes, [COLON] + value);
    SkipLead(indent + 2, key);
    ReadStringBack(k, slashes, [COLON] + value);
    ReadEntriesTurn(lib, first, EmitLead(indent + 2, key), Cut(k), value, v, more, acc);
  }

  lemma {:induction false} ReadEntriesBack(lib: DoubleText, en: seq<Entry>, first: bool, slashes: bool, indent: int, rest: bytes, acc: seq<Entry>)
    requires indent % 2 == 0 ==> indent >= 0
    requires forall i | 0 <= i < |en| :: WellFormed(en[i].value) && DoubleFree(en[i].value)
    requires first <==> acc == []
    ensures ReadEntries(lib, EmitEntries(lib, en, first, slashes, indent, EmitClose(indent, RBRACE, rest)), acc)
         == Ok(Hash(ReadbackEntries(en, acc)), rest)
    decreases en
  {
    if en == [] {
      ReadEntriesEnd(lib, indent, rest, acc);
    } else {
      var v, more := en[0].value, EmitEntries(lib, en[1..], false, slashes, indent, EmitClose(indent, RBRACE, rest));
      CommaOrBrace(lib, en[1..], slashes, indent, rest);
      ReadAfterColon(lib, v, slashes, indent, more);
      ReadEntryBack(lib, en[0].key, EmitAfterColon(lib, v, slashes, indent, more), Readback(v), first, slashes, indent, more, acc);
      ReadEntriesBack(lib, en[1..], false, slashes, indent, rest, Insert(acc, Cut(en[0].key), Readback(v)));
    }
  }

  // ------------------------------------------------- exactly when nothing is lost

  lemma {:induction false} CutIsNulFree(s: bytes)
    ensures NUL !in Cut(s)
    ensures NUL !in s ==> Cut(s) == s
  {
    if s != [] {
      CutIsNulFree(s[1..]);
      assert s == [s[0]] + s[1..];
    }
  }

  lemma {:induction false} ReadbackOfNulFree(v: Value)
    requires WellFormed(v) && NulFree(v)
    ensures Readback(v) == Retype(v)
    decreases v, 0
  {
    match v
    case Str(s) => CutIsNulFree(s);
    case Arr(es) =>
      forall i | 0 <= i < |es| ensures Readback(es[i]) == Retype(es[i]) { ReadbackOfNulFree(es[i]); }
      assert ReadbackElems(es) == RetypeElems(es);
    case Hash(en) =>
      ReadbackEntriesOfNulFree(en, 0);
      assert [] + RetypeEntries(en) == RetypeEntries(en);
      assert RetypeEntries(en)[..0] == [] && en[0..] == en;
    case _ =>
  }

  /** The entries retyped so far come before the next key. */
  lemma RetypedComesBefore(en: seq<Entry>, k: nat)
    requires k < |en| && Sorted(en)
    ensures Sorted(RetypeEntries(en)[..k])
    ensures forall e | e in RetypeEntries(en)[..k] :: Less(e.key, en[k].key)
  {
    var r := RetypeEntries(en);
    forall e | e in r[..k] ensures Less(e.key, en[k].key) {
      var i :| 0 <= i < k && r[..k][i] == e;
      assert e == r[i];
    }
  }

  lemma InsertRetyped(en: seq<Entry>, k: nat)
    requires k < |en| && Sorted(en)
    ensures Insert(RetypeEntries(en)[..k], en[k].key, Retype(en[k].value)) == RetypeEntries(en)[..k + 1]
  {
    var r := RetypeEntries(en);
    RetypedComesBefore(en, k);
    InsertLast(r[..k], en[k].key, Retype(en[k].value));
    assert r[..k] + [r[k]] == r[..k + 1];
  }

  lemma ReadbackOneEntry(en: seq<Entry>, acc: seq<Entry>)
    requires en != [] && NUL !in en[0].key && Readback(en[0].value) == Retype(en[0].value)
    ensures ReadbackEntries(en, acc) == ReadbackEntries(en[1..], Insert(acc, en[0].key, Retype(en[0].value)))
  {
    CutIsNulFree(en[0].key);
  }

  /** One more entry read back goes to the end of those before it. */
  lemma ReadbackEntriesTurn(en: seq<Entry>, k: nat)
    requires k < |en| && Sorted(en) && NUL !in en[k].key && Readback(en[k].value) == Retype(en[k].value)
    ensures ReadbackEntries(en[k..], RetypeEntries(en)[..k]) == ReadbackEntries(en[k + 1..], RetypeEntries(en)[..k + 1])
  {
    InsertRetyped(en, k);
    ReadbackOneEntry(en[k..], RetypeEntries(en)[..k]);
    assert en[k..][1..] == en[k + 1..];
  }

  lemma {:induction false} ReadbackEntriesOfNulFree(en: seq<Entry>, k: nat)
    requires k <= |en| && Sorted(en)
    requires forall i | 0 <= i < |en| :: WellFormed(en[i].value) && NUL !in en[i].key && NulFree(en[i].value)
    ensures ReadbackEntries(en[k..], RetypeEntries(en)[..k]) == RetypeEntries(en)
    decreases en, |en| - k
  {
    if k < |en| {
      ReadbackOfNulFree(en[k].value);
      ReadbackEntriesTurn(en, k);
      ReadbackEntriesOfNulFree(en, k + 1);
    } else {
      assert RetypeEntries(en)[..k] == RetypeEntries(en) && en[k..] == [];
    }
  }

  lemma {:induction false} ReadbackIsNulFree(v: Value)
    ensures NulFree(Readback(v))
    decreases v, 0
  {
    match v
    case Str(s) => CutIsNulFree(s);
    case Arr(es) =>
      forall i | 0 <= i < |es| ensures NulFree(Readback(es[i])) { ReadbackIsNulFree(es[i]); }
    case Hash(en) => ReadbackEntriesAreNulFree(en, []);
    case _ =>
  }

  lemma {:induction false} ReadbackEntriesAreNulFree(en: seq<Entry>, acc: seq<Entry>)
    requires NulFree(Hash(acc))
    ensures NulFree(Hash(ReadbackEntries(en, acc)))
    decreases en
  {
    if en != [] {
      CutIsNulFree(en[0].key);
      ReadbackIsNulFree(en[0].value);
      InsertIsNulFree(acc, Cut(en[0].key), Readback(en[0].value));
      ReadbackEntriesAreNulFree(en[1..], Insert(acc, Cut(en[0].key), Readback(en[0].value)));
    }
  }

  lemma {:induction false} InsertIsNulFree(en: seq<Entry>, k: bytes, v: Value)
    requires NulFree(Hash(en)) && NUL !in k && NulFree(v)
    ensures NulFree(Hash(Insert(en, k, v)))
  {
    if en != [] {
      InsertIsNulFree(en[1..], k, v);
    }
  }

  lemma {:induction false} RetypeKeepsNuls(v: Value)
    ensures NulFree(Retype(v)) ==> NulFree(v)
  {
    match v
    case Arr(es) => forall i | 0 <= i < |es| ensures NulFree(Retype(es[i])) ==> NulFree(es[i]) { RetypeKeepsNuls(es[i]); }
    case Hash(en) => forall i | 0 <= i < |en| ensures NulFree(Retype(en[i].value)) ==> NulFree(en[i].value) { RetypeKeepsNuls(en[i].value); }
    case _ =>
  }

  // ------------------------------------------------------------- main results

  /**
    For every double-free tree, either flag, any indent and any following text that cannot extend a number:
    parsing what was printed consumes exactly it, and gives the tree back with integers re-typed by range
    if and only if no string or key in it holds a NUL.
   */
  lemma JsonRoundTrip(lib: DoubleText, v: Value, slashes: bool, indent: int, rest: bytes)
    requires WellFormed(v) && DoubleFree(v)
    requires IsNumeric(v) ==> !ExtendsNumber(rest)
    ensures ReadValue(lib, Emit(lib, v, slashes, indent, rest)) == Ok(Readback(v), rest)
    ensures ReadValue(lib, Emit(lib, v, slashes, indent, rest)) == Ok(Retype(v), rest) <==> NulFree(v)
  {
    ReadBack(lib, v, slashes, indent, rest);
    if NulFree(v) {
      ReadbackOfNulFree(v);
    } else {
      ReadbackIsNulFree(v);
      RetypeKeepsNuls(v);
    }
  }

  lemma {:induction false} EmitRetyped(lib: DoubleText, v: Value, slashes: bool, indent: int, rest: bytes)
    requires indent % 2 == 0 ==> indent >= 0
    ensures EmitBody(lib, Retype(v), slashes, indent, rest) == EmitBody(lib, v, slashes, indent, rest)
    decreases v, 0
  {
    match v
    case Arr(es) => EmitRetypedElems(lib, es, true, slashes, indent, EmitClose(indent, RBRACKET, rest));
    case Hash(en) => EmitRetypedEntries(lib, en, true, slashes, indent, EmitClose(indent, RBRACE, rest));
    case _ =>
  }

  lemma {:induction false} EmitRetypedElems(lib: DoubleText, es: seq<Value>, first: bool, slashes: bool, indent: int, rest: bytes)
    ensures EmitElems(lib, RetypeElems(es), first, slashes, indent, rest) == EmitElems(lib, es, first, slashes, indent, rest)
    decreases es
  {
    if es != [] {
      EmitRetypedElems(lib, es[1..], false, slashes, indent, rest);
      assert RetypeElems(es)[1..] == RetypeElems(es[1..]);
      EmitRetyped(lib, es[0], slashes, Inner(indent + 2), EmitElems(lib, es[1..], false, slashes, indent, rest));
    }
  }

  lemma {:induction false} EmitRetypedEntries(lib: DoubleText, en: seq<Entry>, first: bool, slashes: bool, indent: int, rest: bytes)
    ensures EmitEntries(lib, RetypeEntries(en), first, slashes, indent, rest) == EmitEntries(lib, en, first, slashes, indent, rest)
    decreases en
  {
    if en != [] {
      EmitRetypedEntries(lib, en[1..], false, slashes, indent, rest);
      assert RetypeEntries(en)[1..] == RetypeEntries(en[1..]);
      var more := EmitEntries(lib, en[1..], false, slashes, indent, rest);
      EmitRetyped(lib, en[0].value, slashes, Inner(-(indent + 2)), more);
      assert EmitAfterColon(lib, Retype(en[0].value), slashes, indent, more) == EmitAfterColon(lib, en[0].value, slashes, indent, more);
    }
  }

  /**
    `operator==` compares printed text (source/Utility/Value.h:112).  On trees without doubles and NULs that
    is equality up to the integer type.
   */
  lemma TextEqualityIsValueEquality(lib: DoubleText, v: Value, w: Value)
    requires WellFormed(v) && DoubleFree(v) && NulFree(v)
    requires WellFormed(w) && DoubleFree(w) && NulFree(w)
    ensures ToJson(lib, v, true, false) == ToJson(lib, w, true, false) <==> Retype(v) == Retype(w)
  {
    JsonRoundTrip(lib, v, true, 1, []);
    JsonRoundTrip(lib, w, true, 1, []);
    EmitRetyped(lib, v, true, 1, []);
    EmitRetyped(lib, w, true, 1, []);
  }

  /** The stored setting comes back through `ToJSON` and `FromJSON`, packed or pretty. */
  lemma FromJsonOfToJson(lib: DoubleText, v: Value, slashes: bool, prettify: bool)
    requires WellFormed(v) && DoubleFree(v)
    ensures FromJson(lib, ToJson(lib, v, slashes, prettify)) == Retype(v) <==> NulFree(v)
  {
    JsonRoundTrip(lib, v, slashes, if prettify then 0 else 1, []);
  }
}
