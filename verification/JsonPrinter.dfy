/**
  `Value::toStream` with `asJSON` set (source/Utility/Value.cpp:35-159): loops appending to an output stream.
 */
module JsonPrinter {
  import opened ValueTree
  import opened JsonSyntax
  import opened Streams

  // --------------------- the continuation form appends what follows unchanged

  lemma {:induction false} BlanksThen(n: nat, rest: bytes)
    ensures Blanks(n, rest) == Blanks(n, []) + rest
  {
    if n > 0 { BlanksThen(n - 1, rest); }
  }

  lemma {:induction false} CharsThen(s: bytes, slashes: bool, rest: bytes)
    ensures EmitChars(s, slashes, rest) == EmitChars(s, slashes, []) + rest
  {
    if s != [] && s[0] != NUL { CharsThen(s[1..], slashes, rest); }
  }

  lemma StringParts(s: bytes, slashes: bool)
    ensures EmitString(s, slashes, []) == [QUOTE] + EmitChars(s, slashes, []) + [QUOTE]
  {
    CharsThen(s, slashes, [QUOTE] + []);
    assert [QUOTE] + [] == [QUOTE];
  }

  lemma StringThen(s: bytes, slashes: bool, rest: bytes)
    ensures EmitString(s, slashes, rest) == EmitString(s, slashes, []) + rest
  {
    var chars := EmitChars(s, slashes, []);
    StringParts(s, slashes);
    CharsThen(s, slashes, [QUOTE] + rest);
    Assoc(chars, [QUOTE], rest);
    Assoc([QUOTE], chars + [QUOTE], rest);
    Assoc([QUOTE], chars, [QUOTE]);
  }

  lemma {:induction false} NatThen(n: nat, rest: bytes)
    ensures EmitNat(n, rest) == EmitNat(n, []) + rest
  {
    if n >= 10 {
      NatThen(n / 10, [ZERO + n % 10] + rest);
      NatThen(n / 10, [ZERO + n % 10]);
      assert [ZERO + n % 10] + [] == [ZERO + n % 10];
    }
  }

  lemma LeadThen(indent: int, rest: bytes)
    ensures EmitLead(indent, rest) == EmitLead(indent, []) + rest
  {
    if indent > 0 { BlanksThen(indent, rest); }
  }

  lemma CloseThen(indent: int, close: byte, rest: bytes)
    requires indent % 2 == 0 ==> indent >= 0
    ensures EmitClose(indent, close, rest) == EmitClose(indent, close, []) + rest
  {
    if indent % 2 == 0 {
      BlanksThen(indent, [close] + rest);
      BlanksThen(indent, [close]);
      assert [close] + [] == [close];
    }
  }

  lemma {:induction false} EmitThen(lib: DoubleText, v: Value, slashes: bool, indent: int, rest: bytes)
    ensures Emit(lib, v, slashes, indent, rest) == Emit(lib, v, slashes, indent, []) + rest
    decreases v, 1
  {
    BodyThen(lib, v, slashes, Inner(indent), rest);
    LeadThen(indent, EmitBody(lib, v, slashes, Inner(indent), rest));
    LeadThen(indent, EmitBody(lib, v, slashes, Inner(indent), []));
  }

  lemma Bracketed(open: byte, items: bytes, close: bytes, rest: bytes)
    ensures [open] + (items + (close + rest)) == ([open] + (items + close)) + rest
  {}

  lemma {:induction false} BodyThen(lib: DoubleText, v: Value, slashes: bool, indent: int, rest: bytes)
    requires indent % 2 == 0 ==> indent >= 0
    ensures EmitBody(lib, v, slashes, indent, rest) == EmitBody(lib, v, slashes, indent, []) + rest
    decreases v, 0
  {
    match v
    case Int(i) => NatThen(if i < 0 then -i else i, rest);
    case LongLong(i) => NatThen(if i < 0 then -i else i, rest);
    case UInt(i) => NatThen(if i < 0 then -i else i, rest);
    case ULongLong(i) => NatThen(if i < 0 then -i else i, rest);
    case Str(s) => StringThen(s, slashes, rest);
    case Arr(es) =>
      var close := EmitClose(indent, RBRACKET, []);
      CloseThen(indent, RBRACKET, rest);
      ElemsThen(lib, es, true, slashes, indent, close);
      ElemsThen(lib, es, true, slashes, indent, close + rest);
      Bracketed(LBRACKET, EmitElems(lib, es, true, slashes, indent, []), close, rest);
    case Hash(en) =>
      var close := EmitClose(indent, RBRACE, []);
      CloseThen(indent, RBRACE, rest);
      EntriesThen(lib, en, true, slashes, indent, close);
      EntriesThen(lib, en, true, slashes, indent, close + rest);
      Bracketed(LBRACE, EmitEntries(lib, en, true, slashes, indent, []), close, rest);
    case _ =>
  }

  lemma {:induction false} ElemsThen(lib: DoubleText, es: seq<Value>, first: bool, slashes: bool, indent: int, rest: bytes)
    ensures EmitElems(lib, es, first, slashes, indent, rest) == EmitElems(lib, es, first, slashes, indent, []) + rest
    decreases es
  {
    if es != [] {
      var more := EmitElems(lib, es[1..], false, slashes, indent, []);
      var item := Emit(lib, es[0], slashes, indent + 2, []);
      ElemsThen(lib, es[1..], false, slashes, indent, rest);
      EmitThen(lib, es[0], slashes, indent + 2, more + rest);
      EmitThen(lib, es[0], slashes, indent + 2, more);
      Assoc(item, more, rest);
      Assoc([COMMA], item + more, rest);
    }
  }

  lemma {:induction false} AfterColonThen(lib: DoubleText, v: Value, slashes: bool, indent: int, rest: bytes)
    ensures EmitAfterColon(lib, v, slashes, indent, rest) == EmitAfterColon(lib, v, slashes, indent, []) + rest
    decreases v, 2
  {
    EmitThen(lib, v, slashes, -(indent + 2), rest);
  }

  /** One entry, with nothing after it. */
  function EmitEntry(lib: DoubleText, e: Entry, slashes: bool, indent: int): bytes {
    EmitLead(indent + 2, []) + EmitString(e.key, slashes, []) + [COLON] + EmitAfterColon(lib, e.value, slashes, indent, [])
  }

  lemma {:induction false} EntryThen(lib: DoubleText, e: Entry, slashes: bool, indent: int, rest: bytes)
    ensures EmitLead(indent + 2, EmitString(e.key, slashes, [COLON] + EmitAfterColon(lib, e.value, slashes, indent, rest)))
         == EmitEntry(lib, e, slashes, indent) + rest
    decreases e
  {
    var lead, key, value := EmitLead(indent + 2, []), EmitString(e.key, slashes, []), EmitAfterColon(lib, e.value, slashes, indent, []);
    AfterColonThen(lib, e.value, slashes, indent, rest);
    Assoc([COLON], value, rest);
    StringThen(e.key, slashes, [COLON] + (value + rest));
    LeadThen(indent + 2, key + ([COLON] + (value + rest)));
    EntryParts(lead, key, value, rest);
  }

  lemma EntryParts(lead: bytes, key: bytes, value: bytes, rest: bytes)
    ensures lead + (key + ([COLON] + (value + rest))) == (((lead + key) + [COLON]) + value) + rest
  {}

  lemma {:induction false} EntriesThen(lib: DoubleText, en: seq<Entry>, first: bool, slashes: bool, indent: int, rest: bytes)
    ensures EmitEntries(lib, en, first, slashes, indent, rest) == EmitEntries(lib, en, first, slashes, indent, []) + rest
    decreases en
  {
    if en != [] {
      var more := EmitEntries(lib, en[1..], false, slashes, indent, []);
      var item := EmitEntry(lib, en[0], slashes, indent);
      EntriesThen(lib, en[1..], false, slashes, indent, rest);
      EntryThen(lib, en[0], slashes, indent, more + rest);
      EntryThen(lib, en[0], slashes, indent, more);
      Assoc(item, more, rest);
      Assoc([COMMA], item + more, rest);
    }
  }

  /** One byte of a string. */
  function EmitChar(c: byte, slashes: bool): bytes {
    match EscapeOf(c, slashes) case Some(e) => [BACKSLASH, e] case None => [c]
  }

  lemma CharsFrom(s: bytes, p: nat, slashes: bool)
    requires p < |s| && s[p] != NUL
    ensures EmitChars(s[p..], slashes, []) == EmitChar(s[p], slashes) + EmitChars(s[p + 1..], slashes, [])
  {
    assert s[p..][1..] == s[p + 1..];
  }

  /** The comma between elements. */
  function Separator(i: nat): bytes { if i == 0 then [] else [COMMA] }

  lemma ElemsFrom(lib: DoubleText, es: seq<Value>, i: nat, slashes: bool, indent: int)
    requires i < |es|
    ensures EmitElems(lib, es[i..], i == 0, slashes, indent, [])
         == (Separator(i) + Emit(lib, es[i], slashes, indent + 2, [])) + EmitElems(lib, es[i + 1..], false, slashes, indent, [])
  {
    assert es[i..][1..] == es[i + 1..];
    EmitThen(lib, es[i], slashes, indent + 2, EmitElems(lib, es[i + 1..], false, slashes, indent, []));
  }

  lemma EntriesFrom(lib: DoubleText, en: seq<Entry>, i: nat, slashes: bool, indent: int)
    requires i < |en|
    ensures EmitEntries(lib, en[i..], i == 0, slashes, indent, [])
         == (Separator(i) + EmitEntry(lib, en[i], slashes, indent)) + EmitEntries(lib, en[i + 1..], false, slashes, indent, [])
  {
    assert en[i..][1..] == en[i + 1..];
    EntryThen(lib, en[i], slashes, indent, EmitEntries(lib, en[i + 1..], false, slashes, indent, []));
  }

  lemma ArrayParts(lib: DoubleText, es: seq<Value>, slashes: bool, indent: int)
    requires indent % 2 == 0 ==> indent >= 0
    ensures EmitBody(lib, Arr(es), slashes, indent, [])
         == [LBRACKET] + EmitElems(lib, es, true, slashes, indent, []) + EmitClose(indent, RBRACKET, [])
  {
    ElemsThen(lib, es, true, slashes, indent, EmitClose(indent, RBRACKET, []));
  }

  lemma HashParts(lib: DoubleText, en: seq<Entry>, slashes: bool, indent: int)
    requires indent % 2 == 0 ==> indent >= 0
    ensures EmitBody(lib, Hash(en), slashes, indent, [])
         == [LBRACE] + EmitEntries(lib, en, true, slashes, indent, []) + EmitClose(indent, RBRACE, [])
  {
    EntriesThen(lib, en, true, slashes, indent, EmitClose(indent, RBRACE, []));
  }

  // ------------------------------------------------------------- the methods

  method WriteNewline(out: OutStream, indent: nat)
    modifies out
    ensures out.text == old(out.text) + EmitNewline(indent, [])
  {
    out.Put(LF);
    var i := 0;
    while i < indent
      invariant 0 <= i <= indent
      invariant out.text + Blanks(indent - i, []) == old(out.text) + EmitNewline(indent, [])
    {
      out.Put(SPACE);
      i := i + 1;
    }
  }

  method WriteChar(out: OutStream, c: byte, slashes: bool)
    modifies out
    ensures out.text == old(out.text) + EmitChar(c, slashes)
  {
    if c == QUOTE || c == BACKSLASH {
      out.Write([BACKSLASH, c]);
    } else if c == SLASH {
      if slashes { out.Write([BACKSLASH, SLASH]); } else { out.Put(c); }
    } else if c == BS {
      out.Write([BACKSLASH, LETTER_B]);
    } else if c == FF {
      out.Write([BACKSLASH, LETTER_F]);
    } else if c == LF {
      out.Write([BACKSLASH, LETTER_N]);
    } else if c == CR {
      out.Write([BACKSLASH, LETTER_R]);
    } else if c == TAB {
      out.Write([BACKSLASH, LETTER_T]);
    } else {
      out.Put(c);
    }
  }

  method WriteString(out: OutStream, s: bytes, slashes: bool)
    modifies out
    ensures out.text == old(out.text) + EmitString(s, slashes, [])
  {
    StringParts(s, slashes);
    out.Put(QUOTE);
    ghost var start := out.text;
    var p := 0;
    while p < |s| && s[p] != NUL
      invariant 0 <= p <= |s|
      invariant out.text + EmitChars(s[p..], slashes, []) == start + EmitChars(s, slashes, [])
    {
      CharsFrom(s, p, slashes);
      Assoc(out.text, EmitChar(s[p], slashes), EmitChars(s[p + 1..], slashes, []));
      WriteChar(out, s[p], slashes);
      p := p + 1;
    }
    assert out.text == start + EmitChars(s, slashes, []) by { assert EmitChars(s[p..], slashes, []) == []; }
    out.Put(QUOTE);
  }

  method ToStream(lib: DoubleText, v: Value, out: OutStream, slashes: bool, indent0: int)
    modifies out
    ensures out.text == old(out.text) + Emit(lib, v, slashes, indent0, [])
    decreases v, 3
  {
    LeadThen(indent0, EmitBody(lib, v, slashes, Inner(indent0), []));
    Assoc(out.text, EmitLead(indent0, []), EmitBody(lib, v, slashes, Inner(indent0), []));
    var indent := indent0;
    if indent % 2 == 0 {
      if indent > 0 {
        WriteNewline(out, indent);
      } else {
        indent := -indent;
      }
    }
    WriteBody(lib, v, out, slashes, indent);
  }

  method WriteBody(lib: DoubleText, v: Value, out: OutStream, slashes: bool, indent: int)
    requires indent % 2 == 0 ==> indent >= 0
    modifies out
    ensures out.text == old(out.text) + EmitBody(lib, v, slashes, indent, [])
    decreases v, 2
  {
    match v
    case Str(s) => WriteString(out, s, slashes);
    case Int(i) => out.Write(EmitInt(i, []));
    case LongLong(i) => out.Write(EmitInt(i, []));
    case Double(bits) => out.Write(lib.format(bits));
    case Bool(b) => out.Write(if b then TRUE_TEXT else FALSE_TEXT);
    case Null => out.Write(NULL_TEXT);
    case UInt(i) => out.Write(EmitInt(i, []));
    case ULongLong(i) => out.Write(EmitInt(i, []));
    case Arr(es) => WriteArray(lib, es, out, slashes, indent);
    case Hash(en) => WriteHash(lib, en, out, slashes, indent);
  }

  method WriteClose(out: OutStream, indent: int, close: byte)
    requires indent % 2 == 0 ==> indent >= 0
    modifies out
    ensures out.text == old(out.text) + EmitClose(indent, close, [])
  {
    assert [close] + [] == [close];
    if indent % 2 == 0 {
      BlanksThen(indent, [close]);
      WriteNewline(out, indent);
    }
    out.Put(close);
  }

  method WriteSeparator(out: OutStream, i: nat)
    modifies out
    ensures out.text == old(out.text) + Separator(i)
  {
    if i != 0 {
      out.Put(COMMA);
    }
  }

  method WriteArray(lib: DoubleText, es: seq<Value>, out: OutStream, slashes: bool, indent: int)
    requires indent % 2 == 0 ==> indent >= 0
    modifies out
    ensures out.text == old(out.text) + EmitBody(lib, Arr(es), slashes, indent, [])
    decreases es, 2
  {
    ArrayParts(lib, es, slashes, indent);
    out.Put(LBRACKET);
    WriteElems(lib, es, out, slashes, indent);
    WriteClose(out, indent, RBRACKET);
  }

  method WriteElems(lib: DoubleText, es: seq<Value>, out: OutStream, slashes: bool, indent: int)
    requires indent % 2 == 0 ==> indent >= 0
    modifies out
    ensures out.text == old(out.text) + EmitElems(lib, es, true, slashes, indent, [])
    decreases es, 1
  {
    ghost var start := out.text;
    var i := 0;
    while i < |es|
      invariant 0 <= i <= |es|
      invariant out.text + EmitElems(lib, es[i..], i == 0, slashes, indent, []) == start + EmitElems(lib, es, true, slashes, indent, [])
    {
      ghost var before := out.text;
      WriteSeparator(out, i);
      ToStream(lib, es[i], out, slashes, indent + 2);
      ElemsFrom(lib, es, i, slashes, indent);
      Assoc(before, Separator(i), Emit(lib, es[i], slashes, indent + 2, []));
      Assoc(before, Separator(i) + Emit(lib, es[i], slashes, indent + 2, []), EmitElems(lib, es[i + 1..], false, slashes, indent, []));
      i := i + 1;
    }
  }

  method WriteHash(lib: DoubleText, en: seq<Entry>, out: OutStream, slashes: bool, indent: int)
    requires indent % 2 == 0 ==> indent >= 0
    modifies out
    ensures out.text == old(out.text) + EmitBody(lib, Hash(en), slashes, indent, [])
    decreases en, 2
  {
    HashParts(lib, en, slashes, indent);
    out.Put(LBRACE);
    WriteEntries(lib, en, out, slashes, indent);
    WriteClose(out, indent, RBRACE);
  }

  method WriteEntries(lib: DoubleText, en: seq<Entry>, out: OutStream, slashes: bool, indent: int)
    requires indent % 2 == 0 ==> indent >= 0
    modifies out
    ensures out.text == old(out.text) + EmitEntries(lib, en, true, slashes, indent, [])
    decreases en, 1
  {
    ghost var start := out.text;
    var i := 0;
    while i < |en|
      invariant 0 <= i <= |en|
      invariant out.text + EmitEntries(lib, en[i..], i == 0, slashes, indent, []) == start + EmitEntries(lib, en, true, slashes, indent, [])
    {
      ghost var before := out.text;
      WriteSeparator(out, i);
      WriteEntry(lib, en[i], out, slashes, indent);
      EntriesFrom(lib, en, i, slashes, indent);
      Assoc(before, Separator(i), EmitEntry(lib, en[i], slashes, indent));
      Assoc(before, Separator(i) + EmitEntry(lib, en[i], slashes, indent), EmitEntries(lib, en[i + 1..], false, slashes, indent, []));
      i := i + 1;
    }
  }

  method WriteEntry(lib: DoubleText, e: Entry, out: OutStream, slashes: bool, indent: int)
    modifies out
    ensures out.text == old(out.text) + EmitEntry(lib, e, slashes, indent)
    decreases e, 0
  {
    ghost var start, lead, key := out.text, EmitLead(indent + 2, []), EmitString(e.key, slashes, []);
    if (indent + 2) % 2 == 0 && indent + 2 > 0 {
      WriteNewline(out, indent + 2);
    }
    assert out.text == start + lead;
    WriteString(out, e.key, slashes);
    Assoc(start, lead, key);
    out.Put(COLON);
    Assoc(start, lead + key, [COLON]);
    if indent % 2 == 0 {
      out.Put(SPACE);
    }
    ToStream(lib, e.value, out, slashes, -(indent + 2));
    assert out.text == start + (lead + key + [COLON]) + EmitAfterColon(lib, e.value, slashes, indent, []);
    Assoc(start, lead + key + [COLON], EmitAfterColon(lib, e.value, slashes, indent, []));
  }

  method ToJSON(lib: DoubleText, v: Value, slashes: bool, prettify: bool) returns (json: bytes)
    ensures json == ToJson(lib, v, slashes, prettify)
  {
    var oss := new OutStream();
    ToStream(lib, v, oss, slashes, if prettify then 0 else 1);
    json := oss.text;
  }
}
