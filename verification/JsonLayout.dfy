/**
  What the printer of source/Utility/Value.cpp:35-159 writes, as a tree of the grammar: where it breaks lines and how far it
  indents by depth instead of by its signed indent, and when its text is strict RFC 8259.
 */
module JsonLayout {
  import opened Unicode
  import opened ValueTree
  import opened JsonSyntax
  import opened JsonRoundTrip
  import opened JsonNumbers
  import opened JsonGrammar

  // ---------------------------------------------------------- the tree of a value

  function Spaces(n: nat): bytes { seq(n, _ => SPACE) }

  /** A new line at a depth: two blanks per level. */
  function Newline(depth: nat): bytes { [LF] + Spaces(2 * depth) }

  /** Before an element: a comma unless it is the first, and its line. */
  function GapBefore(first: bool, pretty: bool, depth: nat): bytes {
    (if first then [] else [COMMA]) + (if pretty then Newline(depth) else [])
  }

  function PieceFor(c: byte, slashes: bool): Piece {
    if c == QUOTE || c == BACKSLASH || (c == SLASH && slashes) then Letter(c)
    else if c == 0x08 then Letter(LETTER_B)
    else if c == 0x0C then Letter(LETTER_F)
    else if c == 0x0A then Letter(LETTER_N)
    else if c == 0x0D then Letter(LETTER_R)
    else if c == 0x09 then Letter(LETTER_T)
    else Plain(c)
  }

  function PiecesFor(s: bytes, slashes: bool): seq<Piece> {
    if s == [] || s[0] == NUL then [] else [PieceFor(s[0], slashes)] + PiecesFor(s[1..], slashes)
  }

  function NumeralFor(i: int): Numeral { Numeral(i < 0, Digits(if i < 0 then -i else i), None, None) }

  /** The tree of a value that stands at a depth; `num` says how doubles are written. */
  function Tree(num: bytes -> Numeral, v: Value, slashes: bool, pretty: bool, depth: nat): Syntax
    decreases v
  {
    match v
    case Null => Nothing
    case Bool(b) => Truth(b)
    case Int(i) => Number(NumeralFor(i))
    case LongLong(i) => Number(NumeralFor(i))
    case UInt(i) => Number(NumeralFor(i))
    case ULongLong(i) => Number(NumeralFor(i))
    case Double(bits) => Number(num(bits))
    case Str(s) => Text(PiecesFor(s, slashes))
    case Arr(es) => List(Items(num, es, true, slashes, pretty, depth + 1), GapBefore(true, pretty, depth))
    case Hash(en) => Object(Members(num, en, true, slashes, pretty, depth + 1), GapBefore(true, pretty, depth))
  }

  function Items(num: bytes -> Numeral, es: seq<Value>, first: bool, slashes: bool, pretty: bool, depth: nat): (items: seq<Item>)
    ensures items == [] <==> es == []
    decreases es
  {
    if es == [] then []
    else [Item(GapBefore(first, pretty, depth), Tree(num, es[0], slashes, pretty, depth))] + Items(num, es[1..], false, slashes, pretty, depth)
  }

  /** Every entry is on a line of its own, its value after the colon and one blank. */
  function Members(num: bytes -> Numeral, en: seq<Entry>, first: bool, slashes: bool, pretty: bool, depth: nat): (members: seq<Member>)
    ensures members == [] <==> en == []
    decreases en
  {
    if en == [] then []
    else
      [Member(GapBefore(first, pretty, depth), PiecesFor(en[0].key, slashes), [], if pretty then [SPACE] else [],
              Tree(num, en[0].value, slashes, pretty, depth))]
      + Members(num, en[1..], false, slashes, pretty, depth)
  }

  // ------------------------------------------------ the printer writes that tree

  ghost predicate FormatsAs(lib: DoubleText, num: bytes -> Numeral) { forall bits :: lib.format(bits) == NumeralText(num(bits)) }

  /** The indent that the printer has inside a value at a depth; every odd indent packs. */
  predicate IsIndent(indent: int, pretty: bool, depth: nat) { if pretty then indent == 2 * depth else indent % 2 == 1 }

  lemma {:induction false} BlanksAreSpaces(n: nat, rest: bytes)
    ensures Blanks(n, rest) == Spaces(n) + rest
  {
    if n == 0 {
      assert Spaces(0) + rest == rest;
    } else {
      BlanksAreSpaces(n - 1, rest);
      assert Spaces(n) == [SPACE] + Spaces(n - 1);
      assert [SPACE] + (Spaces(n - 1) + rest) == ([SPACE] + Spaces(n - 1)) + rest;
    }
  }

  lemma NewlineIsWritten(depth: nat, rest: bytes)
    ensures EmitNewline(2 * depth, rest) == Newline(depth) + rest
  {
    BlanksAreSpaces(2 * depth, rest);
    Chain([LF], Spaces(2 * depth), rest);
  }

  /** What is written before an element and before the closing bracket. */
  lemma GapIsWritten(first: bool, pretty: bool, depth: nat, indent: int, rest: bytes)
    requires IsIndent(indent, pretty, depth) && depth > 0
    ensures (if first then EmitLead(indent, rest) else [COMMA] + EmitLead(indent, rest)) == GapBefore(first, pretty, depth) + rest
  {
    if pretty { NewlineIsWritten(depth, rest); }
    var line := if pretty then Newline(depth) else [];
    assert EmitLead(indent, rest) == line + rest;
    Chain(if first then [] else [COMMA], line, rest);
    assert [] + (line + rest) == line + rest;
  }

  lemma CloseIsWritten(pretty: bool, depth: nat, indent: int, close: byte, rest: bytes)
    requires IsIndent(indent, pretty, depth)
    ensures EmitClose(indent, close, rest) == GapBefore(true, pretty, depth) + ([close] + rest)
  {
    if pretty { NewlineIsWritten(depth, [close] + rest); }
    assert [] + Newline(depth) == Newline(depth);
    assert [] + [] + ([close] + rest) == [close] + rest;
  }

  lemma PieceIsWritten(c: byte, slashes: bool, rest: bytes)
    requires c != NUL
    ensures (match EscapeOf(c, slashes) case Some(e) => [BACKSLASH, e] + rest case None => [c] + rest) == SpellPiece(PieceFor(c, slashes)) + rest
  {}

  lemma {:induction false} CharsAreWritten(s: bytes, slashes: bool, rest: bytes)
    ensures EmitChars(s, slashes, rest) == SpellPieces(PiecesFor(s, slashes), rest)
    decreases |s|
  {
    if s != [] && s[0] != NUL {
      CharsAreWritten(s[1..], slashes, rest);
      PieceIsWritten(s[0], slashes, EmitChars(s[1..], slashes, rest));
    }
  }

  lemma StringIsWritten(s: bytes, slashes: bool, rest: bytes)
    ensures EmitString(s, slashes, rest) == SpellText(PiecesFor(s, slashes), rest)
  {
    CharsAreWritten(s, slashes, [QUOTE] + rest);
  }

  lemma WholeNumeral(minus: bool, d: bytes, rest: bytes)
    ensures NumeralText(Numeral(minus, d, None, None)) + rest == if minus then [MINUS] + (d + rest) else d + rest
  {
    assert NumeralText(Numeral(minus, d, None, None)) == if minus then [MINUS] + d else d;
    if minus { Chain([MINUS], d, rest); }
  }

  lemma NumberIsWritten(i: int, rest: bytes)
    ensures EmitInt(i, rest) == NumeralText(NumeralFor(i)) + rest
  {
    EmitNatIsDigits(if i < 0 then -i else i, rest);
    WholeNumeral(i < 0, Digits(if i < 0 then -i else i), rest);
  }

  lemma ScalarIsWritten(lib: DoubleText, num: bytes -> Numeral, v: Value, slashes: bool, pretty: bool, depth: nat, indent: int, rest: bytes)
    requires FormatsAs(lib, num) && IsIndent(indent, pretty, depth) && !v.Arr? && !v.Hash?
    ensures EmitBody(lib, v, slashes, indent, rest) == Spell(Tree(num, v, slashes, pretty, depth), rest)
  {
    if IsNumeric(v) { NumberIsWritten(v.i, rest); }
    if v.Str? { StringIsWritten(v.s, slashes, rest); }
  }

  lemma ArrIsWritten(lib: DoubleText, num: bytes -> Numeral, es: seq<Value>, slashes: bool, pretty: bool, depth: nat, indent: int, rest: bytes)
    requires IsIndent(indent, pretty, depth)
    requires var end := EmitClose(indent, RBRACKET, rest);
      EmitElems(lib, es, true, slashes, indent, end) == SpellItems(Items(num, es, true, slashes, pretty, depth + 1), end)
    ensures EmitBody(lib, Arr(es), slashes, indent, rest) == Spell(Tree(num, Arr(es), slashes, pretty, depth), rest)
  {
    CloseIsWritten(pretty, depth, indent, RBRACKET, rest);
  }

  lemma HashIsWritten(lib: DoubleText, num: bytes -> Numeral, en: seq<Entry>, slashes: bool, pretty: bool, depth: nat, indent: int, rest: bytes)
    requires IsIndent(indent, pretty, depth)
    requires var end := EmitClose(indent, RBRACE, rest);
      EmitEntries(lib, en, true, slashes, indent, end) == SpellMembers(Members(num, en, true, slashes, pretty, depth + 1), end)
    ensures EmitBody(lib, Hash(en), slashes, indent, rest) == Spell(Tree(num, Hash(en), slashes, pretty, depth), rest)
  {
    CloseIsWritten(pretty, depth, indent, RBRACE, rest);
  }

  /** The body of a value, at any indent that fits its depth. */
  lemma {:induction false} BodyIsWritten(
    lib: DoubleText, num: bytes -> Numeral, v: Value, slashes: bool, pretty: bool, depth: nat, indent: int, rest: bytes)
    requires FormatsAs(lib, num) && IsIndent(indent, pretty, depth)
    ensures EmitBody(lib, v, slashes, indent, rest) == Spell(Tree(num, v, slashes, pretty, depth), rest)
    decreases v, 0
  {
    match v
    case Arr(es) =>
      ElemsAreWritten(lib, num, es, true, slashes, pretty, depth, indent, EmitClose(indent, RBRACKET, rest));
      ArrIsWritten(lib, num, es, slashes, pretty, depth, indent, rest);
    case Hash(en) =>
      EntriesAreWritten(lib, num, en, true, slashes, pretty, depth, indent, EmitClose(indent, RBRACE, rest));
      HashIsWritten(lib, num, en, slashes, pretty, depth, indent, rest);
    case _ => ScalarIsWritten(lib, num, v, slashes, pretty, depth, indent, rest);
  }

  /** An element with its gap, where the text of its body is known. */
  lemma ElementIsWritten(lib: DoubleText, v: Value, first: bool, slashes: bool, pretty: bool, depth: nat, indent: int, rest: bytes)
    requires IsIndent(indent, pretty, depth) && depth > 0
    ensures var text := Emit(lib, v, slashes, indent, rest);
      (if first then text else [COMMA] + text) == GapBefore(first, pretty, depth) + EmitBody(lib, v, slashes, indent, rest)
  {
    GapIsWritten(first, pretty, depth, indent, EmitBody(lib, v, slashes, indent, rest));
  }

  lemma {:induction false} ElemsAreWritten(lib: DoubleText, num: bytes -> Numeral, es: seq<Value>, first: bool, slashes: bool,
                                           pretty: bool, depth: nat, indent: int, rest: bytes)
    requires FormatsAs(lib, num) && IsIndent(indent, pretty, depth)
    ensures EmitElems(lib, es, first, slashes, indent, rest) == SpellItems(Items(num, es, first, slashes, pretty, depth + 1), rest)
    decreases es
  {
    if es != [] {
      var more := EmitElems(lib, es[1..], false, slashes, indent, rest);
      ElemsAreWritten(lib, num, es[1..], false, slashes, pretty, depth, indent, rest);
      BodyIsWritten(lib, num, es[0], slashes, pretty, depth + 1, indent + 2, more);
      ElementIsWritten(lib, es[0], first, slashes, pretty, depth + 1, indent + 2, more);
      var items := Items(num, es, first, slashes, pretty, depth + 1);
      assert items[1..] == Items(num, es[1..], false, slashes, pretty, depth + 1);
    }
  }

  /** A key with its gap, the colon, and the text of the value after the blank that goes with it. */
  lemma EntryIsWritten(key: bytes, first: bool, slashes: bool, pretty: bool, depth: nat, indent: int, value: bytes)
    requires IsIndent(indent, pretty, depth) && depth > 0
    ensures var blank := if pretty then [SPACE] else [];
      var text := EmitLead(indent, EmitString(key, slashes, [COLON] + (blank + value)));
      (if first then text else [COMMA] + text)
        == GapBefore(first, pretty, depth) + SpellText(PiecesFor(key, slashes), [] + ([COLON] + (blank + value)))
  {
    var after := [COLON] + ((if pretty then [SPACE] else []) + value);
    StringIsWritten(key, slashes, after);
    GapIsWritten(first, pretty, depth, indent, EmitString(key, slashes, after));
    assert [] + after == after;
  }

  lemma ValueIsWritten(lib: DoubleText, v: Value, slashes: bool, pretty: bool, depth: nat, indent: int, rest: bytes)
    requires IsIndent(indent, pretty, depth)
    ensures var inner := if pretty then indent + 2 else -(indent + 2);
      && IsIndent(inner, pretty, depth + 1)
      && EmitAfterColon(lib, v, slashes, indent, rest) == (if pretty then [SPACE] else []) + EmitBody(lib, v, slashes, inner, rest)
  {}

  /** The text of the members of some entries, the first and the others. */
  lemma MembersAreSpelled(num: bytes -> Numeral, en: seq<Entry>, first: bool, slashes: bool, pretty: bool, depth: nat, rest: bytes)
    requires en != []
    ensures var more := SpellMembers(Members(num, en[1..], false, slashes, pretty, depth), rest);
      var value := Spell(Tree(num, en[0].value, slashes, pretty, depth), more);
      SpellMembers(Members(num, en, first, slashes, pretty, depth), rest)
        == GapBefore(first, pretty, depth)
           + SpellText(PiecesFor(en[0].key, slashes), [] + ([COLON] + ((if pretty then [SPACE] else []) + value)))
  {
    var members := Members(num, en, first, slashes, pretty, depth);
    assert members[1..] == Members(num, en[1..], false, slashes, pretty, depth);
  }

  lemma {:induction false} EntriesAreWritten(lib: DoubleText, num: bytes -> Numeral, en: seq<Entry>, first: bool, slashes: bool,
                                             pretty: bool, depth: nat, indent: int, rest: bytes)
    requires FormatsAs(lib, num) && IsIndent(indent, pretty, depth)
    ensures EmitEntries(lib, en, first, slashes, indent, rest) == SpellMembers(Members(num, en, first, slashes, pretty, depth + 1), rest)
    decreases en
  {
    if en != [] {
      var more := EmitEntries(lib, en[1..], false, slashes, indent, rest);
      var inner := if pretty then indent + 2 else -(indent + 2);
      EntriesAreWritten(lib, num, en[1..], false, slashes, pretty, depth, indent, rest);
      ValueIsWritten(lib, en[0].value, slashes, pretty, depth, indent, more);
      BodyIsWritten(lib, num, en[0].value, slashes, pretty, depth + 1, inner, more);
      EntryIsWritten(en[0].key, first, slashes, pretty, depth + 1, indent + 2, EmitBody(lib, en[0].value, slashes, inner, more));
      MembersAreSpelled(num, en, first, slashes, pretty, depth + 1, rest);
    }
  }

  /** `ToJSON` writes the tree of the value at depth 0. */
  lemma PrintedIsTree(lib: DoubleText, num: bytes -> Numeral, v: Value, slashes: bool, prettify: bool)
    requires FormatsAs(lib, num)
    ensures ToJson(lib, v, slashes, prettify) == Spell(Tree(num, v, slashes, prettify, 0), [])
  {
    BodyIsWritten(lib, num, v, slashes, prettify, 0, if prettify then 0 else 1, []);
  }

  // --------------------------------------------------- when the text is strict

  predicate IsRfcBlank(c: byte) { c in {0x20, 0x09, 0x0A, 0x0D} }

  /** White space of RFC 8259, with exactly one comma in it unless it comes first. */
  predicate IsSeparator(gap: bytes, first: bool) {
    if first then forall i | 0 <= i < |gap| :: IsRfcBlank(gap[i])
    else exists k | 0 <= k < |gap| :: gap[k] == COMMA && forall i | 0 <= i < |gap| && i != k :: IsRfcBlank(gap[i])
  }

  /** No control character stands in a string as it is. */
  predicate IsStrictText(ps: seq<Piece>) { forall i | 0 <= i < |ps| && ps[i].Plain? :: ps[i].c >= 0x20 }

  /** What RFC 8259 asks beyond the grammar of the parser. */
  ghost predicate IsStrict(c: Syntax)
    decreases c
  {
    match c
    case Text(ps) => IsStrictText(ps)
    case List(items, last) => IsSeparator(last, true) && ItemsAreStrict(items, true)
    case Object(members, last) => IsSeparator(last, true) && MembersAreStrict(members, true)
    case _ => true
  }

  ghost predicate ItemsAreStrict(items: seq<Item>, first: bool)
    decreases items
  {
    items == [] || (IsSeparator(items[0].gap, first) && IsStrict(items[0].value) && ItemsAreStrict(items[1..], false))
  }

  ghost predicate MembersAreStrict(members: seq<Member>, first: bool)
    decreases members
  {
    members == [] ||
    var m := members[0];
    && IsSeparator(m.gap, first) && IsStrictText(m.key) && IsSeparator(m.beforeColon, true) && IsSeparator(m.afterColon, true)
    && IsStrict(m.value) && MembersAreStrict(members[1..], false)
  }

  /** Control characters for which JSON has no short escape. */
  predicate IsRawControl(c: byte) { c < 0x20 && c !in {0x08, 0x09, 0x0A, 0x0C, 0x0D} }

  /** No raw control character before the first NUL. */
  predicate IsCleanText(s: bytes) { s == [] || s[0] == NUL || (!IsRawControl(s[0]) && IsCleanText(s[1..])) }

  /** No string and no key has such a character before its first NUL. */
  ghost predicate IsClean(v: Value) {
    match v
    case Str(s) => IsCleanText(s)
    case Arr(es) => forall i | 0 <= i < |es| :: IsClean(es[i])
    case Hash(en) => forall i | 0 <= i < |en| :: IsCleanText(en[i].key) && IsClean(en[i].value)
    case _ => true
  }

  lemma {:induction false} TextIsStrictIff(s: bytes, slashes: bool)
    ensures IsStrictText(PiecesFor(s, slashes)) <==> IsCleanText(s)
    decreases |s|
  {
    if s != [] && s[0] != NUL {
      var ps := PiecesFor(s, slashes);
      TextIsStrictIff(s[1..], slashes);
      assert ps[1..] == PiecesFor(s[1..], slashes);
      FirstPiece(ps);
    }
  }

  lemma FirstPiece(ps: seq<Piece>)
    requires ps != []
    ensures IsStrictText(ps) <==> (ps[0].Plain? ==> ps[0].c >= 0x20) && IsStrictText(ps[1..])
  {
    if (ps[0].Plain? ==> ps[0].c >= 0x20) && IsStrictText(ps[1..]) {
      forall i | 0 <= i < |ps| && ps[i].Plain? ensures ps[i].c >= 0x20 {
        if i > 0 { assert ps[i] == ps[1..][i - 1]; }
      }
    }
    if IsStrictText(ps) {
      forall i | 0 <= i < |ps[1..]| && ps[1..][i].Plain? ensures ps[1..][i].c >= 0x20 { assert ps[1..][i] == ps[i + 1]; }
    }
  }

  lemma GapIsSeparator(first: bool, pretty: bool, depth: nat)
    ensures IsSeparator(GapBefore(first, pretty, depth), first)
  {
    var gap := GapBefore(first, pretty, depth);
    if !first {
      assert gap[0] == COMMA;
      assert forall i | 0 <= i < |gap| && i != 0 :: IsRfcBlank(gap[i]);
    }
  }

  lemma ArrIsStrictIff(num: bytes -> Numeral, es: seq<Value>, slashes: bool, pretty: bool, depth: nat)
    requires ItemsAreStrict(Items(num, es, true, slashes, pretty, depth + 1), true) <==> forall i | 0 <= i < |es| :: IsClean(es[i])
    ensures IsStrict(Tree(num, Arr(es), slashes, pretty, depth)) <==> IsClean(Arr(es))
  {
    GapIsSeparator(true, pretty, depth);
  }

  lemma HashIsStrictIff(num: bytes -> Numeral, en: seq<Entry>, slashes: bool, pretty: bool, depth: nat)
    requires MembersAreStrict(Members(num, en, true, slashes, pretty, depth + 1), true)
        <==> forall i | 0 <= i < |en| :: IsCleanText(en[i].key) && IsClean(en[i].value)
    ensures IsStrict(Tree(num, Hash(en), slashes, pretty, depth)) <==> IsClean(Hash(en))
  {
    GapIsSeparator(true, pretty, depth);
  }

  /** The printed tree is strict exactly when the value is clean, whatever the flags. */
  lemma {:induction false} TreeIsStrictIff(num: bytes -> Numeral, v: Value, slashes: bool, pretty: bool, depth: nat)
    ensures IsStrict(Tree(num, v, slashes, pretty, depth)) <==> IsClean(v)
    decreases v
  {
    match v
    case Str(s) => TextIsStrictIff(s, slashes);
    case Arr(es) =>
      ItemsAreStrictIff(num, es, true, slashes, pretty, depth + 1);
      ArrIsStrictIff(num, es, slashes, pretty, depth);
    case Hash(en) =>
      MembersAreStrictIff(num, en, true, slashes, pretty, depth + 1);
      HashIsStrictIff(num, en, slashes, pretty, depth);
    case _ =>
  }

  lemma {:induction false} ItemsAreStrictIff(num: bytes -> Numeral, es: seq<Value>, first: bool, slashes: bool, pretty: bool, depth: nat)
    ensures ItemsAreStrict(Items(num, es, first, slashes, pretty, depth), first) <==> forall i | 0 <= i < |es| :: IsClean(es[i])
    decreases es
  {
    if es != [] {
      GapIsSeparator(first, pretty, depth);
      TreeIsStrictIff(num, es[0], slashes, pretty, depth);
      ItemsAreStrictIff(num, es[1..], false, slashes, pretty, depth);
      var items := Items(num, es, first, slashes, pretty, depth);
      assert items[1..] == Items(num, es[1..], false, slashes, pretty, depth);
      assert es == [es[0]] + es[1..];
    }
  }

  lemma {:induction false} MembersAreStrictIff(num: bytes -> Numeral, en: seq<Entry>, first: bool, slashes: bool, pretty: bool, depth: nat)
    ensures MembersAreStrict(Members(num, en, first, slashes, pretty, depth), first)
        <==> forall i | 0 <= i < |en| :: IsCleanText(en[i].key) && IsClean(en[i].value)
    decreases en
  {
    if en != [] {
      GapIsSeparator(first, pretty, depth);
      TextIsStrictIff(en[0].key, slashes);
      TreeIsStrictIff(num, en[0].value, slashes, pretty, depth);
      MembersAreStrictIff(num, en[1..], false, slashes, pretty, depth);
      var members := Members(num, en, first, slashes, pretty, depth);
      assert members[1..] == Members(num, en[1..], false, slashes, pretty, depth);
      assert en == [en[0]] + en[1..];
    }
  }
}
