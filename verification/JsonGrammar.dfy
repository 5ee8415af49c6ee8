/**
  The language that the parser of source/Utility/Value.cpp:161-399 accepts, as a grammar written apart from it, and that the
  parser reads exactly the texts of that grammar, for what they denote.

  The grammar is RFC 8259's with what the parser adds: form feeds as white space, any bytes but quotes and backslashes in
  strings, and commas that are optional between elements and may be repeated or trail, but do not come first.
 */
module JsonGrammar {
  import opened Unicode
  import opened ValueTree
  import opened JsonSyntax
  import opened JsonRoundTrip
  import opened JsonNumbers

  // ------------------------------------------------------------- the grammar

  /** One piece of a string: a byte as it is, a letter after a backslash, or one or two groups of four hexadecimal digits. */
  datatype Piece = Plain(c: byte) | Letter(c: byte) | Unit(h: bytes) | Pair(h: bytes, l: bytes)

  datatype Syntax =
    | Nothing
    | Truth(b: bool)
    | Number(n: Numeral)
    | Text(pieces: seq<Piece>)
    | List(items: seq<Item>, last: bytes)
    | Object(members: seq<Member>, last: bytes)

  /** A value and the blanks and commas before it. */
  datatype Item = Item(gap: bytes, value: Syntax)

  /** A key and a value, with the gap before the key, the blanks before the colon and those before the value. */
  datatype Member = Member(gap: bytes, key: seq<Piece>, beforeColon: bytes, afterColon: bytes, value: Syntax)

  function SpellPiece(p: Piece): bytes {
    match p
    case Plain(c) => [c]
    case Letter(c) => [BACKSLASH, c]
    case Unit(h) => [BACKSLASH, LETTER_U] + h
    case Pair(h, l) => [BACKSLASH, LETTER_U] + h + [BACKSLASH, LETTER_U] + l
  }

  function SpellPieces(ps: seq<Piece>, rest: bytes): bytes {
    if ps == [] then rest else SpellPiece(ps[0]) + SpellPieces(ps[1..], rest)
  }

  function SpellText(ps: seq<Piece>, rest: bytes): bytes { [QUOTE] + SpellPieces(ps, [QUOTE] + rest) }

  /** The text of a value, followed by `rest`. */
  function Spell(c: Syntax, rest: bytes): bytes
    decreases c, 0
  {
    match c
    case Nothing => NULL_TEXT + rest
    case Truth(b) => (if b then TRUE_TEXT else FALSE_TEXT) + rest
    case Number(n) => NumeralText(n) + rest
    case Text(ps) => SpellText(ps, rest)
    case List(items, last) => [LBRACKET] + SpellItems(items, last + ([RBRACKET] + rest))
    case Object(members, last) => [LBRACE] + SpellMembers(members, last + ([RBRACE] + rest))
  }

  function SpellItems(items: seq<Item>, rest: bytes): bytes
    decreases items
  {
    if items == [] then rest else items[0].gap + Spell(items[0].value, SpellItems(items[1..], rest))
  }

  function SpellMembers(members: seq<Member>, rest: bytes): bytes
    decreases members
  {
    if members == [] then rest
    else
      var m := members[0];
      m.gap + SpellText(m.key, m.beforeColon + ([COLON] + (m.afterColon + Spell(m.value, SpellMembers(members[1..], rest)))))
  }

  predicate IsHex(h: bytes) { |h| == 4 && forall i | 0 <= i < 4 :: HexDigit(h[i]).Some? }

  function HexValue(h: bytes): (u: int)
    requires IsHex(h)
    ensures 0 <= u <= 0xFFFF
  {
    ((HexDigit(h[0]).value * 16 + HexDigit(h[1]).value) * 16 + HexDigit(h[2]).value) * 16 + HexDigit(h[3]).value
  }

  predicate IsPiece(p: Piece) {
    match p
    case Plain(c) => c != QUOTE && c != BACKSLASH
    case Letter(c) => c in {QUOTE, BACKSLASH, SLASH, LETTER_B, LETTER_F, LETTER_N, LETTER_R, LETTER_T}
    case Unit(h) => IsHex(h) && !(0xD800 <= HexValue(h) <= 0xDBFF)
    case Pair(h, l) => IsHex(h) && IsHex(l) && 0xD800 <= HexValue(h) <= 0xDBFF && 0xDC00 <= HexValue(l) <= 0xDFFF
  }

  predicate ArePieces(ps: seq<Piece>) { forall i | 0 <= i < |ps| :: IsPiece(ps[i]) }

  predicate IsBlank(c: byte) { c in {0x20, 0x0A, 0x0D, 0x09, 0x0C} }

  /** Before an element there may be blanks, and after the first one commas too. */
  predicate IsGap(s: bytes, first: bool) { forall i | 0 <= i < |s| :: IsBlank(s[i]) || (s[i] == COMMA && !first) }

  predicate AreBlanks(s: bytes) { IsGap(s, true) }

  /** The rules; what follows a value matters, because nothing but its end tells where a number stops. */
  ghost predicate Derives(c: Syntax, rest: bytes)
    decreases c, 0
  {
    match c
    case Number(n) => IsNumeral(n) && MayFollow(n, rest)
    case Text(ps) => ArePieces(ps)
    case List(items, last) => IsGap(last, items == []) && ItemsDerive(items, true, last + ([RBRACKET] + rest))
    case Object(members, last) => IsGap(last, members == []) && MembersDerive(members, true, last + ([RBRACE] + rest))
    case _ => true
  }

  ghost predicate ItemsDerive(items: seq<Item>, first: bool, rest: bytes)
    decreases items
  {
    items == [] ||
    var more := SpellItems(items[1..], rest);
    IsGap(items[0].gap, first) && Derives(items[0].value, more) && ItemsDerive(items[1..], false, rest)
  }

  ghost predicate MembersDerive(members: seq<Member>, first: bool, rest: bytes)
    decreases members
  {
    members == [] ||
    var m, more := members[0], SpellMembers(members[1..], rest);
    && IsGap(m.gap, first) && ArePieces(m.key) && AreBlanks(m.beforeColon) && AreBlanks(m.afterColon)
    && Derives(m.value, more) && MembersDerive(members[1..], false, rest)
  }

  // ----------------------------------------------------------- what it denotes

  function PieceBytes(p: Piece): bytes
    requires IsPiece(p)
  {
    match p
    case Plain(c) => [c]
    case Letter(c) =>
      [if c == LETTER_B then 0x08 else if c == LETTER_F then 0x0C else if c == LETTER_N then 0x0A
       else if c == LETTER_R then 0x0D else if c == LETTER_T then 0x09 else c]
    case Unit(h) => Utf8(HexValue(h))
    case Pair(h, l) => Utf8(0x10000 + (HexValue(h) - 0xD800) * 0x400 + (HexValue(l) - 0xDC00))
  }

  function PiecesBytes(ps: seq<Piece>): bytes
    requires ArePieces(ps)
  {
    if ps == [] then [] else PieceBytes(ps[0]) + PiecesBytes(ps[1..])
  }

  function StringOf(ps: seq<Piece>): bytes { if ArePieces(ps) then PiecesBytes(ps) else [] }

  /** The value a syntax tree stands for; of two members with one key the later counts. */
  function Meaning(lib: DoubleText, c: Syntax): Value
    decreases c, 0
  {
    match c
    case Nothing => Null
    case Truth(b) => Bool(b)
    case Number(n) => NumberOf(lib, n)
    case Text(ps) => Str(StringOf(ps))
    case List(items, _) => Arr(ItemsMeaning(lib, items))
    case Object(members, _) => Hash(MembersMeaning(lib, members, []))
  }

  function ItemsMeaning(lib: DoubleText, items: seq<Item>): seq<Value>
    decreases items
  {
    if items == [] then [] else [Meaning(lib, items[0].value)] + ItemsMeaning(lib, items[1..])
  }

  function MembersMeaning(lib: DoubleText, members: seq<Member>, en: seq<Entry>): seq<Entry>
    decreases members
  {
    if members == [] then en
    else MembersMeaning(lib, members[1..], Insert(en, StringOf(members[0].key), Meaning(lib, members[0].value)))
  }

  // ------------------------------------------ every text of the grammar is read

  lemma {:induction false} BlanksAreSkipped(s: bytes, rest: bytes)
    requires AreBlanks(s)
    ensures SkipSpace(s + rest) == SkipSpace(rest)
    decreases |s|
  {
    if s == [] {
      assert s + rest == rest;
    } else {
      assert (s + rest)[1..] == s[1..] + rest;
      BlanksAreSkipped(s[1..], rest);
    }
  }

  lemma HexIsRead(h: bytes, rest: bytes)
    requires IsHex(h)
    ensures Hex4(h + rest) == Ok(HexValue(h), rest)
  {
    assert (h + rest)[4..] == rest;
  }

  /** A piece without its backslash. */
  function AfterBackslash(p: Piece, rest: bytes): bytes
    requires !p.Plain?
  {
    match p
    case Letter(c) => [c] + rest
    case Unit(h) => [LETTER_U] + (h + rest)
    case Pair(h, l) => [LETTER_U] + (h + ([BACKSLASH, LETTER_U] + (l + rest)))
  }

  lemma PieceSplits(p: Piece, rest: bytes)
    ensures SpellPiece(p) + rest == if p.Plain? then [p.c] + rest else [BACKSLASH] + AfterBackslash(p, rest)
  {
    match p
    case Plain(_) =>
    case Letter(_) =>
    case Unit(h) => assert [BACKSLASH, LETTER_U] + h + rest == [BACKSLASH] + ([LETTER_U] + (h + rest));
    case Pair(h, l) => PairSplits(h, l, rest);
  }

  lemma PairSplits(h: bytes, l: bytes, rest: bytes)
    ensures [BACKSLASH, LETTER_U] + h + [BACKSLASH, LETTER_U] + l + rest
         == [BACKSLASH] + ([LETTER_U] + (h + ([BACKSLASH, LETTER_U] + (l + rest))))
  {}

  lemma PairIsRead(h: bytes, l: bytes, rest: bytes)
    requires IsPiece(Pair(h, l))
    ensures ReadCodePoint(h + ([BACKSLASH, LETTER_U] + (l + rest)))
         == Ok(0x10000 + (HexValue(h) - 0xD800) * 0x400 + (HexValue(l) - 0xDC00), rest)
  {
    var t := [BACKSLASH, LETTER_U] + (l + rest);
    HexIsRead(h, t);
    assert t[2..] == l + rest;
    HexIsRead(l, rest);
  }

  lemma EscapeIsRead(p: Piece, rest: bytes)
    requires IsPiece(p) && !p.Plain?
    ensures ReadEscape(AfterBackslash(p, rest)) == Ok(PieceBytes(p), rest)
  {
    var s := AfterBackslash(p, rest);
    match p
    case Letter(c) => assert s[1..] == rest;
    case Unit(h) =>
      assert s[1..] == h + rest;
      HexIsRead(h, rest);
    case Pair(h, l) =>
      assert s[1..] == h + ([BACKSLASH, LETTER_U] + (l + rest));
      PairIsRead(h, l, rest);
  }

  lemma PieceIsRead(p: Piece, rest: bytes, acc: bytes)
    requires IsPiece(p)
    ensures ReadChars(SpellPiece(p) + rest, acc) == ReadChars(rest, acc + PieceBytes(p))
  {
    PieceSplits(p, rest);
    if p.Plain? {
      assert ([p.c] + rest)[1..] == rest;
    } else {
      EscapeIsRead(p, rest);
      assert ([BACKSLASH] + AfterBackslash(p, rest))[1..] == AfterBackslash(p, rest);
    }
  }

  lemma TextEnds(rest: bytes, acc: bytes)
    ensures ReadChars([QUOTE] + rest, acc) == Ok(acc + [], rest)
  {
    assert ([QUOTE] + rest)[1..] == rest;
    assert acc + [] == acc;
  }

  lemma Chain(a: bytes, b: bytes, c: bytes)
    ensures a + (b + c) == a + b + c
  {}

  lemma {:induction false} PiecesAreRead(ps: seq<Piece>, rest: bytes, acc: bytes)
    requires ArePieces(ps)
    ensures ReadChars(SpellPieces(ps, [QUOTE] + rest), acc) == Ok(acc + PiecesBytes(ps), rest)
    decreases |ps|
  {
    if ps == [] {
      TextEnds(rest, acc);
    } else {
      PieceIsRead(ps[0], SpellPieces(ps[1..], [QUOTE] + rest), acc);
      PiecesAreRead(ps[1..], rest, acc + PieceBytes(ps[0]));
      Chain(acc, PieceBytes(ps[0]), PiecesBytes(ps[1..]));
    }
  }

  lemma TextIsRead(ps: seq<Piece>, rest: bytes)
    requires ArePieces(ps)
    ensures ReadString(SpellText(ps, rest)) == Ok(StringOf(ps), rest)
  {
    PiecesAreRead(ps, rest, []);
    assert SpellText(ps, rest)[1..] == SpellPieces(ps, [QUOTE] + rest);
    assert [] + PiecesBytes(ps) == PiecesBytes(ps);
  }

  /** A value starts with a byte that is neither blank nor a mark between elements. */
  lemma ValueStarts(c: Syntax, rest: bytes)
    requires Derives(c, rest)
    ensures var s := Spell(c, rest);
      s != [] && SkipSpace(s) == s && s[0] !in {COMMA, RBRACKET, RBRACE, COLON}
    ensures var b := Spell(c, rest)[0];
      match c
      case Nothing => b == LETTER_N
      case Truth(t) => b == if t then LETTER_T else LETTER_F
      case Number(_) => b == MINUS || IsDigit(b)
      case Text(_) => b == QUOTE
      case List(_, _) => b == LBRACKET
      case Object(_, _) => b == LBRACE
  {
    if c.Number? { NumeralStarts(c.n, rest); }
  }

  lemma NumeralStarts(n: Numeral, rest: bytes)
    requires IsNumeral(n)
    ensures var s := NumeralText(n) + rest; s != [] && (s[0] == MINUS || IsDigit(s[0]))
  {
    assert NumeralText(n)[0] == if n.minus then MINUS else n.whole[0];
  }

  /** A text of the grammar, after blanks and before any text that leaves it its end, is read whole and for what it means. */
  lemma {:induction false} TextsAreRead(lib: DoubleText, blanks: bytes, c: Syntax, rest: bytes)
    requires AreBlanks(blanks) && Derives(c, rest)
    ensures ReadValue(lib, blanks + Spell(c, rest)) == Ok(Meaning(lib, c), rest)
    decreases c, 0
  {
    var s := Spell(c, rest);
    BlanksAreSkipped(blanks, s);
    ValueStarts(c, rest);
    match c
    case Nothing => ReadWordBack(NULL_TEXT, Null, rest);
    case Truth(b) => ReadWordBack(if b then TRUE_TEXT else FALSE_TEXT, Bool(b), rest);
    case Number(n) => NumeralIsRead(lib, n, rest);
    case Text(ps) => TextIsRead(ps, rest);
    case List(items, last) =>
      assert s[1..] == SpellItems(items, last + ([RBRACKET] + rest));
      ItemsAreRead(lib, items, last, rest, []);
      assert [] + ItemsMeaning(lib, items) == ItemsMeaning(lib, items);
    case Object(members, last) =>
      assert s[1..] == SpellMembers(members, last + ([RBRACE] + rest));
      MembersAreRead(lib, members, last, rest, []);
  }

  lemma {:induction false} GapIsSkipped(lib: DoubleText, gap: bytes, s: bytes, acc: seq<Value>)
    requires IsGap(gap, acc == [])
    ensures ReadElems(lib, gap + s, acc) == ReadElems(lib, s, acc)
    decreases |gap|
  {
    if gap == [] {
      assert gap + s == s;
    } else {
      assert (gap + s)[1..] == gap[1..] + s;
      GapIsSkipped(lib, gap[1..], s, acc);
    }
  }

  lemma ItemIsRead(lib: DoubleText, s: bytes, v: Value, more: bytes, acc: seq<Value>)
    requires ReadValue(lib, s) == Ok(v, more)
    requires s != [] && SkipSpace(s) == s && s[0] !in {COMMA, RBRACKET}
    ensures ReadElems(lib, s, acc) == ReadElems(lib, more, acc + [v])
  {}

  lemma ListEnds(lib: DoubleText, last: bytes, rest: bytes, acc: seq<Value>)
    requires IsGap(last, acc == [])
    ensures ReadElems(lib, last + ([RBRACKET] + rest), acc) == Ok(Arr(acc), rest)
  {
    GapIsSkipped(lib, last, [RBRACKET] + rest, acc);
    assert ([RBRACKET] + rest)[1..] == rest;
  }

  lemma {:induction false} ItemsAreRead(lib: DoubleText, items: seq<Item>, last: bytes, rest: bytes, acc: seq<Value>)
    requires ItemsDerive(items, acc == [], last + ([RBRACKET] + rest))
    requires IsGap(last, items == [] && acc == [])
    ensures ReadElems(lib, SpellItems(items, last + ([RBRACKET] + rest)), acc) == Ok(Arr(acc + ItemsMeaning(lib, items)), rest)
    decreases items
  {
    var end := last + ([RBRACKET] + rest);
    if items == [] {
      ListEnds(lib, last, rest, acc);
      assert acc + [] == acc;
    } else {
      var c, more := items[0].value, SpellItems(items[1..], end);
      var v := Meaning(lib, c);
      GapIsSkipped(lib, items[0].gap, Spell(c, more), acc);
      ValueStarts(c, more);
      TextsAreRead(lib, [], c, more);
      assert [] + Spell(c, more) == Spell(c, more);
      ItemIsRead(lib, Spell(c, more), v, more, acc);
      ItemsAreRead(lib, items[1..], last, rest, acc + [v]);
      assert acc + [v] + ItemsMeaning(lib, items[1..]) == acc + ItemsMeaning(lib, items);
    }
  }

  lemma {:induction false} MemberGapIsSkipped(lib: DoubleText, gap: bytes, s: bytes, acc: seq<Entry>)
    requires IsGap(gap, acc == [])
    ensures ReadEntries(lib, gap + s, acc) == ReadEntries(lib, s, acc)
    decreases |gap|
  {
    if gap == [] {
      assert gap + s == s;
    } else {
      assert (gap + s)[1..] == gap[1..] + s;
      MemberGapIsSkipped(lib, gap[1..], s, acc);
    }
  }

  lemma ObjectEnds(lib: DoubleText, last: bytes, rest: bytes, acc: seq<Entry>)
    requires IsGap(last, acc == [])
    ensures ReadEntries(lib, last + ([RBRACE] + rest), acc) == Ok(Hash(acc), rest)
  {
    MemberGapIsSkipped(lib, last, [RBRACE] + rest, acc);
    assert ([RBRACE] + rest)[1..] == rest;
  }

  /** A key, the colon with blanks before it, and the value after it. */
  lemma MemberIsRead(lib: DoubleText, key: seq<Piece>, blanks: bytes, s: bytes, v: Value, more: bytes, acc: seq<Entry>)
    requires ArePieces(key) && AreBlanks(blanks) && ReadValue(lib, s) == Ok(v, more)
    ensures ReadEntries(lib, SpellText(key, blanks + ([COLON] + s)), acc) == ReadEntries(lib, more, Insert(acc, StringOf(key), v))
  {
    TextIsRead(key, blanks + ([COLON] + s));
    BlanksAreSkipped(blanks, [COLON] + s);
    assert ([COLON] + s)[1..] == s;
  }

  lemma InsertIsNotEmpty(en: seq<Entry>, k: bytes, v: Value)
    ensures Insert(en, k, v) != []
  {}

  lemma {:induction false} MembersAreRead(lib: DoubleText, members: seq<Member>, last: bytes, rest: bytes, acc: seq<Entry>)
    requires MembersDerive(members, acc == [], last + ([RBRACE] + rest))
    requires IsGap(last, members == [] && acc == [])
    ensures ReadEntries(lib, SpellMembers(members, last + ([RBRACE] + rest)), acc) == Ok(Hash(MembersMeaning(lib, members, acc)), rest)
    decreases members
  {
    var end := last + ([RBRACE] + rest);
    if members == [] {
      ObjectEnds(lib, last, rest, acc);
    } else {
      var m, more := members[0], SpellMembers(members[1..], end);
      var v := Meaning(lib, m.value);
      var s := m.afterColon + Spell(m.value, more);
      MemberGapIsSkipped(lib, m.gap, SpellText(m.key, m.beforeColon + ([COLON] + s)), acc);
      TextsAreRead(lib, m.afterColon, m.value, more);
      MemberIsRead(lib, m.key, m.beforeColon, s, v, more, acc);
      InsertIsNotEmpty(acc, StringOf(m.key), v);
      MembersAreRead(lib, members[1..], last, rest, Insert(acc, StringOf(m.key), v));
    }
  }

  // ------------------------------------------ only texts of the grammar are read

  /** The blanks at the front. */
  function SpaceRun(s: bytes): (b: bytes)
    ensures AreBlanks(b) && s == b + SkipSpace(s)
  {
    if s != [] && IsSpace(s[0]) then [s[0]] + SpaceRun(s[1..]) else []
  }

  lemma HexWasRead(s: bytes)
    requires Hex4(s).Ok?
    ensures IsHex(s[..4]) && s == s[..4] + Hex4(s).rest && Hex4(s).value == HexValue(s[..4])
  {}

  lemma CodePointWasRead(s: bytes) returns (p: Piece)
    requires ReadCodePoint(s).Ok?
    ensures IsPiece(p) && (p.Unit? || p.Pair?) && [LETTER_U] + s == AfterBackslash(p, ReadCodePoint(s).rest)
  {
    var h, r := s[..4], Hex4(s).rest;
    HexWasRead(s);
    if IsHighSurrogate(Hex4(s).value) {
      var l := r[2..][..4];
      HexWasRead(r[2..]);
      assert r == [BACKSLASH, LETTER_U] + r[2..];
      p := Pair(h, l);
    } else {
      p := Unit(h);
    }
  }

  lemma EscapeWasRead(s: bytes) returns (p: Piece)
    requires ReadEscape(s).Ok?
    ensures IsPiece(p) && !p.Plain? && s == AfterBackslash(p, ReadEscape(s).rest)
  {
    assert s == [s[0]] + s[1..];
    if s[0] == LETTER_U {
      p := CodePointWasRead(s[1..]);
    } else {
      p := Letter(s[0]);
    }
  }

  lemma {:induction false} PiecesWereRead(s: bytes, acc: bytes) returns (ps: seq<Piece>)
    requires ReadChars(s, acc).Ok?
    ensures ArePieces(ps) && s == SpellPieces(ps, [QUOTE] + ReadChars(s, acc).rest)
    decreases |s|
  {
    assert s == [s[0]] + s[1..];
    if s[0] == QUOTE {
      ps := [];
    } else if s[0] != BACKSLASH {
      var more := PiecesWereRead(s[1..], acc + [s[0]]);
      ps := [Plain(s[0])] + more;
      assert ps[1..] == more;
    } else {
      var p := EscapeWasRead(s[1..]);
      var e := ReadEscape(s[1..]);
      var more := PiecesWereRead(e.rest, acc + e.value);
      ps := [p] + more;
      assert ps[1..] == more;
      PieceSplits(p, e.rest);
    }
  }

  lemma TextWasRead(s: bytes) returns (ps: seq<Piece>)
    requires ReadString(s).Ok?
    ensures ArePieces(ps) && s == SpellText(ps, ReadString(s).rest)
  {
    assert s == [QUOTE] + s[1..];
    ps := PiecesWereRead(s[1..], []);
  }

  lemma {:induction false} WordWasRead(text: bytes, s: bytes)
    requires Expect(text, s).Ok?
    ensures s == text + Expect(text, s).rest
    decreases |text|
  {
    if text != [] {
      WordWasRead(text[1..], s[1..]);
      assert s == [s[0]] + s[1..] && text == [text[0]] + text[1..];
    } else {
      assert text + s == s;
    }
  }

  /** More blanks or commas before what has been recognised. */
  lemma GapsJoin(a: bytes, b: bytes, first: bool)
    requires IsGap(a, first) && IsGap(b, first)
    ensures IsGap(a + b, first)
  {}

  /** A value that neither opens a list nor an object. */
  lemma ScalarWasRead(lib: DoubleText, t: bytes) returns (c: Syntax)
    requires t != [] && !IsSpace(t[0]) && t[0] != LBRACE && t[0] != LBRACKET && ReadValue(lib, t).Ok?
    ensures Derives(c, ReadValue(lib, t).rest) && t == Spell(c, ReadValue(lib, t).rest)
  {
    if t[0] == LETTER_T {
      WordWasRead(TRUE_TEXT, t);
      c := Truth(true);
    } else if t[0] == LETTER_F {
      WordWasRead(FALSE_TEXT, t);
      c := Truth(false);
    } else if t[0] == LETTER_N {
      WordWasRead(NULL_TEXT, t);
      c := Nothing;
    } else if t[0] == QUOTE {
      var ps := TextWasRead(t);
      c := Text(ps);
    } else {
      var n := NumeralWasRead(lib, t);
      c := Number(n);
    }
  }

  /** Whatever is read is a text of the grammar after blanks. */
  lemma {:induction false} ValueWasRead(lib: DoubleText, s: bytes) returns (blanks: bytes, c: Syntax)
    requires ReadValue(lib, s).Ok?
    ensures AreBlanks(blanks) && Derives(c, ReadValue(lib, s).rest) && s == blanks + Spell(c, ReadValue(lib, s).rest)
    decreases |s|, 1
  {
    blanks := SpaceRun(s);
    var t := SkipSpace(s);
    if t[0] == LBRACE {
      var members, last := MembersWereRead(lib, t[1..], []);
      c := Object(members, last);
      assert t == [LBRACE] + t[1..];
    } else if t[0] == LBRACKET {
      var items, last := ItemsWereRead(lib, t[1..], []);
      c := List(items, last);
      assert t == [LBRACKET] + t[1..];
    } else {
      c := ScalarWasRead(lib, t);
    }
  }

  /** The gap in front of the first item, or before the end where there is none. */
  lemma WiderGap(gap: bytes, items: seq<Item>, last: bytes, rest: bytes) returns (wider: seq<Item>, end: bytes)
    requires IsGap(gap, false) && IsGap(last, false) && ItemsDerive(items, false, last + ([RBRACKET] + rest))
    ensures IsGap(end, false) && ItemsDerive(wider, false, end + ([RBRACKET] + rest))
    ensures SpellItems(wider, end + ([RBRACKET] + rest)) == gap + SpellItems(items, last + ([RBRACKET] + rest))
  {
    if items == [] {
      wider, end := [], gap + last;
      GapsJoin(gap, last, false);
      Chain(gap, last, [RBRACKET] + rest);
    } else {
      var first := items[0];
      wider, end := [Item(gap + first.gap, first.value)] + items[1..], last;
      assert wider[1..] == items[1..];
      GapsJoin(gap, first.gap, false);
      Chain(gap, first.gap, Spell(first.value, SpellItems(items[1..], last + ([RBRACKET] + rest))));
    }
  }

  lemma {:induction false} ItemsWereRead(lib: DoubleText, s: bytes, acc: seq<Value>) returns (items: seq<Item>, last: bytes)
    requires ReadElems(lib, s, acc).Ok?
    ensures var rest := ReadElems(lib, s, acc).rest;
      && IsGap(last, items == [] && acc == [])
      && ItemsDerive(items, acc == [], last + ([RBRACKET] + rest)) && s == SpellItems(items, last + ([RBRACKET] + rest))
    decreases |s|, 2
  {
    var blanks, t, rest := SpaceRun(s), SkipSpace(s), ReadElems(lib, s, acc).rest;
    assert t == [t[0]] + t[1..];
    if t[0] == RBRACKET {
      items, last := [], blanks;
    } else if t[0] == COMMA {
      var more, end := ItemsWereRead(lib, t[1..], acc);
      items, last := WiderGap(blanks + [COMMA], more, end, rest);
      Chain(blanks, [COMMA], t[1..]);
    } else {
      var b, c := ValueWasRead(lib, t);
      var p := ReadValue(lib, t);
      var more, end := ItemsWereRead(lib, p.rest, acc + [p.value]);
      items, last := [Item(blanks + b, c)] + more, end;
      assert items[1..] == more;
      GapsJoin(blanks, b, true);
      Chain(blanks, b, Spell(c, p.rest));
    }
  }

  lemma WiderMemberGap(gap: bytes, members: seq<Member>, last: bytes, rest: bytes) returns (wider: seq<Member>, end: bytes)
    requires IsGap(gap, false) && IsGap(last, false) && MembersDerive(members, false, last + ([RBRACE] + rest))
    ensures IsGap(end, false) && MembersDerive(wider, false, end + ([RBRACE] + rest))
    ensures SpellMembers(wider, end + ([RBRACE] + rest)) == gap + SpellMembers(members, last + ([RBRACE] + rest))
  {
    if members == [] {
      wider, end := [], gap + last;
      GapsJoin(gap, last, false);
      Chain(gap, last, [RBRACE] + rest);
    } else {
      var m, more := members[0], SpellMembers(members[1..], last + ([RBRACE] + rest));
      wider, end := [m.(gap := gap + m.gap)] + members[1..], last;
      assert wider[1..] == members[1..];
      GapsJoin(gap, m.gap, false);
      Chain(gap, m.gap, SpellText(m.key, m.beforeColon + ([COLON] + (m.afterColon + Spell(m.value, more)))));
    }
  }

  /** A step of the object loop that reads a member. */
  lemma MemberStep(lib: DoubleText, s: bytes, acc: seq<Entry>)
    requires ReadEntries(lib, s, acc).Ok? && SkipSpace(s)[0] !in {RBRACE, COMMA}
    ensures var k := ReadString(SkipSpace(s));
      && k.Ok?
      && var u := SkipSpace(k.rest);
      && u != [] && u[0] == COLON
      && var p := ReadValue(lib, u[1..]);
      && p.Ok? && |p.rest| < |s| && ReadEntries(lib, s, acc) == ReadEntries(lib, p.rest, Insert(acc, k.value, p.value))
  {}

  /** A member in its parts, and the members after it. */
  lemma MembersJoin(m: Member, more: seq<Member>, first: bool, afterKey: bytes, value: bytes, after: bytes, end: bytes)
    requires IsGap(m.gap, first) && ArePieces(m.key) && AreBlanks(m.beforeColon) && AreBlanks(m.afterColon)
    requires Derives(m.value, after) && MembersDerive(more, false, end) && after == SpellMembers(more, end)
    requires afterKey == m.beforeColon + ([COLON] + value) && value == m.afterColon + Spell(m.value, after)
    ensures MembersDerive([m] + more, first, end) && SpellMembers([m] + more, end) == m.gap + SpellText(m.key, afterKey)
  {
    assert ([m] + more)[1..] == more;
  }

  /** The members that were read, of the object whose text goes on with `s`. */
  ghost predicate AreMembersOf(s: bytes, first: bool, members: seq<Member>, last: bytes, rest: bytes) {
    && IsGap(last, members == [] && first)
    && MembersDerive(members, first, last + ([RBRACE] + rest)) && s == SpellMembers(members, last + ([RBRACE] + rest))
  }

  lemma {:induction false} MembersWereRead(lib: DoubleText, s: bytes, acc: seq<Entry>) returns (members: seq<Member>, last: bytes)
    requires ReadEntries(lib, s, acc).Ok?
    ensures AreMembersOf(s, acc == [], members, last, ReadEntries(lib, s, acc).rest)
    decreases |s|, 3
  {
    var blanks, t, rest := SpaceRun(s), SkipSpace(s), ReadEntries(lib, s, acc).rest;
    if t[0] == RBRACE {
      members, last := [], blanks;
      assert t == [RBRACE] + t[1..];
    } else if t[0] == COMMA {
      var more, end := MembersWereRead(lib, t[1..], acc);
      members, last := WiderMemberGap(blanks + [COMMA], more, end, rest);
      assert t == [COMMA] + t[1..];
      Chain(blanks, [COMMA], t[1..]);
    } else {
      members, last := MemberWasRead(lib, s, acc);
    }
  }

  /** A turn of the object loop that reads a member. */
  lemma {:induction false} MemberWasRead(lib: DoubleText, s: bytes, acc: seq<Entry>) returns (members: seq<Member>, last: bytes)
    requires ReadEntries(lib, s, acc).Ok? && SkipSpace(s)[0] !in {RBRACE, COMMA}
    ensures AreMembersOf(s, acc == [], members, last, ReadEntries(lib, s, acc).rest)
    decreases |s|, 2
  {
    MemberStep(lib, s, acc);
    var t := SkipSpace(s);
    var key := TextWasRead(t);
    var k := ReadString(t);
    var u := SkipSpace(k.rest);
    var afterColon, c := ValueWasRead(lib, u[1..]);
    var p := ReadValue(lib, u[1..]);
    InsertIsNotEmpty(acc, k.value, p.value);
    var more, end := MembersWereRead(lib, p.rest, Insert(acc, k.value, p.value));
    var m := Member(SpaceRun(s), key, SpaceRun(k.rest), afterColon, c);
    members, last := [m] + more, end;
    assert u == [COLON] + u[1..];
    MembersJoin(m, more, acc == [], k.rest, u[1..], p.rest, end + ([RBRACE] + ReadEntries(lib, s, acc).rest));
  }

  /**
    The parser reads the value `v` from `s` and leaves `rest` exactly when `s` is, after blanks, a text of the grammar that
    means `v` and is followed by `rest`.
   */
  lemma ParserReadsGrammar(lib: DoubleText, s: bytes, v: Value, rest: bytes)
    ensures ReadValue(lib, s) == Ok(v, rest) <==>
      exists blanks, c :: AreBlanks(blanks) && Derives(c, rest) && s == blanks + Spell(c, rest) && v == Meaning(lib, c)
  {
    if ReadValue(lib, s) == Ok(v, rest) {
      var blanks, c := ValueWasRead(lib, s);
      TextsAreRead(lib, blanks, c, rest);
    }
    if blanks, c :| AreBlanks(blanks) && Derives(c, rest) && s == blanks + Spell(c, rest) && v == Meaning(lib, c) {
      TextsAreRead(lib, blanks, c, rest);
    }
  }
}
