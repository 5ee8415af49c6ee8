/**
  Exactly when the printer of source/Utility/Value.cpp:35-159 writes a text of RFC 8259: it escapes only the control characters
  that have a letter of their own (source/Utility/Value.cpp:45-90).
 */
module JsonStrictness {
  import opened Unicode
  import opened ValueTree
  import opened JsonSyntax
  import opened JsonRoundTrip
  import opened JsonNumbers
  import opened JsonGrammar
  import opened JsonLayout
  import opened JsonDoubles

  /** A whole text of RFC 8259, white space around it included; whether its bytes are UTF-8 is not looked at. */
  ghost predicate IsRfcText(text: bytes) {
    exists lead, c, trail ::
      IsSeparator(lead, true) && IsSeparator(trail, true) && Derives(c, trail) && IsStrict(c) && text == lead + Spell(c, trail)
  }

  /** No byte is a control character without a letter of its own. */
  predicate IsPrintable(s: bytes) { forall i | 0 <= i < |s| :: !IsRawControl(s[i]) }

  lemma BothPrintable(a: bytes, b: bytes)
    ensures IsPrintable(a + b) <==> IsPrintable(a) && IsPrintable(b)
  {
    if IsPrintable(a + b) {
      forall i | 0 <= i < |a| ensures !IsRawControl(a[i]) { assert (a + b)[i] == a[i]; }
      forall i | 0 <= i < |b| ensures !IsRawControl(b[i]) { assert (a + b)[|a| + i] == b[i]; }
    }
  }

  // -------------------------------------- a strict text has no raw control character

  lemma {:induction false} StrictPiecesArePrintable(ps: seq<Piece>, rest: bytes)
    requires ArePieces(ps) && IsStrictText(ps) && IsPrintable(rest)
    ensures IsPrintable(SpellPieces(ps, rest))
    decreases |ps|
  {
    if ps != [] {
      FirstPiece(ps);
      StrictPiecesArePrintable(ps[1..], rest);
      BothPrintable(SpellPiece(ps[0]), SpellPieces(ps[1..], rest));
      PieceIsPrintable(ps[0]);
    }
  }

  lemma PieceIsPrintable(p: Piece)
    requires IsPiece(p) && (p.Plain? ==> p.c >= 0x20)
    ensures IsPrintable(SpellPiece(p))
  {}

  lemma StrictTextIsPrintable(ps: seq<Piece>, rest: bytes)
    requires ArePieces(ps) && IsStrictText(ps) && IsPrintable(rest)
    ensures IsPrintable(SpellText(ps, rest))
  {
    BothPrintable([QUOTE], rest);
    StrictPiecesArePrintable(ps, [QUOTE] + rest);
    BothPrintable([QUOTE], SpellPieces(ps, [QUOTE] + rest));
  }

  lemma DigitsArePrintable(d: bytes)
    requires AllDigits(d)
    ensures IsPrintable(d)
  {}

  lemma NumeralIsPrintable(n: Numeral)
    requires IsNumeral(n)
    ensures IsPrintable(NumeralText(n))
  {
    DigitsArePrintable(n.whole);
    BothPrintable(SignText(n.minus), n.whole);
    BothPrintable(SignText(n.minus) + n.whole, FractionText(n.fraction));
    BothPrintable(SignText(n.minus) + n.whole + FractionText(n.fraction), ExponentText(n.exponent));
    if n.fraction.Some? { DigitsArePrintable(n.fraction.value); }
    if n.exponent.Some? { DigitsArePrintable(n.exponent.value.digits); }
  }

  lemma GapIsPrintable(gap: bytes, first: bool, rest: bytes)
    requires IsGap(gap, first) && IsPrintable(rest)
    ensures IsPrintable(gap + rest)
  {
    BothPrintable(gap, rest);
  }

  lemma {:induction false} StrictIsPrintable(c: Syntax, rest: bytes)
    requires Derives(c, rest) && IsStrict(c) && IsPrintable(rest)
    ensures IsPrintable(Spell(c, rest))
    decreases c, 0
  {
    match c
    case Nothing => BothPrintable(NULL_TEXT, rest);
    case Truth(b) => BothPrintable(if b then TRUE_TEXT else FALSE_TEXT, rest);
    case Number(n) =>
      NumeralIsPrintable(n);
      BothPrintable(NumeralText(n), rest);
    case Text(ps) => StrictTextIsPrintable(ps, rest);
    case List(items, last) =>
      BothPrintable([RBRACKET], rest);
      GapIsPrintable(last, items == [], [RBRACKET] + rest);
      StrictItemsArePrintable(items, true, last + ([RBRACKET] + rest));
      BothPrintable([LBRACKET], SpellItems(items, last + ([RBRACKET] + rest)));
    case Object(members, last) =>
      BothPrintable([RBRACE], rest);
      GapIsPrintable(last, members == [], [RBRACE] + rest);
      StrictMembersArePrintable(members, true, last + ([RBRACE] + rest));
      BothPrintable([LBRACE], SpellMembers(members, last + ([RBRACE] + rest)));
  }

  lemma {:induction false} StrictItemsArePrintable(items: seq<Item>, first: bool, rest: bytes)
    requires ItemsDerive(items, first, rest) && ItemsAreStrict(items, first) && IsPrintable(rest)
    ensures IsPrintable(SpellItems(items, rest))
    decreases items
  {
    if items != [] {
      var more := SpellItems(items[1..], rest);
      StrictItemsArePrintable(items[1..], false, rest);
      StrictIsPrintable(items[0].value, more);
      GapIsPrintable(items[0].gap, first, Spell(items[0].value, more));
    }
  }

  lemma {:induction false} StrictMembersArePrintable(members: seq<Member>, first: bool, rest: bytes)
    requires MembersDerive(members, first, rest) && MembersAreStrict(members, first) && IsPrintable(rest)
    ensures IsPrintable(SpellMembers(members, rest))
    decreases members
  {
    if members != [] {
      var m, more := members[0], SpellMembers(members[1..], rest);
      StrictMembersArePrintable(members[1..], false, rest);
      StrictIsPrintable(m.value, more);
      var value := m.afterColon + Spell(m.value, more);
      GapIsPrintable(m.afterColon, true, Spell(m.value, more));
      BothPrintable([COLON], value);
      GapIsPrintable(m.beforeColon, true, [COLON] + value);
      StrictTextIsPrintable(m.key, m.beforeColon + ([COLON] + value));
      GapIsPrintable(m.gap, first, SpellText(m.key, m.beforeColon + ([COLON] + value)));
    }
  }

  // ------------------------------------- a value that is not clean prints one

  lemma {:induction false} DirtyTextShows(s: bytes, slashes: bool, rest: bytes)
    requires !IsCleanText(s)
    ensures !IsPrintable(SpellPieces(PiecesFor(s, slashes), rest))
    decreases |s|
  {
    var ps := PiecesFor(s, slashes);
    assert ps[1..] == PiecesFor(s[1..], slashes);
    BothPrintable(SpellPiece(ps[0]), SpellPieces(ps[1..], rest));
    if IsRawControl(s[0]) {
      assert SpellPiece(ps[0]) == [s[0]];
      assert IsRawControl(SpellPiece(ps[0])[0]);
    } else {
      DirtyTextShows(s[1..], slashes, rest);
    }
  }

  lemma DirtyStringShows(s: bytes, slashes: bool, rest: bytes)
    requires !IsCleanText(s)
    ensures !IsPrintable(SpellText(PiecesFor(s, slashes), rest))
  {
    DirtyTextShows(s, slashes, [QUOTE] + rest);
    BothPrintable([QUOTE], SpellPieces(PiecesFor(s, slashes), [QUOTE] + rest));
  }

  /** What follows a value is there in its text. */
  lemma {:induction false} PiecesKeep(ps: seq<Piece>, rest: bytes)
    requires !IsPrintable(rest)
    ensures !IsPrintable(SpellPieces(ps, rest))
    decreases |ps|
  {
    if ps != [] {
      PiecesKeep(ps[1..], rest);
      BothPrintable(SpellPiece(ps[0]), SpellPieces(ps[1..], rest));
    }
  }

  lemma TextKeeps(ps: seq<Piece>, rest: bytes)
    requires !IsPrintable(rest)
    ensures !IsPrintable(SpellText(ps, rest))
  {
    BothPrintable([QUOTE], rest);
    PiecesKeep(ps, [QUOTE] + rest);
    BothPrintable([QUOTE], SpellPieces(ps, [QUOTE] + rest));
  }

  lemma {:induction false} SyntaxKeeps(c: Syntax, rest: bytes)
    requires !IsPrintable(rest)
    ensures !IsPrintable(Spell(c, rest))
    decreases c, 0
  {
    match c
    case Nothing => BothPrintable(NULL_TEXT, rest);
    case Truth(b) => BothPrintable(if b then TRUE_TEXT else FALSE_TEXT, rest);
    case Number(n) => BothPrintable(NumeralText(n), rest);
    case Text(ps) => TextKeeps(ps, rest);
    case List(items, last) =>
      BothPrintable([RBRACKET], rest);
      BothPrintable(last, [RBRACKET] + rest);
      ItemsKeep(items, last + ([RBRACKET] + rest));
      BothPrintable([LBRACKET], SpellItems(items, last + ([RBRACKET] + rest)));
    case Object(members, last) =>
      BothPrintable([RBRACE], rest);
      BothPrintable(last, [RBRACE] + rest);
      MembersKeep(members, last + ([RBRACE] + rest));
      BothPrintable([LBRACE], SpellMembers(members, last + ([RBRACE] + rest)));
  }

  lemma {:induction false} ItemsKeep(items: seq<Item>, rest: bytes)
    requires !IsPrintable(rest)
    ensures !IsPrintable(SpellItems(items, rest))
    decreases items
  {
    if items != [] {
      ItemsKeep(items[1..], rest);
      SyntaxKeeps(items[0].value, SpellItems(items[1..], rest));
      BothPrintable(items[0].gap, Spell(items[0].value, SpellItems(items[1..], rest)));
    }
  }

  /** Before a member's key there is its gap; the text after the key is kept too. */
  lemma MemberKeeps(m: Member, value: bytes)
    requires !IsPrintable(value)
    ensures !IsPrintable(m.gap + SpellText(m.key, m.beforeColon + ([COLON] + (m.afterColon + value))))
  {
    BothPrintable(m.afterColon, value);
    BothPrintable([COLON], m.afterColon + value);
    BothPrintable(m.beforeColon, [COLON] + (m.afterColon + value));
    TextKeeps(m.key, m.beforeColon + ([COLON] + (m.afterColon + value)));
    BothPrintable(m.gap, SpellText(m.key, m.beforeColon + ([COLON] + (m.afterColon + value))));
  }

  lemma {:induction false} MembersKeep(members: seq<Member>, rest: bytes)
    requires !IsPrintable(rest)
    ensures !IsPrintable(SpellMembers(members, rest))
    decreases members
  {
    if members != [] {
      MembersKeep(members[1..], rest);
      SyntaxKeeps(members[0].value, SpellMembers(members[1..], rest));
      MemberKeeps(members[0], Spell(members[0].value, SpellMembers(members[1..], rest)));
    }
  }

  lemma ListShows(items: seq<Item>, last: bytes, rest: bytes)
    requires !IsPrintable(SpellItems(items, last + ([RBRACKET] + rest)))
    ensures !IsPrintable(Spell(List(items, last), rest))
  {
    BothPrintable([LBRACKET], SpellItems(items, last + ([RBRACKET] + rest)));
  }

  lemma ObjectShows(members: seq<Member>, last: bytes, rest: bytes)
    requires !IsPrintable(SpellMembers(members, last + ([RBRACE] + rest)))
    ensures !IsPrintable(Spell(Object(members, last), rest))
  {
    BothPrintable([LBRACE], SpellMembers(members, last + ([RBRACE] + rest)));
  }

  lemma {:induction false} DirtyShows(num: bytes -> Numeral, v: Value, slashes: bool, pretty: bool, depth: nat, rest: bytes)
    requires !IsClean(v)
    ensures !IsPrintable(Spell(Tree(num, v, slashes, pretty, depth), rest))
    decreases v, 0
  {
    var last := GapBefore(true, pretty, depth);
    match v
    case Str(s) => DirtyStringShows(s, slashes, rest);
    case Arr(es) =>
      DirtyElemsShow(num, es, true, slashes, pretty, depth + 1, last + ([RBRACKET] + rest));
      ListShows(Items(num, es, true, slashes, pretty, depth + 1), last, rest);
    case Hash(en) =>
      DirtyEntriesShow(num, en, true, slashes, pretty, depth + 1, last + ([RBRACE] + rest));
      ObjectShows(Members(num, en, true, slashes, pretty, depth + 1), last, rest);
  }

  lemma {:induction false} DirtyElemsShow(num: bytes -> Numeral, es: seq<Value>, first: bool, slashes: bool, pretty: bool, depth: nat, rest: bytes)
    requires exists i :: 0 <= i < |es| && !IsClean(es[i])
    ensures !IsPrintable(SpellItems(Items(num, es, first, slashes, pretty, depth), rest))
    decreases es
  {
    var items := Items(num, es, first, slashes, pretty, depth);
    assert items[1..] == Items(num, es[1..], false, slashes, pretty, depth);
    var more := SpellItems(items[1..], rest);
    BothPrintable(items[0].gap, Spell(items[0].value, more));
    if IsClean(es[0]) {
      assert es == [es[0]] + es[1..];
      DirtyElemsShow(num, es[1..], false, slashes, pretty, depth, rest);
      SyntaxKeeps(items[0].value, more);
    } else {
      DirtyShows(num, es[0], slashes, pretty, depth, more);
    }
  }

  lemma {:induction false} DirtyEntriesShow(num: bytes -> Numeral, en: seq<Entry>, first: bool, slashes: bool, pretty: bool, depth: nat, rest: bytes)
    requires exists i :: 0 <= i < |en| && !(IsCleanText(en[i].key) && IsClean(en[i].value))
    ensures !IsPrintable(SpellMembers(Members(num, en, first, slashes, pretty, depth), rest))
    decreases en
  {
    var members := Members(num, en, first, slashes, pretty, depth);
    assert members[1..] == Members(num, en[1..], false, slashes, pretty, depth);
    var m, more := members[0], SpellMembers(members[1..], rest);
    if !IsCleanText(en[0].key) {
      var after := m.beforeColon + ([COLON] + (m.afterColon + Spell(m.value, more)));
      DirtyStringShows(en[0].key, slashes, after);
      BothPrintable(m.gap, SpellText(m.key, after));
    } else {
      if IsClean(en[0].value) {
        assert en == [en[0]] + en[1..];
        DirtyEntriesShow(num, en[1..], false, slashes, pretty, depth, rest);
        SyntaxKeeps(m.value, more);
      } else {
        DirtyShows(num, en[0].value, slashes, pretty, depth, more);
      }
      MemberKeeps(m, Spell(m.value, more));
    }
  }

  /** What `ToJSON` writes is a text of RFC 8259 exactly when the value is clean. */
  lemma PrintedIsRfcTextIff(lib: DoubleText, num: bytes -> Numeral, v: Value, slashes: bool, prettify: bool)
    requires FormatsAs(lib, num) && IsFinite(num, v)
    ensures IsRfcText(ToJson(lib, v, slashes, prettify)) <==> IsClean(v)
  {
    var c := Tree(num, v, slashes, prettify, 0);
    PrintedIsTree(lib, num, v, slashes, prettify);
    if IsClean(v) {
      TreeDerives(num, v, slashes, prettify, 0, []);
      TreeIsStrictIff(num, v, slashes, prettify, 0);
      var none: bytes := [];
      assert none + Spell(c, none) == Spell(c, []);
      assert IsSeparator(none, true);
    } else {
      DirtyShows(num, v, slashes, prettify, 0, []);
      forall lead, d, trail | IsSeparator(lead, true) && IsSeparator(trail, true) && Derives(d, trail) && IsStrict(d)
        ensures lead + Spell(d, trail) != Spell(c, [])
      {
        StrictIsPrintable(d, trail);
        BothPrintable(lead, Spell(d, trail));
      }
    }
  }
}
