/**
  The JSON round trip on all trees, doubles included (source/Utility/Value.cpp:35-399): what becomes of a double depends on how
  the C++ library writes it, which is the parameter `num`.
 */
module JsonDoubles {
  import opened Unicode
  import opened ValueTree
  import opened JsonSyntax
  import opened JsonRoundTrip
  import opened JsonNumbers
  import opened JsonGrammar
  import opened JsonLayout

  /** The library writes doubles as `num` says, and what it scans is a double. */
  ghost predicate IsLibrary(lib: DoubleText, num: bytes -> Numeral) {
    FormatsAs(lib, num) && forall text :: |lib.scan(text)| == 8
  }

  /** Every double of the tree is written as a number of the grammar: none is infinite or not a number. */
  ghost predicate IsFinite(num: bytes -> Numeral, v: Value) {
    match v
    case Double(bits) => IsNumeral(num(bits))
    case Arr(es) => forall i | 0 <= i < |es| :: IsFinite(num, es[i])
    case Hash(en) => forall i | 0 <= i < |en| :: IsFinite(num, en[i].value)
    case _ => true
  }

  /** Every double of the tree is written with a fraction or an exponent, and scanned as what it was. */
  ghost predicate IsKept(lib: DoubleText, num: bytes -> Numeral, v: Value) {
    match v
    case Double(bits) => IsReal(num(bits)) && lib.scan(lib.format(bits)) == bits
    case Arr(es) => forall i | 0 <= i < |es| :: IsKept(lib, num, es[i])
    case Hash(en) => forall i | 0 <= i < |en| :: IsKept(lib, num, en[i].value)
    case _ => true
  }

  /** The tree with every double replaced by the number its text is. */
  function Rescanned(lib: DoubleText, num: bytes -> Numeral, v: Value): Value {
    match v
    case Double(bits) => NumberOf(lib, num(bits))
    case Arr(es) => Arr(RescannedElems(lib, num, es))
    case Hash(en) => Hash(RescannedEntries(lib, num, en))
    case _ => v
  }

  function RescannedElems(lib: DoubleText, num: bytes -> Numeral, es: seq<Value>): (r: seq<Value>)
    ensures |r| == |es| && forall i | 0 <= i < |es| :: r[i] == Rescanned(lib, num, es[i])
  {
    if es == [] then [] else [Rescanned(lib, num, es[0])] + RescannedElems(lib, num, es[1..])
  }

  function RescannedEntries(lib: DoubleText, num: bytes -> Numeral, en: seq<Entry>): (r: seq<Entry>)
    ensures |r| == |en| && forall i | 0 <= i < |en| :: r[i] == Entry(en[i].key, Rescanned(lib, num, en[i].value))
  {
    if en == [] then [] else [Entry(en[0].key, Rescanned(lib, num, en[0].value))] + RescannedEntries(lib, num, en[1..])
  }

  // ------------------------------------------------- the printed tree is derivable

  /** Text after which a number, whatever it is, has ended. */
  lemma MayAlwaysFollow(n: Numeral, rest: bytes)
    requires n.whole != [] && !ExtendsNumber(rest)
    ensures MayFollow(n, rest)
  {}

  lemma {:induction false} PiecesArePieces(s: bytes, slashes: bool)
    ensures ArePieces(PiecesFor(s, slashes)) && StringOf(PiecesFor(s, slashes)) == Cut(s)
    decreases |s|
  {
    if s != [] && s[0] != NUL {
      PiecesArePieces(s[1..], slashes);
      var ps := PiecesFor(s, slashes);
      assert ps[1..] == PiecesFor(s[1..], slashes);
      assert forall i | 0 <= i < |ps| :: ps[i] == if i == 0 then PieceFor(s[0], slashes) else ps[1..][i - 1];
    }
  }

  lemma GapIsGap(first: bool, pretty: bool, depth: nat)
    ensures IsGap(GapBefore(first, pretty, depth), first)
  {}

  /** What stands before the next element or the end starts no digit, dot or exponent. */
  lemma GapStops(first: bool, pretty: bool, depth: nat, rest: bytes)
    requires first && !pretty ==> !ExtendsNumber(rest)
    ensures !ExtendsNumber(GapBefore(first, pretty, depth) + rest)
  {
    var gap := GapBefore(first, pretty, depth);
    if gap == [] { assert gap + rest == rest; } else { assert (gap + rest)[0] == gap[0]; }
  }

  lemma {:induction false} TreeDerives(num: bytes -> Numeral, v: Value, slashes: bool, pretty: bool, depth: nat, rest: bytes)
    requires IsFinite(num, v) && (IsNumeric(v) || v.Double? ==> !ExtendsNumber(rest))
    ensures Derives(Tree(num, v, slashes, pretty, depth), rest)
    decreases v, 0
  {
    GapIsGap(true, pretty, depth);
    match v
    case Str(s) => PiecesArePieces(s, slashes);
    case Arr(es) =>
      GapStops(true, pretty, depth, [RBRACKET] + rest);
      ElemsDerive(num, es, true, slashes, pretty, depth + 1, GapBefore(true, pretty, depth) + ([RBRACKET] + rest));
    case Hash(en) =>
      GapStops(true, pretty, depth, [RBRACE] + rest);
      EntriesDerive(num, en, true, slashes, pretty, depth + 1, GapBefore(true, pretty, depth) + ([RBRACE] + rest));
    case Double(bits) => MayAlwaysFollow(num(bits), rest);
    case Int(i) => MayAlwaysFollow(NumeralFor(i), rest);
    case LongLong(i) => MayAlwaysFollow(NumeralFor(i), rest);
    case UInt(i) => MayAlwaysFollow(NumeralFor(i), rest);
    case ULongLong(i) => MayAlwaysFollow(NumeralFor(i), rest);
    case _ =>
  }

  lemma ItemsStop(num: bytes -> Numeral, es: seq<Value>, slashes: bool, pretty: bool, depth: nat, rest: bytes)
    requires !ExtendsNumber(rest)
    ensures !ExtendsNumber(SpellItems(Items(num, es, false, slashes, pretty, depth), rest))
  {
    if es != [] {
      var items := Items(num, es, false, slashes, pretty, depth);
      GapStops(false, pretty, depth, Spell(items[0].value, SpellItems(items[1..], rest)));
    }
  }

  lemma {:induction false} ElemsDerive(num: bytes -> Numeral, es: seq<Value>, first: bool, slashes: bool, pretty: bool, depth: nat, rest: bytes)
    requires (forall i | 0 <= i < |es| :: IsFinite(num, es[i])) && !ExtendsNumber(rest)
    ensures ItemsDerive(Items(num, es, first, slashes, pretty, depth), first, rest)
    decreases es
  {
    if es != [] {
      var items := Items(num, es, first, slashes, pretty, depth);
      assert items[1..] == Items(num, es[1..], false, slashes, pretty, depth);
      GapIsGap(first, pretty, depth);
      ItemsStop(num, es[1..], slashes, pretty, depth, rest);
      TreeDerives(num, es[0], slashes, pretty, depth, SpellItems(items[1..], rest));
      ElemsDerive(num, es[1..], false, slashes, pretty, depth, rest);
    }
  }

  lemma MembersStop(num: bytes -> Numeral, en: seq<Entry>, slashes: bool, pretty: bool, depth: nat, rest: bytes)
    requires !ExtendsNumber(rest)
    ensures !ExtendsNumber(SpellMembers(Members(num, en, false, slashes, pretty, depth), rest))
  {
    if en != [] {
      var members := Members(num, en, false, slashes, pretty, depth);
      var m := members[0];
      GapStops(false, pretty, depth,
        SpellText(m.key, m.beforeColon + ([COLON] + (m.afterColon + Spell(m.value, SpellMembers(members[1..], rest))))));
    }
  }

  lemma {:induction false} EntriesDerive(num: bytes -> Numeral, en: seq<Entry>, first: bool, slashes: bool, pretty: bool, depth: nat, rest: bytes)
    requires (forall i | 0 <= i < |en| :: IsFinite(num, en[i].value)) && !ExtendsNumber(rest)
    ensures MembersDerive(Members(num, en, first, slashes, pretty, depth), first, rest)
    decreases en
  {
    if en != [] {
      var members := Members(num, en, first, slashes, pretty, depth);
      assert members[1..] == Members(num, en[1..], false, slashes, pretty, depth);
      GapIsGap(first, pretty, depth);
      PiecesArePieces(en[0].key, slashes);
      MembersStop(num, en[1..], slashes, pretty, depth, rest);
      TreeDerives(num, en[0].value, slashes, pretty, depth, SpellMembers(members[1..], rest));
      EntriesDerive(num, en[1..], false, slashes, pretty, depth, rest);
    }
  }

  // ------------------------------------------------------ and what it means

  lemma NumeralForMeans(lib: DoubleText, i: int)
    requires LLONG_MIN <= i <= ULLONG_MAX
    ensures NumberOf(lib, NumeralFor(i)) == Renumber(i)
  {}

  predicate IsScalar(v: Value) { !v.Arr? && !v.Hash? }

  lemma ScalarMeans(lib: DoubleText, num: bytes -> Numeral, v: Value, slashes: bool, pretty: bool, depth: nat)
    requires IsScalar(v) && WellFormed(v) && IsFinite(num, v)
    ensures Meaning(lib, Tree(num, v, slashes, pretty, depth)) == Readback(Rescanned(lib, num, v))
  {
    match v
    case Int(i) => NumeralForMeans(lib, i);
    case LongLong(i) => NumeralForMeans(lib, i);
    case UInt(i) => NumeralForMeans(lib, i);
    case ULongLong(i) => NumeralForMeans(lib, i);
    case Double(bits) => NumberIsTyped(lib, num(bits));
    case Str(s) => PiecesArePieces(s, slashes);
    case _ =>
  }

  lemma ArrMeans(lib: DoubleText, num: bytes -> Numeral, es: seq<Value>, slashes: bool, pretty: bool, depth: nat)
    requires ItemsMeaning(lib, Items(num, es, true, slashes, pretty, depth + 1)) == ReadbackElems(RescannedElems(lib, num, es))
    ensures Meaning(lib, Tree(num, Arr(es), slashes, pretty, depth)) == Readback(Rescanned(lib, num, Arr(es)))
  {}

  lemma HashMeans(lib: DoubleText, num: bytes -> Numeral, en: seq<Entry>, slashes: bool, pretty: bool, depth: nat)
    requires MembersMeaning(lib, Members(num, en, true, slashes, pretty, depth + 1), []) == ReadbackEntries(RescannedEntries(lib, num, en), [])
    ensures Meaning(lib, Tree(num, Hash(en), slashes, pretty, depth)) == Readback(Rescanned(lib, num, Hash(en)))
  {}

  /** The printed tree means the tree with its doubles rescanned, and then what reading back does to any tree. */
  lemma {:induction false} TreeMeans(lib: DoubleText, num: bytes -> Numeral, v: Value, slashes: bool, pretty: bool, depth: nat)
    requires WellFormed(v) && IsFinite(num, v)
    ensures Meaning(lib, Tree(num, v, slashes, pretty, depth)) == Readback(Rescanned(lib, num, v))
    decreases v, 0
  {
    match v
    case Arr(es) =>
      ElemsMean(lib, num, es, true, slashes, pretty, depth + 1);
      ArrMeans(lib, num, es, slashes, pretty, depth);
    case Hash(en) =>
      EntriesMean(lib, num, en, true, slashes, pretty, depth + 1, []);
      HashMeans(lib, num, en, slashes, pretty, depth);
    case _ => ScalarMeans(lib, num, v, slashes, pretty, depth);
  }

  lemma NumberIsTyped(lib: DoubleText, n: Numeral)
    requires IsNumeral(n)
    ensures Readback(NumberOf(lib, n)) == NumberOf(lib, n)
  {
    DecimalIsNatural(n.whole);
  }

  lemma {:induction false} ElemsMean(lib: DoubleText, num: bytes -> Numeral, es: seq<Value>, first: bool, slashes: bool, pretty: bool, depth: nat)
    requires forall i | 0 <= i < |es| :: WellFormed(es[i]) && IsFinite(num, es[i])
    ensures ItemsMeaning(lib, Items(num, es, first, slashes, pretty, depth)) == ReadbackElems(RescannedElems(lib, num, es))
    decreases es
  {
    if es != [] {
      var items := Items(num, es, first, slashes, pretty, depth);
      assert items[1..] == Items(num, es[1..], false, slashes, pretty, depth);
      TreeMeans(lib, num, es[0], slashes, pretty, depth);
      ElemsMean(lib, num, es[1..], false, slashes, pretty, depth);
      assert RescannedElems(lib, num, es)[1..] == RescannedElems(lib, num, es[1..]);
    }
  }

  lemma {:induction false} EntriesMean(lib: DoubleText, num: bytes -> Numeral, en: seq<Entry>, first: bool, slashes: bool, pretty: bool, depth: nat,
                                       acc: seq<Entry>)
    requires forall i | 0 <= i < |en| :: WellFormed(en[i].value) && IsFinite(num, en[i].value)
    ensures MembersMeaning(lib, Members(num, en, first, slashes, pretty, depth), acc) == ReadbackEntries(RescannedEntries(lib, num, en), acc)
    decreases en
  {
    if en != [] {
      var members := Members(num, en, first, slashes, pretty, depth);
      assert members[1..] == Members(num, en[1..], false, slashes, pretty, depth);
      PiecesArePieces(en[0].key, slashes);
      TreeMeans(lib, num, en[0].value, slashes, pretty, depth);
      var k, w := Cut(en[0].key), Readback(Rescanned(lib, num, en[0].value));
      EntriesMean(lib, num, en[1..], false, slashes, pretty, depth, Insert(acc, k, w));
      assert RescannedEntries(lib, num, en)[1..] == RescannedEntries(lib, num, en[1..]);
    }
  }

  /** Any tree without infinities, printed and parsed, with either flag: the text is read whole, and for this. */
  lemma PrintedIsRead(lib: DoubleText, num: bytes -> Numeral, v: Value, slashes: bool, prettify: bool)
    requires FormatsAs(lib, num) && WellFormed(v) && IsFinite(num, v)
    ensures ReadValue(lib, ToJson(lib, v, slashes, prettify)) == Ok(Readback(Rescanned(lib, num, v)), [])
  {
    var c := Tree(num, v, slashes, prettify, 0);
    PrintedIsTree(lib, num, v, slashes, prettify);
    TreeDerives(num, v, slashes, prettify, 0, []);
    TreeMeans(lib, num, v, slashes, prettify, 0);
    TextsAreRead(lib, [], c, []);
    assert [] + Spell(c, []) == Spell(c, []);
  }

  // --------------------------------------------- exactly when nothing is lost

  lemma {:induction false} KeptIsUnchanged(lib: DoubleText, num: bytes -> Numeral, v: Value)
    requires FormatsAs(lib, num) && IsKept(lib, num, v)
    ensures Rescanned(lib, num, v) == v
    decreases v
  {
    match v
    case Arr(es) =>
      forall i | 0 <= i < |es| ensures Rescanned(lib, num, es[i]) == es[i] { KeptIsUnchanged(lib, num, es[i]); }
      assert RescannedElems(lib, num, es) == es;
    case Hash(en) =>
      forall i | 0 <= i < |en| ensures Rescanned(lib, num, en[i].value) == en[i].value { KeptIsUnchanged(lib, num, en[i].value); }
      assert RescannedEntries(lib, num, en) == en;
    case _ =>
  }

  lemma {:induction false} UnchangedIsKept(lib: DoubleText, num: bytes -> Numeral, v: Value)
    requires FormatsAs(lib, num) && Retype(Rescanned(lib, num, v)) == Retype(v)
    ensures IsKept(lib, num, v)
    decreases v
  {
    match v
    case Arr(es) =>
      forall i | 0 <= i < |es| ensures IsKept(lib, num, es[i]) {
        assert RetypeElems(RescannedElems(lib, num, es))[i] == RetypeElems(es)[i];
        UnchangedIsKept(lib, num, es[i]);
      }
    case Hash(en) =>
      forall i | 0 <= i < |en| ensures IsKept(lib, num, en[i].value) {
        assert RetypeEntries(RescannedEntries(lib, num, en))[i] == RetypeEntries(en)[i];
        UnchangedIsKept(lib, num, en[i].value);
      }
    case _ =>
  }

  lemma {:induction false} RescannedIsWellFormed(lib: DoubleText, num: bytes -> Numeral, v: Value)
    requires IsLibrary(lib, num) && WellFormed(v) && IsFinite(num, v)
    ensures WellFormed(Rescanned(lib, num, v)) && (NulFree(v) ==> NulFree(Rescanned(lib, num, v)))
    decreases v
  {
    match v
    case Double(bits) => DecimalIsNatural(num(bits).whole);
    case Arr(es) =>
      forall i | 0 <= i < |es| ensures WellFormed(Rescanned(lib, num, es[i])) && (NulFree(es[i]) ==> NulFree(Rescanned(lib, num, es[i]))) {
        RescannedIsWellFormed(lib, num, es[i]);
      }
    case Hash(en) =>
      forall i | 0 <= i < |en|
        ensures WellFormed(Rescanned(lib, num, en[i].value)) && (NulFree(en[i].value) ==> NulFree(Rescanned(lib, num, en[i].value)))
      {
        RescannedIsWellFormed(lib, num, en[i].value);
      }
    case _ =>
  }

  /**
    The round trip on all trees: `FromJSON(ToJSON(v))` is `v` up to integer types exactly when no string in it holds a NUL
    and every double in it is written with a fraction or an exponent that scans as the same double.
   */
  lemma RoundTripIff(lib: DoubleText, num: bytes -> Numeral, v: Value, slashes: bool, prettify: bool)
    requires IsLibrary(lib, num) && WellFormed(v) && IsFinite(num, v)
    ensures FromJson(lib, ToJson(lib, v, slashes, prettify)) == Retype(v) <==> NulFree(v) && IsKept(lib, num, v)
  {
    PrintedIsRead(lib, num, v, slashes, prettify);
    var w := Rescanned(lib, num, v);
    RescannedIsWellFormed(lib, num, v);
    if NulFree(v) {
      ReadbackOfNulFree(w);
      if IsKept(lib, num, v) {
        KeptIsUnchanged(lib, num, v);
      } else if Retype(w) == Retype(v) {
        UnchangedIsKept(lib, num, v);
      }
    } else {
      ReadbackIsNulFree(w);
      RetypeKeepsNuls(v);
    }
  }
}
