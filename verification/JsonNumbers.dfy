/**
  The numbers of section 6 of RFC 8259, and that the parser of source/Utility/Value.cpp:292-359 reads them and nothing else.
 */
module JsonNumbers {
  import opened ValueTree
  import opened JsonSyntax
  import opened JsonRoundTrip

  datatype Exponent = Exponent(mark: byte, sign: Option<byte>, digits: bytes)

  /** A number in its parts: the minus sign, the integer part, and the fraction and exponent if there. */
  datatype Numeral = Numeral(minus: bool, whole: bytes, fraction: Option<bytes>, exponent: Option<Exponent>)

  ghost predicate IsDigits(d: bytes) { d != [] && AllDigits(d) }

  ghost predicate IsExponent(e: Exponent) {
    && (e.mark == LETTER_E || e.mark == UPPER_E)
    && (e.sign.Some? ==> e.sign.value == PLUS || e.sign.value == MINUS)
    && IsDigits(e.digits)
  }

  /** The rules of section 6: no leading zero, and at least one digit in each part. */
  ghost predicate IsNumeral(n: Numeral) {
    && IsDigits(n.whole) && (n.whole[0] == ZERO ==> |n.whole| == 1)
    && (n.fraction.Some? ==> IsDigits(n.fraction.value))
    && (n.exponent.Some? ==> IsExponent(n.exponent.value))
  }

  function ExponentText(e: Option<Exponent>): bytes {
    match e
    case None => []
    case Some(x) => [x.mark] + (if x.sign.Some? then [x.sign.value] else []) + x.digits
  }

  function FractionText(f: Option<bytes>): bytes { if f.Some? then [DOT] + f.value else [] }

  function SignText(minus: bool): bytes { if minus then [MINUS] else [] }

  /** The number as it is written. */
  function NumeralText(n: Numeral): bytes { SignText(n.minus) + n.whole + FractionText(n.fraction) + ExponentText(n.exponent) }

  predicate IsReal(n: Numeral) { n.fraction.Some? || n.exponent.Some? }

  predicate StartsWithDigit(rest: bytes) { rest != [] && IsDigit(rest[0]) }

  predicate StartsExponent(rest: bytes) { rest != [] && (rest[0] == LETTER_E || rest[0] == UPPER_E) }

  /** The text after a number that is no part of it; only a lone zero may be followed by a digit. */
  predicate MayFollow(n: Numeral, rest: bytes)
    requires n.whole != []
  {
    && (StartsWithDigit(rest) ==> !IsReal(n) && n.whole[0] == ZERO)
    && (n.exponent.None? ==> !StartsExponent(rest))
    && (!IsReal(n) ==> rest == [] || rest[0] != DOT)
  }

  /** What the number is: a double scanned from its whole text, or the integer nearest to it that 64 bits hold, typed by range. */
  function NumberOf(lib: DoubleText, n: Numeral): Value {
    if IsReal(n) then Double(lib.scan(NumeralText(n)))
    else
      var m := DecimalValue(n.whole);
      if n.minus then
        if m <= 0x8000_0000 then Int(-m)
        else LongLong(if m <= 0x8000_0000_0000_0000 then -m else -0x8000_0000_0000_0000)
      else if m <= 0x7FFF_FFFF then Int(m)
      else if m <= 0xFFFF_FFFF then UInt(m)
      else ULongLong(if m <= 0xFFFF_FFFF_FFFF_FFFF then m else 0xFFFF_FFFF_FFFF_FFFF)
  }

  // ------------------------------------------------ every number is read whole

  /** All three parts read their text after whatever was read before, and leave what follows. */
  lemma FractionIsRead(f: Option<bytes>, acc: bytes, rest: bytes)
    requires f.Some? ==> IsDigits(f.value) && !StartsWithDigit(rest)
    requires f.None? ==> rest == [] || rest[0] != DOT
    ensures ReadFraction(FractionText(f) + rest, acc) == Ok((acc + FractionText(f), f.Some?), rest)
  {
    if f.None? {
      assert [] + rest == rest && acc + [] == acc;
    } else {
      var s := FractionText(f) + rest;
      assert s[1..] == f.value + rest;
      DigitsAreRead(f.value, acc + [DOT], rest);
      assert acc + [DOT] + f.value == acc + FractionText(f);
    }
  }

  lemma DigitsAreRead(d: bytes, acc: bytes, rest: bytes)
    requires IsDigits(d) && !StartsWithDigit(rest)
    ensures ReadDigits1(d + rest, acc) == Ok(acc + d, rest)
  {
    assert (d + rest)[1..] == d[1..] + rest;
    ReadDigitsBack(d[1..], acc + [d[0]], rest);
    assert acc + [d[0]] + d[1..] == acc + d;
  }

  lemma ExponentIsRead(e: Option<Exponent>, acc: bytes, rest: bytes)
    requires e.Some? ==> IsExponent(e.value) && !StartsWithDigit(rest)
    requires e.None? ==> !StartsExponent(rest)
    ensures ReadExponent(ExponentText(e) + rest, acc) == Ok((acc + ExponentText(e), e.Some?), rest)
  {
    if e.None? {
      assert [] + rest == rest && acc + [] == acc;
    } else if e.value.sign.Some? {
      SignedExponentIsRead(e.value.mark, e.value.sign.value, e.value.digits, acc, rest);
    } else {
      PlainExponentIsRead(e.value.mark, e.value.digits, acc, rest);
    }
  }

  lemma SignedExponentIsRead(mark: byte, sign: byte, digits: bytes, acc: bytes, rest: bytes)
    requires (mark == LETTER_E || mark == UPPER_E) && (sign == PLUS || sign == MINUS) && IsDigits(digits) && !StartsWithDigit(rest)
    ensures ReadExponent([mark] + [sign] + digits + rest, acc) == Ok((acc + ([mark] + [sign] + digits), true), rest)
  {
    var s := [mark] + [sign] + digits + rest;
    assert s[2..] == digits + rest;
    DigitsAreRead(digits, acc + [mark] + [sign], rest);
    assert acc + [mark] + [sign] + digits == acc + ([mark] + [sign] + digits);
  }

  lemma PlainExponentIsRead(mark: byte, digits: bytes, acc: bytes, rest: bytes)
    requires (mark == LETTER_E || mark == UPPER_E) && IsDigits(digits) && !StartsWithDigit(rest)
    ensures ReadExponent([mark] + [] + digits + rest, acc) == Ok((acc + ([mark] + [] + digits), true), rest)
  {
    var s := [mark] + [] + digits + rest;
    assert s[1..] == digits + rest;
    assert s[1] == digits[0];
    DigitsAreRead(digits, acc + [mark], rest);
    assert acc + [mark] + digits == acc + ([mark] + [] + digits);
  }

  lemma WholeIsRead(whole: bytes, acc: bytes, rest: bytes)
    requires IsDigits(whole) && (whole[0] == ZERO ==> |whole| == 1)
    requires StartsWithDigit(rest) ==> whole[0] == ZERO
    ensures ReadIntegerPart(whole + rest, acc) == Ok(acc + whole, rest)
  {
    if whole[0] == ZERO {
      assert whole == [ZERO];
      assert (whole + rest)[1..] == rest;
    } else {
      DigitsAreRead(whole, acc, rest);
    }
  }

  lemma IntegerIsTyped(lib: DoubleText, n: Numeral)
    requires IsNumeral(n) && !IsReal(n)
    ensures NumberOf(lib, n) == IntegerValue(NumeralText(n))
  {
    var text := NumeralText(n);
    assert text == SignText(n.minus) + n.whole;
    if n.minus { assert text[1..] == n.whole; } else { assert text == n.whole && IsDigit(text[0]); }
    DecimalIsNatural(n.whole);
  }

  lemma {:induction false} DecimalIsNatural(d: bytes)
    requires AllDigits(d)
    ensures DecimalValue(d) >= 0
    decreases |d|
  {
    if d != [] { DecimalIsNatural(d[..|d| - 1]); }
  }

  /** What the three readers in a row return, for the parts they read. */
  lemma PartsAreRead(lib: DoubleText, n: Numeral, rest: bytes, r1: bytes, r2: bytes)
    requires IsNumeral(n)
    requires ReadIntegerPart(n.whole + r1, SignText(n.minus)) == Ok(SignText(n.minus) + n.whole, r1)
    requires var w := SignText(n.minus) + n.whole; ReadFraction(r1, w) == Ok((w + FractionText(n.fraction), n.fraction.Some?), r2)
    requires var w := SignText(n.minus) + n.whole + FractionText(n.fraction);
      ReadExponent(r2, w) == Ok((w + ExponentText(n.exponent), n.exponent.Some?), rest)
    ensures ReadNumber(lib, SignText(n.minus) + (n.whole + r1)) == Ok(NumberOf(lib, n), rest)
  {
    var s := SignText(n.minus) + (n.whole + r1);
    if n.minus { assert s[1..] == n.whole + r1; } else { assert s == n.whole + r1; }
    if !IsReal(n) { IntegerIsTyped(lib, n); }
  }

  lemma TextInParts(a: bytes, b: bytes, c: bytes, d: bytes, rest: bytes)
    ensures a + b + c + d + rest == a + (b + (c + (d + rest)))
  {}

  /** A number of the grammar, followed by anything that may follow it, is read whole and for what it is. */
  lemma NumeralIsRead(lib: DoubleText, n: Numeral, rest: bytes)
    requires IsNumeral(n) && MayFollow(n, rest)
    ensures ReadNumber(lib, NumeralText(n) + rest) == Ok(NumberOf(lib, n), rest)
  {
    var r2 := ExponentText(n.exponent) + rest;
    var r1 := FractionText(n.fraction) + r2;
    var w := SignText(n.minus) + n.whole;
    TextInParts(SignText(n.minus), n.whole, FractionText(n.fraction), ExponentText(n.exponent), rest);
    WholeIsRead(n.whole, SignText(n.minus), r1);
    FractionIsRead(n.fraction, w, r2);
    ExponentIsRead(n.exponent, w + FractionText(n.fraction), rest);
    PartsAreRead(lib, n, rest, r1, r2);
  }

  // ------------------------------------------------ only numbers are read

  /** The digits at the front. */
  function DigitRun(s: bytes): (d: bytes)
    ensures |d| <= |s| && d == s[..|d|] && !StartsWithDigit(s[|d|..])
    ensures forall i | 0 <= i < |d| :: IsDigit(d[i])
  {
    if StartsWithDigit(s) then [s[0]] + DigitRun(s[1..]) else []
  }

  lemma DigitsWereRead(s: bytes, acc: bytes)
    requires ReadDigits1(s, acc).Ok?
    ensures var d, p := DigitRun(s), ReadDigits1(s, acc);
      IsDigits(d) && s == d + p.rest && p.value == acc + d && !StartsWithDigit(p.rest)
  {
    var d := DigitRun(s);
    DigitsAreRead(d, acc, s[|d|..]);
    assert s == d + s[|d|..];
  }

  /** Where the digits begin, there are some. */
  lemma DigitsSplit(s: bytes, acc: bytes)
    requires ReadDigits1(s, acc).Ok?
    ensures var d := DigitRun(s); IsDigits(d) && s == d + s[|d|..] && !StartsWithDigit(s[|d|..])
  {}

  lemma FractionWasRead(s: bytes, acc: bytes) returns (f: Option<bytes>)
    requires ReadFraction(s, acc).Ok?
    ensures var p := ReadFraction(s, acc);
      && (if f.Some? then IsDigits(f.value) && !StartsWithDigit(p.rest) else p.rest == [] || p.rest[0] != DOT)
      && s == FractionText(f) + p.rest && p.value == (acc + FractionText(f), f.Some?)
  {
    if s == [] || s[0] != DOT {
      f := None;
      FractionIsRead(f, acc, s);
      assert [] + s == s;
    } else {
      var d := DigitRun(s[1..]);
      var rest := s[1..][|d|..];
      f := Some(d);
      DigitsSplit(s[1..], acc + [DOT]);
      assert s == FractionText(f) + rest by { Front(s[0], s[1..], d, rest); }
      FractionIsRead(f, acc, rest);
    }
  }

  lemma Front(c: byte, s: bytes, d: bytes, rest: bytes)
    requires s == d + rest
    ensures [c] + s == ([c] + d) + rest
  {}

  lemma ExponentWasRead(s: bytes, acc: bytes) returns (e: Option<Exponent>)
    requires ReadExponent(s, acc).Ok?
    ensures var p := ReadExponent(s, acc);
      && (if e.Some? then IsExponent(e.value) && !StartsWithDigit(p.rest) else !StartsExponent(p.rest))
      && s == ExponentText(e) + p.rest && p.value == (acc + ExponentText(e), e.Some?)
  {
    if !StartsExponent(s) {
      e := None;
      ExponentIsRead(e, acc, s);
      assert [] + s == s;
    } else {
      var signed := |s| > 1 && (s[1] == PLUS || s[1] == MINUS);
      var t := if signed then s[2..] else s[1..];
      var d := DigitRun(t);
      e := Some(Exponent(s[0], if signed then Some(s[1]) else None, d));
      DigitsSplit(t, if signed then acc + [s[0]] + [s[1]] else acc + [s[0]]);
      ExponentSplits(s, d, t[|d|..]);
      ExponentIsRead(e, acc, t[|d|..]);
    }
  }

  lemma ExponentSplits(s: bytes, d: bytes, rest: bytes)
    requires StartsExponent(s)
    requires var signed := |s| > 1 && (s[1] == PLUS || s[1] == MINUS); (if signed then s[2..] else s[1..]) == d + rest
    ensures var signed := |s| > 1 && (s[1] == PLUS || s[1] == MINUS);
      s == ExponentText(Some(Exponent(s[0], if signed then Some(s[1]) else None, d))) + rest
  {
    if |s| > 1 && (s[1] == PLUS || s[1] == MINUS) {
      assert s[1..] == [s[1]] + s[2..];
      Front(s[1], s[2..], d, rest);
      FrontTwo(s[0], s[1..], [s[1]], d, rest);
    } else {
      assert [] + d == d;
      FrontTwo(s[0], s[1..], [], d, rest);
    }
    assert s == [s[0]] + s[1..];
  }

  lemma FrontTwo(c: byte, s: bytes, sign: bytes, d: bytes, rest: bytes)
    requires s == (sign + d) + rest
    ensures [c] + s == ([c] + sign + d) + rest
  {}

  lemma WholeWasRead(s: bytes, acc: bytes) returns (d: bytes)
    requires ReadIntegerPart(s, acc).Ok?
    ensures var p := ReadIntegerPart(s, acc);
      && IsDigits(d) && (d[0] == ZERO ==> |d| == 1) && (StartsWithDigit(p.rest) ==> d[0] == ZERO)
      && s == d + p.rest && p.value == acc + d
  {
    if s[0] == ZERO {
      d := [ZERO];
      assert s == [ZERO] + s[1..];
    } else {
      d := DigitRun(s);
      DigitsWereRead(s, acc);
    }
  }

  /** The numeral with the parts that were read, one after the other. */
  lemma PartsJoin(n: Numeral, s: bytes, t: bytes, r1: bytes, r2: bytes, rest: bytes)
    requires s == SignText(n.minus) + t && t == n.whole + r1
    requires r1 == FractionText(n.fraction) + r2 && r2 == ExponentText(n.exponent) + rest
    ensures s == NumeralText(n) + rest
  {
    TextInParts(SignText(n.minus), n.whole, FractionText(n.fraction), ExponentText(n.exponent), rest);
  }

  /** What follows each part, put together. */
  lemma FollowersJoin(n: Numeral, r1: bytes, r2: bytes, rest: bytes)
    requires n.whole != [] && r1 == FractionText(n.fraction) + r2 && r2 == ExponentText(n.exponent) + rest
    requires StartsWithDigit(r1) ==> n.whole[0] == ZERO
    requires if n.fraction.Some? then !StartsWithDigit(r2) else r2 == [] || r2[0] != DOT
    requires if n.exponent.Some? then !StartsWithDigit(rest) else !StartsExponent(rest)
    ensures MayFollow(n, rest)
  {
    if n.exponent.None? { assert r2 == rest; }
    if n.fraction.None? { assert r1 == r2; }
  }

  /** Whatever is read as a number is one of the grammar, read to its end. */
  lemma NumeralWasRead(lib: DoubleText, s: bytes) returns (n: Numeral)
    requires ReadNumber(lib, s).Ok?
    ensures var p := ReadNumber(lib, s);
      IsNumeral(n) && MayFollow(n, p.rest) && s == NumeralText(n) + p.rest && p.value == NumberOf(lib, n)
  {
    var minus := s != [] && s[0] == MINUS;
    var t := if minus then s[1..] else s;
    assert s == SignText(minus) + t;
    var p1 := ReadIntegerPart(t, SignText(minus));
    var whole := WholeWasRead(t, SignText(minus));
    var p2 := ReadFraction(p1.rest, p1.value);
    var fraction := FractionWasRead(p1.rest, p1.value);
    var p3 := ReadExponent(p2.rest, p2.value.0);
    var exponent := ExponentWasRead(p2.rest, p2.value.0);
    n := Numeral(minus, whole, fraction, exponent);
    PartsJoin(n, s, t, p1.rest, p2.rest, p3.rest);
    FollowersJoin(n, p1.rest, p2.rest, p3.rest);
    NumeralIsRead(lib, n, p3.rest);
  }

  /** The parser reads `v` and leaves `rest` exactly when a number of the grammar that is `v` stands before `rest` and ends there. */
  lemma NumbersAreRead(lib: DoubleText, s: bytes, v: Value, rest: bytes)
    ensures ReadNumber(lib, s) == Ok(v, rest) <==>
      exists n :: IsNumeral(n) && MayFollow(n, rest) && s == NumeralText(n) + rest && v == NumberOf(lib, n)
  {
    if ReadNumber(lib, s) == Ok(v, rest) {
      var n := NumeralWasRead(lib, s);
    }
    if n :| IsNumeral(n) && MayFollow(n, rest) && s == NumeralText(n) + rest && v == NumberOf(lib, n) {
      NumeralIsRead(lib, n, rest);
    }
  }
}
