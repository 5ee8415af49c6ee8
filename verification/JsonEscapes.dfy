/**
  The two UTF-8 encoders of source/Utility/Value.cpp agree: the one inside the string parser (250-283) and
  the wide-string converter (401-445).
 */
module JsonEscapes {
  import opened Unicode
  import opened ValueTree
  import opened JsonSyntax
  import opened JsonRoundTrip

  function HexChar(n: nat, upper: bool): byte
    requires n < 16
  {
    if n < 10 then 0x30 + n else if upper then 0x41 + n - 10 else 0x61 + n - 10
  }

  /** `\uXXXX` for one unit, in either case of hexadecimal digit. */
  function Spell(u: nat, upper: bool): bytes
    requires u <= 0xFFFF
  {
    [BACKSLASH, LETTER_U, HexChar(u / 0x1000, upper), HexChar(u / 0x100 % 0x10, upper),
     HexChar(u / 0x10 % 0x10, upper), HexChar(u % 0x10, upper)]
  }

  function SpellAll(w: seq<nat>, upper: bool, rest: bytes): bytes
    requires forall i | 0 <= i < |w| :: w[i] <= 0xFFFF
  {
    if w == [] then rest else Spell(w[0], upper) + SpellAll(w[1..], upper, rest)
  }

  lemma HexDigitOfChar(n: nat, upper: bool)
    requires n < 16
    ensures HexDigit(HexChar(n, upper)) == Some(n)
  {}

  lemma LowestDigit(u: nat)
    ensures u == u / 0x10 * 0x10 + u % 0x10
  {}

  lemma SecondQuotient(u: nat)
    ensures u / 0x100 == u / 0x10 / 0x10
  {}

  lemma ThirdQuotient(u: nat)
    ensures u / 0x1000 == u / 0x100 / 0x10
  {}

  lemma HighestDigit(u: nat)
    requires u <= 0xFFFF
    ensures u / 0x1000 < 16
  {}

  /** A number from its quotients, one digit at a time. */
  lemma FourDigits(u: nat, a: nat, b: nat, c: nat)
    requires u == a * 0x10 + u % 0x10 && a == b * 0x10 + a % 0x10 && b == c * 0x10 + b % 0x10
    ensures u == c * 0x1000 + b % 0x10 * 0x100 + a % 0x10 * 0x10 + u % 0x10
  {}

  lemma HexDigitsOf(u: nat)
    requires u <= 0xFFFF
    ensures u == u / 0x1000 * 0x1000 + u / 0x100 % 0x10 * 0x100 + u / 0x10 % 0x10 * 0x10 + u % 0x10
    ensures u / 0x1000 < 16
  {
    HighestDigit(u);
    SecondQuotient(u);
    ThirdQuotient(u);
    LowestDigit(u);
    LowestDigit(u / 0x10);
    LowestDigit(u / 0x100);
    FourDigits(u, u / 0x10, u / 0x100, u / 0x1000);
  }

  lemma Hex4OfSpelling(u: nat, upper: bool, rest: bytes)
    requires u <= 0xFFFF
    ensures Hex4(Spell(u, upper)[2..] + rest) == Ok(u, rest)
  {
    HexDigitsOf(u);
    var s := Spell(u, upper)[2..] + rest;
    HexDigitOfChar(u / 0x1000, upper);
    HexDigitOfChar(u / 0x100 % 0x10, upper);
    HexDigitOfChar(u / 0x10 % 0x10, upper);
    HexDigitOfChar(u % 0x10, upper);
    assert s[4..] == rest;
  }

  /** Text after the first escape's `\u`. */
  lemma AfterEscape(u: nat, upper: bool, rest: bytes)
    requires u <= 0xFFFF
    ensures var s := Spell(u, upper) + rest;
      s[0] == BACKSLASH && s[1] == LETTER_U && s[2..] == Spell(u, upper)[2..] + rest && s[1..][1..] == s[2..]
  {}

  /** A spelled code point is read whole, and a broken pair is refused. */
  lemma ReadSpelled(w: seq<nat>, upper: bool, rest: bytes)
    requires w != [] && forall i | 0 <= i < |w| :: w[i] <= 0xFFFF
    requires rest != [] && rest[0] == QUOTE
    ensures ReadCodePoint(SpellAll(w, upper, rest)[2..])
         == if FirstCodePoint(w).None? then Fail
            else Ok(FirstCodePoint(w).value.0, SpellAll(w[FirstCodePoint(w).value.1..], upper, rest))
  {
    var more := SpellAll(w[1..], upper, rest);
    AfterEscape(w[0], upper, more);
    Hex4OfSpelling(w[0], upper, more);
    if IsHighSurrogate(w[0]) && |w| > 1 {
      var tail := SpellAll(w[1..][1..], upper, rest);
      AfterEscape(w[1], upper, tail);
      Hex4OfSpelling(w[1], upper, tail);
      assert w[1..][1..] == w[2..];
    }
  }

  /** One turn of the string loop. */
  lemma ReadSpelledTurn(w: seq<nat>, upper: bool, rest: bytes, acc: bytes)
    requires w != [] && forall i | 0 <= i < |w| :: w[i] <= 0xFFFF
    requires rest != [] && rest[0] == QUOTE
    ensures ReadChars(SpellAll(w, upper, rest), acc)
         == if FirstCodePoint(w).None? then Fail
            else ReadChars(SpellAll(w[FirstCodePoint(w).value.1..], upper, rest), acc + Utf8(FirstCodePoint(w).value.0))
  {
    AfterEscape(w[0], upper, SpellAll(w[1..], upper, rest));
    ReadSpelled(w, upper, rest);
  }

  /** Reading an escaped unit sequence up to the closing quote. */
  lemma {:induction false} ReadSpelledChars(w: seq<nat>, upper: bool, rest: bytes, acc: bytes)
    requires forall i | 0 <= i < |w| :: w[i] <= 0xFFFF
    ensures ReadChars(SpellAll(w, upper, [QUOTE] + rest), acc)
         == if Encodable(w) == |w| then Ok(acc + EncodeWide(w), rest) else Fail
  {
    var end := [QUOTE] + rest;
    if w == [] {
      assert end[1..] == rest && acc + [] == acc;
    } else {
      ReadSpelledTurn(w, upper, end, acc);
      if FirstCodePoint(w).Some? {
        var (u, n) := FirstCodePoint(w).value;
        ReadSpelledChars(w[n..], upper, rest, acc + Utf8(u));
        assert (acc + Utf8(u)) + EncodeWide(w[n..]) == acc + (Utf8(u) + EncodeWide(w[n..]));
      }
    }
  }

  /**
    Spelling 16-bit units as escapes and parsing gives the converter's bytes exactly when every high surrogate
    is followed by a low one; otherwise the parser throws where the converter silently truncates.
   */
  lemma EncodersAgree(w: seq<nat>, upper: bool, rest: bytes)
    requires forall i | 0 <= i < |w| :: w[i] <= 0xFFFF
    ensures ReadString([QUOTE] + SpellAll(w, upper, [QUOTE] + rest))
         == if WellPaired(w) then Ok(EncodeWide(w), rest) else Fail
  {
    ReadSpelledChars(w, upper, rest, []);
    WellPairedIsEncodable(w);
    assert ([QUOTE] + SpellAll(w, upper, [QUOTE] + rest))[1..] == SpellAll(w, upper, [QUOTE] + rest);
    assert [] + EncodeWide(w) == EncodeWide(w);
  }
}
