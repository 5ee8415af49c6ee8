/**
  The wide-string converters of source/Utility/Value.cpp:401-496.

  `wchar_t` has two bytes on Windows (`narrow`) and four elsewhere.  The source's shifts, masks and ors on
  disjoint bit fields are written as division, remainder and sum.
 */
module Unicode {
  import opened ValueTree

  predicate IsHighSurrogate(u: int) { 0xD800 <= u <= 0xDBFF }
  predicate IsLowSurrogate(u: int) { 0xDC00 <= u <= 0xDFFF }

  /** RFC 2781 section 2.2. */
  function Combine(high: int, low: int): int { 0x10000 + (high - 0xD800) * 0x400 + (low - 0xDC00) }

  /** RFC 3629 section 3. */
  function Utf8(u: int): bytes
    requires 0 <= u <= 0x10FFFF
  {
    if u <= 0x7F then [u]
    else if u <= 0x7FF then [0xC0 + u / 0x40, 0x80 + u % 0x40]
    else if u <= 0xFFFF then [0xE0 + u / 0x1000, 0x80 + u / 0x40 % 0x40, 0x80 + u % 0x40]
    else [0xF0 + u / 0x40000, 0x80 + u / 0x1000 % 0x40, 0x80 + u / 0x40 % 0x40, 0x80 + u % 0x40]
  }

  /** The code point at the front of `w` and the number of units it takes; `None` where the encoder throws. */
  function FirstCodePoint(w: seq<nat>): (p: Option<(nat, nat)>)
    requires w != []
    ensures p.Some? ==> p.value.0 <= 0x10FFFF && 1 <= p.value.1 <= 2 && p.value.1 <= |w|
  {
    if IsHighSurrogate(w[0]) then
      if |w| > 1 && IsLowSurrogate(w[1]) then Some((Combine(w[0], w[1]), 2)) else None
    else if w[0] <= 0x10FFFF then Some((w[0], 1))
    else None
  }

  /** The bytes of the text up to the first thing that makes the encoder give up. */
  function EncodeWide(w: seq<nat>): bytes {
    if w == [] then []
    else match FirstCodePoint(w)
      case None => []
      case Some((u, n)) => Utf8(u) + EncodeWide(w[n..])
  }

  /** One byte of the decoder: the code point so far and how many bytes it still lacks. */
  function DecodeByte(c: byte, unicode: nat, remaining: nat): Option<(nat, nat)> {
    if c <= 0x7F then if remaining > 0 then None else Some((c, 0))
    else if c <= 0xBF then if remaining > 0 then Some((unicode * 0x40 + c % 0x40, remaining - 1)) else None
    else if c <= 0xDF then Some((c % 0x20, 1))
    else if c <= 0xEF then Some((c % 0x10, 2))
    else if c <= 0xF7 then Some((c % 0x08, 3))
    else None
  }

  /** The units of a finished code point. */
  function Units(u: nat, narrow: bool): Option<seq<nat>> {
    if narrow && u > 0xFFFF then Some([0xD800 + (u - 0x10000) / 0x400 % 0x400, 0xDC00 + u % 0x400])
    else if u > 0x10FFFF then None
    else Some([u])
  }

  function DecodeFrom(s: bytes, unicode: nat, remaining: nat, narrow: bool): seq<nat> {
    if s == [] then []
    else match DecodeByte(s[0], unicode, remaining)
      case None => []
      case Some((u, r)) =>
        if r > 0 then DecodeFrom(s[1..], u, r, narrow)
        else match Units(u, narrow)
          case None => []
          case Some(us) => us + DecodeFrom(s[1..], 0, 0, narrow)
  }

  function DecodeUtf8(s: bytes, narrow: bool): seq<nat> { DecodeFrom(s, 0, 0, narrow) }

  // ------------------------------------------------------------- the methods

  /** The body of the loop below: the bytes of the code point at `i` and the index after it. */
  method EncodeAt(wide: seq<nat>, i: nat) returns (bs: Option<bytes>, next: nat)
    requires i < |wide|
    ensures match FirstCodePoint(wide[i..])
      case None => bs.None?
      case Some((u, n)) => bs == Some(Utf8(u)) && next == i + n
  {
    next := i + 1;
    var unicode := wide[i];
    if unicode <= 0x7F {
      bs := Some([unicode]);
    } else if unicode <= 0x7FF {
      bs := Some([0xC0 + unicode / 0x40, 0x80 + unicode % 0x40]);
    } else if 0xD800 <= unicode <= 0xDBFF {
      if next >= |wide| {
        return None, next;
      }
      var pair := wide[next];
      if pair < 0xDC00 || pair > 0xDFFF {
        return None, next;
      }
      next := next + 1;
      unicode := 0x10000 + (unicode - 0xD800) * 0x400 + (pair - 0xDC00);
      bs := Some([0xF0 + unicode / 0x40000, 0x80 + unicode / 0x1000 % 0x40, 0x80 + unicode / 0x40 % 0x40, 0x80 + unicode % 0x40]);
    } else if unicode <= 0xFFFF {
      bs := Some([0xE0 + unicode / 0x1000, 0x80 + unicode / 0x40 % 0x40, 0x80 + unicode % 0x40]);
    } else if unicode <= 0x10FFFF {
      bs := Some([0xF0 + unicode / 0x40000, 0x80 + unicode / 0x1000 % 0x40, 0x80 + unicode / 0x40 % 0x40, 0x80 + unicode % 0x40]);
    } else {
      bs := None;
    }
  }

  method ConvertWideStringToUTF8String(wide: seq<nat>) returns (utf8: bytes)
    ensures utf8 == EncodeWide(wide)
  {
    utf8 := [];
    var i := 0;
    while i < |wide|
      invariant 0 <= i <= |wide|
      invariant utf8 + EncodeWide(wide[i..]) == EncodeWide(wide)
    {
      var bs, next := EncodeAt(wide, i);
      if bs.None? {
        return;
      }
      assert wide[i..][next - i..] == wide[next..];
      assert (utf8 + bs.value) + EncodeWide(wide[next..]) == utf8 + (bs.value + EncodeWide(wide[next..]));
      utf8 := utf8 + bs.value;
      i := next;
    }
  }

  /** The first half of the loop body below: take one byte in. */
  method TakeByte(c: byte, unicode0: nat, remaining0: nat) returns (ok: bool, unicode: nat, remainingBytes: nat)
    ensures match DecodeByte(c, unicode0, remaining0)
      case None => !ok
      case Some((u, r)) => ok && unicode == u && remainingBytes == r
  {
    ok, unicode, remainingBytes := true, unicode0, remaining0;
    if c <= 0x7F {
      if remainingBytes != 0 {
        ok := false;
        return;
      }
      unicode := c;
    } else if c <= 0xBF {
      if remainingBytes != 0 {
        unicode := unicode * 0x40 + c % 0x40;
        remainingBytes := remainingBytes - 1;
      } else {
        ok := false;
      }
    } else if c <= 0xDF {
      unicode := c % 0x20;
      remainingBytes := 1;
    } else if c <= 0xEF {
      unicode := c % 0x10;
      remainingBytes := 2;
    } else if c <= 0xF7 {
      unicode := c % 0x08;
      remainingBytes := 3;
    } else {
      ok := false;
    }
  }

  /** One turn of the decoder loop, in front of `t`. */
  lemma DecoderTurn(c: byte, t: bytes, unicode: nat, remaining: nat, narrow: bool)
    ensures var d := DecodeByte(c, unicode, remaining);
      DecodeFrom([c] + t, unicode, remaining, narrow) ==
        if d.None? then []
        else if d.value.1 > 0 then DecodeFrom(t, d.value.0, d.value.1, narrow)
        else if Units(d.value.0, narrow).None? then []
        else Units(d.value.0, narrow).value + DecodeFrom(t, 0, 0, narrow)
  {
    assert ([c] + t)[1..] == t;
  }

  /** Between code points the last one is forgotten. */
  lemma CodePointIsForgotten(t: bytes, unicode: nat, narrow: bool)
    ensures DecodeFrom(t, unicode, 0, narrow) == DecodeFrom(t, 0, 0, narrow)
  {}

  /** The second half of the loop body: a finished code point goes out. */
  method EmitUnits(u: nat, narrow: bool) returns (units: Option<seq<nat>>)
    ensures units == Units(u, narrow)
  {
    var wide: seq<nat>, unicode := [], u;
    if narrow && unicode > 0xFFFF {
      var high := 0xD800 + (unicode - 0x10000) / 0x400 % 0x400;
      wide := wide + [high];
      unicode := 0xDC00 + unicode % 0x400;
      assert wide + [unicode] == [high, unicode];
    } else if unicode > 0x10FFFF {
      return None;
    }
    assert unicode == u ==> wide + [unicode] == [u];
    wide := wide + [unicode];
    units := Some(wide);
  }

  method ConvertUTF8StringToWideString(utf8: bytes, narrow: bool) returns (wide: seq<nat>)
    ensures wide == DecodeUtf8(utf8, narrow)
  {
    wide := [];
    var unicode: nat := 0;
    var remainingBytes: nat := 0;
    var i := 0;
    while i < |utf8|
      invariant 0 <= i <= |utf8|
      invariant wide + DecodeFrom(utf8[i..], unicode, remainingBytes, narrow) == DecodeUtf8(utf8, narrow)
    {
      assert utf8[i..] == [utf8[i]] + utf8[i + 1..];
      DecoderTurn(utf8[i], utf8[i + 1..], unicode, remainingBytes, narrow);
      var ok;
      ok, unicode, remainingBytes := TakeByte(utf8[i], unicode, remainingBytes);
      if !ok {
        return;
      }
      if remainingBytes == 0 {
        var units := EmitUnits(unicode, narrow);
        if units.None? {
          return;
        }
        AppendAll(wide, units.value, DecodeFrom(utf8[i + 1..], 0, 0, narrow));
        wide := wide + units.value;
        CodePointIsForgotten(utf8[i + 1..], unicode, narrow);
      }
      i := i + 1;
    }
  }

  lemma AppendAll(a: seq<nat>, b: seq<nat>, c: seq<nat>)
    ensures (a + b) + c == a + (b + c)
  {}

  // -------------------------------------------------------------- properties

  /** How many units the encoder gets through before giving up. */
  function Encodable(w: seq<nat>): (n: nat)
    ensures n <= |w|
  {
    if w == [] then 0
    else match FirstCodePoint(w)
      case None => 0
      case Some((_, n)) => n + Encodable(w[n..])
  }

  /** Every high surrogate is followed by a low one. */
  ghost predicate WellPaired(w: seq<nat>) {
    forall i | 0 <= i < |w| && IsHighSurrogate(w[i]) :: i + 1 < |w| && IsLowSurrogate(w[i + 1])
  }

  lemma {:induction false} WellPairedIsEncodable(w: seq<nat>)
    requires forall i | 0 <= i < |w| :: w[i] <= 0xFFFF
    ensures Encodable(w) == |w| <==> WellPaired(w)
  {
    if w != [] && FirstCodePoint(w).Some? {
      var (_, n) := FirstCodePoint(w).value;
      WellPairedIsEncodable(w[n..]);
      WellPairedTail(w, n);
    }
  }

  lemma WellPairedTail(w: seq<nat>, n: nat)
    requires w != [] && FirstCodePoint(w).Some? && n == FirstCodePoint(w).value.1
    ensures WellPaired(w) <==> WellPaired(w[n..])
  {
    assert forall i | 0 <= i < |w| - n :: w[n..][i] == w[i + n];
    if WellPaired(w[n..]) {
      forall i | 0 <= i < |w| && IsHighSurrogate(w[i]) ensures i + 1 < |w| && IsLowSurrogate(w[i + 1]) {
        if i >= n { assert w[i] == w[n..][i - n]; }
      }
    }
  }

  /** A continuation byte adds six bits. */
  lemma DecodeContinuation(high: nat, low: nat, remaining: nat, t: bytes, narrow: bool)
    requires low < 0x40
    ensures remaining > 0 ==> DecodeFrom([0x80 + low] + t, high, remaining + 1, narrow) == DecodeFrom(t, high * 0x40 + low, remaining, narrow)
    ensures Units(high * 0x40 + low, narrow).Some? ==>
      DecodeFrom([0x80 + low] + t, high, 1, narrow) == Units(high * 0x40 + low, narrow).value + DecodeUtf8(t, narrow)
  {
    assert ([0x80 + low] + t)[1..] == t;
  }

  lemma DecodeLead(lead: byte, u: nat, remaining: nat, t: bytes, narrow: bool)
    requires DecodeByte(lead, 0, 0) == Some((u, remaining)) && remaining > 0
    ensures DecodeUtf8([lead] + t, narrow) == DecodeFrom(t, u, remaining, narrow)
  {
    assert ([lead] + t)[1..] == t;
  }

  lemma DecodeTwo(u: nat, rest: bytes, narrow: bool)
    requires 0x7F < u <= 0x7FF
    ensures DecodeUtf8(Utf8(u) + rest, narrow) == Units(u, narrow).value + DecodeUtf8(rest, narrow)
  {
    var s1 := [0x80 + u % 0x40] + rest;
    DecodeContinuation(u / 0x40, u % 0x40, 0, rest, narrow);
    DecodeLead(0xC0 + u / 0x40, u / 0x40, 1, s1, narrow);
    assert Utf8(u) + rest == [0xC0 + u / 0x40] + s1;
  }

  /** The last two continuation bytes. */
  lemma DecodeTail(high: nat, c: nat, d: nat, rest: bytes, narrow: bool)
    requires c < 0x40 && d < 0x40 && Units((high * 0x40 + c) * 0x40 + d, narrow).Some?
    ensures DecodeFrom([0x80 + c] + ([0x80 + d] + rest), high, 2, narrow)
         == Units((high * 0x40 + c) * 0x40 + d, narrow).value + DecodeUtf8(rest, narrow)
  {
    DecodeContinuation(high, c, 1, [0x80 + d] + rest, narrow);
    DecodeContinuation(high * 0x40 + c, d, 0, rest, narrow);
  }

  lemma SixBits(u: nat)
    ensures u == u / 0x40 * 0x40 + u % 0x40
  {}

  lemma TwelveBits(u: nat)
    ensures u / 0x1000 == u / 0x40 / 0x40
  {}

  lemma EighteenBits(u: nat)
    ensures u / 0x40000 == u / 0x1000 / 0x40
  {}

  /** The twelve low bits, six at a time. */
  lemma TailBits(u: nat)
    ensures (u / 0x1000 * 0x40 + u / 0x40 % 0x40) * 0x40 + u % 0x40 == u
  {
    SixBits(u);
    SixBits(u / 0x40);
    TwelveBits(u);
  }

  lemma HighBits(u: nat)
    ensures u / 0x40000 * 0x40 + u / 0x1000 % 0x40 == u / 0x1000
  {
    SixBits(u / 0x1000);
    EighteenBits(u);
  }

  /** The last two bytes of a long sequence, once the bits before them are known. */
  lemma DecodeLowBits(u: nat, rest: bytes, narrow: bool)
    requires u <= 0x10FFFF
    ensures DecodeFrom([0x80 + u / 0x40 % 0x40] + ([0x80 + u % 0x40] + rest), u / 0x1000, 2, narrow)
         == Units(u, narrow).value + DecodeUtf8(rest, narrow)
  {
    TailBits(u);
    DecodeTail(u / 0x1000, u / 0x40 % 0x40, u % 0x40, rest, narrow);
  }

  lemma ConcatThree(a: byte, b: byte, c: byte, rest: bytes)
    ensures [a, b, c] + rest == [a] + ([b] + ([c] + rest))
  {}

  lemma LeadOfThree(u: nat)
    requires 0x7FF < u <= 0xFFFF
    ensures u / 0x1000 < 0x10 && DecodeByte(0xE0 + u / 0x1000, 0, 0) == Some((u / 0x1000, 2))
  {}

  lemma DecodeThree(u: nat, rest: bytes, narrow: bool)
    requires 0x7FF < u <= 0xFFFF
    ensures DecodeUtf8(Utf8(u) + rest, narrow) == Units(u, narrow).value + DecodeUtf8(rest, narrow)
  {
    LeadOfThree(u);
    DecodeLead(0xE0 + u / 0x1000, u / 0x1000, 2, [0x80 + u / 0x40 % 0x40] + ([0x80 + u % 0x40] + rest), narrow);
    ConcatThree(0xE0 + u / 0x1000, 0x80 + u / 0x40 % 0x40, 0x80 + u % 0x40, rest);
    DecodeLowBits(u, rest, narrow);
  }

  lemma ConcatFour(a: byte, b: byte, c: byte, d: byte, rest: bytes)
    ensures [a, b, c, d] + rest == [a] + ([b] + ([c] + ([d] + rest)))
  {}

  lemma LeadOfFour(u: nat)
    requires 0xFFFF < u <= 0x10FFFF
    ensures u / 0x40000 <= 4 && DecodeByte(0xF0 + u / 0x40000, 0, 0) == Some((u / 0x40000, 3))
  {}

  /** One continuation byte, where what comes of the two after it is known. */
  lemma DecodeOneOfThree(high: nat, b: nat, higher: nat, tail: bytes, v: seq<nat>, narrow: bool)
    requires b < 0x40 && high * 0x40 + b == higher && DecodeFrom(tail, higher, 2, narrow) == v
    ensures DecodeFrom([0x80 + b] + tail, high, 3, narrow) == v
  {
    DecodeContinuation(high, b, 2, tail, narrow);
  }

  /** The three continuation bytes of the longest sequence. */
  lemma DecodeMiddle(u: nat, rest: bytes, narrow: bool)
    requires u <= 0x10FFFF
    ensures DecodeFrom([0x80 + u / 0x1000 % 0x40] + ([0x80 + u / 0x40 % 0x40] + ([0x80 + u % 0x40] + rest)), u / 0x40000, 3, narrow)
         == Units(u, narrow).value + DecodeUtf8(rest, narrow)
  {
    var tail := [0x80 + u / 0x40 % 0x40] + ([0x80 + u % 0x40] + rest);
    HighBits(u);
    DecodeLowBits(u, rest, narrow);
    DecodeOneOfThree(u / 0x40000, u / 0x1000 % 0x40, u / 0x1000, tail, Units(u, narrow).value + DecodeUtf8(rest, narrow), narrow);
  }

  lemma DecodeFour(u: nat, rest: bytes, narrow: bool)
    requires 0xFFFF < u <= 0x10FFFF
    ensures DecodeUtf8(Utf8(u) + rest, narrow) == Units(u, narrow).value + DecodeUtf8(rest, narrow)
  {
    LeadOfFour(u);
    DecodeLead(0xF0 + u / 0x40000, u / 0x40000, 3,
      [0x80 + u / 0x1000 % 0x40] + ([0x80 + u / 0x40 % 0x40] + ([0x80 + u % 0x40] + rest)), narrow);
    ConcatFour(0xF0 + u / 0x40000, 0x80 + u / 0x1000 % 0x40, 0x80 + u / 0x40 % 0x40, 0x80 + u % 0x40, rest);
    DecodeMiddle(u, rest, narrow);
  }

  /** Decoding takes one encoded code point off the front. */
  lemma DecodeOne(u: nat, rest: bytes, narrow: bool)
    requires u <= 0x10FFFF
    ensures Units(u, narrow).Some?
    ensures DecodeUtf8(Utf8(u) + rest, narrow) == Units(u, narrow).value + DecodeUtf8(rest, narrow)
  {
    if u <= 0x7F {
      assert (Utf8(u) + rest)[1..] == rest;
    } else if u <= 0x7FF {
      DecodeTwo(u, rest, narrow);
    } else if u <= 0xFFFF {
      DecodeThree(u, rest, narrow);
    } else {
      DecodeFour(u, rest, narrow);
    }
  }

  lemma UnitsOfFirst(w: seq<nat>)
    requires w != [] && FirstCodePoint(w).Some?
    requires forall i | 0 <= i < |w| :: w[i] <= 0xFFFF
    ensures var (u, n) := FirstCodePoint(w).value; Units(u, true) == Some(w[..n])
  {
    assert w[..FirstCodePoint(w).value.1] == if IsHighSurrogate(w[0]) then [w[0], w[1]] else [w[0]];
  }

  /** One code point there and back. */
  lemma DecodeTurn(w: seq<nat>, rest: bytes)
    requires w != [] && FirstCodePoint(w).Some?
    requires forall i | 0 <= i < |w| :: w[i] <= 0xFFFF
    ensures var p := FirstCodePoint(w).value; DecodeUtf8(Utf8(p.0) + rest, true) == w[..p.1] + DecodeUtf8(rest, true)
  {
    DecodeOne(FirstCodePoint(w).value.0, rest, true);
    UnitsOfFirst(w);
  }

  lemma JoinPrefix(w: seq<nat>, n: nat, k: nat)
    requires n + k <= |w|
    ensures w[..n] + w[n..][..k] == w[..n + k]
  {}

  /** With two-byte units, decoding gives back exactly the part the encoder got through. */
  lemma {:induction false} DecodeOfEncode(w: seq<nat>)
    requires forall i | 0 <= i < |w| :: w[i] <= 0xFFFF
    ensures DecodeUtf8(EncodeWide(w), true) == w[..Encodable(w)]
    decreases |w|
  {
    if w != [] && FirstCodePoint(w).Some? {
      var n := FirstCodePoint(w).value.1;
      DecodeOfEncode(w[n..]);
      DecodeTurn(w, EncodeWide(w[n..]));
      JoinPrefix(w, n, Encodable(w[n..]));
    }
  }

  /** The UTF-16 round trip, for every sequence of 16-bit units. */
  lemma Utf16RoundTrip(w: seq<nat>)
    requires forall i | 0 <= i < |w| :: w[i] <= 0xFFFF
    ensures DecodeUtf8(EncodeWide(w), true) == w <==> WellPaired(w)
  {
    DecodeOfEncode(w);
    WellPairedIsEncodable(w);
  }

  /** With four-byte units a surrogate pair comes back as one unit, so surrogate pairs are lost too. */
  lemma {:induction false} Utf32RoundTrip(w: seq<nat>)
    ensures DecodeUtf8(EncodeWide(w), false) == w <==> forall i | 0 <= i < |w| :: w[i] <= 0x10FFFF && !IsHighSurrogate(w[i])
    ensures |DecodeUtf8(EncodeWide(w), false)| <= |w|
  {
    if w != [] && FirstCodePoint(w).Some? {
      var (u, n) := FirstCodePoint(w).value;
      Utf32RoundTrip(w[n..]);
      DecodeOne(u, EncodeWide(w[n..]), false);
      assert w == w[..n] + w[n..];
      if n == 1 {
        assert w[..1] == [u];
        assert forall i | 0 < i < |w| :: w[i] == w[1..][i - 1];
      }
    }
  }
}
