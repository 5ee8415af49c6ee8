/**
  The recursive-descent parser of source/Utility/Value.cpp:161-399 over the stream helpers of
  source/Utility/Value.h:185-252.

  A stream is the text not yet consumed; an exception is the result `None`, after which the position of
  the stream says nothing.  The end-of-file flag that an optional peek may leave behind needs no field:
  once set, every later operation fails exactly as it would at the end of the text anyway.
 */
module JsonParser {
  import opened Unicode
  import opened ValueTree
  import opened JsonSyntax

  /** What a parsing method promises: it reads what the specification reads, or fails with it. */
  ghost predicate Reads<T(!new)>(p: Option<T>, rest: bytes, spec: Parsed<T>) {
    match spec
    case Fail => p.None?
    case Ok(v, r) => p == Some(v) && rest == r
  }

  class InStream {
    var rest: bytes

    constructor (text: bytes)
      ensures rest == text
    {
      rest := text;
    }

    method GetChar() returns (c: Option<byte>)
      modifies this
      ensures if old(rest) == [] then c.None? else c == Some(old(rest)[0]) && rest == old(rest)[1..]
    {
      if rest == [] { return None; }
      c := Some(rest[0]);
      rest := rest[1..];
    }

    method RequireChar(required: byte) returns (ok: bool)
      modifies this
      ensures ok <==> old(rest) != [] && old(rest)[0] == required
      ensures ok ==> rest == old(rest)[1..]
    {
      ok := rest != [] && rest[0] == required;
      if ok { rest := rest[1..]; }
    }

    method GetDigit() returns (c: Option<byte>)
      modifies this
      ensures c.Some? <==> old(rest) != [] && IsDigit(old(rest)[0])
      ensures c.Some? ==> c.value == old(rest)[0] && rest == old(rest)[1..]
    {
      if rest == [] || !IsDigit(rest[0]) { return None; }
      c := GetChar();
    }

    /** `getIfDigit` in a loop. */
    method AppendDigits(number: bytes) returns (longer: bytes)
      modifies this
      ensures (longer, rest) == ReadDigits(old(rest), number)
    {
      longer := number;
      while rest != [] && IsDigit(rest[0])
        invariant ReadDigits(rest, longer) == ReadDigits(old(rest), number)
        decreases |rest|
      {
        longer := longer + [rest[0]];
        rest := rest[1..];
      }
    }

    method GetIfHexDigitAsNibble() returns (nibble: Option<int>)
      modifies this
      ensures nibble == if old(rest) == [] then None else HexDigit(old(rest)[0])
      ensures nibble.Some? ==> rest == old(rest)[1..]
    {
      if rest == [] { return None; }
      var c := rest[0];
      if 0x30 <= c <= 0x39 {
        nibble := Some(c - 0x30);
      } else if 0x41 <= c <= 0x46 {
        nibble := Some(c - 0x41 + 10);
      } else if 0x61 <= c <= 0x66 {
        nibble := Some(c - 0x61 + 10);
      } else {
        return None;
      }
      rest := rest[1..];
    }

    method GetUnicode() returns (u: Option<int>)
      modifies this
      ensures Reads(u, rest, Hex4(old(rest)))
    {
      ghost var s := rest;
      var u0 := GetIfHexDigitAsNibble();
      if u0.None? { return None; }
      assert rest == s[1..];
      var u1 := GetIfHexDigitAsNibble();
      if u1.None? { return None; }
      assert rest == s[2..];
      var u2 := GetIfHexDigitAsNibble();
      if u2.None? { return None; }
      assert rest == s[3..];
      var u3 := GetIfHexDigitAsNibble();
      if u3.None? { return None; }
      assert rest == s[4..];
      u := Some(u0.value * 0x1000 + u1.value * 0x100 + u2.value * 0x10 + u3.value);
    }

    /** The throw at the end of the text is `!ok`. */
    method SkipWhitespace() returns (ok: bool)
      modifies this
      ensures rest == SkipSpace(old(rest))
      ensures ok <==> rest != []
    {
      while rest != [] && IsSpace(rest[0])
        invariant SkipSpace(rest) == SkipSpace(old(rest))
        decreases |rest|
      {
        rest := rest[1..];
      }
      ok := rest != [];
    }

    method ParseCodePoint() returns (u: Option<int>)
      modifies this
      ensures Reads(u, rest, ReadCodePoint(old(rest)))
    {
      var first := GetUnicode();
      if first.None? { return None; }
      var unicode := first.value;
      if 0xD800 <= unicode <= 0xDBFF {
        ghost var r := rest;
        var ok := RequireChar(BACKSLASH);
        if !ok { return None; }
        ok := RequireChar(LETTER_U);
        if !ok { return None; }
        assert rest == r[2..];
        var second := GetUnicode();
        if second.None? { return None; }
        var pair := second.value;
        if pair < 0xDC00 || pair > 0xDFFF { return None; }
        unicode := 0x10000 + (unicode - 0xD800) * 0x400 + (pair - 0xDC00);
      }
      u := Some(unicode);
    }

    /** The `\u` branch of the string parser, after the `u`, with its own UTF-8 encoder. */
    method ParseUnicodeEscape() returns (bs: Option<bytes>)
      modifies this
      ensures Reads(bs, rest, ReadUnicode(old(rest)))
    {
      var code := ParseCodePoint();
      if code.None? { return None; }
      var unicode := code.value;
      var value: bytes := [];
      var c: byte;
      if unicode <= 0x7F {
        c := unicode;
      } else if unicode <= 0x7FF {
        value := value + [0xC0 + unicode / 0x40];
        c := 0x80 + unicode % 0x40;
      } else if unicode <= 0xFFFF {
        value := value + [0xE0 + unicode / 0x1000];
        value := value + [0x80 + unicode / 0x40 % 0x40];
        c := 0x80 + unicode % 0x40;
      } else {
        value := value + [0xF0 + unicode / 0x40000];
        value := value + [0x80 + unicode / 0x1000 % 0x40];
        value := value + [0x80 + unicode / 0x40 % 0x40];
        c := 0x80 + unicode % 0x40;
      }
      assert value + [c] == Utf8(unicode);
      bs := Some(value + [c]);
    }

    /** What a backslash and the character after it stand for. */
    method ParseEscape() returns (bs: Option<bytes>)
      modifies this
      ensures Reads(bs, rest, ReadEscape(old(rest)))
    {
      var got := GetChar();
      if got.None? { return None; }
      var c := got.value;
      if c == QUOTE || c == BACKSLASH || c == SLASH {
        bs := Some([c]);
      } else if c == LETTER_B {
        bs := Some([BS]);
      } else if c == LETTER_F {
        bs := Some([FF]);
      } else if c == LETTER_N {
        bs := Some([LF]);
      } else if c == LETTER_R {
        bs := Some([CR]);
      } else if c == LETTER_T {
        bs := Some([TAB]);
      } else if c == LETTER_U {
        bs := ParseUnicodeEscape();
      } else {
        bs := None;
      }
    }

    method ParseString() returns (str: Option<bytes>)
      modifies this
      ensures Reads(str, rest, ReadString(old(rest)))
    {
      var ok := RequireChar(QUOTE);
      if !ok { return None; }
      var value: bytes := [];
      ghost var spec := ReadChars(rest, []);
      while true
        invariant ReadChars(rest, value) == spec
        decreases |rest|
      {
        var got := GetChar();
        if got.None? { return None; }
        var c := got.value;
        if c == QUOTE {
          return Some(value);
        } else if c == BACKSLASH {
          var bs := ParseEscape();
          if bs.None? { return None; }
          value := value + bs.value;
        } else {
          value := value + [c];
        }
      }
    }

    method ParseIntegerPart(number: bytes) returns (longer: Option<bytes>)
      modifies this
      ensures Reads(longer, rest, ReadIntegerPart(old(rest), number))
    {
      var c := GetDigit();
      if c.None? { return None; }
      var digits := number + [c.value];
      if c.value != ZERO {
        digits := AppendDigits(digits);
      }
      longer := Some(digits);
    }

    method ParseDigits1(number: bytes) returns (longer: Option<bytes>)
      modifies this
      ensures Reads(longer, rest, ReadDigits1(old(rest), number))
    {
      var c := GetDigit();
      if c.None? { return None; }
      var digits := AppendDigits(number + [c.value]);
      longer := Some(digits);
    }

    method ParseFraction(number: bytes) returns (longer: Option<(bytes, bool)>)
      modifies this
      ensures Reads(longer, rest, ReadFraction(old(rest), number))
    {
      if rest == [] || rest[0] != DOT { return Some((number, false)); }
      rest := rest[1..];
      var digits := ParseDigits1(number + [DOT]);
      if digits.None? { return None; }
      longer := Some((digits.value, true));
    }

    method ParseExponent(number: bytes) returns (longer: Option<(bytes, bool)>)
      modifies this
      ensures Reads(longer, rest, ReadExponent(old(rest), number))
    {
      if rest == [] || (rest[0] != UPPER_E && rest[0] != LETTER_E) { return Some((number, false)); }
      var text := number + [rest[0]];
      rest := rest[1..];
      if rest == [] { return None; }
      assert rest[1..] == old(rest)[2..];
      if rest[0] == PLUS || rest[0] == MINUS {
        text := text + [rest[0]];
        rest := rest[1..];
      }
      var digits := ParseDigits1(text);
      if digits.None? { return None; }
      longer := Some((digits.value, true));
    }

    method ParseNumber(lib: DoubleText) returns (v: Option<Value>)
      modifies this
      ensures Reads(v, rest, ReadNumber(lib, old(rest)))
    {
      if rest == [] { return None; }
      var number: bytes := [];
      if rest[0] == MINUS {
        number := [MINUS];
        rest := rest[1..];
      }
      var whole := ParseIntegerPart(number);
      if whole.None? { return None; }
      var frac := ParseFraction(whole.value);
      if frac.None? { return None; }
      var full := ParseExponent(frac.value.0);
      if full.None? { return None; }
      v := Some(if frac.value.1 || full.value.1 then Double(lib.scan(full.value.0)) else IntegerValue(full.value.0));
    }

    method ParseWord(text: bytes, v: Value) returns (p: Option<Value>)
      modifies this
      ensures Reads(p, rest, ReadWord(text, v, old(rest)))
    {
      var i := 0;
      while i < |text|
        invariant 0 <= i <= |text|
        invariant Expect(text[i..], rest) == Expect(text, old(rest))
      {
        assert text[i..][1..] == text[i + 1..];
        var ok := RequireChar(text[i]);
        if !ok { return None; }
        i := i + 1;
      }
      p := Some(v);
    }

    method ParseValue(lib: DoubleText) returns (v: Option<Value>)
      modifies this
      ensures Reads(v, rest, ReadValue(lib, old(rest)))
      decreases |rest|, 1
    {
      var ok := SkipWhitespace();
      if !ok { return None; }
      var c := rest[0];
      if c == LBRACE {
        v := ParseObject(lib);
      } else if c == LBRACKET {
        v := ParseArray(lib);
      } else if c == LETTER_T {
        v := ParseWord(TRUE_TEXT, Bool(true));
      } else if c == LETTER_F {
        v := ParseWord(FALSE_TEXT, Bool(false));
      } else if c == LETTER_N {
        v := ParseWord(NULL_TEXT, Null);
      } else if c == QUOTE {
        var str := ParseString();
        if str.None? { return None; }
        v := Some(Str(str.value));
      } else {
        v := ParseNumber(lib);
      }
    }

    method ParseObject(lib: DoubleText) returns (v: Option<Value>)
      requires rest != [] && rest[0] == LBRACE
      modifies this
      ensures Reads(v, rest, ReadEntries(lib, old(rest)[1..], []))
      decreases |rest|, 0
    {
      rest := rest[1..];
      var hash: seq<Entry> := [];
      ghost var spec := ReadEntries(lib, rest, []);
      while true
        invariant ReadEntries(lib, rest, hash) == spec
        invariant |rest| < |old(rest)|
        decreases |rest|
      {
        var ok := SkipWhitespace();
        if !ok { return None; }
        var c := rest[0];
        if c == COMMA {
          if hash == [] { return None; }
          rest := rest[1..];
        } else if c == RBRACE {
          rest := rest[1..];
          return Some(Hash(hash));
        } else {
          var key := ParseString();
          if key.None? { return None; }
          ok := SkipWhitespace();
          if !ok { return None; }
          ok := RequireChar(COLON);
          if !ok { return None; }
          var value := ParseValue(lib);
          if value.None? { return None; }
          hash := Insert(hash, key.value, value.value);
        }
      }
    }

    method ParseArray(lib: DoubleText) returns (v: Option<Value>)
      requires rest != [] && rest[0] == LBRACKET
      modifies this
      ensures Reads(v, rest, ReadElems(lib, old(rest)[1..], []))
      decreases |rest|, 0
    {
      rest := rest[1..];
      var elems: seq<Value> := [];
      ghost var spec := ReadElems(lib, rest, []);
      while true
        invariant ReadElems(lib, rest, elems) == spec
        invariant |rest| < |old(rest)|
        decreases |rest|
      {
        var ok := SkipWhitespace();
        if !ok { return None; }
        var c := rest[0];
        if c == COMMA {
          if elems == [] { return None; }
          rest := rest[1..];
        } else if c == RBRACKET {
          rest := rest[1..];
          return Some(Arr(elems));
        } else {
          var value := ParseValue(lib);
          if value.None? { return None; }
          elems := elems + [value.value];
        }
      }
    }
  }

  /** `Value::FromJSON`: the default value survives a failed parse. */
  method FromJSON(lib: DoubleText, json: bytes) returns (v: Value)
    ensures v == FromJson(lib, json)
  {
    var iss := new InStream(json);
    var p := iss.ParseValue(lib);
    v := if p.Some? then p.value else Null;
  }
}
