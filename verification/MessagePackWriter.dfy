/**
  The writer of source/Utility/Value.cpp:520-710: bytes swapped in place in a union, and loops over containers.
 */
module MessagePackWriter {
  import opened ValueTree
  import opened Streams
  import opened MessagePack

  /** The swap loop of `PackedData` (source/Utility/Value.cpp:536-541). */
  method SwapInPlace(a: array<byte>)
    modifies a
    ensures a[..] == Reversed(old(a[..]))
  {
    var n := a.Length;
    var half := n / 2;
    var i := 0;
    while i < half
      invariant 0 <= i <= half
      invariant forall k | 0 <= k < i :: a[k] == old(a[n - 1 - k]) && a[n - 1 - k] == old(a[k])
      invariant forall k | i <= k < n - i :: a[k] == old(a[k])
    {
      var tmp := a[i];
      a[i] := a[n - 1 - i];
      a[n - 1 - i] := tmp;
      i := i + 1;
    }
    assert a[..] == Reversed(old(a[..]));
  }

  /** `PackedData` of an integer: its memory on this host, swapped when the host is little-endian. */
  method PackedInteger(n: nat, size: nat, littleEndian: bool) returns (packed: bytes)
    ensures packed == BigEndian(n, size)
  {
    var memory := if littleEndian then LittleEndian(n, size) else BigEndian(n, size);
    var data := new byte[size](i requires 0 <= i < |memory| => memory[i]);
    assert data[..] == memory;
    if littleEndian {
      SwapInPlace(data);
      ReversedLittleEndian(n, size);
    }
    packed := data[..];
  }

  /** `PackedData` of a double, given most significant byte first. */
  method PackedDouble(bits: bytes, littleEndian: bool) returns (packed: bytes)
    ensures packed == bits
  {
    var memory := if littleEndian then Reversed(bits) else bits;
    var data := new byte[|bits|](i requires 0 <= i < |memory| => memory[i]);
    assert data[..] == memory;
    if littleEndian {
      SwapInPlace(data);
    }
    packed := data[..];
    assert packed == bits;
  }

  method WriteSized(out: OutStream, tag: byte, n: nat, k: nat, littleEndian: bool)
    modifies out
    ensures out.text == old(out.text) + Sized(tag, n, k, [])
  {
    var packed := PackedInteger(n, k, littleEndian);
    out.Put(tag);
    out.Write(packed);
  }

  method WriteSigned(out: OutStream, value: int, littleEndian: bool)
    requires LLONG_MIN <= value <= LLONG_MAX
    modifies out
    ensures out.text == old(out.text) + PackSigned(value, [])
  {
    if (value >= 0 && value <= 127) || (value >= -32 && value <= -1) {
      out.Put(value % 256);
    } else if value >= -0x80 && value <= 0x7F {
      out.Put(0xD0);
      out.Put(value % 256);
      assert BigEndian(TwosComplement(value, 1), 1) == [value % 256];
    } else if value >= -0x8000 && value <= 0x7FFF {
      WriteSized(out, 0xD1, TwosComplement(value, 2), 2, littleEndian);
    } else if value >= INT_MIN && value <= INT_MAX {
      WriteSized(out, 0xD2, TwosComplement(value, 4), 4, littleEndian);
    } else {
      WriteSized(out, 0xD3, TwosComplement(value, 8), 8, littleEndian);
    }
  }

  method WriteUnsigned(out: OutStream, value: nat, littleEndian: bool)
    modifies out
    ensures out.text == old(out.text) + PackUnsigned(value, [])
  {
    if value <= 0xFF {
      out.Put(0xCC);
      out.Put(value);
      assert BigEndian(value, 1) == [value];
    } else if value <= 0xFFFF {
      WriteSized(out, 0xCD, value, 2, littleEndian);
    } else if value <= UINT_MAX {
      WriteSized(out, 0xCE, value, 4, littleEndian);
    } else {
      WriteSized(out, 0xCF, value, 8, littleEndian);
    }
  }

  /** The length prefix of strings, arrays and maps; too long throws. */
  method WriteLength(out: OutStream, base: byte, small: nat, tag16: byte, length: nat, littleEndian: bool) returns (ok: bool)
    requires base + small < 256 && tag16 < 255
    modifies out
    ensures ok <==> length <= UINT_MAX
    ensures ok ==> out.text == old(out.text) + PackLength(base, small, tag16, length, [])
  {
    ok := true;
    if length <= small {
      out.Put(base + length);
    } else if length <= 0xFFFF {
      WriteSized(out, tag16, length, 2, littleEndian);
    } else if length <= UINT_MAX {
      WriteSized(out, tag16 + 1, length, 4, littleEndian);
    } else {
      ok := false;
    }
  }

  method WriteRaw(out: OutStream, s: bytes, littleEndian: bool) returns (ok: bool)
    modifies out
    ensures ok <==> |s| <= UINT_MAX
    ensures ok ==> out.text == old(out.text) + PackRaw(s, [])
  {
    ok := WriteLength(out, 0xA0, 31, 0xDA, |s|, littleEndian);
    if ok {
      LengthThen(0xA0, 31, 0xDA, |s|, s + []);
      assert s + [] == s;
      out.Write(s);
    }
  }

  // ---------------------------------- what follows an encoding is unchanged

  lemma LengthThen(base: byte, small: nat, tag16: byte, n: nat, rest: bytes)
    requires base + small < 256 && tag16 < 255
    ensures PackLength(base, small, tag16, n, rest) == PackLength(base, small, tag16, n, []) + rest
  {
    SizedThen(tag16, n, 2, rest);
    SizedThen(tag16 + 1, n, 4, rest);
  }

  lemma LengthedThen(base: byte, small: nat, tag16: byte, n: nat, body: bytes, rest: bytes)
    requires base + small < 256 && tag16 < 255
    ensures PackLength(base, small, tag16, n, body + rest) == PackLength(base, small, tag16, n, body) + rest
  {
    LengthThen(base, small, tag16, n, body + rest);
    LengthThen(base, small, tag16, n, body);
    Assoc(PackLength(base, small, tag16, n, []), body, rest);
  }

  lemma RawThen(s: bytes, rest: bytes)
    ensures PackRaw(s, rest) == PackRaw(s, []) + rest
  {
    assert s + [] == s;
    LengthedThen(0xA0, 31, 0xDA, |s|, s, rest);
  }

  lemma SizedThen(tag: byte, n: nat, k: nat, rest: bytes)
    ensures Sized(tag, n, k, rest) == Sized(tag, n, k, []) + rest
  {
    assert BigEndian(n, k) + [] == BigEndian(n, k);
    Assoc([tag], BigEndian(n, k), rest);
  }

  lemma SignedThen(i: int, rest: bytes)
    requires LLONG_MIN <= i <= LLONG_MAX
    ensures PackSigned(i, rest) == PackSigned(i, []) + rest
  {
    if i < -32 || 127 < i {
      var (tag, k) := if -0x80 <= i <= 0x7F then (0xD0, 1) else if -0x8000 <= i <= 0x7FFF then (0xD1, 2) else if INT_MIN <= i <= INT_MAX then (0xD2, 4) else (0xD3, 8);
      SizedThen(tag, TwosComplement(i, k), k, rest);
    }
  }

  lemma UnsignedThen(i: nat, rest: bytes)
    ensures PackUnsigned(i, rest) == PackUnsigned(i, []) + rest
  {
    var (tag, k) := if i <= 0xFF then (0xCC, 1) else if i <= 0xFFFF then (0xCD, 2) else if i <= UINT_MAX then (0xCE, 4) else (0xCF, 8);
    SizedThen(tag, i, k, rest);
  }

  lemma {:induction false} PackThen(v: Value, rest: bytes)
    requires WellFormed(v)
    ensures Pack(v, rest) == Pack(v, []) + rest
    decreases v
  {
    match v
    case Int(i) => SignedThen(i, rest);
    case LongLong(i) => SignedThen(i, rest);
    case UInt(i) => UnsignedThen(i, rest);
    case ULongLong(i) => UnsignedThen(i, rest);
    case Double(bits) => Assoc([0xCB], bits, rest); assert bits + [] == bits;
    case Str(s) => RawThen(s, rest);
    case Arr(es) =>
      ElemsThen(es, rest);
      LengthedThen(0x90, 15, 0xDC, |es|, PackElems(es, []), rest);
    case Hash(en) =>
      EntriesThen(en, rest);
      LengthedThen(0x80, 15, 0xDE, |en|, PackEntries(en, []), rest);
    case _ =>
  }

  lemma {:induction false} ElemsThen(es: seq<Value>, rest: bytes)
    requires forall i | 0 <= i < |es| :: WellFormed(es[i])
    ensures PackElems(es, rest) == PackElems(es, []) + rest
    decreases es
  {
    if es != [] {
      ElemsThen(es[1..], rest);
      PackThen(es[0], PackElems(es[1..], rest));
      PackThen(es[0], PackElems(es[1..], []));
    }
  }

  lemma {:induction false} EntriesThen(en: seq<Entry>, rest: bytes)
    requires forall i | 0 <= i < |en| :: WellFormed(en[i].value)
    ensures PackEntries(en, rest) == PackEntries(en, []) + rest
    decreases en
  {
    if en != [] {
      EntriesThen(en[1..], rest);
      EntryThen(en[0], PackEntries(en[1..], rest));
      EntryThen(en[0], PackEntries(en[1..], []));
    }
  }

  function PackEntry(e: Entry): bytes
    requires WellFormed(e.value)
  {
    PackRaw(e.key, []) + Pack(e.value, [])
  }

  lemma {:induction false} EntryThen(e: Entry, rest: bytes)
    requires WellFormed(e.value)
    ensures PackRaw(e.key, Pack(e.value, rest)) == PackEntry(e) + rest
    decreases e
  {
    PackThen(e.value, rest);
    RawThen(e.key, Pack(e.value, rest));
  }

  // ----------------------------------------------------------- the writer

  method ToBinaryStream(v: Value, out: OutStream, littleEndian: bool) returns (ok: bool)
    requires WellFormed(v)
    modifies out
    ensures ok <==> Packable(v)
    ensures ok ==> out.text == old(out.text) + Pack(v, [])
    decreases v, 0
  {
    ok := true;
    match v
    case Str(s) => ok := WriteRaw(out, s, littleEndian);
    case Int(value) => WriteSigned(out, value, littleEndian);
    case LongLong(value) => WriteSigned(out, value, littleEndian);
    case Double(bits) =>
      var data := PackedDouble(bits, littleEndian);
      out.Put(0xCB);
      out.Write(data);
    case Bool(b) => out.Put(if b then 0xC3 else 0xC2);
    case Null => out.Put(0xC0);
    case UInt(value) => WriteUnsigned(out, value, littleEndian);
    case ULongLong(value) => WriteUnsigned(out, value, littleEndian);
    case Arr(es) => ok := WriteArray(es, out, littleEndian);
    case Hash(en) => ok := WriteHash(en, out, littleEndian);
  }

  method WriteArray(es: seq<Value>, out: OutStream, littleEndian: bool) returns (ok: bool)
    requires forall i | 0 <= i < |es| :: WellFormed(es[i])
    modifies out
    ensures ok <==> Packable(Arr(es))
    ensures ok ==> out.text == old(out.text) + Pack(Arr(es), [])
    decreases es, 2
  {
    LengthThen(0x90, 15, 0xDC, |es|, PackElems(es, []));
    Assoc(out.text, PackLength(0x90, 15, 0xDC, |es|, []), PackElems(es, []));
    ok := WriteLength(out, 0x90, 15, 0xDC, |es|, littleEndian);
    if ok {
      ok := WriteElems(es, out, littleEndian);
    }
  }

  method WriteHash(en: seq<Entry>, out: OutStream, littleEndian: bool) returns (ok: bool)
    requires WellFormed(Hash(en))
    modifies out
    ensures ok <==> Packable(Hash(en))
    ensures ok ==> out.text == old(out.text) + Pack(Hash(en), [])
    decreases en, 2
  {
    LengthThen(0x80, 15, 0xDE, |en|, PackEntries(en, []));
    Assoc(out.text, PackLength(0x80, 15, 0xDE, |en|, []), PackEntries(en, []));
    ok := WriteLength(out, 0x80, 15, 0xDE, |en|, littleEndian);
    if ok {
      ok := WriteEntries(en, out, littleEndian);
    }
  }

  method WriteElems(es: seq<Value>, out: OutStream, littleEndian: bool) returns (ok: bool)
    requires forall i | 0 <= i < |es| :: WellFormed(es[i])
    modifies out
    ensures ok <==> forall i | 0 <= i < |es| :: Packable(es[i])
    ensures ok ==> out.text == old(out.text) + PackElems(es, [])
    decreases es, 1
  {
    ghost var start := out.text;
    var i := 0;
    while i < |es|
      invariant 0 <= i <= |es|
      invariant forall k | 0 <= k < i :: Packable(es[k])
      invariant out.text + PackElems(es[i..], []) == start + PackElems(es, [])
    {
      ghost var before := out.text;
      ok := ToBinaryStream(es[i], out, littleEndian);
      if !ok { return; }
      assert es[i..][1..] == es[i + 1..];
      PackThen(es[i], PackElems(es[i + 1..], []));
      Assoc(before, Pack(es[i], []), PackElems(es[i + 1..], []));
      i := i + 1;
    }
    ok := true;
  }

  method WriteEntries(en: seq<Entry>, out: OutStream, littleEndian: bool) returns (ok: bool)
    requires forall i | 0 <= i < |en| :: WellFormed(en[i].value)
    modifies out
    ensures ok <==> forall i | 0 <= i < |en| :: |en[i].key| <= UINT_MAX && Packable(en[i].value)
    ensures ok ==> out.text == old(out.text) + PackEntries(en, [])
    decreases en, 1
  {
    ghost var start := out.text;
    var i := 0;
    while i < |en|
      invariant 0 <= i <= |en|
      invariant forall k | 0 <= k < i :: |en[k].key| <= UINT_MAX && Packable(en[k].value)
      invariant out.text + PackEntries(en[i..], []) == start + PackEntries(en, [])
    {
      ghost var before := out.text;
      ok := WriteEntry(en[i], out, littleEndian);
      if !ok { return; }
      assert en[i..][1..] == en[i + 1..];
      EntryThen(en[i], PackEntries(en[i + 1..], []));
      Assoc(before, PackEntry(en[i]), PackEntries(en[i + 1..], []));
      i := i + 1;
    }
    ok := true;
  }

  method WriteEntry(e: Entry, out: OutStream, littleEndian: bool) returns (ok: bool)
    requires WellFormed(e.value)
    modifies out
    ensures ok <==> |e.key| <= UINT_MAX && Packable(e.value)
    ensures ok ==> out.text == old(out.text) + PackEntry(e)
    decreases e
  {
    ok := WriteRaw(out, e.key, littleEndian);
    if ok {
      Assoc(old(out.text), PackRaw(e.key, []), Pack(e.value, []));
      ok := ToBinaryStream(e.value, out, littleEndian);
    }
  }

  method ToMessagePack(v: Value, littleEndian: bool) returns (packed: Option<bytes>)
    requires WellFormed(v)
    ensures packed == if Packable(v) then Some(Pack(v, [])) else None
  {
    var oss := new OutStream();
    var ok := ToBinaryStream(v, oss, littleEndian);
    assert [] + Pack(v, []) == Pack(v, []);
    packed := if ok then Some(oss.text) else None;
  }
}
