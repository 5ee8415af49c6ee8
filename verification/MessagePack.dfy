/**
  `Value::toBinaryStream` and `PackedData` (source/Utility/Value.cpp:512-710), and a decoder written from the
  "Formats" section of the MessagePack specification.
 */
module MessagePack {
  import opened ValueTree
  import opened Streams

  // ------------------------------------------------------- byte order

  function Pow256(k: nat): (p: nat)
    ensures p > 0
  {
    if k == 0 then 1 else 256 * Pow256(k - 1)
  }

  /** The low `k` bytes of `n`, most significant first. */
  function BigEndian(n: nat, k: nat): (b: bytes)
    ensures |b| == k
  {
    if k == 0 then [] else BigEndian(n / 256, k - 1) + [n % 256]
  }

  function LittleEndian(n: nat, k: nat): (b: bytes)
    ensures |b| == k
  {
    if k == 0 then [] else [n % 256] + LittleEndian(n / 256, k - 1)
  }

  function BigEndianValue(b: bytes): nat {
    if b == [] then 0 else BigEndianValue(b[..|b| - 1]) * 256 + b[|b| - 1]
  }

  lemma {:induction false} BigEndianValueBack(n: nat, k: nat)
    requires n < Pow256(k)
    ensures BigEndianValue(BigEndian(n, k)) == n
  {
    if k > 0 {
      BigEndianValueBack(n / 256, k - 1);
      assert BigEndian(n, k)[..k - 1] == BigEndian(n / 256, k - 1);
    }
  }

  function Reversed(s: bytes): (r: bytes)
    ensures |r| == |s| && forall i | 0 <= i < |s| :: r[i] == s[|s| - 1 - i]
  {
    if s == [] then [] else Reversed(s[1..]) + [s[0]]
  }

  lemma {:induction false} ReversedLittleEndian(n: nat, k: nat)
    ensures Reversed(LittleEndian(n, k)) == BigEndian(n, k)
  {
    if k > 0 {
      ReversedLittleEndian(n / 256, k - 1);
      assert LittleEndian(n, k)[1..] == LittleEndian(n / 256, k - 1);
    }
  }


  // ------------------------------------------------------- encoding

  function Sized(tag: byte, n: nat, k: nat, rest: bytes): bytes { [tag] + (BigEndian(n, k) + rest) }

  function PackSigned(i: int, rest: bytes): bytes
    requires LLONG_MIN <= i <= LLONG_MAX
  {
    if -32 <= i <= 127 then [i % 256] + rest
    else if -0x80 <= i <= 0x7F then Sized(0xD0, TwosComplement(i, 1), 1, rest)
    else if -0x8000 <= i <= 0x7FFF then Sized(0xD1, TwosComplement(i, 2), 2, rest)
    else if INT_MIN <= i <= INT_MAX then Sized(0xD2, TwosComplement(i, 4), 4, rest)
    else Sized(0xD3, TwosComplement(i, 8), 8, rest)
  }

  /** The bit pattern of `i` in `k` bytes. */
  function TwosComplement(i: int, k: nat): nat
    requires k in {1, 2, 4, 8} && 0 <= i + Limit(k)
  {
    if i < 0 then i + Limit(k) else i
  }

  /** 256 to the power of a width in use. */
  function Limit(k: nat): nat {
    if k == 1 then 0x100 else if k == 2 then 0x1_0000 else if k == 4 then 0x1_0000_0000 else 0x1_0000_0000_0000_0000
  }

  function PackUnsigned(i: nat, rest: bytes): bytes {
    if i <= 0xFF then Sized(0xCC, i, 1, rest)
    else if i <= 0xFFFF then Sized(0xCD, i, 2, rest)
    else if i <= UINT_MAX then Sized(0xCE, i, 4, rest)
    else Sized(0xCF, i, 8, rest)
  }

  /** A length: in the tag itself up to `small`, else after `tag16` or `tag16 + 1`. */
  function PackLength(base: byte, small: nat, tag16: byte, n: nat, rest: bytes): bytes
    requires base + small < 256 && tag16 < 255
  {
    if n <= small then [base + n] + rest
    else if n <= 0xFFFF then Sized(tag16, n, 2, rest)
    else Sized(tag16 + 1, n, 4, rest)
  }

  function PackRaw(s: bytes, rest: bytes): bytes { PackLength(0xA0, 31, 0xDA, |s|, s + rest) }

  /** Longer things make the writer throw. */
  ghost predicate Packable(v: Value) {
    match v
    case Str(s) => |s| <= UINT_MAX
    case Arr(es) => |es| <= UINT_MAX && forall i | 0 <= i < |es| :: Packable(es[i])
    case Hash(en) => |en| <= UINT_MAX && forall i | 0 <= i < |en| :: |en[i].key| <= UINT_MAX && Packable(en[i].value)
    case _ => true
  }

  function Pack(v: Value, rest: bytes): bytes
    requires WellFormed(v)
    decreases v
  {
    match v
    case Null => [0xC0] + rest
    case Bool(b) => [if b then 0xC3 else 0xC2] + rest
    case Int(i) => PackSigned(i, rest)
    case LongLong(i) => PackSigned(i, rest)
    case UInt(i) => PackUnsigned(i, rest)
    case ULongLong(i) => PackUnsigned(i, rest)
    case Double(bits) => [0xCB] + (bits + rest)
    case Str(s) => PackRaw(s, rest)
    case Arr(es) => PackLength(0x90, 15, 0xDC, |es|, PackElems(es, rest))
    case Hash(en) => PackLength(0x80, 15, 0xDE, |en|, PackEntries(en, rest))
  }

  function PackElems(es: seq<Value>, rest: bytes): bytes
    requires forall i | 0 <= i < |es| :: WellFormed(es[i])
    decreases es
  {
    if es == [] then rest else Pack(es[0], PackElems(es[1..], rest))
  }

  function PackEntries(en: seq<Entry>, rest: bytes): bytes
    requires forall i | 0 <= i < |en| :: WellFormed(en[i].value)
    decreases en
  {
    if en == [] then rest else PackRaw(en[0].key, Pack(en[0].value, PackEntries(en[1..], rest)))
  }

  // ------------------------------------------------------- decoding

  /** What a MessagePack object denotes. */
  datatype Msg =
    | Nil
    | Boolean(b: bool)
    | Integer(i: int)
    | Float(bits: bytes)
    | Raw(s: bytes)
    | Array(elems: seq<Msg>)
    | MapOf(items: seq<Msg>)

  function Take(s: bytes, k: nat): Option<(bytes, bytes)> {
    if |s| < k then None else Some((s[..k], s[k..]))
  }

  function UnpackUnsigned(s: bytes, k: nat): Option<(Msg, bytes)> {
    match Take(s, k) case None => None case Some((b, r)) => Some((Integer(BigEndianValue(b)), r))
  }

  function UnpackSigned(s: bytes, k: nat): Option<(Msg, bytes)> {
    match Take(s, k)
    case None => None
    case Some((b, r)) =>
      var n := BigEndianValue(b);
      Some((Integer(if n < Limit(k) / 2 then n else n - Limit(k)), r))
  }

  function UnpackFloat(s: bytes, k: nat): Option<(Msg, bytes)> {
    match Take(s, k) case None => None case Some((b, r)) => Some((Float(b), r))
  }

  function UnpackRaw(s: bytes, n: nat): Option<(Msg, bytes)> {
    match Take(s, n) case None => None case Some((b, r)) => Some((Raw(b), r))
  }

  /** The three containers of the format. */
  datatype Container = AsRaw | AsArray | AsMap

  function Unpack(s: bytes): (p: Option<(Msg, bytes)>)
    ensures p.Some? ==> |p.value.1| < |s|
    decreases |s|, 0
  {
    if s == [] then None
    else
      var tag, r := s[0], s[1..];
      if tag <= 0x7F then Some((Integer(tag), r))
      else if tag <= 0x8F then UnpackBody(r, AsMap, tag - 0x80)
      else if tag <= 0x9F then UnpackBody(r, AsArray, tag - 0x90)
      else if tag <= 0xBF then UnpackBody(r, AsRaw, tag - 0xA0)
      else if tag == 0xC0 then Some((Nil, r))
      else if tag == 0xC2 then Some((Boolean(false), r))
      else if tag == 0xC3 then Some((Boolean(true), r))
      else if tag == 0xCA then UnpackFloat(r, 4)
      else if tag == 0xCB then UnpackFloat(r, 8)
      else if tag == 0xCC then UnpackUnsigned(r, 1)
      else if tag == 0xCD then UnpackUnsigned(r, 2)
      else if tag == 0xCE then UnpackUnsigned(r, 4)
      else if tag == 0xCF then UnpackUnsigned(r, 8)
      else if tag == 0xD0 then UnpackSigned(r, 1)
      else if tag == 0xD1 then UnpackSigned(r, 2)
      else if tag == 0xD2 then UnpackSigned(r, 4)
      else if tag == 0xD3 then UnpackSigned(r, 8)
      else if 0xDA <= tag <= 0xDF then
        UnpackSized(r, if tag <= 0xDB then AsRaw else if tag <= 0xDD then AsArray else AsMap, if tag % 2 == 0 then 2 else 4)
      else if tag >= 0xE0 then Some((Integer(tag as int - 0x100), r))
      else None
  }

  function UnpackSized(s: bytes, c: Container, k: nat): (p: Option<(Msg, bytes)>)
    requires k > 0
    ensures p.Some? ==> |p.value.1| <= |s|
    decreases |s|, 2
  {
    match Take(s, k) case None => None case Some((b, r)) => UnpackBody(r, c, BigEndianValue(b))
  }

  function UnpackBody(s: bytes, c: Container, n: nat): (p: Option<(Msg, bytes)>)
    ensures p.Some? ==> |p.value.1| <= |s|
    decreases |s|, 2
  {
    match c
    case AsRaw => UnpackRaw(s, n)
    case AsArray => (match UnpackMany(s, n) case None => None case Some((ms, r)) => Some((Array(ms), r)))
    case AsMap => (match UnpackMany(s, 2 * n) case None => None case Some((ms, r)) => Some((MapOf(ms), r)))
  }

  function UnpackMany(s: bytes, n: nat): (p: Option<(seq<Msg>, bytes)>)
    ensures p.Some? ==> |p.value.1| <= |s|
    decreases |s|, 1
  {
    if n == 0 then Some(([], s))
    else match Unpack(s)
      case None => None
      case Some((m, r)) =>
        match UnpackMany(r, n - 1)
        case None => None
        case Some((ms, r2)) => Some(([m] + ms, r2))
  }

  // ------------------------------------------------------- the round trip

  /** What a tree denotes: widths are forgotten, and a map is its keys and values in turn. */
  function Meaning(v: Value): Msg {
    match v
    case Null => Nil
    case Bool(b) => Boolean(b)
    case Int(i) => Integer(i)
    case LongLong(i) => Integer(i)
    case UInt(i) => Integer(i)
    case ULongLong(i) => Integer(i)
    case Double(bits) => Float(bits)
    case Str(s) => Raw(s)
    case Arr(es) => Array(MeaningElems(es))
    case Hash(en) => MapOf(MeaningEntries(en))
  }

  function MeaningElems(es: seq<Value>): seq<Msg> {
    if es == [] then [] else [Meaning(es[0])] + MeaningElems(es[1..])
  }

  function MeaningEntries(en: seq<Entry>): seq<Msg> {
    if en == [] then [] else [Raw(en[0].key), Meaning(en[0].value)] + MeaningEntries(en[1..])
  }

  lemma LimitIsPower(k: nat)
    requires k in {1, 2, 4, 8}
    ensures Limit(k) == Pow256(k)
  {
    assert Pow256(1) == 0x100 && Pow256(2) == 0x1_0000;
    assert Pow256(4) == 256 * (256 * Pow256(2));
    assert Pow256(8) == 256 * (256 * (256 * (256 * Pow256(4))));
  }

  lemma TakeBack(n: nat, k: nat, rest: bytes)
    requires k in {1, 2, 4, 8} && n < Limit(k)
    ensures Take(BigEndian(n, k) + rest, k) == Some((BigEndian(n, k), rest))
    ensures BigEndianValue(BigEndian(n, k)) == n
  {
    LimitIsPower(k);
    BigEndianValueBack(n, k);
    assert (BigEndian(n, k) + rest)[..k] == BigEndian(n, k);
    assert (BigEndian(n, k) + rest)[k..] == rest;
  }

  lemma SizedTail(tag: byte, n: nat, k: nat, rest: bytes)
    ensures Sized(tag, n, k, rest)[0] == tag && Sized(tag, n, k, rest)[1..] == BigEndian(n, k) + rest
  {}

  lemma UnpackUnsignedBack(i: nat, rest: bytes)
    requires i <= ULLONG_MAX
    ensures Unpack(PackUnsigned(i, rest)) == Some((Integer(i), rest))
  {
    var (tag, k) := if i <= 0xFF then (0xCC, 1) else if i <= 0xFFFF then (0xCD, 2) else if i <= UINT_MAX then (0xCE, 4) else (0xCF, 8);
    SizedTail(tag, i, k, rest);
    TakeBack(i, k, rest);
  }

  lemma UnpackSizedSigned(i: int, k: nat, rest: bytes)
    requires k in {1, 2, 4, 8} && -(Limit(k) / 2) <= i < Limit(k) / 2
    ensures UnpackSigned(BigEndian(TwosComplement(i, k), k) + rest, k) == Some((Integer(i), rest))
  {
    TakeBack(TwosComplement(i, k), k, rest);
  }

  lemma UnpackSignedBack(i: int, rest: bytes)
    requires LLONG_MIN <= i <= LLONG_MAX
    ensures Unpack(PackSigned(i, rest)) == Some((Integer(i), rest))
  {
    if -32 <= i <= 127 {
      assert ([i % 256] + rest)[1..] == rest;
    } else {
      var (tag, k) := if -0x80 <= i <= 0x7F then (0xD0, 1) else if -0x8000 <= i <= 0x7FFF then (0xD1, 2) else if INT_MIN <= i <= INT_MAX then (0xD2, 4) else (0xD3, 8);
      UnpackSizedSigned(i, k, rest);
      SizedTail(tag, TwosComplement(i, k), k, rest);
    }
  }

  lemma UnpackLengthBack(base: byte, small: nat, tag16: byte, c: Container, n: nat, rest: bytes)
    requires (base, small, tag16, c) in {(0xA0, 31, 0xDA, AsRaw), (0x90, 15, 0xDC, AsArray), (0x80, 15, 0xDE, AsMap)}
    requires n <= UINT_MAX
    ensures Unpack(PackLength(base, small, tag16, n, rest)) == UnpackBody(rest, c, n)
  {
    if n <= small {
      assert ([base + n] + rest)[1..] == rest;
    } else {
      var (tag, k) := if n <= 0xFFFF then (tag16, 2) else (tag16 + 1, 4);
      SizedTail(tag, n, k, rest);
      TakeBack(n, k, rest);
    }
  }

  lemma UnpackRawBack(s: bytes, rest: bytes)
    requires |s| <= UINT_MAX
    ensures Unpack(PackRaw(s, rest)) == Some((Raw(s), rest))
  {
    UnpackLengthBack(0xA0, 31, 0xDA, AsRaw, |s|, s + rest);
    assert (s + rest)[..|s|] == s && (s + rest)[|s|..] == rest;
  }

  /**
    The decoder, run on an encoded tree followed by any bytes, returns the tree's meaning and exactly those
    bytes.
   */
  lemma {:induction false} UnpackOfPack(v: Value, rest: bytes)
    requires WellFormed(v) && Packable(v)
    ensures Unpack(Pack(v, rest)) == Some((Meaning(v), rest))
    decreases v
  {
    match v
    case Null => assert ([0xC0] + rest)[1..] == rest;
    case Bool(b) => assert ([if b then 0xC3 else 0xC2] + rest)[1..] == rest;
    case Int(i) => UnpackSignedBack(i, rest);
    case LongLong(i) => UnpackSignedBack(i, rest);
    case UInt(i) => UnpackUnsignedBack(i, rest);
    case ULongLong(i) => UnpackUnsignedBack(i, rest);
    case Double(bits) =>
      assert ([0xCB] + (bits + rest))[1..] == bits + rest;
      assert (bits + rest)[..8] == bits && (bits + rest)[8..] == rest;
    case Str(s) => UnpackRawBack(s, rest);
    case Arr(es) =>
      UnpackLengthBack(0x90, 15, 0xDC, AsArray, |es|, PackElems(es, rest));
      UnpackElemsBack(es, rest);
    case Hash(en) =>
      UnpackLengthBack(0x80, 15, 0xDE, AsMap, |en|, PackEntries(en, rest));
      UnpackEntriesBack(en, rest);
  }

  lemma {:induction false} UnpackElemsBack(es: seq<Value>, rest: bytes)
    requires forall i | 0 <= i < |es| :: WellFormed(es[i]) && Packable(es[i])
    ensures UnpackMany(PackElems(es, rest), |es|) == Some((MeaningElems(es), rest))
    decreases es
  {
    if es != [] {
      UnpackOfPack(es[0], PackElems(es[1..], rest));
      UnpackElemsBack(es[1..], rest);
    }
  }

  /** A key, the value after it and `n` more objects. */
  lemma UnpackEntryBack(key: bytes, s1: bytes, m: Msg, s2: bytes, n: nat, ms: seq<Msg>, rest: bytes)
    requires |key| <= UINT_MAX
    requires Unpack(s1) == Some((m, s2)) && UnpackMany(s2, n) == Some((ms, rest))
    ensures UnpackMany(PackRaw(key, s1), n + 2) == Some(([Raw(key), m] + ms, rest))
  {
    UnpackRawBack(key, s1);
    assert UnpackMany(s1, n + 1) == Some(([m] + ms, rest));
    assert [Raw(key)] + ([m] + ms) == [Raw(key), m] + ms;
  }

  lemma {:induction false} UnpackEntriesBack(en: seq<Entry>, rest: bytes)
    requires forall i | 0 <= i < |en| :: WellFormed(en[i].value) && |en[i].key| <= UINT_MAX && Packable(en[i].value)
    ensures UnpackMany(PackEntries(en, rest), 2 * |en|) == Some((MeaningEntries(en), rest))
    decreases en
  {
    if en != [] {
      var e, tail := en[0], en[1..];
      assert |tail| == |en| - 1;
      var more := PackEntries(tail, rest);
      UnpackEntriesBack(tail, rest);
      UnpackOfPack(e.value, more);
      UnpackEntryBack(e.key, Pack(e.value, more), Meaning(e.value), more, 2 * |tail|, MeaningEntries(tail), rest);
      assert 2 * |en| == 2 * |tail| + 2;
    }
  }

  /** Unique decodability: no encoding is a prefix of a different one. */
  lemma PackIsPrefixFree(v: Value, w: Value, r1: bytes, r2: bytes)
    requires WellFormed(v) && Packable(v) && WellFormed(w) && Packable(w)
    requires Pack(v, r1) == Pack(w, r2)
    ensures Meaning(v) == Meaning(w) && r1 == r2
  {
    UnpackOfPack(v, r1);
    UnpackOfPack(w, r2);
  }
}
