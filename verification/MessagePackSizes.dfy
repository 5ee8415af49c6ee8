/**
  How long the packings of source/Utility/Value.cpp:551-653 are: the shortest of the formats each writer chooses from, and
  exactly when that is the shortest of all that the decoder accepts.
 */
module MessagePackSizes {
  import opened ValueTree
  import opened MessagePack

  /** `e` is a packing of the integer `i` in some format. */
  predicate PacksInteger(e: bytes, i: int) { Unpack(e) == Some((Integer(i), [])) }

  predicate IsUnsignedTag(tag: byte) { 0xCC <= tag <= 0xCF }

  predicate IsSignedTag(tag: byte) { tag <= 0x7F || tag >= 0xE0 || 0xD0 <= tag <= 0xD3 }

  /** The bytes after the tag of a sized integer. */
  function Width(tag: byte): nat {
    match tag % 4 case 0 => 1 case 1 => 2 case 2 => 4 case _ => 8
  }

  lemma {:induction false} BigEndianValueIsSmall(b: bytes)
    ensures BigEndianValue(b) < Pow256(|b|)
    decreases |b|
  {
    if b != [] { BigEndianValueIsSmall(b[..|b| - 1]); }
  }

  lemma TakenWhole(s: bytes, k: nat)
    requires k in {1, 2, 4, 8} && Take(s, k).Some? && Take(s, k).value.1 == []
    ensures |s| == k && BigEndianValue(Take(s, k).value.0) < Limit(k)
  {
    BigEndianValueIsSmall(s[..k]);
    LimitIsPower(k);
  }

  lemma BodyIsOfItsKind(s: bytes, c: Container, n: nat)
    requires UnpackBody(s, c, n).Some?
    ensures var m := UnpackBody(s, c, n).value.0;
      match c case AsRaw => m.Raw? && UnpackBody(s, c, n) == UnpackRaw(s, n) case AsArray => m.Array? case AsMap => m.MapOf?
  {}

  lemma SizedIsOfItsKind(s: bytes, c: Container, k: nat)
    requires k > 0 && UnpackSized(s, c, k).Some?
    ensures Take(s, k).Some? && UnpackSized(s, c, k) == UnpackBody(Take(s, k).value.1, c, BigEndianValue(Take(s, k).value.0))
    ensures var m := UnpackSized(s, c, k).value.0;
      match c case AsRaw => m.Raw? case AsArray => m.Array? case AsMap => m.MapOf?
  {
    BodyIsOfItsKind(Take(s, k).value.1, c, BigEndianValue(Take(s, k).value.0));
  }

  /** The containers, by their tags, and what they hold. */
  lemma ContainerFormats(e: bytes)
    requires Unpack(e).Some? && (0x80 <= e[0] <= 0xBF || 0xDA <= e[0] <= 0xDF)
    ensures var m := Unpack(e).value.0; m.Raw? || m.Array? || m.MapOf?
    ensures Unpack(e).value.0.Raw? <==> 0xA0 <= e[0] <= 0xBF || e[0] == 0xDA || e[0] == 0xDB
  {
    var tag, r := e[0], e[1..];
    if tag <= 0x8F { BodyIsOfItsKind(r, AsMap, tag - 0x80); }
    else if tag <= 0x9F { BodyIsOfItsKind(r, AsArray, tag - 0x90); }
    else if tag <= 0xBF { BodyIsOfItsKind(r, AsRaw, tag - 0xA0); }
    else {
      SizedIsOfItsKind(r, if tag <= 0xDB then AsRaw else if tag <= 0xDD then AsArray else AsMap, if tag % 2 == 0 then 2 else 4);
    }
  }

  /** What a format can hold, and how many bytes it takes. */
  lemma IntegerFormats(e: bytes, i: int)
    requires PacksInteger(e, i)
    ensures e != [] && (IsUnsignedTag(e[0]) || IsSignedTag(e[0]))
    ensures e[0] <= 0x7F ==> |e| == 1 && 0 <= i <= 127
    ensures e[0] >= 0xE0 ==> |e| == 1 && -32 <= i < 0
    ensures IsUnsignedTag(e[0]) ==> |e| == 1 + Width(e[0]) && 0 <= i < Limit(Width(e[0]))
    ensures 0xD0 <= e[0] <= 0xD3 ==> |e| == 1 + Width(e[0]) && -(Limit(Width(e[0])) / 2) <= i < Limit(Width(e[0])) / 2
  {
    var tag, r := e[0], e[1..];
    if 0x80 <= tag <= 0xBF || 0xDA <= tag <= 0xDF { ContainerFormats(e); }
    if IsUnsignedTag(tag) || 0xD0 <= tag <= 0xD3 {
      TakenWhole(r, Width(tag));
    }
  }

  // -------------------------------------------- among the formats of one writer

  /** No unsigned format that holds the number is shorter. */
  lemma UnsignedIsShortest(e: bytes, i: nat)
    requires PacksInteger(e, i) && IsUnsignedTag(e[0])
    ensures |PackUnsigned(i, [])| <= |e|
  {
    IntegerFormats(e, i);
  }

  /** No signed format that holds the number is shorter. */
  lemma SignedIsShortest(e: bytes, i: int)
    requires LLONG_MIN <= i <= LLONG_MAX && PacksInteger(e, i) && IsSignedTag(e[0])
    ensures |PackSigned(i, [])| <= |e|
  {
    IntegerFormats(e, i);
  }

  // ------------------------------------------------------- among all formats

  /** The fewest bytes in which the number can be packed. */
  function FewestBytes(i: int): nat {
    if -32 <= i <= 127 then 1
    else if -0x80 <= i <= 0xFF then 2
    else if -0x8000 <= i <= 0xFFFF then 3
    else if -0x8000_0000 <= i <= 0xFFFF_FFFF then 5
    else 9
  }

  lemma NoFewerBytes(e: bytes, i: int)
    requires PacksInteger(e, i)
    ensures FewestBytes(i) <= |e|
  {
    IntegerFormats(e, i);
  }

  /** That few are enough. */
  lemma FewestAreEnough(i: int) returns (e: bytes)
    requires LLONG_MIN <= i <= ULLONG_MAX
    ensures PacksInteger(e, i) && |e| == FewestBytes(i)
  {
    if i <= 127 {
      e := PackSigned(i, []);
      UnpackSignedBack(i, []);
    } else {
      e := PackUnsigned(i, []);
      UnpackUnsignedBack(i, []);
    }
  }

  /** A packing that no other packing of the number undercuts. */
  ghost predicate IsShortest(p: bytes, i: int) { forall e | PacksInteger(e, i) :: |p| <= |e| }

  lemma ShortestIff(p: bytes, i: int)
    requires LLONG_MIN <= i <= ULLONG_MAX
    ensures IsShortest(p, i) <==> |p| <= FewestBytes(i)
  {
    var best := FewestAreEnough(i);
    forall e | PacksInteger(e, i) ensures FewestBytes(i) <= |e| { NoFewerBytes(e, i); }
  }

  /** An unsigned number is packed in the fewest bytes exactly when it is not one of those that fit the tag. */
  lemma UnsignedIsShortestIff(i: nat)
    requires i <= ULLONG_MAX
    ensures IsShortest(PackUnsigned(i, []), i) <==> i > 127
  {
    ShortestIff(PackUnsigned(i, []), i);
  }

  /** A signed number is, exactly when no unsigned format of half the width would hold it. */
  lemma SignedIsShortestIff(i: int)
    requires LLONG_MIN <= i <= LLONG_MAX
    ensures IsShortest(PackSigned(i, []), i) <==> !(0x80 <= i <= 0xFF || 0x8000 <= i <= 0xFFFF || 0x8000_0000 <= i <= 0xFFFF_FFFF)
  {
    ShortestIff(PackSigned(i, []), i);
  }

  // ----------------------------------------------------------------- strings

  lemma RawBody(s: bytes, n: nat, t: bytes)
    requires UnpackRaw(s, n) == Some((Raw(t), []))
    ensures n == |t| == |s|
  {}

  /** A string after a length field of `k` bytes. */
  lemma SizedRawLength(r: bytes, k: nat, s: bytes)
    requires (k == 2 || k == 4) && UnpackSized(r, AsRaw, k) == Some((Raw(s), []))
    ensures |r| == k + |s| && |s| < Limit(k)
  {
    SizedIsOfItsKind(r, AsRaw, k);
    BigEndianValueIsSmall(r[..k]);
    LimitIsPower(k);
    BodyIsOfItsKind(r[k..], AsRaw, BigEndianValue(r[..k]));
    RawBody(r[k..], BigEndianValue(r[..k]), s);
  }

  lemma RawTags(e: bytes, s: bytes)
    requires Unpack(e) == Some((Raw(s), []))
    ensures e != [] && (0xA0 <= e[0] <= 0xBF || e[0] == 0xDA || e[0] == 0xDB)
  {
    if 0x80 <= e[0] <= 0xBF || 0xDA <= e[0] <= 0xDF { ContainerFormats(e); }
  }

  lemma RawLength(s: bytes)
    ensures |PackRaw(s, [])| == |s| + if |s| <= 31 then 1 else if |s| <= 0xFFFF then 3 else 5
  {}

  lemma RawUnpacks(tag: byte, r: bytes)
    ensures 0xA0 <= tag <= 0xBF ==> Unpack([tag] + r) == UnpackBody(r, AsRaw, tag - 0xA0)
    ensures tag == 0xDA ==> Unpack([tag] + r) == UnpackSized(r, AsRaw, 2)
    ensures tag == 0xDB ==> Unpack([tag] + r) == UnpackSized(r, AsRaw, 4)
  {
    assert ([tag] + r)[1..] == r;
  }

  lemma ShortRawLength(r: bytes, n: nat, s: bytes)
    requires UnpackBody(r, AsRaw, n) == Some((Raw(s), []))
    ensures |r| == |s| == n
  {
    BodyIsOfItsKind(r, AsRaw, n);
    RawBody(r, n, s);
  }

  /** The text of a string after its tag. */
  ghost predicate IsRawAfter(tag: byte, r: bytes, s: bytes) {
    || (0xA0 <= tag <= 0xBF && UnpackBody(r, AsRaw, tag - 0xA0) == Some((Raw(s), [])))
    || (tag == 0xDA && UnpackSized(r, AsRaw, 2) == Some((Raw(s), [])))
    || (tag == 0xDB && UnpackSized(r, AsRaw, 4) == Some((Raw(s), [])))
  }

  lemma RawIsAfterTag(e: bytes, s: bytes)
    requires Unpack(e) == Some((Raw(s), []))
    ensures e != [] && IsRawAfter(e[0], e[1..], s)
  {
    RawTags(e, s);
    RawUnpacks(e[0], e[1..]);
    assert e == [e[0]] + e[1..];
  }

  lemma RawNeeds(tag: byte, r: bytes, s: bytes)
    requires IsRawAfter(tag, r, s)
    ensures 1 + |r| >= |s| + if |s| <= 31 then 1 else if |s| <= 0xFFFF then 3 else 5
  {
    if tag <= 0xBF { ShortRawLength(r, tag - 0xA0, s); } else { SizedRawLength(r, if tag == 0xDA then 2 else 4, s); }
  }

  /** A string is packed in the fewest bytes. */
  lemma RawIsShortest(e: bytes, s: bytes)
    requires Unpack(e) == Some((Raw(s), []))
    ensures |PackRaw(s, [])| <= |e|
  {
    RawIsAfterTag(e, s);
    RawNeeds(e[0], e[1..], s);
    RawLength(s);
  }
}
