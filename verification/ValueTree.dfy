/**
  The dynamically typed tree of source/Utility/Value.h: null, booleans, four integer widths, doubles,
  byte strings, arrays and string-keyed hashes.
 */
module ValueTree {
  type byte = x: int | 0 <= x < 256
  type bytes = seq<byte>

  const INT_MIN: int := -0x8000_0000
  const INT_MAX: int := 0x7FFF_FFFF
  const UINT_MAX: int := 0xFFFF_FFFF
  const LLONG_MIN: int := -0x8000_0000_0000_0000
  const LLONG_MAX: int := 0x7FFF_FFFF_FFFF_FFFF
  const ULLONG_MAX: int := 0xFFFF_FFFF_FFFF_FFFF

  /** A double is carried as its eight bytes, most significant first; nothing here interprets them. */
  datatype Value =
    | Null
    | Bool(b: bool)
    | Int(i: int)
    | LongLong(i: int)
    | UInt(i: int)
    | ULongLong(i: int)
    | Double(bits: bytes)
    | Str(s: bytes)
    | Arr(elems: seq<Value>)
    | Hash(entries: seq<Entry>)

  datatype Entry = Entry(key: bytes, value: Value)

  /** `std::string` order: bytes compared as unsigned, a proper prefix first. */
  predicate Less(a: bytes, b: bytes) {
    b != [] && (a == [] || a[0] < b[0] || (a[0] == b[0] && Less(a[1..], b[1..])))
  }

  lemma {:induction false} LessIsTransitive(a: bytes, b: bytes, c: bytes)
    requires Less(a, b) && Less(b, c)
    ensures Less(a, c)
  {
    if a != [] && a[0] == b[0] && b[0] == c[0] {
      LessIsTransitive(a[1..], b[1..], c[1..]);
    }
  }

  lemma {:induction false} LessIsTotal(a: bytes, b: bytes)
    ensures Less(a, b) || a == b || Less(b, a)
    ensures !(Less(a, b) && Less(b, a)) && !Less(a, a)
  {
    if a != [] && b != [] && a[0] == b[0] {
      LessIsTotal(a[1..], b[1..]);
      assert a == [a[0]] + a[1..] && b == [b[0]] + b[1..];
    }
    if a != [] { LessIsIrreflexive(a); }
  }

  lemma {:induction false} LessIsIrreflexive(a: bytes)
    ensures !Less(a, a)
  {
    if a != [] { LessIsIrreflexive(a[1..]); }
  }

  /** A `std::map` is its entries in strictly increasing key order. */
  ghost predicate Sorted(en: seq<Entry>) {
    forall i, j | 0 <= i < j < |en| :: Less(en[i].key, en[j].key)
  }

  /** `hash[k] = v`. */
  function Insert(en: seq<Entry>, k: bytes, v: Value): (r: seq<Entry>) {
    if en == [] then [Entry(k, v)]
    else if en[0].key == k then [Entry(k, v)] + en[1..]
    else if Less(k, en[0].key) then [Entry(k, v)] + en
    else [en[0]] + Insert(en[1..], k, v)
  }

  /** Inserting keeps the entries a map, binds `k`, and leaves every other binding alone. */
  lemma {:induction false} InsertIsMapUpdate(en: seq<Entry>, k: bytes, v: Value)
    requires Sorted(en)
    ensures Sorted(Insert(en, k, v))
    ensures forall e | e in Insert(en, k, v) :: if e.key == k then e.value == v else e in en
    ensures Entry(k, v) in Insert(en, k, v)
    ensures forall e | e in en && e.key != k :: e in Insert(en, k, v)
  {
    if en != [] {
      assert en == [en[0]] + en[1..];
      LessIsTotal(k, en[0].key);
      if en[0].key == k {
        forall e | e in en[1..] ensures e.key != k { LessIsTotal(k, e.key); }
      } else if Less(k, en[0].key) {
        forall e | e in en[1..] ensures Less(k, e.key) && e.key != k {
          LessIsTransitive(k, en[0].key, e.key); LessIsTotal(k, e.key);
        }
      } else {
        InsertIsMapUpdate(en[1..], k, v);
        var r := Insert(en[1..], k, v);
        forall e | e in r ensures Less(en[0].key, e.key) {}
      }
    }
  }

  /** Appending in key order is what insertion does. */
  lemma {:induction false} InsertLast(en: seq<Entry>, k: bytes, v: Value)
    requires Sorted(en) && forall e | e in en :: Less(e.key, k)
    ensures Insert(en, k, v) == en + [Entry(k, v)]
  {
    if en != [] {
      assert en[0] in en;
      LessIsTotal(k, en[0].key);
      InsertLast(en[1..], k, v);
      assert en == [en[0]] + en[1..];
    }
  }

  /** What the C++ types guarantee of every tree. */
  ghost predicate WellFormed(v: Value) {
    match v
    case Int(i) => INT_MIN <= i <= INT_MAX
    case LongLong(i) => LLONG_MIN <= i <= LLONG_MAX
    case UInt(i) => 0 <= i <= UINT_MAX
    case ULongLong(i) => 0 <= i <= ULLONG_MAX
    case Double(bits) => |bits| == 8
    case Arr(es) => forall i | 0 <= i < |es| :: WellFormed(es[i])
    case Hash(en) => Sorted(en) && forall i | 0 <= i < |en| :: WellFormed(en[i].value)
    case _ => true
  }

  datatype Option<+T> = None | Some(value: T)
}
