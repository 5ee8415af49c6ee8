/**
  A `std::set<Touch>` as the sequence of its elements in order: touches compare by id alone
  (source/OSInteraction/Touch.h:8-43).
 */
module TouchSets {
  import opened ValueTree

  datatype Touch = Touch(id: nat, frameId: nat, x: real, y: real, touching: bool)

  ghost predicate Ordered(s: seq<Touch>) { forall i, j | 0 <= i < j < |s| :: s[i].id < s[j].id }

  /** `find`: the element with this id. */
  function Lookup(s: seq<Touch>, id: nat): (r: Option<Touch>)
    ensures r.Some? ==> r.value.id == id
  {
    if s == [] then None
    else if s[|s| - 1].id == id then Some(s[|s| - 1])
    else Lookup(s[..|s| - 1], id)
  }

  /** `insert` of a touch whose id is not held, or in place of the one that is. */
  function Put(s: seq<Touch>, t: Touch): seq<Touch> {
    if s == [] then [t]
    else
      var last, before := s[|s| - 1], s[..|s| - 1];
      if last.id < t.id then s + [t] else if last.id == t.id then before + [t] else Put(before, t) + [last]
  }

  /** `erase`. */
  function Drop(s: seq<Touch>, id: nat): seq<Touch> {
    if s == [] then []
    else
      var last, before := s[|s| - 1], s[..|s| - 1];
      if last.id == id then before else Drop(before, id) + [last]
  }

  lemma {:induction false} LookupFinds(s: seq<Touch>, i: nat)
    requires Ordered(s) && i < |s|
    ensures Lookup(s, s[i].id) == Some(s[i])
    decreases |s|
  {
    if i < |s| - 1 { LookupFinds(s[..|s| - 1], i); }
  }

  lemma {:induction false} LookupIsElement(s: seq<Touch>, id: nat)
    ensures Lookup(s, id).Some? <==> exists i :: 0 <= i < |s| && s[i].id == id
    ensures Lookup(s, id).Some? ==> Lookup(s, id).value in s
    decreases |s|
  {
    if s != [] {
      LookupIsElement(s[..|s| - 1], id);
    }
  }

  lemma {:induction false} PutHolds(s: seq<Touch>, t: Touch)
    requires Ordered(s)
    ensures Ordered(Put(s, t))
    ensures forall u | u in Put(s, t) :: u in s || u == t
    decreases |s|
  {
    if s != [] {
      var last, before := s[|s| - 1], s[..|s| - 1];
      PutHolds(before, t);
      assert forall u | u in before :: u.id < last.id;
      if t.id < last.id {
        var p := Put(before, t);
        assert forall i | 0 <= i < |p| :: p[i] in p && p[i].id < last.id;
      }
    }
  }

  lemma {:induction false} LookupInPut(s: seq<Touch>, t: Touch, id: nat)
    requires Ordered(s)
    ensures Lookup(Put(s, t), id) == if id == t.id then Some(t) else Lookup(s, id)
    decreases |s|
  {
    if s == [] {
      assert Lookup([t][..0], id) == None;
    } else {
      var last, before := s[|s| - 1], s[..|s| - 1];
      if last.id < t.id {
        assert (s + [t])[..|s|] == s;
      } else if last.id == t.id {
        assert (before + [t])[..|before|] == before;
      } else {
        LookupInPut(before, t, id);
        assert (Put(before, t) + [last])[..|Put(before, t)|] == Put(before, t);
      }
    }
  }

  lemma {:induction false} DropHolds(s: seq<Touch>, id: nat)
    requires Ordered(s)
    ensures Ordered(Drop(s, id))
    ensures forall u | u in Drop(s, id) :: u in s
    decreases |s|
  {
    if s != [] {
      var last, before := s[|s| - 1], s[..|s| - 1];
      DropHolds(before, id);
      var d := Drop(before, id);
      assert forall i | 0 <= i < |d| :: d[i] in before && d[i].id < last.id;
    }
  }

  lemma {:induction false} LookupInDrop(s: seq<Touch>, gone: nat, id: nat)
    requires Ordered(s)
    ensures Lookup(Drop(s, gone), id) == if id == gone then None else Lookup(s, id)
    decreases |s|
  {
    if s != [] {
      var last, before := s[|s| - 1], s[..|s| - 1];
      if last.id == gone {
        LookupIsElement(before, gone);
      } else {
        LookupInDrop(before, gone, id);
        assert (Drop(before, gone) + [last])[..|Drop(before, gone)|] == Drop(before, gone);
      }
    }
  }

  /** Two sets that answer every lookup alike are the same sequence. */
  lemma {:induction false} SameLookupsSameSet(a: seq<Touch>, b: seq<Touch>)
    requires Ordered(a) && Ordered(b)
    requires forall id :: Lookup(a, id) == Lookup(b, id)
    ensures a == b
    decreases |a|
  {
    assert a != [] ==> Lookup(a, a[|a| - 1].id).Some?;
    assert b != [] ==> Lookup(b, b[|b| - 1].id).Some?;
    if a != [] && b != [] {
      SameLast(a, b);
      var last := a[|a| - 1];
      var a1, b1 := a[..|a| - 1], b[..|b| - 1];
      forall id ensures Lookup(a1, id) == Lookup(b1, id) {
        assert Lookup(a, id) == Lookup(b, id);
        if id == last.id {
          LookupIsElement(a1, id);
          LookupIsElement(b1, id);
        }
      }
      SameLookupsSameSet(a1, b1);
    }
  }

  lemma SameLast(a: seq<Touch>, b: seq<Touch>)
    requires Ordered(a) && Ordered(b) && a != [] && b != []
    requires forall id :: Lookup(a, id) == Lookup(b, id)
    ensures a[|a| - 1] == b[|b| - 1]
  {
    var x, y := a[|a| - 1], b[|b| - 1];
    assert Lookup(a, x.id) == Lookup(b, x.id) && Lookup(a, y.id) == Lookup(b, y.id);
    LookupIsElement(b, x.id);
    LookupIsElement(a, y.id);
  }
}
