/**
  Re-entrant firing over a set of listeners that changes under the iterator
  (contrib/autowiring/autowiring/JunctionBox.h:99-172).

  Listeners are ordered by pointer, so they are modelled by integers.  While a callback runs the lock is free, and
  the callback or any other thread may add and remove listeners: `turn(k)` is everything that happens during the
  `k`-th callback of the fire, and whether that callback throws.
 */
module JunctionBox {
  import opened ValueTree

  datatype Change = Add(x: int) | Remove(x: int)

  datatype Turn = Turn(changes: seq<Change>, throws: bool)

  // ------------------------------------------------------- least elements

  ghost predicate IsLeastAbove(s: set<int>, low: Option<int>, r: Option<int>) {
    && (forall x | x in s && Above(x, low) :: r.Some? && r.value <= x)
    && (r.Some? ==> r.value in s && Above(r.value, low))
  }

  predicate Above(x: int, low: Option<int>) { low.None? || low.value < x }

  lemma LeastAboveIsUnique(s: set<int>, low: Option<int>, a: Option<int>, b: Option<int>)
    requires IsLeastAbove(s, low, a) && IsLeastAbove(s, low, b)
    ensures a == b
  {}

  // ----------------------------------------- the ordered container and its iterators

  /** A `std::set` in order. */
  ghost predicate Ascending(l: seq<int>) { forall i, j | 0 <= i < j < |l| :: l[i] < l[j] }

  ghost function Elements(l: seq<int>): set<int> { set x | x in l }

  /** `lower_bound`: the first place whose element is not below `x`. */
  method LowerBound(l: seq<int>, x: int) returns (p: nat)
    requires Ascending(l)
    ensures p <= |l|
    ensures forall i | 0 <= i < p :: l[i] < x
    ensures forall i | p <= i < |l| :: x <= l[i]
  {
    p := 0;
    while p < |l| && l[p] < x
      invariant p <= |l|
      invariant forall i | 0 <= i < p :: l[i] < x
    {
      p := p + 1;
    }
  }

  /** The first element, as `begin` gives it. */
  lemma FirstIsLeast(l: seq<int>)
    requires Ascending(l)
    ensures IsLeastAbove(Elements(l), None, if l == [] then None else Some(l[0]))
  {}

  /** Where an element stands, the search for the first place past it ends at the very next place. */
  lemma NextPlaceIsUpperBound(l: seq<int>, x: int, p: nat, q: nat)
    requires Ascending(l) && p < |l| && l[p] == x && q <= |l|
    requires (forall i | 0 <= i < q :: l[i] <= x) && (forall i | q <= i < |l| :: x < l[i])
    ensures q == p + 1
  {
    if q > 0 { assert l[q - 1] <= l[p]; }
  }

  /** The next place holds the least element above. */
  lemma SuccessorIsUpperBound(l: seq<int>, p: nat)
    requires Ascending(l) && p < |l|
    ensures IsLeastAbove(Elements(l), Some(l[p]), if p + 1 < |l| then Some(l[p + 1]) else None)
  {
    forall x | x in Elements(l) && l[p] < x ensures p + 1 < |l| && l[p + 1] <= x {
      var i :| 0 <= i < |l| && l[i] == x;
      assert i > p;
    }
  }

  /** The first place past `x` holds the least element above it, whether or not `x` is there. */
  lemma PlaceIsUpperBound(l: seq<int>, x: int, p: nat)
    requires Ascending(l) && p <= |l|
    requires (forall i | 0 <= i < p :: l[i] <= x) && (forall i | p <= i < |l| :: x < l[i])
    ensures IsLeastAbove(Elements(l), Some(x), if p < |l| then Some(l[p]) else None)
  {
    forall y | y in Elements(l) && x < y ensures p < |l| && l[p] <= y {
      var i :| 0 <= i < |l| && l[i] == y;
    }
  }

  lemma InsertedElements(l: seq<int>, p: nat, x: int)
    requires Ascending(l) && p <= |l|
    requires (forall i | 0 <= i < p :: l[i] < x) && (forall i | p <= i < |l| :: x < l[i])
    ensures Ascending(l[..p] + [x] + l[p..]) && Elements(l[..p] + [x] + l[p..]) == Elements(l) + {x}
  {
    var r := l[..p] + [x] + l[p..];
    assert l == l[..p] + l[p..];
    assert forall y :: y in r <==> y in l || y == x;
  }

  lemma ErasedStaysAscending(l: seq<int>, p: nat)
    requires Ascending(l) && p < |l|
    ensures Ascending(l[..p] + l[p + 1..])
  {}

  lemma ErasedElements(l: seq<int>, p: nat)
    requires Ascending(l) && p < |l|
    ensures Elements(l[..p] + l[p + 1..]) == Elements(l) - {l[p]}
  {
    var r := l[..p] + l[p + 1..];
    forall y | y in r ensures y in l && y != l[p] {
      var i :| 0 <= i < |r| && r[i] == y;
      assert y == l[if i < p then i else i + 1];
    }
    forall y | y in l && y != l[p] ensures y in r {
      var i :| 0 <= i < |l| && l[i] == y;
      assert y == r[if i < p then i else i - 1];
    }
  }

  lemma HasElement(s: set<int>)
    ensures s != {} ==> exists x :: x in s
  {
    if forall x :: x !in s { assert s == {}; }
  }

  // ---------------------------------------------------------- the listeners

  function Changed(s: set<int>, changes: seq<Change>): set<int> {
    if changes == [] then s
    else
      var before := Changed(s, changes[..|changes| - 1]);
      match changes[|changes| - 1] case Add(x) => before + {x} case Remove(x) => before - {x}
  }

  function Removals(changes: seq<Change>): nat {
    if changes == [] then 0 else Removals(changes[..|changes| - 1]) + (if changes[|changes| - 1].Remove? then 1 else 0)
  }

  /** The set when callback `k` begins. */
  function Before(s: set<int>, turn: nat -> Turn, k: nat): set<int> {
    if k == 0 then s else Changed(Before(s, turn, k - 1), turn(k - 1).changes)
  }

  /** Nobody removes `x` during the first `k` callbacks. */
  ghost predicate Untouched(turn: nat -> Turn, k: nat, x: int) {
    forall i | 0 <= i < k :: Remove(x) !in turn(i).changes
  }

  lemma {:induction false} UnremovedStays(s: set<int>, changes: seq<Change>, x: int)
    requires x in s && Remove(x) !in changes
    ensures x in Changed(s, changes)
    decreases |changes|
  {
    if changes != [] { UnremovedStays(s, changes[..|changes| - 1], x); }
  }

  lemma {:induction false} NoRemovalKeepsAll(s: set<int>, changes: seq<Change>)
    requires Removals(changes) == 0
    ensures s <= Changed(s, changes)
    decreases |changes|
  {
    if changes != [] { NoRemovalKeepsAll(s, changes[..|changes| - 1]); }
  }

  lemma {:induction false} ChangesStayWithin(s: set<int>, changes: seq<Change>, universe: set<int>)
    requires s <= universe && forall x | Add(x) in changes :: x in universe
    ensures Changed(s, changes) <= universe
    decreases |changes|
  {
    if changes != [] { ChangesStayWithin(s, changes[..|changes| - 1], universe); }
  }

  lemma {:induction false} UntouchedIsThere(s: set<int>, turn: nat -> Turn, k: nat, x: int)
    requires x in s && Untouched(turn, k, x)
    ensures x in Before(s, turn, k)
    decreases k
  {
    if k != 0 {
      UntouchedIsThere(s, turn, k - 1, x);
      UnremovedStays(Before(s, turn, k - 1), turn(k - 1).changes, x);
    }
  }

  // ------------------------------------------------------------- what a fire is

  /** Call `k` goes to the least listener above the last one, as the set stands when that call begins. */
  ghost predicate IsCall(s: set<int>, turn: nat -> Turn, called: seq<int>, k: nat)
    requires k < |called|
  {
    IsLeastAbove(Before(s, turn, k), Last(called, k), Some(called[k]))
  }

  ghost predicate IsFire(s: set<int>, turn: nat -> Turn, called: seq<int>) {
    forall k | 0 <= k < |called| :: IsCall(s, turn, called, k)
  }

  /** The listener called before the `k`-th call. */
  function Last(called: seq<int>, k: nat): Option<int>
    requires k <= |called|
  {
    if k == 0 then None else Some(called[k - 1])
  }

  /** A fire is complete when no listener is left above the last one called. */
  ghost predicate IsComplete(s: set<int>, turn: nat -> Turn, called: seq<int>) {
    IsFire(s, turn, called) && IsLeastAbove(Before(s, turn, |called|), Last(called, |called|), None)
  }

  lemma {:induction false} CallsIncrease(s: set<int>, turn: nat -> Turn, called: seq<int>, i: nat, j: nat)
    requires IsFire(s, turn, called) && i < j < |called|
    ensures called[i] < called[j]
    decreases j
  {
    assert IsCall(s, turn, called, j);
    if i < j - 1 { CallsIncrease(s, turn, called, i, j - 1); }
  }

  /** A fire is decided by the listeners and what happens during its callbacks. */
  lemma {:induction false} CompleteFireIsUnique(s: set<int>, turn: nat -> Turn, a: seq<int>, b: seq<int>, k: nat)
    requires IsComplete(s, turn, a) && IsComplete(s, turn, b)
    requires k <= |a| && k <= |b| && a[..k] == b[..k]
    ensures a == b
    decreases |a| - k
  {
    assert Last(a, k) == Last(b, k) by {
      if k != 0 { assert a[..k][k - 1] == b[..k][k - 1]; }
    }
    if k < |a| && k < |b| {
      assert IsCall(s, turn, a, k) && IsCall(s, turn, b, k);
      LeastAboveIsUnique(Before(s, turn, k), Last(a, k), Some(a[k]), Some(b[k]));
      assert a[..k + 1] == a[..k] + [a[k]] && b[..k + 1] == b[..k] + [b[k]];
      CompleteFireIsUnique(s, turn, a, b, k + 1);
    } else if k < |a| {
      assert IsCall(s, turn, a, k);
      LeastAboveIsUnique(Before(s, turn, k), Last(a, k), Some(a[k]), None);
    } else if k < |b| {
      assert IsCall(s, turn, b, k);
      LeastAboveIsUnique(Before(s, turn, k), Last(b, k), Some(b[k]), None);
    } else {
      assert a[..k] == a && b[..k] == b;
    }
  }

  /** Calls below `x` never skip it while it stays in the set. */
  lemma {:induction false} ListenerIsReached(s: set<int>, turn: nat -> Turn, called: seq<int>, x: int, k: nat)
    requires IsComplete(s, turn, called) && k <= |called|
    requires forall i | k <= i <= |called| :: x in Before(s, turn, i)
    requires Above(x, Last(called, k))
    ensures x in called[k..]
    decreases |called| - k
  {
    assert x in Before(s, turn, k);
    assert k < |called|;
    assert IsCall(s, turn, called, k);
    if called[k] != x {
      ListenerIsReached(s, turn, called, x, k + 1);
      assert called[k + 1..] == called[k..][1..];
    }
  }

  /**
    A listener registered throughout is called exactly once; so is one that is added while the fire is still below
    it and then stays.
   */
  lemma StayingListenersAreCalledOnce(s: set<int>, turn: nat -> Turn, called: seq<int>, x: int, k: nat)
    requires IsComplete(s, turn, called) && k <= |called|
    requires forall i | k <= i <= |called| :: x in Before(s, turn, i)
    requires Above(x, Last(called, k))
    ensures exists i :: k <= i < |called| && called[i] == x
    ensures forall i, j | 0 <= i < |called| && 0 <= j < |called| && called[i] == x && called[j] == x :: i == j
  {
    ListenerIsReached(s, turn, called, x, k);
    var i :| 0 <= i < |called[k..]| && called[k..][i] == x;
    assert called[k + i] == x;
    forall i, j | 0 <= i < |called| && 0 <= j < |called| && called[i] == x && called[j] == x ensures i == j {
      if i < j { CallsIncrease(s, turn, called, i, j); }
      if j < i { CallsIncrease(s, turn, called, j, i); }
    }
  }

  lemma PersistentListenersAreCalledOnce(s: set<int>, turn: nat -> Turn, called: seq<int>, x: int)
    requires IsComplete(s, turn, called) && x in s && Untouched(turn, |called|, x)
    ensures exists i :: 0 <= i < |called| && called[i] == x
    ensures forall i, j | 0 <= i < |called| && 0 <= j < |called| && called[i] == x && called[j] == x :: i == j
  {
    forall i | 0 <= i <= |called| ensures x in Before(s, turn, i) {
      UntouchedIsThere(s, turn, i, x);
    }
    StayingListenersAreCalledOnce(s, turn, called, x, 0);
  }

  /** Nobody is called who is not registered at that moment. */
  lemma OnlyListenersAreCalled(s: set<int>, turn: nat -> Turn, called: seq<int>, k: nat)
    requires IsFire(s, turn, called) && k < |called|
    ensures called[k] in Before(s, turn, k)
  {
    assert IsCall(s, turn, called, k);
  }

  // -------------------------------------------------------------- the class

  /** Those of the listeners called whose callbacks threw. */
  ghost predicate TearsDown(turn: nat -> Turn, called: seq<int>, teardown: seq<int>) {
    && (forall x :: x in teardown <==> exists i :: 0 <= i < |called| && called[i] == x && turn(i).throws)
    && (teardown == [] <==> forall i | 0 <= i < |called| :: !turn(i).throws)
  }

  lemma TeardownGrows(turn: nat -> Turn, called: seq<int>, teardown: seq<int>, x: int)
    requires TearsDown(turn, called, teardown)
    ensures TearsDown(turn, called + [x], if turn(|called|).throws then teardown + [x] else teardown)
  {
    var more, down := called + [x], if turn(|called|).throws then teardown + [x] else teardown;
    forall y ensures y in down <==> exists i :: 0 <= i < |more| && more[i] == y && turn(i).throws {
      if y in teardown {
        var i :| 0 <= i < |called| && called[i] == y && turn(i).throws;
        assert more[i] == y;
      } else if y in down {
        assert more[|called|] == y;
      }
    }
    assert forall i | 0 <= i < |called| :: more[i] == called[i];
    assert turn(|called|).throws ==> !(forall i | 0 <= i < |more| :: !turn(i).throws);
  }

  class JunctionBox {
    var listeners: seq<int>
    var numberOfDeletions: nat

    ghost predicate Valid()
      reads this
    {
      Ascending(listeners)
    }

    constructor ()
      ensures Valid() && Elements(listeners) == {} && numberOfDeletions == 0
    {
      listeners, numberOfDeletions := [], 0;
    }

    method Insert(x: int)
      requires Valid()
      modifies this`listeners
      ensures Valid() && Elements(listeners) == Elements(old(listeners)) + {x}
    {
      var p := LowerBound(listeners, x);
      if p < |listeners| && listeners[p] == x {
        return;
      }
      InsertedElements(listeners, p, x);
      listeners := listeners[..p] + [x] + listeners[p..];
    }

    method Erase(x: int)
      requires Valid()
      modifies this
      ensures Valid() && Elements(listeners) == Elements(old(listeners)) - {x}
      ensures numberOfDeletions == old(numberOfDeletions) + 1
    {
      numberOfDeletions := numberOfDeletions + 1;
      var p := LowerBound(listeners, x);
      if p < |listeners| && listeners[p] == x {
        ErasedStaysAscending(listeners, p);
        ErasedElements(listeners, p);
        listeners := listeners[..p] + listeners[p + 1..];
      }
    }

    /** What happens while the lock is free. */
    method Interfere(changes: seq<Change>)
      requires Valid()
      modifies this
      ensures Valid() && Elements(listeners) == Changed(Elements(old(listeners)), changes)
      ensures numberOfDeletions == old(numberOfDeletions) + Removals(changes)
    {
      assert changes[..0] == [];
      for i := 0 to |changes|
        invariant Valid() && Elements(listeners) == Changed(Elements(old(listeners)), changes[..i])
        invariant numberOfDeletions == old(numberOfDeletions) + Removals(changes[..i])
      {
        assert changes[..i + 1][..i] == changes[..i];
        match changes[i] {
          case Add(x) => Insert(x);
          case Remove(x) => Erase(x);
        }
      }
      assert changes[..|changes|] == changes;
    }

    /** An iterator is the element it stands on, and moves with it: where that element is now. */
    method Place(it: int) returns (p: nat)
      requires Valid() && it in listeners
      ensures p < |listeners| && listeners[p] == it
    {
      p := 0;
      while listeners[p] != it
        invariant p < |listeners| && it !in listeners[..p]
        decreases |listeners| - p
      {
        assert listeners == listeners[..p] + [listeners[p]] + listeners[p + 1..];
        p := p + 1;
      }
    }

    method Begin() returns (r: Option<int>)
      requires Valid()
      ensures IsLeastAbove(Elements(listeners), None, r)
    {
      FirstIsLeast(listeners);
      r := if listeners == [] then None else Some(listeners[0]);
    }

    /** `++it`: the place after the one the iterator stands on, which must still be there. */
    method Increment(it: int) returns (r: Option<int>)
      requires Valid() && it in listeners
      ensures r == None || r.value in listeners
      ensures exists p :: 0 <= p < |listeners| && listeners[p] == it && r == if p + 1 < |listeners| then Some(listeners[p + 1]) else None
      ensures IsLeastAbove(Elements(listeners), Some(it), r)
    {
      var p := Place(it);
      SuccessorIsUpperBound(listeners, p);
      r := if p + 1 < |listeners| then Some(listeners[p + 1]) else None;
    }

    /** `upper_bound`: a search, which needs no iterator. */
    method UpperBound(x: int) returns (r: Option<int>)
      requires Valid()
      ensures IsLeastAbove(Elements(listeners), Some(x), r)
    {
      var p := 0;
      while p < |listeners| && listeners[p] <= x
        invariant p <= |listeners|
        invariant forall i | 0 <= i < p :: listeners[i] <= x
      {
        p := p + 1;
      }
      PlaceIsUpperBound(listeners, x, p);
      r := if p < |listeners| then Some(listeners[p]) else None;
    }

    /** On from `current`: by the iterator as long as nothing was removed since `deleteCount` was read. */
    method Advance(current: int, deleteCount: nat) returns (it: Option<int>)
      requires Valid() && (deleteCount == numberOfDeletions ==> current in Elements(listeners))
      ensures IsLeastAbove(Elements(listeners), Some(current), it)
    {
      if deleteCount == numberOfDeletions {
        it := Increment(current);
      } else {
        it := UpperBound(current);
      }
    }

    /**
      One fire.  The iterator is the element it stands on; `++` needs that element to be in the set still, which
      the deletion count guarantees, and then lands where `upper_bound` would.  The listeners whose callbacks threw
      are torn down at the end, and the result says whether there were none.
     */
    method FireCurried(turn: nat -> Turn, ghost universe: set<int>) returns (called: seq<int>, teardown: seq<int>, ok: bool)
      requires Valid() && Elements(listeners) <= universe
      requires forall i, x | Add(x) in turn(i).changes :: x in universe
      modifies this
      ensures Valid() && IsComplete(Elements(old(listeners)), turn, called)
      ensures Elements(listeners) == Before(Elements(old(listeners)), turn, |called|)
      ensures TearsDown(turn, called, teardown)
      ensures ok <==> forall i | 0 <= i < |called| :: !turn(i).throws
      ensures |called| <= |universe|
    {
      called, teardown := [], [];
      ghost var start := Elements(listeners);
      assert Remaining(universe, None) == universe;
      var deleteCount := numberOfDeletions;
      var it := Begin();
      while it.Some?
        invariant Valid() && Elements(listeners) == Before(start, turn, |called|) && Elements(listeners) <= universe
        invariant IsFire(start, turn, called)
        invariant IsLeastAbove(Elements(listeners), Last(called, |called|), it)
        invariant deleteCount == numberOfDeletions
        invariant TearsDown(turn, called, teardown)
        invariant |called| + |Remaining(universe, Last(called, |called|))| <= |universe|
        decreases |Remaining(universe, Last(called, |called|))|
      {
        var current := it.value;
        RemainingShrinks(universe, Last(called, |called|), current);
        ghost var before := called;
        called := called + [current];
        FireGrows(start, turn, before, current);
        TeardownGrows(turn, before, teardown, current);
        if turn(|called| - 1).throws {
          teardown := teardown + [current];
        }
        ChangesKeep(Elements(listeners), turn(|called| - 1).changes, universe);
        Interfere(turn(|called| - 1).changes);
        it := Advance(current, deleteCount);
        deleteCount := numberOfDeletions;
      }
      ok := teardown == [];
    }
  }

  lemma ChangesKeep(s: set<int>, changes: seq<Change>, universe: set<int>)
    requires s <= universe && forall x | Add(x) in changes :: x in universe
    ensures Changed(s, changes) <= universe && (Removals(changes) == 0 ==> s <= Changed(s, changes))
  {
    ChangesStayWithin(s, changes, universe);
    NoRemovalKeeps(s, changes);
  }

  lemma NoRemovalKeeps(s: set<int>, changes: seq<Change>)
    ensures Removals(changes) == 0 ==> s <= Changed(s, changes)
  {
    if Removals(changes) == 0 { NoRemovalKeepsAll(s, changes); }
  }

  /** The keys a fire can still reach. */
  ghost function Remaining(universe: set<int>, low: Option<int>): set<int> { set x | x in universe && Above(x, low) }

  lemma RemainingShrinks(universe: set<int>, low: Option<int>, x: int)
    requires x in universe && Above(x, low)
    ensures |Remaining(universe, Some(x))| < |Remaining(universe, low)|
  {
    var a, b := Remaining(universe, Some(x)), Remaining(universe, low);
    assert a <= b - {x};
    SubsetIsSmaller(a, b - {x});
  }

  lemma {:induction false} SubsetIsSmaller(a: set<int>, b: set<int>)
    requires a <= b
    ensures |a| <= |b|
    decreases |a|
  {
    if a != {} {
      HasElement(a);
      var x :| x in a;
      SubsetIsSmaller(a - {x}, b - {x});
    }
  }

  lemma FireGrows(s: set<int>, turn: nat -> Turn, called: seq<int>, x: int)
    requires IsFire(s, turn, called) && IsLeastAbove(Before(s, turn, |called|), Last(called, |called|), Some(x))
    ensures IsFire(s, turn, called + [x])
  {
    var more := called + [x];
    forall k | 0 <= k < |more| ensures IsCall(s, turn, more, k) {
      assert Last(more, k) == Last(called, k);
      if k < |called| { assert IsCall(s, turn, called, k); }
    }
  }
}
