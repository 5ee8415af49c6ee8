/**
  The purging history of source/Utility/TimedHistory.h: a deque of timed frames, newest first.
 */
module TimedHistory {
  import opened ValueTree

  type Timed<T> = (int, T)

  /** How long before the newest frame the `i`-th one was added. */
  function Age<T>(s: seq<Timed<T>>, i: nat): int
    requires i < |s|
  {
    s[0].0 - s[i].0
  }

  /** Frames are added in nondecreasing time order. */
  ghost predicate Ordered<T>(s: seq<Timed<T>>) {
    forall i, j | 0 <= i <= j < |s| :: s[i].0 >= s[j].0
  }

  /** Drop the oldest frame for as long as the one before it is already old enough. */
  function Purge<T>(s: seq<Timed<T>>, duration: int): seq<Timed<T>> {
    if |s| >= 2 && Age(s, |s| - 2) >= duration then Purge(s[..|s| - 1], duration) else s
  }

  /** The first frame of at least the given age, scanning from the newest. */
  function FindFrom<T>(s: seq<Timed<T>>, age: int, i: nat): (k: nat)
    requires i <= |s|
    ensures i <= k <= |s|
    ensures forall j | i <= j < k :: Age(s, j) < age
    ensures k < |s| ==> Age(s, k) >= age
    decreases |s| - i
  {
    if i < |s| && Age(s, i) < age then FindFrom(s, age, i + 1) else i
  }

  /** `getFrameHavingAgeAtLeast`: the frame found, or `None` for `end()`. */
  function Find<T>(s: seq<Timed<T>>, age: int): Option<Timed<T>> {
    var k := FindFrom(s, age, 0);
    if k < |s| then Some(s[k]) else None
  }

  class TimedHistory<T> {
    var historyDuration: int
    var frames: seq<Timed<T>>
    ghost var all: seq<Timed<T>>   // every frame ever added
    ghost var floor: int           // the smallest duration ever in force

    ghost predicate Valid()
      reads this
    {
      && Ordered(all) && |frames| <= |all| && frames == all[..|frames|]
      && (all != [] ==> frames != [])
      && floor <= historyDuration
      && (|frames| < |all| ==> Age(all, |frames| - 1) >= floor)
      && (floor == historyDuration ==> frames == Purge(all, historyDuration))
    }

    constructor (duration: int)
      ensures Valid() && all == [] && floor == historyDuration == duration
    {
      historyDuration := duration;
      frames := [];
      all := [];
      floor := duration;
    }

    method PurgeExcessHistory()
      modifies this`frames
      ensures frames == Purge(old(frames), historyDuration)
    {
      if frames == [] {
        return;
      }
      var mostRecentTime := frames[0].0;
      var it := |frames| - 2;
      while it >= 0 && mostRecentTime - frames[it].0 >= historyDuration
        invariant it == |frames| - 2 && frames != [] && frames[0].0 == mostRecentTime
        invariant Purge(frames, historyDuration) == Purge(old(frames), historyDuration)
      {
        it := it - 1;
        frames := frames[..|frames| - 1];
      }
    }

    method AddFrame(time: int, frame: T)
      requires Valid()
      requires frames != [] ==> time >= frames[0].0
      modifies this
      ensures Valid()
      ensures all == [(time, frame)] + old(all)
      ensures frames == Purge([(time, frame)] + old(frames), historyDuration)
      ensures historyDuration == old(historyDuration) && floor == old(floor)
    {
      ghost var before, whole := frames, all;
      frames := [(time, frame)] + frames;
      all := [(time, frame)] + all;
      PurgeIsPrefix(frames, historyDuration);
      PurgeOfExtension((time, frame), before, whole, historyDuration, floor);
      PurgeExcessHistory();
    }

    method SetHistoryDuration(duration: int)
      requires Valid()
      modifies this
      ensures Valid()
      ensures historyDuration == duration && all == old(all)
      ensures floor == if duration < old(floor) then duration else old(floor)
      ensures frames == Purge(old(frames), duration)
    {
      ghost var before := frames;
      historyDuration := duration;
      PurgeIsPrefix(frames, duration);
      if duration <= floor {
        PurgeOfPrefix(before, all, duration);
        floor := duration;
      }
      PurgeExcessHistory();
    }

    method HasSufficientHistory() returns (b: bool)
      requires Valid()
      ensures b <==> frames != [] && Age(frames, |frames| - 1) >= historyDuration
      ensures floor == historyDuration ==> (b <==> Find(all, historyDuration).Some?)
    {
      if frames == [] {
        assert all == [];
        return false;
      }
      b := frames[0].0 - frames[|frames| - 1].0 >= historyDuration;
      if floor == historyDuration {
        PurgeIsPrefix(all, historyDuration);
        FindIsFirst(all, historyDuration);
      }
    }

    /** The index found, `|frames|` standing for `end()`. */
    method GetFrameHavingAgeAtLeast(age: int) returns (it: nat)
      requires Valid()
      ensures it == FindFrom(frames, age, 0)
      ensures age <= floor ==> Find(all, age) == if it < |frames| then Some(frames[it]) else None
    {
      it := 0;
      if frames != [] {
        var mostRecentTime := frames[0].0;
        while it < |frames| && mostRecentTime - frames[it].0 < age
          invariant it <= |frames|
          invariant FindFrom(frames, age, it) == FindFrom(frames, age, 0)
        {
          it := it + 1;
        }
      }
      if age <= floor { QueriesAgree(frames, all, age); }
    }
  }

  // -------------------------------------------------------------- properties

  lemma {:induction false} PurgeIsPrefix<T>(s: seq<Timed<T>>, d: int)
    ensures var p := Purge(s, d);
      && |p| <= |s| && p == s[..|p|]
      && (s != [] ==> p != [])
      && (|p| < |s| ==> Age(s, |p| - 1) >= d)
      && (|p| >= 2 ==> Age(s, |p| - 2) < d)
    decreases |s|
  {
    if |s| >= 2 && Age(s, |s| - 2) >= d {
      PurgeIsPrefix(s[..|s| - 1], d);
    }
  }

  lemma FindIsFirst<T>(s: seq<Timed<T>>, age: int)
    requires Ordered(s)
    ensures Find(s, age).Some? <==> s != [] && Age(s, |s| - 1) >= age
  {}

  /** How many frames purging keeps: the shortest prefix whose last frame is old enough, or everything. */
  lemma PurgeLength<T>(s: seq<Timed<T>>, d: int, n: nat)
    requires Ordered(s) && 0 < n <= |s|
    requires n < |s| ==> Age(s, n - 1) >= d
    requires n >= 2 ==> Age(s, n - 2) < d
    ensures Purge(s, d) == s[..n]
  {
    PurgeIsPrefix(s, d);
    assert forall i, j | 0 <= i <= j < |s| :: Age(s, i) <= Age(s, j);
  }

  /** Purging a part that still holds enough history gives what purging the whole gives. */
  lemma PurgeOfPrefix<T>(s: seq<Timed<T>>, all: seq<Timed<T>>, d: int)
    requires Ordered(all) && |s| <= |all| && s == all[..|s|] && (all != [] ==> s != [])
    requires |s| < |all| ==> Age(all, |s| - 1) >= d
    ensures Purge(s, d) == Purge(all, d)
  {
    PurgeIsPrefix(s, d);
    if s != [] {
      PurgeLength(all, d, |Purge(s, d)|);
    }
  }

  lemma ExtensionIsOlder<T>(x: Timed<T>, all: seq<Timed<T>>, i: nat)
    requires i < |all| && x.0 >= all[0].0
    ensures Age([x] + all, i + 1) >= Age(all, i)
  {}

  /** One more frame in front: what is kept still holds enough history. */
  lemma ExtensionHoldsEnough<T>(x: Timed<T>, s: seq<Timed<T>>, all: seq<Timed<T>>, d: int, floor: int)
    requires |s| <= |all| && s == all[..|s|] && (all != [] ==> s != [] && x.0 >= all[0].0)
    requires floor <= d && (|s| < |all| ==> Age(all, |s| - 1) >= floor)
    ensures var p := Purge([x] + s, d);
      && |p| <= |s| + 1 && p == ([x] + s)[..|p|] && p != []
      && (|p| < |all| + 1 ==> Age([x] + all, |p| - 1) >= floor)
  {
    PurgeIsPrefix([x] + s, d);
    var p := Purge([x] + s, d);
    if |p| <= |s| {
      assert Age([x] + all, |p| - 1) == Age([x] + s, |p| - 1);
    } else if |s| < |all| {
      ExtensionIsOlder(x, all, |s| - 1);
    }
  }

  lemma ExtensionIsOrdered<T>(x: Timed<T>, all: seq<Timed<T>>)
    requires Ordered(all) && (all != [] ==> x.0 >= all[0].0)
    ensures Ordered([x] + all)
  {}

  lemma ExtendPrefix<T>(x: Timed<T>, s: seq<Timed<T>>, all: seq<Timed<T>>, n: nat)
    requires |s| <= |all| && s == all[..|s|] && n <= |s| + 1
    ensures [x] + s == ([x] + all)[..|s| + 1] && ([x] + s)[..n] == ([x] + all)[..n]
  {}

  lemma PurgeOfExtension<T>(x: Timed<T>, s: seq<Timed<T>>, all: seq<Timed<T>>, d: int, floor: int)
    requires Ordered(all) && |s| <= |all| && s == all[..|s|] && (all != [] ==> s != [] && x.0 >= all[0].0)
    requires floor <= d && (|s| < |all| ==> Age(all, |s| - 1) >= floor)
    requires floor == d ==> s == Purge(all, d)
    ensures Ordered([x] + all) && [x] + s == ([x] + all)[..|s| + 1]
    ensures var p := Purge([x] + s, d);
      && |p| <= |all| + 1 && p == ([x] + all)[..|p|] && p != []
      && (|p| < |all| + 1 ==> Age([x] + all, |p| - 1) >= floor)
      && (floor == d ==> p == Purge([x] + all, d))
  {
    ExtensionIsOrdered(x, all);
    ExtensionHoldsEnough(x, s, all, d, floor);
    ExtendPrefix(x, s, all, |Purge([x] + s, d)|);
    if floor == d {
      if |s| < |all| { ExtensionIsOlder(x, all, |s| - 1); }
      PurgeOfPrefix([x] + s, [x] + all, d);
    }
  }

  /** For ages up to the shortest duration in force, the purged deque answers as the whole history would. */
  lemma QueriesAgree<T>(s: seq<Timed<T>>, all: seq<Timed<T>>, age: int)
    requires Ordered(all) && |s| <= |all| && s == all[..|s|] && (all != [] ==> s != [])
    requires |s| < |all| ==> Age(all, |s| - 1) >= age
    ensures Find(s, age) == Find(all, age)
  {
    assert forall i | 0 <= i < |s| :: Age(s, i) == Age(all, i);
  }

  ghost predicate Misses<T>(all: seq<Timed<T>>, k: nat, age: int)
    requires k <= |all|
  {
    Find(all[..k], age) != Find(all, age)
  }

  /** The first `k` frames get some age up to `d` wrong. */
  ghost predicate FallsShort<T>(all: seq<Timed<T>>, d: int, k: nat)
    requires k <= |all|
  {
    exists age :: age <= d && Misses(all, k, age)
  }

  /** No shorter prefix of the history answers every age up to `d` like the whole. */
  ghost predicate Shortest<T(!new)>(all: seq<Timed<T>>, d: int, n: nat)
    requires n <= |all|
  {
    forall k | 0 <= k < n :: FallsShort(all, d, k)
  }

  /** One age that no shorter prefix answers is enough. */
  lemma MissedByShorter<T(!new)>(all: seq<Timed<T>>, d: int, n: nat, age: int)
    requires Ordered(all) && 0 < n <= |all| && age <= d
    requires Age(all, n - 1) >= age && (n >= 2 ==> Age(all, n - 2) < age)
    ensures Shortest(all, d, n)
  {
    forall k | 0 <= k < n ensures FallsShort(all, d, k) {
      ShorterMissesTheLast(all, n, k, age);
      assert Misses(all, k, age);
    }
  }

  /** The last of two frames with one time answers no query. */
  lemma TwinIsNeverFound<T(!new)>(all: seq<Timed<T>>, d: int)
    requires Ordered(all) && |all| >= 2 && all[|all| - 2].0 == all[|all| - 1].0
    ensures !Shortest(all, d, |all|)
  {
    var k := |all| - 1;
    forall age ensures !Misses(all, k, age) {
      TwinChangesNothing(all, age);
    }
    assert !FallsShort(all, d, k);
  }

  lemma TwinChangesNothing<T>(all: seq<Timed<T>>, age: int)
    requires Ordered(all) && |all| >= 2 && all[|all| - 2].0 == all[|all| - 1].0
    ensures Find(all[..|all| - 1], age) == Find(all, age)
  {
    var n := |all| - 1;
    var shorter := all[..n];
    assert forall i | 0 <= i < n :: Age(shorter, i) == Age(all, i);
    assert Age(all, n) == Age(shorter, n - 1);
    var k, j := FindFrom(all, age, 0), FindFrom(shorter, age, 0);
    assert k < n ==> j == k;
  }

  /**
    What is kept is the shortest sufficient prefix, except when the two oldest kept frames carry the same time:
    then the last of them answers no query.
   */
  lemma KeptIsShortestIff<T(!new)>(all: seq<Timed<T>>, d: int)
    requires Ordered(all)
    ensures var n := |Purge(all, d)|;
      n <= |all| && (Shortest(all, d, n) <==> n < 2 || all[n - 2].0 != all[n - 1].0)
  {
    PurgeIsPrefix(all, d);
    var n := |Purge(all, d)|;
    if n >= 2 && all[n - 2].0 == all[n - 1].0 {
      TwinIsNeverFound(all, d);
    } else if n >= 2 {
      MissedByShorter(all, d, n, if Age(all, n - 1) < d then Age(all, n - 1) else d);
    } else if n == 1 {
      MissedByShorter(all, d, n, if d < 0 then d else 0);
    }
  }

  /** The exception happens: of two frames with one time both are kept, and the older one is never the answer. */
  lemma EqualTimesAreKept<T(!new)>(a: T, b: T)
    ensures var all := [(0, a), (0, b)]; Purge(all, 500000) == all && !Shortest(all, 500000, 2)
  {
    KeptIsShortestIff([(0, a), (0, b)], 500000);
  }

  lemma ShorterMissesTheLast<T>(all: seq<Timed<T>>, n: nat, k: nat, age: int)
    requires Ordered(all) && k < n <= |all|
    requires Age(all, n - 1) >= age && (n >= 2 ==> Age(all, n - 2) < age)
    ensures Find(all[..k], age) == None && Find(all, age).Some?
  {
    assert forall i | 0 <= i < k :: Age(all[..k], i) == Age(all, i) <= Age(all, n - 2);
  }
}
