/**
  The accounting of contrib/autowiring/autowiring/ObjectPool.h:120-402.

  Each stretch of code under the pool's lock is one step; the steps of any number of threads interleave.  A new
  object is built with the lock released, and the pool version it is wrapped with is read only then.  Objects are
  numbered in the order they are built.
 */
module ObjectPool {
  import opened ValueTree

  datatype Pool = Pool(
    version: nat,
    objs: seq<nat>,             // cached, last returned last
    maxPooled: nat,
    limit: nat,
    outstanding: nat,
    abandoned: bool,
    issued: map<nat, nat>,      // each with the version it was wrapped with
    building: nat,              // counted as outstanding, not yet wrapped
    freed: set<nat>,
    next: nat)                  // the next object built

  function Fresh(limit: nat, maxPooled: nat): Pool { Pool(0, [], maxPooled, limit, 0, false, map[], 0, {}, 0) }

  datatype Step =
    | Obtain              // `operator()`, or a wait whose condition has come true
    | Build               // the object it lacked is built and wrapped
    | Return(obj: nat)    // the last shared pointer to an issued object goes away
    | Clear
    | StoreMax(n: nat)    // `SetMaximumPooledEntities` stores without the lock,
    | Trim                //   then frees one object per turn of its loop
    | SetLimit(n: nat)
    | Abandon

  function Back(s: seq<nat>): nat
    requires s != []
  {
    s[|s| - 1]
  }

  function AllButBack(s: seq<nat>): seq<nat>
    requires s != []
  {
    s[..|s| - 1]
  }

  function Elements(s: seq<nat>): set<nat> { set x | x in s }

  predicate CanObtain(p: Pool) { p.outstanding < p.limit }

  predicate CanCache(p: Pool, version: nat) { version == p.version && |p.objs| < p.maxPooled }

  /** `ObtainElementUnsafe`, up to the release of the lock. */
  function Obtained(p: Pool): Pool {
    var p1 := p.(outstanding := p.outstanding + 1);
    if p.objs == [] then p1.(building := p.building + 1)
    else p1.(objs := AllButBack(p.objs), issued := p.issued[Back(p.objs) := p.version])
  }

  /** `ReturnUnsafe`, or the deletion of what comes back to an abandoned pool. */
  function Returned(p: Pool, obj: nat): Pool
    requires obj in p.issued && (!p.abandoned ==> p.outstanding > 0)
  {
    var p1 := p.(issued := p.issued - {obj});
    if p.abandoned then p1.(freed := p.freed + {obj})
    else
      var p2 := p1.(outstanding := p.outstanding - 1);
      if CanCache(p, p.issued[obj]) then p2.(objs := p.objs + [obj]) else p2.(freed := p.freed + {obj})
  }

  /** A step that is not due changes nothing. */
  function Next(p: Pool, a: Step): Pool
    requires Sound(p)
  {
    match a
    case Obtain => if CanObtain(p) then Obtained(p) else p
    case Build =>
      if p.building == 0 then p
      else p.(building := p.building - 1, issued := p.issued[p.next := p.version], next := p.next + 1)
    case Return(obj) => if obj in p.issued then SoundHasOutstanding(p, obj); Returned(p, obj) else p
    case Clear => p.(freed := p.freed + Elements(p.objs), objs := [], version := p.version + 1)
    case StoreMax(n) => p.(maxPooled := n)
    case Trim => if |p.objs| <= p.maxPooled then p else p.(freed := p.freed + {Back(p.objs)}, objs := AllButBack(p.objs))
    case SetLimit(n) => if p.limit == 0 && n != 0 then p else p.(limit := n)
    case Abandon => p.(abandoned := true)
  }

  /** What every state keeps: the count, one place for each object, and versions of the past. */
  ghost predicate Sound(p: Pool) {
    && (!p.abandoned ==> p.outstanding == |p.issued| + p.building)
    && (forall i, j | 0 <= i < j < |p.objs| :: p.objs[i] != p.objs[j])
    && (forall x | x in p.objs :: x !in p.issued && x !in p.freed)
    && (forall x | x in p.issued :: x !in p.freed && p.issued[x] <= p.version)
    && (forall x | 0 <= x :: x < p.next <==> x in p.objs || x in p.issued || x in p.freed)
  }

  /** So the assertion that a return finds something outstanding never fails. */
  lemma SoundHasOutstanding(p: Pool, obj: nat)
    requires Sound(p) && obj in p.issued
    ensures !p.abandoned ==> p.outstanding > 0
  {
    assert p.issued.Keys - {obj} < p.issued.Keys;
  }

  lemma IssuedGrows(m: map<nat, nat>, x: nat, v: nat)
    requires x !in m
    ensures |m[x := v]| == |m| + 1
  {
    assert m[x := v].Keys == m.Keys + {x};
  }

  lemma IssuedShrinks(m: map<nat, nat>, x: nat)
    requires x in m
    ensures |m - {x}| == |m| - 1
  {
    assert (m - {x}).Keys == m.Keys - {x};
  }

  lemma ObtainStaysSound(p: Pool)
    requires Sound(p)
    ensures Sound(Next(p, Obtain))
  {
    if CanObtain(p) && p.objs != [] {
      IssuedGrows(p.issued, Back(p.objs), p.version);
      assert p.objs == AllButBack(p.objs) + [Back(p.objs)];
      assert Back(p.objs) !in AllButBack(p.objs);
    }
  }

  lemma BuildStaysSound(p: Pool)
    requires Sound(p)
    ensures Sound(Next(p, Build))
  {
    if p.building != 0 {
      assert p.next !in p.issued && p.next !in p.objs && p.next !in p.freed;
      IssuedGrows(p.issued, p.next, p.version);
    }
  }

  lemma ReturnStaysSound(p: Pool, obj: nat)
    requires Sound(p)
    ensures Sound(Next(p, Return(obj)))
  {
    if obj in p.issued { IssuedShrinks(p.issued, obj); }
  }

  lemma ReturnedIsSound(p: Pool, obj: nat)
    requires Sound(p) && obj in p.issued
    ensures !p.abandoned ==> p.outstanding > 0
    ensures Next(p, Return(obj)) == Returned(p, obj) && Sound(Returned(p, obj))
  {
    SoundHasOutstanding(p, obj);
    ReturnStaysSound(p, obj);
  }

  lemma TrimStaysSound(p: Pool)
    requires Sound(p)
    ensures Sound(Next(p, Trim))
  {
    if |p.objs| > p.maxPooled {
      assert p.objs == AllButBack(p.objs) + [Back(p.objs)];
      assert Back(p.objs) !in AllButBack(p.objs);
    }
  }

  lemma StepStaysSound(p: Pool, a: Step)
    requires Sound(p)
    ensures Sound(Next(p, a))
  {
    match a
    case Obtain => ObtainStaysSound(p);
    case Build => BuildStaysSound(p);
    case Return(obj) => ReturnStaysSound(p, obj);
    case Trim => TrimStaysSound(p);
    case _ =>
  }

  function Run(p: Pool, steps: seq<Step>): (r: Pool)
    requires Sound(p)
    ensures Sound(r)
  {
    if steps == [] then p
    else
      var before := Run(p, steps[..|steps| - 1]);
      StepStaysSound(before, steps[|steps| - 1]);
      Next(before, steps[|steps| - 1])
  }

  lemma FreshIsSound(limit: nat, maxPooled: nat)
    ensures Sound(Fresh(limit, maxPooled))
  {}

  function Places(p: Pool, x: nat): nat {
    (if x in p.objs then 1 else 0) + (if x in p.issued then 1 else 0) + (if x in p.freed then 1 else 0)
  }

  /**
    In every reachable state the outstanding count is the number of issued and not yet returned objects, including
    those being built, and every object built so far is in exactly one of cached, issued and freed.
   */
  lemma EveryRunIsAccounted(limit: nat, maxPooled: nat, steps: seq<Step>, x: nat)
    ensures Sound(Fresh(limit, maxPooled))
    ensures var p := Run(Fresh(limit, maxPooled), steps);
      && (!p.abandoned ==> p.outstanding == |p.issued| + p.building)
      && Places(p, x) == if x < p.next then 1 else 0
  {
    FreshIsSound(limit, maxPooled);
  }

  // ------------------------------------------------------ freed and cleared

  /** Freed, or issued under a version that has passed. */
  predicate Gone(p: Pool, x: nat) { x in p.freed || (x in p.issued && p.issued[x] < p.version) }

  lemma GoneStaysGone(p: Pool, a: Step, x: nat)
    requires Sound(p) && Gone(p, x)
    ensures Gone(Next(p, a), x)
  {
    if a.Return? && a.obj in p.issued && x in p.issued && x != a.obj {
      assert x in (p.issued - {a.obj}).Keys;
    }
  }

  lemma {:induction false} GoneIsNeverCached(p: Pool, steps: seq<Step>, x: nat)
    requires Sound(p) && Gone(p, x)
    ensures Gone(Run(p, steps), x) && x !in Run(p, steps).objs
    decreases |steps|
  {
    if steps != [] {
      GoneIsNeverCached(p, steps[..|steps| - 1], x);
      GoneStaysGone(Run(p, steps[..|steps| - 1]), steps[|steps| - 1], x);
    }
  }

  /** No object wrapped before `ClearCachedEntities` is ever cached again. */
  lemma ClearedIsNeverCached(p: Pool, steps: seq<Step>, x: nat)
    requires Sound(p) && x < p.next
    ensures Sound(Next(p, Clear)) && x !in Run(Next(p, Clear), steps).objs
  {
    StepStaysSound(p, Clear);
    assert x in p.objs || x in p.issued || x in p.freed;
    GoneIsNeverCached(Next(p, Clear), steps, x);
  }

  /** A pool of one that was cleared while its first object was being built. */
  const CLEARED_WHILE_BUILDING := Fresh(1, 1).(version := 1, outstanding := 1, building := 1)

  lemma ObtainThenClear()
    ensures Sound(Fresh(1, 1)) && Run(Fresh(1, 1), [Obtain, Clear]) == CLEARED_WHILE_BUILDING
  {
    FreshIsSound(1, 1);
    RunOfTwo(Fresh(1, 1), Obtain, Clear);
    assert Elements([]) == {};
  }

  /** Such an object is wrapped with the new version, and may be cached. */
  lemma BuildingSurvivesClear()
    ensures Sound(CLEARED_WHILE_BUILDING) && Run(CLEARED_WHILE_BUILDING, [Build, Return(0)]).objs == [0]
  {
    ObtainThenClear();
    RunOfTwo(CLEARED_WHILE_BUILDING, Build, Return(0));
  }

  lemma RunOfTwo(p: Pool, a: Step, b: Step)
    requires Sound(p)
    ensures Sound(Next(p, a)) && Run(p, [a, b]) == Next(Next(p, a), b)
  {
    StepStaysSound(p, a);
    assert [a, b][..1] == [a] && [a][..0] == [];
    assert Run(p, [a]) == Next(p, a);
  }

  // ------------------------------------------------------------- the limit

  /** An object is issued only below the limit, so the count passes no limit it was issued under. */
  lemma IssuedOnlyBelowLimit(p: Pool, a: Step)
    requires Sound(p)
    ensures Next(p, a).outstanding > p.outstanding ==>
      a == Obtain && p.outstanding < p.limit && Next(p, a).outstanding == p.outstanding + 1 <= p.limit
  {}

  function Larger(a: nat, b: nat): nat { if a < b then b else a }

  /** The largest limit ever asked for. */
  function LargestLimit(limit: nat, steps: seq<Step>): nat {
    if steps == [] then limit
    else Larger(LargestLimit(limit, steps[..|steps| - 1]), if steps[|steps| - 1].SetLimit? then steps[|steps| - 1].n else 0)
  }

  lemma LimitStep(p: Pool, a: Step)
    requires Sound(p)
    ensures Next(p, a).limit <= Larger(p.limit, if a.SetLimit? then a.n else 0)
    ensures Next(p, a).outstanding <= Larger(p.outstanding, p.limit)
  {
    IssuedOnlyBelowLimit(p, a);
  }

  lemma {:induction false} OutstandingIsLimited(limit: nat, maxPooled: nat, steps: seq<Step>)
    ensures Sound(Fresh(limit, maxPooled))
    ensures var p := Run(Fresh(limit, maxPooled), steps);
      p.outstanding <= LargestLimit(limit, steps) && p.limit <= LargestLimit(limit, steps)
    decreases |steps|
  {
    FreshIsSound(limit, maxPooled);
    if steps != [] {
      OutstandingIsLimited(limit, maxPooled, steps[..|steps| - 1]);
      LimitStep(Run(Fresh(limit, maxPooled), steps[..|steps| - 1]), steps[|steps| - 1]);
    }
  }

  lemma StepKeepsZeroLimit(p: Pool, a: Step)
    requires Sound(p) && p.limit == 0
    ensures Next(p, a).limit == 0 && Next(p, a).outstanding <= p.outstanding && Next(p, a).building <= p.building
  {}

  /** Zero is for ever: a later attempt to raise it throws, and nothing is issued any more. */
  lemma {:induction false} ZeroLimitIsForever(p: Pool, steps: seq<Step>)
    requires Sound(p) && p.limit == 0
    ensures var r := Run(p, steps); r.limit == 0 && r.outstanding <= p.outstanding && r.building <= p.building
    decreases |steps|
  {
    if steps != [] {
      ZeroLimitIsForever(p, steps[..|steps| - 1]);
      StepKeepsZeroLimit(Run(p, steps[..|steps| - 1]), steps[|steps| - 1]);
    }
  }

  // -------------------------------------------------------------- rundown

  ghost predicate IsRundownOver(p: Pool) { Sound(p) && !p.abandoned && p.limit == 0 && p.outstanding == 0 }

  /** Nothing is issued, nothing is being built, and nothing can be any more. */
  ghost predicate IsSpent(p: Pool) { p.limit == 0 && p.outstanding == 0 && p.issued == map[] && p.building == 0 }

  lemma RundownOverIsSpent(p: Pool)
    requires IsRundownOver(p)
    ensures IsSpent(p)
  {
    assert p.issued == map[] || |p.issued| > 0;
  }

  lemma SpentStaysSpent(p: Pool, a: Step)
    requires Sound(p) && IsSpent(p)
    ensures IsSpent(Next(p, a)) && |Next(p, a).objs| <= |p.objs|
  {}

  lemma {:induction false} SpentIsForever(p: Pool, steps: seq<Step>)
    requires Sound(p) && IsSpent(p)
    ensures IsSpent(Run(p, steps)) && |Run(p, steps).objs| <= |p.objs|
    decreases |steps|
  {
    if steps != [] {
      SpentIsForever(p, steps[..|steps| - 1]);
      SpentStaysSpent(Run(p, steps[..|steps| - 1]), steps[|steps| - 1]);
    }
  }

  /** Once a rundown is over nothing is outstanding and the cache can only shrink, for ever. */
  lemma RundownIsForever(p: Pool, steps: seq<Step>)
    requires IsRundownOver(p)
    ensures IsSpent(Run(p, steps)) && |Run(p, steps).objs| <= |p.objs|
  {
    RundownOverIsSpent(p);
    SpentIsForever(p, steps);
  }

  ghost predicate NoRaise(steps: seq<Step>) { forall i | 0 <= i < |steps| :: steps[i].StoreMax? ==> steps[i].n == 0 }

  lemma StepCachesNothing(p: Pool, a: Step)
    requires Sound(p) && p.maxPooled == 0 && (a.StoreMax? ==> a.n == 0)
    ensures Next(p, a).maxPooled == 0 && (p.objs == [] ==> Next(p, a).objs == [])
  {}

  lemma {:induction false} NothingIsCached(p: Pool, steps: seq<Step>)
    requires Sound(p) && p.maxPooled == 0 && p.objs == [] && NoRaise(steps)
    ensures Run(p, steps).maxPooled == 0 && Run(p, steps).objs == []
    decreases |steps|
  {
    if steps != [] {
      NothingIsCached(p, steps[..|steps| - 1]);
      StepCachesNothing(Run(p, steps[..|steps| - 1]), steps[|steps| - 1]);
    }
  }

  lemma {:induction false} MaxStaysZero(p: Pool, steps: seq<Step>)
    requires Sound(p) && p.maxPooled == 0 && NoRaise(steps)
    ensures Run(p, steps).maxPooled == 0
    decreases |steps|
  {
    if steps != [] {
      MaxStaysZero(p, steps[..|steps| - 1]);
      StepCachesNothing(Run(p, steps[..|steps| - 1]), steps[|steps| - 1]);
    }
  }

  /** The pool when the trimming loop is over. */
  function Trimmed(p: Pool, a: seq<Step>): (r: Pool)
    requires Sound(p)
    ensures Sound(r)
  {
    StepStaysSound(p, StoreMax(0));
    Run(Next(p, StoreMax(0)), a)
  }

  /** And when the limit has been set. */
  function Closed(p: Pool): (r: Pool)
    requires Sound(p)
    ensures Sound(r)
  {
    StepStaysSound(p, SetLimit(0));
    Next(p, SetLimit(0))
  }

  /** A rundown among other threads: `a` while it trims, `b` while it waits. */
  function Rundown(p: Pool, a: seq<Step>, b: seq<Step>): (r: Pool)
    requires Sound(p)
    ensures Sound(r)
  {
    Run(Closed(Trimmed(p, a)), b)
  }

  /** The trimming loop has found the cache small enough, and the wait has found nothing outstanding. */
  ghost predicate RundownReturns(p: Pool, a: seq<Step>, b: seq<Step>)
    requires Sound(p)
  {
    |Trimmed(p, a).objs| <= Trimmed(p, a).maxPooled && IsRundownOver(Rundown(p, a, b))
  }

  /**
    After `Rundown` returns, nothing is outstanding ever again.  The cached count stays zero for ever as well,
    provided nobody raised the maximum while it ran.
   */
  lemma RundownEndsEverything(p: Pool, a: seq<Step>, b: seq<Step>, later: seq<Step>)
    requires Sound(p)
    ensures var r := Run(Rundown(p, a, b), later);
      RundownReturns(p, a, b) ==> r.outstanding == 0 && r.issued == map[] && (NoRaise(a) && NoRaise(b) ==> r.objs == [])
  {
    if RundownReturns(p, a, b) {
      RundownIsForever(Rundown(p, a, b), later);
      if NoRaise(a) && NoRaise(b) { RundownEmptiesCache(p, a, b); }
    }
  }

  lemma RundownEmptiesCache(p: Pool, a: seq<Step>, b: seq<Step>)
    requires Sound(p) && NoRaise(a) && NoRaise(b)
    ensures RundownReturns(p, a, b) ==> Rundown(p, a, b).objs == []
  {
    if RundownReturns(p, a, b) {
      StepStaysSound(p, StoreMax(0));
      MaxStaysZero(Next(p, StoreMax(0)), a);
      NothingIsCached(Closed(Trimmed(p, a)), b);
    }
  }

  /** The cache stays empty from then on exactly when it is empty then. */
  lemma CacheStaysEmptyIff(p: Pool)
    requires IsRundownOver(p)
    ensures (forall later :: Run(p, later).objs == []) <==> p.objs == []
  {
    if p.objs == [] {
      forall later ensures Run(p, later).objs == [] {
        RundownIsForever(p, later);
      }
    } else {
      assert Run(p, []).objs != [];
    }
  }

  // ------------------------------------- when a rundown empties the cache for good

  /** Nothing is cached, nothing is being built, no issued object may still come back, and none can be issued. */
  ghost predicate IsDry(p: Pool) {
    && p.objs == [] && p.building == 0 && p.limit == 0
    && (forall x | x in p.issued :: p.issued[x] < p.version)
  }

  lemma DryStaysDry(p: Pool, a: Step)
    requires Sound(p) && IsDry(p)
    ensures IsDry(Next(p, a))
  {
    if a.Return? && a.obj in p.issued {
      var left := p.issued - {a.obj};
      assert forall x | x in left :: left[x] == p.issued[x];
    }
  }

  lemma {:induction false} DryIsForever(p: Pool, steps: seq<Step>)
    requires Sound(p) && IsDry(p)
    ensures IsDry(Run(p, steps))
    decreases |steps|
  {
    if steps != [] {
      DryIsForever(p, steps[..|steps| - 1]);
      DryStaysDry(Run(p, steps[..|steps| - 1]), steps[|steps| - 1]);
    }
  }

  lemma {:induction false} AbandonedIsForever(p: Pool, steps: seq<Step>)
    requires Sound(p) && p.abandoned
    ensures Run(p, steps).abandoned
    decreases |steps|
  {
    if steps != [] { AbandonedIsForever(p, steps[..|steps| - 1]); }
  }

  /** The rundown does not return, or the cache is empty at any time after it. */
  ghost predicate LeavesEmpty(p: Pool, a: seq<Step>, b: seq<Step>, later: seq<Step>)
    requires Sound(p)
  {
    RundownReturns(p, a, b) ==> Run(Rundown(p, a, b), later).objs == []
  }

  lemma DryLeavesEmpty(p: Pool, a: seq<Step>, b: seq<Step>, later: seq<Step>)
    requires Sound(p) && (p.abandoned || IsDry(p))
    ensures LeavesEmpty(p, a, b, later)
  {
    StepStaysSound(p, StoreMax(0));
    var trimmed := Trimmed(p, a);
    if p.abandoned {
      AbandonedIsForever(Next(p, StoreMax(0)), a);
      AbandonedIsForever(Closed(trimmed), b);
    } else {
      DryStaysDry(p, StoreMax(0));
      DryIsForever(Next(p, StoreMax(0)), a);
      DryStaysDry(trimmed, SetLimit(0));
      DryIsForever(Closed(trimmed), b);
      DryIsForever(Rundown(p, a, b), later);
    }
  }

  lemma {:induction false} RunConcat(p: Pool, a: seq<Step>, b: seq<Step>)
    requires Sound(p)
    ensures Run(p, a + b) == Run(Run(p, a), b)
    decreases |b|
  {
    if b == [] {
      assert a + b == a;
    } else {
      RunConcat(p, a, b[..|b| - 1]);
      assert (a + b)[..|a + b| - 1] == a + b[..|b| - 1];
    }
  }

  lemma RunOfOne(p: Pool, a: Step)
    requires Sound(p)
    ensures Run(p, [a]) == Next(p, a)
  {
    assert [a][..0] == [];
  }

  lemma RunFirst(p: Pool, a: Step, b: seq<Step>)
    requires Sound(p)
    ensures Sound(Next(p, a)) && Run(p, [a] + b) == Run(Next(p, a), b)
  {
    StepStaysSound(p, a);
    RunOfOne(p, a);
    RunConcat(p, [a], b);
  }

  lemma BuildGoesOn(p: Pool)
    requires Sound(p) && p.building > 0
    ensures var q := Next(p, Build);
      && q.building < p.building && q.objs == p.objs && q.limit == p.limit && q.abandoned == p.abandoned
      && q.maxPooled == p.maxPooled && p.next in q.issued && q.issued[p.next] == q.version
  {}

  lemma ReturnGoesOn(p: Pool, x: nat)
    requires Sound(p) && !p.abandoned && x in p.issued
    ensures var q := Next(p, Return(x));
      && q.building == p.building && |q.issued| < |p.issued| && q.limit == p.limit && !q.abandoned
      && q.objs == if CanCache(p, p.issued[x]) then p.objs + [x] else p.objs
  {
    SoundHasOutstanding(p, x);
    IssuedShrinks(p.issued, x);
  }

  /** Everything outstanding can always come back, and what is cached stays cached meanwhile. */
  lemma {:induction false} Drain(p: Pool) returns (steps: seq<Step>)
    requires Sound(p) && !p.abandoned && p.limit == 0
    ensures IsRundownOver(Run(p, steps)) && |Run(p, steps).objs| >= |p.objs|
    decreases p.building, |p.issued|
  {
    if p.building > 0 {
      BuildGoesOn(p);
      StepStaysSound(p, Build);
      var more := Drain(Next(p, Build));
      RunFirst(p, Build, more);
      steps := [Build] + more;
    } else if x :| x in p.issued {
      ReturnGoesOn(p, x);
      StepStaysSound(p, Return(x));
      var more := Drain(Next(p, Return(x)));
      RunFirst(p, Return(x), more);
      steps := [Return(x)] + more;
    } else {
      NothingIssued(p.issued);
      steps := [];
    }
  }

  lemma NothingIssued(m: map<nat, nat>)
    requires forall x :: x !in m
    ensures |m| == 0
  {
    assert m == map[];
  }

  /** A schedule that ends with something cached, from the moment the limit is zero. */
  lemma Finish(p: Pool, a: seq<Step>, c: seq<Step>) returns (b: seq<Step>)
    requires Sound(p)
    requires var trimmed := Trimmed(p, a);
      var q := Run(Closed(trimmed), c);
      |trimmed.objs| <= trimmed.maxPooled && !q.abandoned && q.limit == 0 && q.objs != []
    ensures !LeavesEmpty(p, a, b, [])
  {
    var q := Closed(Trimmed(p, a));
    var more := Drain(Run(q, c));
    b := c + more;
    RunConcat(q, c, more);
    assert Run(Rundown(p, a, b), []) == Rundown(p, a, b);
  }

  lemma RaisedAfter(p: Pool, n: nat)
    requires Sound(p)
    ensures Trimmed(p, [StoreMax(n)]) == p.(maxPooled := n)
    ensures Closed(p.(maxPooled := n)) == p.(maxPooled := n, limit := 0)
  {
    StepStaysSound(p, StoreMax(0));
    RunOfOne(Next(p, StoreMax(0)), StoreMax(n));
  }

  /** What is cached survives a raised maximum. */
  lemma CachedStays(p: Pool) returns (a: seq<Step>, b: seq<Step>)
    requires Sound(p) && !p.abandoned && p.objs != []
    ensures !LeavesEmpty(p, a, b, [])
  {
    RaisedAfter(p, |p.objs|);
    a := [StoreMax(|p.objs|)];
    assert Run(Closed(Trimmed(p, a)), []) == Closed(Trimmed(p, a));
    b := Finish(p, a, []);
  }

  /** What is issued under the current version comes back into the cache. */
  lemma IssuedComesBack(p: Pool, x: nat) returns (a: seq<Step>, b: seq<Step>)
    requires Sound(p) && !p.abandoned && p.objs == [] && x in p.issued && p.issued[x] == p.version
    ensures !LeavesEmpty(p, a, b, [])
  {
    RaisedAfter(p, 1);
    a := [StoreMax(1)];
    var q := Closed(Trimmed(p, a));
    RunOfOne(q, Return(x));
    ReturnGoesOn(q, x);
    b := Finish(p, a, [Return(x)]);
  }

  /** So does what is being built, with the limit already closed. */
  lemma BuiltComesBack(p: Pool, a: seq<Step>) returns (b: seq<Step>)
    requires Sound(p)
    requires var r := Trimmed(p, a); !r.abandoned && r.objs == [] && r.building > 0 && r.maxPooled == 1
    ensures !LeavesEmpty(p, a, b, [])
  {
    var q := Closed(Trimmed(p, a));
    var x := q.next;
    BuildGoesOn(q);
    StepStaysSound(q, Build);
    ReturnGoesOn(Next(q, Build), x);
    RunOfTwo(q, Build, Return(x));
    b := Finish(p, a, [Build, Return(x)]);
  }

  /** With nothing cached, built or current, everything issued can be freed. */
  lemma {:induction false} FreeStale(p: Pool) returns (steps: seq<Step>)
    requires Sound(p) && !p.abandoned && p.objs == [] && p.building == 0
    requires forall x | x in p.issued :: p.issued[x] < p.version
    ensures var r := Run(p, steps);
      && !r.abandoned && r.objs == [] && r.building == 0 && r.outstanding == 0
      && r.limit == p.limit && r.maxPooled == p.maxPooled
    decreases |p.issued|
  {
    if x :| x in p.issued {
      var q := Next(p, Return(x));
      ReturnGoesOn(p, x);
      StepStaysSound(p, Return(x));
      assert forall y | y in q.issued :: q.issued[y] == p.issued[y];
      var more := FreeStale(q);
      RunFirst(p, Return(x), more);
      steps := [Return(x)] + more;
    } else {
      NothingIssued(p.issued);
      steps := [];
    }
  }

  /** Below a positive limit an object can be obtained while the cache is trimmed. */
  lemma ObtainedComesBack(p: Pool) returns (a: seq<Step>, b: seq<Step>)
    requires Sound(p) && !p.abandoned && p.objs == [] && p.building == 0 && p.limit > 0
    requires forall x | x in p.issued :: p.issued[x] < p.version
    ensures !LeavesEmpty(p, a, b, [])
  {
    RaisedAfter(p, 1);
    var q := Trimmed(p, [StoreMax(1)]);
    var stale := FreeStale(q);
    a := [StoreMax(1)] + (stale + [Obtain]);
    StepStaysSound(p, StoreMax(0));
    RunConcat(Next(p, StoreMax(0)), [StoreMax(1)], stale + [Obtain]);
    RunConcat(q, stale, [Obtain]);
    RunOfOne(Run(q, stale), Obtain);
    b := BuiltComesBack(p, a);
  }

  lemma NotDryShows(p: Pool) returns (a: seq<Step>, b: seq<Step>)
    requires Sound(p) && !p.abandoned && !IsDry(p)
    ensures !LeavesEmpty(p, a, b, [])
  {
    if p.objs != [] {
      a, b := CachedStays(p);
    } else if x :| x in p.issued && p.issued[x] >= p.version {
      a, b := IssuedComesBack(p, x);
    } else if p.building > 0 {
      a := [StoreMax(1)];
      RaisedAfter(p, 1);
      b := BuiltComesBack(p, a);
    } else {
      a, b := ObtainedComesBack(p);
    }
  }

  /**
    A rundown leaves the cache empty for ever under every interference if and only if the pool it is called on is
    dry: nothing cached or being built, no issued object of the current version, and a limit of zero already.  (An
    abandoned pool is one whose destruction has begun.)
   */
  lemma RundownEmptiesCacheIff(p: Pool)
    requires Sound(p)
    ensures (forall a, b, later :: LeavesEmpty(p, a, b, later)) <==> p.abandoned || IsDry(p)
  {
    if p.abandoned || IsDry(p) {
      forall a, b, later ensures LeavesEmpty(p, a, b, later) {
        DryLeavesEmpty(p, a, b, later);
      }
    } else {
      var a, b := NotDryShows(p);
      assert !LeavesEmpty(p, a, b, []);
    }
  }

  /** One object issued from a pool of one. */
  const ONE_ISSUED := Fresh(1, 1).(outstanding := 1, issued := map[0 := 0], next := 1)

  lemma OneIssuedIsSound()
    ensures Sound(ONE_ISSUED)
  {
    assert ONE_ISSUED.issued.Keys == {0};
    assert |ONE_ISSUED.issued| == 1;
  }

  /** With such a raise an object comes back into the cache of a pool that has been run down. */
  lemma RaisedRundownKeepsObject()
    ensures Sound(ONE_ISSUED)
    ensures RundownReturns(ONE_ISSUED, [], [StoreMax(1), Return(0)])
    ensures Rundown(ONE_ISSUED, [], [StoreMax(1), Return(0)]).objs == [0]
  {
    OneIssuedIsSound();
    var p := ONE_ISSUED;
    assert Run(Next(p, StoreMax(0)), []) == Next(p, StoreMax(0));
    StepStaysSound(Next(p, StoreMax(0)), SetLimit(0));
    RunOfTwo(Next(Next(p, StoreMax(0)), SetLimit(0)), StoreMax(1), Return(0));
  }

  // -------------------------------------------------------------- the class

  /** What obtaining gives: nothing at the limit, a cached object, or leave to build one. */
  datatype Answer = Refused | Cached(obj: nat) | ToBuild

  /** All but the `k` oldest freed. */
  function Shortened(p: Pool, k: nat): Pool
    requires k <= |p.objs|
  {
    p.(objs := p.objs[..k], freed := p.freed + Elements(p.objs[k..]))
  }

  lemma OneMoreFreed(s: seq<nat>, k: nat)
    requires 0 < k <= |s|
    ensures s[..k][..k - 1] == s[..k - 1] && s[..k][k - 1] == s[k - 1]
    ensures Elements(s[k - 1..]) == Elements(s[k..]) + {s[k - 1]}
  {
    assert s[k - 1..] == [s[k - 1]] + s[k..];
  }

  lemma TrimShortens(p: Pool, k: nat)
    requires p.maxPooled < k <= |p.objs| && Sound(Shortened(p, k))
    ensures Next(Shortened(p, k), Trim) == Shortened(p, k - 1)
  {
    OneMoreFreed(p.objs, k);
  }

  class ObjectPool {
    var poolVersion: nat
    var objs: seq<nat>
    var maxPooled: nat
    var limit: nat
    var outstanding: nat
    var abandoned: bool
    ghost var issued: map<nat, nat>
    ghost var building: nat
    ghost var freed: set<nat>
    var next: nat

    ghost function Now(): Pool
      reads this
    {
      Pool(poolVersion, objs, maxPooled, limit, outstanding, abandoned, issued, building, freed, next)
    }

    ghost predicate Valid()
      reads this
    {
      Sound(Now())
    }

    constructor (limit: nat, maxPooled: nat)
      ensures Valid() && Now() == Fresh(limit, maxPooled)
    {
      poolVersion, objs, this.maxPooled, this.limit := 0, [], maxPooled, limit;
      outstanding, abandoned, next := 0, false, 0;
      issued, building, freed := map[], 0, {};
    }

    method ObtainElement() returns (r: Answer)
      requires Valid()
      modifies this
      ensures Valid() && Now() == Next(old(Now()), Obtain)
      ensures r.Refused? <==> old(outstanding) >= old(limit)
      ensures r.Cached? <==> old(outstanding) < old(limit) && old(objs) != []
      ensures r.Cached? ==> r.obj == Back(old(objs)) && r.obj in issued
    {
      StepStaysSound(Now(), Obtain);
      if limit <= outstanding {
        return Refused;
      }
      r := ObtainElementUnsafe();
    }

    /** The limit is the caller's business. */
    method ObtainElementUnsafe() returns (r: Answer)
      modifies this
      ensures Now() == Obtained(old(Now()))
      ensures if old(objs) == [] then r == ToBuild else r == Cached(Back(old(objs))) && r.obj in issued
    {
      outstanding := outstanding + 1;
      if objs == [] {
        building := building + 1;
        return ToBuild;
      }
      r := Cached(objs[|objs| - 1]);
      issued := issued[r.obj := poolVersion];
      objs := objs[..|objs| - 1];
    }

    method BuildElement() returns (obj: nat)
      requires Valid() && building > 0
      modifies this
      ensures Valid() && Now() == Next(old(Now()), Build)
      ensures obj == old(next) && obj in issued
    {
      StepStaysSound(Now(), Build);
      obj := next;
      next := next + 1;
      building := building - 1;
      issued := issued[obj := poolVersion];
    }

    /** The assertion that something is outstanding is the precondition. */
    method ReturnUnsafe(version: nat, obj: nat) returns (inPool: bool)
      requires outstanding > 0
      modifies this`outstanding, this`objs
      ensures inPool <==> CanCache(old(Now()), version)
      ensures outstanding == old(outstanding) - 1
      ensures objs == if inPool then old(objs) + [obj] else old(objs)
    {
      outstanding := outstanding - 1;
      inPool := version == poolVersion && |objs| < maxPooled;
      if inPool {
        objs := objs + [obj];
      }
    }

    /** The deleter of an issued pointer; `version` is what it captured. */
    method ReturnElement(obj: nat, version: nat) returns (inPool: bool)
      requires Valid() && obj in issued && issued[obj] == version
      modifies this
      ensures Valid() && Now() == Next(old(Now()), Return(obj))
      ensures inPool <==> !old(abandoned) && CanCache(old(Now()), version)
    {
      ReturnedIsSound(Now(), obj);
      inPool := Deliver(obj, version);
    }

    method Deliver(obj: nat, version: nat) returns (inPool: bool)
      requires obj in issued && issued[obj] == version && (!abandoned ==> outstanding > 0)
      modifies this
      ensures Now() == Returned(old(Now()), obj)
      ensures inPool <==> !old(abandoned) && CanCache(old(Now()), version)
    {
      inPool := false;
      issued := issued - {obj};
      if !abandoned {
        inPool := ReturnUnsafe(version, obj);
      }
      if !inPool {
        freed := freed + {obj};
      }
    }

    method ClearCachedEntities()
      requires Valid()
      modifies this
      ensures Valid() && Now() == Next(old(Now()), Clear)
    {
      StepStaysSound(Now(), Clear);
      freed := freed + Elements(objs);
      objs := [];
      poolVersion := poolVersion + 1;
    }

    /** Undisturbed, it keeps the oldest of the cache; nothing ties the maximum to the limit. */
    method SetMaximumPooledEntities(n: nat)
      requires Valid()
      modifies this`maxPooled, this`objs, this`freed
      ensures Valid() && maxPooled == n
      ensures objs == if |old(objs)| <= n then old(objs) else old(objs)[..n]
      ensures freed == old(freed) + Elements(old(objs)[|objs|..])
    {
      StepStaysSound(Now(), StoreMax(n));
      maxPooled := n;
      ghost var start := Now();
      assert start == Shortened(start, |objs|);
      while |objs| > maxPooled
        invariant Valid() && |objs| <= |start.objs| && Now() == Shortened(start, |objs|)
        invariant |objs| >= n || |objs| == |start.objs|
      {
        TrimShortens(start, |objs|);
        FreeBack();
      }
    }

    method FreeBack()
      requires Valid() && |objs| > maxPooled
      modifies this`objs, this`freed
      ensures Valid() && Now() == Next(old(Now()), Trim)
    {
      StepStaysSound(Now(), Trim);
      freed := freed + {objs[|objs| - 1]};
      objs := objs[..|objs| - 1];
    }

    /** False where it throws. */
    method SetOutstandingLimit(n: nat) returns (ok: bool)
      requires Valid()
      modifies this`limit
      ensures Valid() && Now() == Next(old(Now()), SetLimit(n))
      ensures ok <==> old(limit) != 0 || n == 0
    {
      StepStaysSound(Now(), SetLimit(n));
      if limit == 0 && n != 0 {
        return false;
      }
      limit := n;
      return true;
    }

    /** One object checked out, cached or new, unless the pool is at its limit. */
    method CheckOut() returns (obj: Option<nat>)
      requires Valid()
      modifies this
      ensures Valid() && Unmoved(old(Now()), Now())
      ensures obj.None? <==> old(outstanding) >= old(limit)
      ensures obj.None? ==> Now() == old(Now())
      ensures obj.Some? ==>
        && obj.value !in old(issued) && issued == old(issued)[obj.value := poolVersion] && outstanding == old(outstanding) + 1
        && (if old(objs) == [] then objs == [] && obj.value == old(next) else objs == AllButBack(old(objs)) && obj.value == Back(old(objs)))
    {
      assert next !in issued;
      assert objs != [] ==> Back(objs) in objs;
      var r := ObtainElement();
      match r {
        case Refused => return None;
        case Cached(o) => return Some(o);
        case ToBuild =>
          var o := BuildElement();
          return Some(o);
      }
    }

    /** Up to `n` objects, the cache first. */
    method CheckOutAll(n: nat) returns (held: seq<nat>)
      requires Valid()
      modifies this
      ensures Valid() && Unmoved(old(Now()), Now()) && HeldBy(Now(), held)
      ensures |held| == Smaller(n, old(Room(Now()))) && outstanding == old(outstanding) + |held|
      ensures objs == old(objs)[..|old(objs)| - Smaller(|held|, |old(objs)|)]
      ensures forall x | x in old(objs) :: x in objs || x in held
    {
      held := [];
      ghost var start := Now();
      for i := n downto 0
        invariant Valid() && Unmoved(start, Now())
        invariant |held| == Smaller(n - i, Room(start)) && outstanding == start.outstanding + |held|
        invariant HeldBy(Now(), held)
        invariant objs == start.objs[..|start.objs| - Smaller(|held|, |start.objs|)]
        invariant forall x | x in start.objs :: x in objs || x in held
      {
        ghost var was := Now();
        var o := CheckOut();
        if o.Some? {
          HeldGrows(was, Now(), held, o.value);
          OneFewerLeft(start.objs, |was.objs|, held, o.value);
          held := held + [o.value];
        }
      }
    }

    /** Back they go, where there is room for all of them. */
    method ReturnAll(held: seq<nat>)
      requires Valid() && !abandoned && HeldBy(Now(), held) && |objs| + |held| <= maxPooled && |held| <= outstanding
      modifies this
      ensures Valid() && Unmoved(old(Now()), Now())
      ensures outstanding == old(outstanding) - |held| && objs == old(objs) + held
    {
      ghost var start := Now();
      for i := 0 to |held|
        invariant Valid() && Unmoved(start, Now())
        invariant outstanding == start.outstanding - i
        invariant HeldBy(Now(), held[i..])
        invariant objs == start.objs + held[..i]
      {
        ghost var was := Now();
        assert held[i..][0] == held[i] && held[i..][1..] == held[i + 1..];
        var _ := ReturnElement(held[i], poolVersion);
        HeldShrinks(was, Now(), held[i..]);
      }
      assert held[..|held|] == held;
    }

    /**
      Undisturbed, everything checked out goes back: the cache then holds as many objects as were asked for, as far
      as the maximum and the room below the limit allow, nothing it held before is lost, and nothing is outstanding
      that was not.
     */
    method Preallocate(reservation: nat)
      requires Valid() && !abandoned && |objs| <= maxPooled
      modifies this
      ensures Valid() && Unmoved(old(Now()), Now()) && outstanding == old(outstanding)
      ensures |objs| == Larger(|old(objs)|, Smaller(Smaller(reservation, old(maxPooled)), old(Room(Now()))))
      ensures forall x | x in old(objs) :: x in objs
    {
      var n := if reservation > maxPooled then maxPooled else reservation;
      var held := CheckOutAll(n);
      ReturnAll(held);
    }
  }

  /** Of the cache `s` the `k` oldest were left, and now one fewer is. */
  lemma OneFewerLeft(s: seq<nat>, k: nat, held: seq<nat>, x: nat)
    requires k <= |s| && (k > 0 ==> x == Back(s[..k]))
    requires forall y | y in s :: y in s[..k] || y in held
    ensures k > 0 ==> AllButBack(s[..k]) == s[..k - 1]
    ensures forall y | y in s :: y in s[..if k > 0 then k - 1 else 0] || y in held + [x]
  {
    if k > 0 {
      assert s[..k] == s[..k - 1] + [x];
    }
  }

  function Smaller(a: nat, b: nat): nat { if a < b then a else b }

  /** How many more objects may be issued. */
  function Room(p: Pool): nat { if p.outstanding < p.limit then p.limit - p.outstanding else 0 }

  predicate Unmoved(p: Pool, q: Pool) {
    q.version == p.version && q.maxPooled == p.maxPooled && q.limit == p.limit && q.abandoned == p.abandoned
  }

  /** Distinct objects issued under the current version. */
  ghost predicate HeldBy(p: Pool, held: seq<nat>) {
    && (forall i, j | 0 <= i < j < |held| :: held[i] != held[j])
    && (forall i | 0 <= i < |held| :: held[i] in p.issued && p.issued[held[i]] == p.version)
  }

  lemma HeldGrows(p: Pool, q: Pool, held: seq<nat>, x: nat)
    requires HeldBy(p, held) && x !in p.issued && q.version == p.version && q.issued == p.issued[x := p.version]
    ensures HeldBy(q, held + [x])
  {}

  lemma HeldShrinks(p: Pool, q: Pool, held: seq<nat>)
    requires held != [] && HeldBy(p, held) && q.version == p.version && q.issued == p.issued - {held[0]}
    ensures HeldBy(q, held[1..])
  {
    forall i | 1 <= i < |held| ensures held[i] in q.issued {
      assert held[0] != held[i];
    }
  }
}
