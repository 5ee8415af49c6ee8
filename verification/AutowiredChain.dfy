/**
  The lock-free list of deferred callbacks in contrib/autowiring/autowiring/Autowired.h:132-221.

  Registering threads and the releaser interleave at their accesses to `m_pFirstChild`; the weak compare-and-swap
  may fail for no reason.  Every access is taken to be sequentially consistent.
 */
module AutowiredChain {

  /** A value of `m_pFirstChild`: null, a registered node, or the slot itself as the tombstone. */
  datatype Link = Null | Node(n: nat) | Tombstone

  /** How far a call of `NotifyWhenAutowired` has come with its node. */
  datatype Progress =
    | Called
    | Loaded(seen: Link)
    | Linked(seen: Link)
    | Chained
    | RanSelf        // satisfied by its registrant, who saw the tombstone
    | RanAtOnce      // the slot was already wired

  datatype State = State(head: Link, flink: map<nat, Link>, calls: map<nat, Progress>, released: seq<Link>)

  datatype Step =
    | Call(n: nat, wired: bool)
    | Load(n: nat)
    | SetFlink(n: nat)
    | Swap(n: nat, spurious: bool)
    | Release

  const FRESH := State(Null, map[], map[], [])

  /** A step that is not due changes nothing. */
  function Next(s: State, a: Step): State {
    match a
    case Call(n, wired) =>
      if n in s.calls then s
      else if wired then s.(calls := s.calls[n := RanAtOnce])
      else s.(calls := s.calls[n := Called], flink := s.flink[n := Null])
    case Load(n) =>
      if n !in s.calls || s.calls[n] != Called then s
      else if s.head == Tombstone then s.(calls := s.calls[n := RanSelf])
      else s.(calls := s.calls[n := Loaded(s.head)])
    case SetFlink(n) =>
      if n !in s.calls || !s.calls[n].Loaded? then s
      else s.(flink := s.flink[n := s.calls[n].seen], calls := s.calls[n := Linked(s.calls[n].seen)])
    case Swap(n, spurious) =>
      if n !in s.calls || !s.calls[n].Linked? then s
      else if s.head == s.calls[n].seen && !spurious then s.(head := Node(n), calls := s.calls[n := Chained])
      else s.(calls := s.calls[n := Called])
    case Release =>
      s.(head := Tombstone, released := s.released + [if s.head == Tombstone then Null else s.head])
  }

  function Run(s: State, steps: seq<Step>): State {
    if steps == [] then s else Next(Run(s, steps[..|steps| - 1]), steps[|steps| - 1])
  }

  // ------------------------------------------------------------- the list

  /** Following the links from `l` visits exactly `chain` and ends at null. */
  ghost predicate IsChain(flink: map<nat, Link>, l: Link, chain: seq<nat>)
    decreases |chain|
  {
    match l
    case Null => chain == []
    case Tombstone => false
    case Node(n) => chain != [] && chain[0] == n && n in flink && IsChain(flink, flink[n], chain[1..])
  }

  ghost predicate Distinct(chain: seq<nat>) { forall i, j | 0 <= i < j < |chain| :: chain[i] != chain[j] }

  lemma {:induction false} ChainIsFramed(flink: map<nat, Link>, l: Link, chain: seq<nat>, n: nat, to: Link)
    requires IsChain(flink, l, chain) && n !in chain
    ensures IsChain(flink[n := to], l, chain)
    decreases |chain|
  {
    if l.Node? {
      ChainIsFramed(flink, flink[l.n], chain[1..], n, to);
    }
  }

  /** The links decide the chain. */
  lemma {:induction false} ChainIsUnique(flink: map<nat, Link>, l: Link, a: seq<nat>, b: seq<nat>)
    requires IsChain(flink, l, a) && IsChain(flink, l, b)
    ensures a == b
    decreases |a|
  {
    if l.Node? {
      ChainIsUnique(flink, flink[l.n], a[1..], b[1..]);
      assert a == [a[0]] + a[1..] && b == [b[0]] + b[1..];
    }
  }

  /** The list hangs off the head until the first release, and off what that release returned from then on. */
  function Root(s: State): Link { if s.released == [] then s.head else s.released[0] }

  /** What holds in every state, `chain` being the registered nodes, newest first. */
  ghost predicate Sound(s: State, chain: seq<nat>) {
    && IsChain(s.flink, Root(s), chain) && Distinct(chain)
    && (forall n :: n in chain <==> n in s.calls && s.calls[n] == Chained)
    && (s.released != [] <==> s.head == Tombstone)
    && (forall i | 1 <= i < |s.released| :: s.released[i] == Null)
    && (forall n | n in s.calls && s.calls[n].Linked? :: n in s.flink && s.flink[n] == s.calls[n].seen)
    && (forall n | n in s.calls && (s.calls[n].Loaded? || s.calls[n].Linked?) :: s.calls[n].seen != Tombstone)
    && (forall n | n in s.calls && s.calls[n] == RanSelf :: s.released != [])
  }

  /** The chain after a step: one node more exactly when its swap succeeds. */
  function NextChain(s: State, chain: seq<nat>, a: Step): seq<nat> {
    if a.Swap? && a.n in s.calls && s.calls[a.n].Linked? && s.head == s.calls[a.n].seen && !a.spurious then [a.n] + chain else chain
  }

  lemma SwapStaysSound(s: State, chain: seq<nat>, n: nat)
    requires Sound(s, chain) && n in s.calls && s.calls[n].Linked? && s.head == s.calls[n].seen
    ensures Sound(Next(s, Swap(n, false)), [n] + chain)
  {
    assert ([n] + chain)[1..] == chain;
    assert n !in chain;
  }

  lemma SetFlinkStaysSound(s: State, chain: seq<nat>, n: nat)
    requires Sound(s, chain) && n in s.calls && s.calls[n].Loaded?
    ensures Sound(Next(s, SetFlink(n)), chain)
  {
    ChainIsFramed(s.flink, Root(s), chain, n, s.calls[n].seen);
  }

  lemma CallStaysSound(s: State, chain: seq<nat>, n: nat, wired: bool)
    requires Sound(s, chain) && n !in s.calls
    ensures Sound(Next(s, Call(n, wired)), chain)
  {
    ChainIsFramed(s.flink, Root(s), chain, n, Null);
  }

  lemma StepStaysSound(s: State, chain: seq<nat>, a: Step)
    requires Sound(s, chain)
    ensures Sound(Next(s, a), NextChain(s, chain, a))
  {
    match a
    case Call(n, wired) => if n !in s.calls { CallStaysSound(s, chain, n, wired); }
    case SetFlink(n) => if n in s.calls && s.calls[n].Loaded? { SetFlinkStaysSound(s, chain, n); }
    case Swap(n, spurious) =>
      if NextChain(s, chain, a) != chain { SwapStaysSound(s, chain, n); }
    case Load(n) =>
    case Release => assert Root(Next(s, a)) == Root(s);
  }

  lemma FreshIsSound()
    ensures Sound(FRESH, [])
  {}

  /** The registered nodes of a run from construction. */
  function Chain(steps: seq<Step>): seq<nat> {
    if steps == [] then []
    else NextChain(Run(FRESH, steps[..|steps| - 1]), Chain(steps[..|steps| - 1]), steps[|steps| - 1])
  }

  lemma {:induction false} EveryRunIsSound(steps: seq<Step>)
    ensures Sound(Run(FRESH, steps), Chain(steps))
    decreases |steps|
  {
    if steps != [] {
      EveryRunIsSound(steps[..|steps| - 1]);
      StepStaysSound(Run(FRESH, steps[..|steps| - 1]), Chain(steps[..|steps| - 1]), steps[|steps| - 1]);
    }
  }

  /** How often a node stands in a chain. */
  function Count(chain: seq<nat>, n: nat): nat {
    if chain == [] then 0 else (if chain[0] == n then 1 else 0) + Count(chain[1..], n)
  }

  lemma {:induction false} DistinctCounts(chain: seq<nat>, n: nat)
    requires Distinct(chain)
    ensures Count(chain, n) == if n in chain then 1 else 0
    decreases |chain|
  {
    if chain != [] {
      DistinctCounts(chain[1..], n);
      assert forall i | 1 <= i < |chain| :: chain[i] != chain[0];
      assert chain == [chain[0]] + chain[1..];
    }
  }

  predicate IsDone(p: Progress) { p == Chained || p == RanSelf || p == RanAtOnce }

  /**
    Whatever the interleaving: the first release hands over one finite list without repetition, every later one
    nothing; and every callback whose registration is complete either stands in that list exactly once, or was run
    by its registrant, who then had seen the tombstone or a wired slot, and never both.
   */
  lemma EachCallbackHasOnePlace(steps: seq<Step>, n: nat)
    ensures var s, chain := Run(FRESH, steps), Chain(steps);
      && IsChain(s.flink, Root(s), chain)
      && (forall i | 1 <= i < |s.released| :: s.released[i] == Null)
      && Count(chain, n) == (if n in s.calls && s.calls[n] == Chained then 1 else 0)
      && (n in s.calls && IsDone(s.calls[n]) ==> Count(chain, n) + (if s.calls[n] == Chained then 0 else 1) == 1)
      && (n in s.calls && s.calls[n] == RanSelf ==> s.released != [])
  {
    EveryRunIsSound(steps);
    DistinctCounts(Chain(steps), n);
  }

  // -------------------------------------------------- after the release

  /** Once released the list is the releaser's: no later step of anyone adds to it, drops from it or relinks it. */
  lemma {:induction false} HandedOverIsFrozen(steps: seq<Step>, more: seq<Step>)
    requires Run(FRESH, steps).released != []
    ensures var s := Run(Run(FRESH, steps), more);
      && Sound(s, Chain(steps)) && Root(s) == Root(Run(FRESH, steps)) && s.released != []
      && IsChain(s.flink, Root(Run(FRESH, steps)), Chain(steps))
    decreases |more|
  {
    if more == [] {
      EveryRunIsSound(steps);
    } else {
      HandedOverIsFrozen(steps, more[..|more| - 1]);
      var s := Run(Run(FRESH, steps), more[..|more| - 1]);
      StepStaysSound(s, Chain(steps), more[|more| - 1]);
    }
  }

  function Distance(p: Progress): nat {
    match p case Called => 1 case Linked(_) => 2 case Loaded(_) => 3 case _ => 0
  }

  /** The step the registrant of `n` takes next, which the scheduler may make fail. */
  predicate IsOwn(s: State, a: Step, n: nat) {
    n in s.calls && match s.calls[n]
      case Called => a == Load(n)
      case Loaded(_) => a == SetFlink(n)
      case Linked(_) => a.Swap? && a.n == n
      case _ => false
  }

  /** After the release a registrant is at most three of its own steps from running its callback itself. */
  lemma RegistrantFinishes(s: State, chain: seq<nat>, a: Step, n: nat)
    requires Sound(s, chain) && s.released != [] && IsOwn(s, a, n)
    ensures n in Next(s, a).calls && Distance(Next(s, a).calls[n]) < Distance(s.calls[n]) <= 3
    ensures Distance(Next(s, a).calls[n]) == 0 ==> Next(s, a).calls[n] == RanSelf
  {}

  /** Nobody else's step changes how far a registrant has come. */
  lemma OthersDoNotInterfere(s: State, a: Step, n: nat)
    requires n in s.calls && !IsOwn(s, a, n)
    ensures n in Next(s, a).calls && Next(s, a).calls[n] == s.calls[n]
  {}

  // -------------------------------------------------------------- the class

  class Autowired {
    var firstChild: Link
    var flink: map<nat, Link>
    ghost var calls: map<nat, Progress>
    ghost var released: seq<Link>
    ghost var chain: seq<nat>

    ghost function Now(): State
      reads this
    {
      State(firstChild, flink, calls, released)
    }

    ghost predicate Valid()
      reads this
    {
      Sound(Now(), chain)
    }

    constructor ()
      ensures Valid() && Now() == FRESH && chain == []
    {
      firstChild, flink, calls, released, chain := Null, map[], map[], [], [];
    }

    /** The trivial check, and otherwise a new node; true when the callback runs at once. */
    method Enter(n: nat, wired: bool) returns (ran: bool)
      requires Valid() && n !in calls
      modifies this
      ensures Valid() && Now() == Next(old(Now()), Call(n, wired)) && chain == old(chain) && ran == wired
    {
      StepStaysSound(Now(), chain, Call(n, wired));
      if wired {
        calls := calls[n := RanAtOnce];
        return true;
      }
      flink := flink[n := Null];
      calls := calls[n := Called];
      return false;
    }

    /** One read of the head; true when it is the tombstone and the callback is satisfied on the spot. */
    method ReadHead(n: nat) returns (seen: Link, ran: bool)
      requires Valid() && n in calls && calls[n] == Called
      modifies this`calls
      ensures Valid() && Now() == Next(old(Now()), Load(n))
      ensures seen == old(firstChild) && (ran <==> seen == Tombstone) && (!ran ==> calls[n] == Loaded(seen))
    {
      StepStaysSound(Now(), chain, Load(n));
      seen := firstChild;
      ran := seen == Tombstone;
      calls := calls[n := if ran then RanSelf else Loaded(seen)];
    }

    method LinkTo(n: nat, seen: Link)
      requires Valid() && n in calls && calls[n] == Loaded(seen)
      modifies this`flink, this`calls
      ensures Valid() && Now() == Next(old(Now()), SetFlink(n)) && calls[n] == Linked(seen)
    {
      StepStaysSound(Now(), chain, SetFlink(n));
      flink := flink[n := seen];
      calls := calls[n := Linked(seen)];
    }

    method CompareExchangeWeak(n: nat, seen: Link, spurious: bool) returns (ok: bool)
      requires Valid() && n in calls && calls[n] == Linked(seen)
      modifies this`firstChild, this`calls, this`chain
      ensures Valid() && Now() == Next(old(Now()), Swap(n, spurious))
      ensures ok <==> old(firstChild) == seen && !spurious
      ensures chain == if ok then [n] + old(chain) else old(chain)
    {
      StepStaysSound(Now(), chain, Swap(n, spurious));
      ok := firstChild == seen && !spurious;
      if ok {
        firstChild := Node(n);
        chain := [n] + chain;
      }
      calls := calls[n := if ok then Chained else Called];
    }

    method ReleaseDependentChain() returns (l: Link)
      requires Valid()
      modifies this`firstChild, this`released
      ensures Valid() && Now() == Next(old(Now()), Release)
      ensures if old(released) == [] then IsChain(flink, l, chain) else l == Null
    {
      StepStaysSound(Now(), chain, Release);
      var first := firstChild;
      firstChild := Tombstone;
      l := if first == Tombstone then Null else first;
      released := released + [l];
    }

    /** The destructor, once autowiring is cancelled: nothing to do behind a tombstone. */
    method Destroy() returns (destroyed: seq<nat>)
      requires Valid()
      ensures destroyed == if released == [] then chain else []
    {
      if firstChild == Tombstone {
        return [];
      }
      destroyed := DestroyChain(flink, firstChild, chain);
    }
  }

  /** Every node is destroyed once, in order, and only after its link has been read. */
  method DestroyChain(flink: map<nat, Link>, first: Link, ghost chain: seq<nat>) returns (destroyed: seq<nat>)
    requires IsChain(flink, first, chain) && Distinct(chain)
    ensures destroyed == chain
  {
    destroyed := [];
    var cur, prior := first, Null;
    ghost var passed, rest := [], chain;
    while cur != Null
      invariant IsChain(flink, cur, rest) && passed + rest == chain
      invariant if passed == [] then prior == Null && destroyed == []
                else prior == Node(passed[|passed| - 1]) && destroyed == passed[..|passed| - 1]
      decreases |rest|
    {
      NotYetDestroyed(chain, passed, rest);
      if prior.Node? {
        destroyed := destroyed + [prior.n];
      }
      prior := cur;
      assert cur.n !in destroyed;
      cur := flink[cur.n];
      passed, rest := passed + [rest[0]], rest[1..];
    }
    if prior.Node? {
      destroyed := destroyed + [prior.n];
    }
  }

  lemma NotYetDestroyed(chain: seq<nat>, passed: seq<nat>, rest: seq<nat>)
    requires Distinct(chain) && chain == passed + rest && rest != []
    ensures rest[0] !in passed
  {
    forall i | 0 <= i < |passed| ensures passed[i] != rest[0] {
      assert chain[i] == passed[i] && chain[|passed|] == rest[0];
    }
  }
}
