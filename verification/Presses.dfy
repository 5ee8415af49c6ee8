/** The press of the button among the calls of a step. */
module Presses {
  import opened ValueTree
  import opened GestureTrace

  /** The press among some calls; there is never more than one. */
  function DownIn(out: seq<Event>): Option<int> {
    if out == [] then None
    else if out[|out| - 1].ClickDown? then Some(out[|out| - 1].number)
    else DownIn(out[..|out| - 1])
  }

  lemma {:induction false} DownInConcat(a: seq<Event>, b: seq<Event>)
    requires DownIn(a) == None
    ensures DownIn(a + b) == DownIn(b)
    decreases |b|
  {
    if b == [] {
      assert a + b == a;
    } else {
      assert (a + b)[..|a + b| - 1] == a + b[..|b| - 1];
      DownInConcat(a, b[..|b| - 1]);
    }
  }

  lemma DownInTwo(a: seq<Event>, b: seq<Event>)
    requires |a| <= 1 && |b| <= 2
    requires forall e | e in a :: !e.ClickDown?
    requires forall i | 0 < i < |b| :: !b[i].ClickDown?
    ensures DownIn(a + b) == if b != [] && b[0].ClickDown? then Some(b[0].number) else None
  {
    var c := a + b;
    if |c| >= 1 {
      assert c[..|c| - 1] == if b != [] then a + b[..|b| - 1] else [];
      if |c| >= 2 { assert c[..|c| - 1][..|c| - 2] == if |b| == 2 then a else []; }
    }
  }

  lemma DownInOne(e: Event)
    ensures DownIn([e]) == if e.ClickDown? then Some(e.number) else None
  {
    assert [e][..0] == [];
  }

  lemma DownInPair(d: Event, e: Event)
    requires !e.ClickDown?
    ensures DownIn([d, e]) == DownIn([d])
  {
    assert [d, e][..1] == [d];
  }
}
