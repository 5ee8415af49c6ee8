/**
  The output stream the writers of source/Utility/Value.cpp append to.
 */
module Streams {
  import opened ValueTree

  /** A `std::ostream` is the text written so far. */
  class OutStream {
    var text: bytes

    constructor ()
      ensures text == []
    {
      text := [];
    }

    method Put(c: byte)
      modifies this
      ensures text == old(text) + [c]
    {
      text := text + [c];
    }

    method Write(s: bytes)
      modifies this
      ensures text == old(text) + s
    {
      text := text + s;
    }
  }

  lemma Assoc(a: bytes, b: bytes, c: bytes)
    ensures (a + b) + c == a + (b + c)
  {}
}
