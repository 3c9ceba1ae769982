/** The secret buffers that were made, whatever has become of them. */
module Heaps {
  class Ledger<T> {
    ghost var buffers: set<array<T>>
    /** What each was made with, in order. */
    ghost var held: seq<seq<T>>

    constructor ()
      ensures buffers == {} && held == []
    {
      buffers, held := {}, [];
    }

    /** A new buffer with these contents. */
    method Allocate(contents: seq<T>) returns (buffer: array<T>)
      modifies this
      ensures fresh(buffer) && buffer[..] == contents
      ensures buffers == old(buffers) + {buffer} && held == old(held) + [contents]
    {
      buffer := new T[|contents|](i requires 0 <= i < |contents| => contents[i]);
      buffers, held := buffers + {buffer}, held + [contents];
    }
  }
}
