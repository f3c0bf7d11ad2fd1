/** The destination of the copiers that write words or halfwords: one array, which they fill piece by
  * piece (detours/src/disasm.cpp:2541-2552, 3921-3925).
  */
module DisasmBuffer {
  /** The contents of a buffer after `s` has been written at index `at`. */
  function Written<T>(before: seq<T>, at: nat, s: seq<T>): seq<T>
    requires at + |s| <= |before|
  {
    before[..at] + s + before[at + |s|..]
  }

  lemma WrittenTwice<T>(before: seq<T>, at: nat, s: seq<T>, t: seq<T>)
    requires at + |s| + |t| <= |before|
    ensures Written(Written(before, at, s), at + |s|, t) == Written(before, at, s + t)
  {}
}
