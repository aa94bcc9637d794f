/** Strings inside a buffer: an offset, and every byte up to a NUL. */
module CStrings {
  import opened Bytes

  /** The null pointer, among offsets into a buffer. */
  const NULL := -1

  /** The bytes `off` points at are `s` and a terminating NUL. */
  predicate Holds(b: seq<byte>, off: int, s: seq<byte>) {
    0 <= off && off + |s| < |b| && b[off..off + |s|] == s && b[off + |s|] == NUL
  }

  /** What a C function reads at `off`, a buffer's end counting as a NUL. */
  function CString(b: seq<byte>, off: nat): seq<byte>
    requires off <= |b|
    decreases |b| - off
  {
    if off == |b| || b[off] == NUL then [] else [b[off]] + CString(b, off + 1)
  }

  lemma {:induction false} HoldsCString(b: seq<byte>, off: nat, s: seq<byte>)
    requires Holds(b, off, s) && NUL !in s
    ensures CString(b, off) == s
    decreases |s|
  {
    if s != [] {
      assert b[off] == b[off..off + |s|][0] == s[0];
      assert b[off + 1..off + |s|] == b[off..off + |s|][1..] == s[1..];
      HoldsCString(b, off + 1, s[1..]);
    }
  }
}
