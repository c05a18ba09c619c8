/** C text. A `char *` into NUL-terminated text is modelled by the text from that pointer up to,
    and without, its terminator; reading at the terminator yields NUL. */
module CString {

  // The byte `k` places after the pointer.
  function Peek(p: string, k: nat := 0): char {
    if k < |p| then p[k] else '\0'
  }

  // The pointer `k` places further on; it does not move past the terminator.
  function Advance(p: string, k: nat): (r: string)
    ensures |r| <= |p|
    ensures 0 < k && p != "" ==> |r| < |p|
  {
    if k <= |p| then p[k..] else ""
  }

  ghost predicate NulFree(s: string) {
    '\0' !in s
  }

  function IsDigit(c: char): bool {
    '0' <= c <= '9'
  }
}
