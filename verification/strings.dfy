/**
 * C strings as the program sees them.
 *
 * A C string is the run of characters before the first NUL of a buffer.
 * The model keeps buffers as sequences and takes the C-string view
 * explicitly wherever the program calls strlen, strdup or strcpy on one.
 */
module Strings {

  /** A value that may be missing: a NULL pointer in the program. */
  datatype Option<T> = None | Some(value: T)

  /** The terminating character of every C string. */
  const NUL: char := '\0'

  /** Text produced by strerror: never empty, whatever the code. */
  type ErrorText = s: string | |s| > 0 witness "?"

  /** strdupcat: a fresh string holding `a` followed by `b`. */
  function Concat(a: string, b: string): (r: string)
    ensures |r| == |a| + |b|
    ensures r[..|a|] == a && r[|a|..] == b
  {
    a + b
  }

  /**
   * The C-string view of a buffer: the characters before its first NUL,
   * which is what strlen counts and strdup copies.
   */
  function CString(buf: seq<char>): (s: string)
    ensures |s| <= |buf| && s == buf[..|s|]
    ensures NUL !in s
    ensures |s| < |buf| ==> buf[|s|] == NUL
    ensures NUL !in buf ==> s == buf
    decreases |buf|
  {
    if buf == [] || buf[0] == NUL then [] else [buf[0]] + CString(buf[1..])
  }
}
