/** C characters, NUL-terminated strings and the character codes cJSON tests for. */
module Bytes {

  /** An element of a `char` buffer, read as an unsigned byte. */
  type byte = b: int | 0 <= b < 256

  /** A character of a C string before its terminating NUL. */
  type chr = b: int | 0 < b < 256 witness 1

  /** The contents of a C string. A pointer into a string is the suffix it points at. */
  type text = seq<chr>

  const BS: chr := 8          // \b
  const TAB: chr := 9         // \t
  const LF: chr := 10         // \n
  const FF: chr := 12         // \f
  const CR: chr := 13         // \r
  const SPACE: chr := 32
  const QUOTE: chr := 34      // "
  const STAR: chr := 42       // *
  const PLUS: chr := 43       // +
  const COMMA: chr := 44      // ,
  const MINUS: chr := 45      // -
  const DOT: chr := 46        // .
  const SLASH: chr := 47      // /
  const ZERO: chr := 48       // 0
  const NINE: chr := 57       // 9
  const COLON: chr := 58      // :
  const UPPER_A: chr := 65
  const UPPER_E: chr := 69
  const LBRACKET: chr := 91   // [
  const BACKSLASH: chr := 92  // \
  const RBRACKET: chr := 93   // ]
  const LOWER_A: chr := 97
  const LOWER_B: chr := 98
  const LOWER_E: chr := 101
  const LOWER_F: chr := 102
  const LOWER_N: chr := 110
  const LOWER_R: chr := 114
  const LOWER_T: chr := 116
  const LOWER_U: chr := 117
  const LBRACE: chr := 123    // {
  const RBRACE: chr := 125    // }

  /** `*p`: the first character, or the NUL when the string is exhausted. */
  function Peek(s: text): byte {
    if s == [] then 0 else s[0]
  }

  /** `p[i]`: reading the NUL is allowed, reading past it is not. */
  function At(s: text, i: nat): byte
    requires i <= |s|
  {
    if i < |s| then s[i] else 0
  }

  /** The C string `t` is stored in `a` from index `at`, with its NUL. */
  ghost predicate Holds(a: array<byte>, at: nat, t: text)
    reads a
  {
    at + |t| < a.Length && a[at..at + |t|] == t && a[at + |t|] == 0
  }

  /** `strlen(a + at)`. */
  method StrLen(a: array<byte>, at: nat, ghost t: text) returns (n: nat)
    requires Holds(a, at, t)
    ensures n == |t|
  {
    n := 0;
    while a[at + n] != 0
      invariant n <= |t|
      invariant forall k :: 0 <= k < |t| ==> a[at + k] == t[k]
      decreases |t| - n
    {
      n := n + 1;
    }
  }

  lemma Assoc(a: text, b: text, c: text)
    ensures a + b + c == a + (b + c)
  {
  }

  lemma Assoc4(a: text, b: text, c: text, d: text)
    ensures a + b + c + d == a + (b + c + d)
    ensures a + b + c + d == a + (b + (c + d))
  {
    Assoc(a + b, c, d);
    Assoc(a, b, c + d);
    Assoc(b, c, d);
  }
}
