/** Byte strings, the character codes cJSON dispatches on, and C-string helpers. */
module Bytes {

  type byte = x: int | 0 <= x < 256

  const NUL: byte := 0
  const BACKSPACE: byte := 8
  const TAB: byte := 9
  const LF: byte := 10
  const FF: byte := 12
  const CR: byte := 13
  const SPACE: byte := 32
  const QUOTE: byte := 34
  const STAR: byte := 42
  const PLUS: byte := 43
  const COMMA: byte := 44
  const MINUS: byte := 45
  const DOT: byte := 46
  const SLASH: byte := 47
  const ZERO: byte := 48
  const NINE: byte := 57
  const COLON: byte := 58
  const LBRACKET: byte := 91
  const BACKSLASH: byte := 92
  const RBRACKET: byte := 93
  const LBRACE: byte := 123
  const RBRACE: byte := 125

  predicate IsDigit(c: byte) {
    ZERO <= c <= NINE
  }

  /** `t` occurs in `s` at index `i`. */
  predicate At(s: seq<byte>, i: nat, t: seq<byte>) {
    i + |t| <= |s| && s[i..i + |t|] == t
  }

  /** A C string in memory: one NUL, and it is the last byte. */
  ghost predicate Terminated(s: seq<byte>) {
    |s| > 0 && s[|s| - 1] == NUL && forall k :: 0 <= k < |s| - 1 ==> s[k] != NUL
  }

  predicate NulFree(s: seq<byte>) {
    forall k :: 0 <= k < |s| ==> s[k] != NUL
  }

  /** What strlen and strcpy see of a buffer: everything before the first NUL. */
  function CString(s: seq<byte>): (r: seq<byte>)
    ensures NulFree(r) && r <= s
    ensures NulFree(s) ==> r == s
    ensures |r| < |s| ==> s[|r|] == NUL
  {
    if s == [] || s[0] == NUL then [] else
      var rest := CString(s[1..]);
      assert NulFree(s) ==> NulFree(s[1..]);
      assert s == [s[0]] + s[1..];
      [s[0]] + rest
  }

  lemma AtConcat(s: seq<byte>, i: nat, a: seq<byte>, b: seq<byte>)
    requires At(s, i, a + b)
    ensures At(s, i, a) && At(s, i + |a|, b)
  {
    assert s[i..i + |a|] == (a + b)[..|a|];
    assert s[i + |a|..i + |a| + |b|] == (a + b)[|a|..];
  }

  lemma AtFirst(s: seq<byte>, i: nat, t: seq<byte>)
    requires At(s, i, t) && t != []
    ensures i < |s| && s[i] == t[0]
  {
    assert s[i..i + |t|][0] == s[i];
  }

  lemma AtBytes(s: seq<byte>, i: nat, t: seq<byte>)
    requires At(s, i, t)
    ensures forall k :: 0 <= k < |t| ==> s[i + k] == t[k]
  {
    forall k | 0 <= k < |t|
      ensures s[i + k] == t[k]
    {
      assert s[i..i + |t|][k] == s[i + k];
    }
  }
}
