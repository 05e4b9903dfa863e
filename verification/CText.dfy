/** C strings: bytes, the terminator, and texts that contain one another. */
module CText {
  type byte = b: int | 0 <= b < 256
  type bytes = seq<byte>

  ghost predicate NulFree(s: bytes) {
    forall i | 0 <= i < |s| :: s[i] != 0
  }

  /** What a `char *` points at, up to the terminator. */
  type CString = s: bytes | NulFree(s)

  const BACKSPACE: byte := 8
  const TAB: byte := 9
  const NEWLINE: byte := 10
  const FORMFEED: byte := 12
  const RETURN: byte := 13
  const SPACE: byte := 32
  const QUOTE: byte := 34
  const STAR: byte := 42
  const PLUS: byte := 43
  const COMMA: byte := 44
  const MINUS: byte := 45
  const DOT: byte := 46
  const SLASH: byte := 47
  const ZERO: byte := 48
  const COLON: byte := 58
  const UPPER_E: byte := 69
  const OPEN_BRACKET: byte := 91
  const BACKSLASH: byte := 92
  const CLOSE_BRACKET: byte := 93
  const LOWER_B: byte := 98
  const LOWER_E: byte := 101
  const LOWER_F: byte := 102
  const LOWER_N: byte := 110
  const LOWER_R: byte := 114
  const LOWER_T: byte := 116
  const LOWER_U: byte := 117
  const PIPE: byte := 124
  const OPEN_BRACE: byte := 123
  const CLOSE_BRACE: byte := 125

  /** The character at offset `i`, where offset `|t|` holds the terminator. Nothing past it may be read. */
  function C(t: CString, i: nat): (c: byte)
    requires i <= |t|
  {
    if i < |t| then t[i] else 0
  }

  /** The comparison loop of `strncmp`: `t` from `i` on agrees with `p` from index `k` on. */
  predicate Matches(t: bytes, i: nat, p: bytes, k: nat)
    requires i + |p| <= |t| && k <= |p|
    decreases |p| - k
  {
    k == |p| || (t[i + k] == p[k] && Matches(t, i, p, k + 1))
  }

  /** The text `p` occurs in `t` at offset `i`. */
  predicate At(t: bytes, i: nat, p: bytes) {
    i + |p| <= |t| && Matches(t, i, p, 0)
  }

  lemma {:induction false} MatchesIndex(t: bytes, i: nat, p: bytes, k: nat)
    requires i + |p| <= |t| && k <= |p|
    ensures Matches(t, i, p, k) <==> forall j | k <= j < |p| :: t[i + j] == p[j]
    decreases |p| - k
  {
    if k < |p| { MatchesIndex(t, i, p, k + 1); }
  }

  lemma AtSlice(t: bytes, i: nat, p: bytes)
    ensures At(t, i, p) <==> i + |p| <= |t| && t[i..i + |p|] == p
  {
    if i + |p| <= |t| {
      MatchesIndex(t, i, p, 0);
      var w := t[i..i + |p|];
      assert forall j | 0 <= j < |p| :: w[j] == t[i + j];
    }
  }

  lemma AtConcat(t: bytes, i: nat, p: bytes, q: bytes)
    ensures At(t, i, p + q) <==> At(t, i, p) && At(t, i + |p|, q)
  {
    if i + |p| + |q| <= |t| {
      var w := t[i..i + |p| + |q|];
      assert w[..|p|] == t[i..i + |p|] && w[|p|..] == t[i + |p|..i + |p| + |q|];
      assert w == w[..|p|] + w[|p|..];
      assert (p + q)[..|p|] == p && (p + q)[|p|..] == q;
      AtSlice(t, i, p + q);
      AtSlice(t, i, p);
      AtSlice(t, i + |p|, q);
    }
  }

  lemma AtByte(t: bytes, i: nat, b: byte)
    ensures At(t, i, [b]) <==> i < |t| && t[i] == b
  {
    if i < |t| { assert Matches(t, i, [b], 1); }
  }

  lemma AtIndex(t: bytes, i: nat, p: bytes, k: nat)
    requires At(t, i, p) && k < |p|
    ensures i + k < |t| && t[i + k] == p[k]
  {
    MatchesIndex(t, i, p, 0);
  }

  predicate IsDigit(c: byte) { ZERO <= c <= 57 }

  predicate IsBlank(c: byte) { 0 < c <= 32 }

  /** The first offset from `i` on whose character is neither blank nor a control character. */
  function Skip(t: CString, i: nat): (r: nat)
    requires i <= |t|
    ensures i <= r <= |t|
    ensures !IsBlank(C(t, r))
    decreases |t| - i
  {
    if IsBlank(C(t, i)) then Skip(t, i + 1) else i
  }

  lemma {:induction false} SkipTo(t: CString, i: nat, j: nat)
    requires i <= j <= |t|
    requires forall k | i <= k < j :: IsBlank(t[k])
    ensures Skip(t, i) == Skip(t, j)
    decreases j - i
  {
    if i < j { SkipTo(t, i + 1, j); }
  }

  /** The marks are the ASCII characters of section 2 and section 7 of RFC 8259. */
  lemma MarksAreAscii()
    ensures [OPEN_BRACKET, OPEN_BRACE, CLOSE_BRACKET, CLOSE_BRACE, COLON, COMMA] == [0x5B, 0x7B, 0x5D, 0x7D, 0x3A, 0x2C]
    ensures [SPACE, TAB, NEWLINE, RETURN, BACKSPACE, FORMFEED] == [0x20, 0x09, 0x0A, 0x0D, 0x08, 0x0C]
    ensures [QUOTE, BACKSLASH, SLASH, STAR, PIPE] == [0x22, 0x5C, 0x2F, 0x2A, 0x7C]
    ensures [MINUS, PLUS, DOT, ZERO, LOWER_E, UPPER_E] == [0x2D, 0x2B, 0x2E, 0x30, 0x65, 0x45]
    ensures [LOWER_B, LOWER_F, LOWER_N, LOWER_R, LOWER_T, LOWER_U] == [0x62, 0x66, 0x6E, 0x72, 0x74, 0x75]
  {
  }

  /** Digits are the bytes from 48 to 57. */
  lemma DigitsAre(c: byte)
    ensures IsDigit(c) <==> c in {48, 49, 50, 51, 52, 53, 54, 55, 56, 57}
  {
  }

  /** `skip` passes over exactly the bytes from 1 to 32, and stops at the first other one or at the terminator. */
  lemma {:induction false} SkipPasses(t: CString, i: nat)
    requires i <= |t|
    ensures var r := Skip(t, i);
      (forall k | i <= k < r :: 1 <= t[k] <= 32) && (r < |t| ==> t[r] > 32)
    decreases |t| - i
  {
    if i < |t| && 1 <= t[i] <= 32 { SkipPasses(t, i + 1); }
  }
}
