/** `cJSON_Minify`: the text it keeps, and the proof that the kept text denotes the same value. */
module Minify {
  import opened CText
  import opened Literals
  import opened Wrappers

  /** The four characters that are dropped outside strings. */
  predicate IsGap(c: byte) {
    c == SPACE || c == TAB || c == RETURN || c == NEWLINE
  }

  function LineEnd(t: CString, i: nat): (e: nat)
    requires i <= |t|
    ensures i <= e <= |t|
    ensures i < |t| && t[i] != NEWLINE ==> i < e
    decreases |t| - i
  {
    if i == |t| || t[i] == NEWLINE then i else LineEnd(t, i + 1)
  }

  /** The offset of the first star-slash from `i` on, or the terminator. */
  function CommentEnd(t: CString, i: nat): (e: nat)
    requires i <= |t|
    ensures i <= e <= |t|
    ensures e < |t| ==> e + 2 <= |t|
    decreases |t| - i
  {
    if i == |t| || (t[i] == STAR && C(t, i + 1) == SLASH) then i else CommentEnd(t, i + 1)
  }

  function Cons(s: bytes, rest: Option<bytes>): Option<bytes> {
    if rest.None? || s == [] then rest else Some(s + rest.value)
  }

  /** Where the unit that starts at `i` ends: a gap, a comment, a string literal or any other character.
      Past `|t|` when the loop steps over the terminator, in a block comment or a literal that is never closed. */
  function UnitEnd(t: CString, i: nat): (e: nat)
    requires i < |t|
    ensures i < e
  {
    if t[i] == SLASH && C(t, i + 1) == SLASH then LineEnd(t, i)
    else if t[i] == SLASH && C(t, i + 1) == STAR then CommentEnd(t, i) + 2
    else if t[i] == QUOTE then ScanEnd(t, i + 1) + 1
    else i + 1
  }

  /** Whether the unit that starts at `i` is copied. */
  predicate IsCopied(t: CString, i: nat)
    requires i < |t|
  {
    !IsGap(t[i]) && !(t[i] == SLASH && (C(t, i + 1) == SLASH || C(t, i + 1) == STAR))
  }

  /** What is kept of the text from `i` on, or `None` when the loop steps over the terminator. */
  function Minified(t: CString, i: nat): (m: Option<bytes>)
    requires i <= |t|
    ensures m.Some? ==> |m.value| <= |t| - i
    decreases |t| - i
  {
    if i == |t| then Some([])
    else
      var e := UnitEnd(t, i);
      if e > |t| then None
      else if IsCopied(t, i) then Cons(t[i..e], Minified(t, e))
      else Minified(t, e)
  }

  lemma MinifiedChar(t: CString, i: nat)
    requires i < |t| && !IsGap(t[i]) && t[i] != SLASH && t[i] != QUOTE
    ensures Minified(t, i) == Cons([t[i]], Minified(t, i + 1))
  {
    assert t[i..i + 1] == [t[i]];
  }

  /** Of the text from `i` to `e`, exactly `s` is kept. */
  ghost predicate Keeps(t: CString, i: nat, e: nat, s: bytes) {
    i <= |t| && e <= |t| && Minified(t, i) == Cons(s, Minified(t, e))
  }

  lemma KeepsBoth(t: CString, i: nat, k: nat, e: nat, a: bytes, b: bytes)
    requires Keeps(t, i, k, a) && Keeps(t, k, e, b)
    ensures Keeps(t, i, e, a + b)
  {
    if a == [] {
      assert a + b == b;
    } else if b == [] {
      assert a + b == a;
    } else if Minified(t, e).Some? {
      assert a + (b + Minified(t, e).value) == a + b + Minified(t, e).value;
    }
  }

  lemma KeepsNothing(t: CString, i: nat)
    requires i <= |t|
    ensures Keeps(t, i, i, [])
  {
  }

  lemma KeepsAll(t: CString, kept: bytes)
    requires Keeps(t, 0, |t|, kept)
    ensures Minified(t, 0) == Some(kept)
  {
    assert kept + [] == kept;
  }

  // ---- alignment of a text with its minified form ----

  /** From `q` on, `m` is what is kept of `t` from `i` on. */
  ghost predicate Aligned(t: CString, i: nat, m: CString, q: nat)
    requires i <= |t|
  {
    Minified(t, i).Some? && q + |Minified(t, i).value| == |m| && At(m, q, Minified(t, i).value)
  }

  lemma AlignedEnd(t: CString, m: CString, q: nat)
    requires Aligned(t, |t|, m, q)
    ensures q == |m|
  {
  }

  lemma AlignedGap(t: CString, i: nat, m: CString, q: nat)
    requires i < |t| && IsGap(t[i]) && Aligned(t, i, m, q)
    ensures Aligned(t, i + 1, m, q)
  {
  }

  /** A character that is copied: anything but gaps, slashes and quotes. */
  lemma AlignedChar(t: CString, i: nat, m: CString, q: nat)
    requires i < |t| && !IsGap(t[i]) && t[i] != SLASH && t[i] != QUOTE && Aligned(t, i, m, q)
    ensures q < |m| && m[q] == t[i] && Aligned(t, i + 1, m, q + 1)
  {
    MinifiedChar(t, i);
    AtConcat(m, q, [t[i]], Minified(t, i + 1).value);
    AtByte(m, q, t[i]);
  }

  lemma AlignedFirst(t: CString, i: nat, m: CString, q: nat)
    requires i < |t| && !IsGap(t[i]) && t[i] != SLASH && Aligned(t, i, m, q)
    ensures q < |m| && m[q] == t[i]
  {
    if t[i] == QUOTE {
      var e := ScanEnd(t, i + 1);
      AtConcat(m, q, t[i..e + 1], Minified(t, e + 1).value);
      AtIndex(m, q, t[i..e + 1], 0);
    } else {
      AlignedChar(t, i, m, q);
    }
  }

  /** Skipping blanks on both sides keeps the alignment, when no comment comes next. */
  lemma {:induction false} AlignedSkip(t: CString, i: nat, m: CString, q: nat)
    requires i <= |t| && Aligned(t, i, m, q) && C(t, Skip(t, i)) != SLASH
    ensures q <= |m| && Aligned(t, Skip(t, i), m, Skip(m, q))
    ensures C(t, Skip(t, i)) == C(m, Skip(m, q))
    decreases |t| - i
  {
    if i == |t| {
      AlignedEnd(t, m, q);
    } else if IsGap(t[i]) {
      AlignedGap(t, i, m, q);
      AlignedSkip(t, i + 1, m, q);
    } else if IsBlank(t[i]) {
      AlignedChar(t, i, m, q);
      AlignedSkip(t, i + 1, m, q + 1);
    } else {
      AlignedFirst(t, i, m, q);
    }
  }

  /** A stretch of characters that are all copied. */
  lemma {:induction false} AlignedRun(t: CString, i: nat, e: nat, m: CString, q: nat)
    requires i <= e <= |t| && Aligned(t, i, m, q)
    requires forall k | i <= k < e :: !IsGap(t[k]) && t[k] != SLASH && t[k] != QUOTE
    ensures Aligned(t, e, m, q + (e - i)) && q + (e - i) <= |m|
    ensures forall k | i <= k < e :: m[q + k - i] == t[k]
    decreases e - i
  {
    if i < e {
      AlignedChar(t, i, m, q);
      AlignedRun(t, i + 1, e, m, q + 1);
    }
  }

  lemma AlignedLiteral(t: CString, i: nat, e: nat, m: CString, q: nat)
    requires i < |t| && t[i] == QUOTE && Aligned(t, i, m, q) && e == ScanEnd(t, i + 1)
    ensures e < |t| && Aligned(t, e + 1, m, q + (e + 1 - i)) && q + (e + 1 - i) <= |m|
    ensures forall k | i <= k <= e :: m[q + k - i] == t[k]
  {
    var literal := t[i..e + 1];
    AtConcat(m, q, literal, Minified(t, e + 1).value);
    forall k | i <= k <= e ensures m[q + k - i] == t[k] {
      AtIndex(m, q, literal, k - i);
      assert literal[k - i] == t[k];
    }
  }
}
