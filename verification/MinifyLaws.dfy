/** What minifying does with every kind of text, in bytes: 32, 9, 13 and 10 are dropped, a line comment up to its line
    feed, a block comment with its closing mark, a string literal is kept whole, and every other byte is kept. Together
    these laws determine the kept text of any text. */
module MinifyLaws {
  import opened CText
  import opened Literals
  import opened Wrappers
  import opened Minify

  lemma EndKept(t: CString)
    ensures Minified(t, |t|) == Some([])
  {
  }

  lemma GapDropped(t: CString, i: nat)
    requires i < |t| && t[i] in {32, 9, 13, 10}
    ensures Minified(t, i) == Minified(t, i + 1)
  {
  }

  // ---- comments ----

  lemma {:induction false} LineEndIs(t: CString, i: nat, e: nat)
    requires i <= e <= |t| && (forall k | i <= k < e :: t[k] != 10) && (e < |t| ==> t[e] == 10)
    ensures LineEnd(t, i) == e
    decreases e - i
  {
    if i < e { LineEndIs(t, i + 1, e); }
  }

  /** A line comment is dropped up to the next line feed or the end, and what follows is minified as ever. */
  lemma LineCommentDropped(t: CString, i: nat, e: nat)
    requires i + 2 <= e <= |t| && t[i] == 47 && t[i + 1] == 47
    requires (forall k | i <= k < e :: t[k] != 10) && (e < |t| ==> t[e] == 10)
    ensures Minified(t, i) == Minified(t, e)
  {
    LineEndIs(t, i, e);
  }

  /** A star-slash stands at `k`. */
  predicate StarSlash(t: CString, k: nat) {
    k + 2 <= |t| && t[k] == 42 && t[k + 1] == 47
  }

  lemma {:induction false} CommentEndIs(t: CString, i: nat, e: nat)
    requires i <= e <= |t| && (forall k | i <= k < e :: !StarSlash(t, k)) && (e < |t| ==> StarSlash(t, e))
    ensures CommentEnd(t, i) == e
    decreases e - i
  {
    if i < e {
      assert !StarSlash(t, i);
      CommentEndIs(t, i + 1, e);
    }
  }

  /** A block comment is dropped with the first star-slash, which may share its opening star. */
  lemma BlockCommentDropped(t: CString, i: nat, e: nat)
    requires i + 1 < |t| && t[i] == 47 && t[i + 1] == 42
    requires i <= e && StarSlash(t, e) && forall k | i <= k < e :: !StarSlash(t, k)
    ensures Minified(t, i) == Minified(t, e + 2)
  {
    CommentEndIs(t, i, e);
  }

  /** At a block comment that is never closed, the loop steps over the terminator. */
  lemma OpenCommentOverruns(t: CString, i: nat)
    requires i + 1 < |t| && t[i] == 47 && t[i + 1] == 42 && forall k | i <= k < |t| :: !StarSlash(t, k)
    ensures Minified(t, i).None?
  {
    CommentEndIs(t, i, |t|);
  }

  // ---- what is kept ----

  /** From `i` to `e` the text is kept as it stands. */
  ghost predicate KeptAsIs(t: CString, i: nat, e: nat)
    requires i <= e <= |t|
  {
    if Minified(t, e).None? then Minified(t, i).None? else Minified(t, i) == Some(t[i..e] + Minified(t, e).value)
  }

  /** Any byte but a gap, a quote and the first slash of a comment is kept. */
  lemma OtherKept(t: CString, i: nat)
    requires i < |t| && t[i] !in {32, 9, 13, 10, 34}
    requires t[i] == 47 ==> i + 1 == |t| || t[i + 1] !in {47, 42}
    ensures KeptAsIs(t, i, i + 1)
  {
  }

  /** The backslashes that stand directly before `k`, back to `lo`. */
  function Backslashes(t: CString, lo: nat, k: nat): nat
    requires lo <= k <= |t|
  {
    if k > lo && t[k - 1] == 92 then 1 + Backslashes(t, lo, k - 1) else 0
  }

  /** A quote at `k` that closes a literal whose text starts at `lo`: an even number of backslashes precedes it. */
  predicate Closing(t: CString, lo: nat, k: nat)
    requires lo <= k < |t|
  {
    t[k] == 34 && Backslashes(t, lo, k) % 2 == 0
  }

  lemma {:induction false} ScanEndIs(t: CString, lo: nat, i: nat, e: nat)
    requires lo <= i <= e < |t| && Backslashes(t, lo, i) % 2 == 0
    requires Closing(t, lo, e) && forall k | i <= k < e :: !Closing(t, lo, k)
    ensures ScanEnd(t, i) == e
    decreases e - i
  {
    if i < e {
      assert !Closing(t, lo, i);
      if t[i] == 92 {
        assert Backslashes(t, lo, i + 1) == Backslashes(t, lo, i) + 1;
        ScanEndIs(t, lo, i + 2, e);
      } else {
        ScanEndIs(t, lo, i + 1, e);
      }
    }
  }

  /** A string literal is kept up to its closing quote, with everything in it. */
  lemma LiteralKept(t: CString, i: nat, lo: nat, e: nat)
    requires lo == i + 1 && i < e < |t| && t[i] == 34
    requires Closing(t, lo, e) && forall k | lo <= k < e :: !Closing(t, lo, k)
    ensures KeptAsIs(t, i, e + 1)
  {
    ScanEndIs(t, lo, lo, e);
  }

  lemma ByteInFront(t: CString, i: nat, kept: bytes)
    requires i < |t| && t[i] !in {32, 9, 13, 10, 34, 47} && Minified(t, i + 1) == Some(kept)
    ensures Minified(t, i) == Some([t[i]] + kept)
  {
    OtherKept(t, i);
    assert t[i..i + 1] == [t[i]];
  }

  /** `[1,//a`, a line feed, `2`, a block comment and `]` become `[1,2]`. */
  lemma CommentedList()
    ensures Minified([91, 49, 44, 47, 47, 97, 10, 50, 47, 42, 47, 93], 0) == Some([91, 49, 44, 50, 93])
  {
    hide Minified;
    var t: CString := [91, 49, 44, 47, 47, 97, 10, 50, 47, 42, 47, 93];
    EndKept(t);
    ByteInFront(t, 11, []);
    BlockCommentDropped(t, 8, 9);
    ByteInFront(t, 7, [93] + []);
    GapDropped(t, 6);
    LineCommentDropped(t, 3, 6);
    ByteInFront(t, 2, [50] + ([93] + []));
    ByteInFront(t, 1, [44] + ([50] + ([93] + [])));
    ByteInFront(t, 0, [49] + ([44] + ([50] + ([93] + []))));
    assert [91] + ([49] + ([44] + ([50] + ([93] + [])))) == [91, 49, 44, 50, 93];
  }
}
