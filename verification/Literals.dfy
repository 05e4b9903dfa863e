/** String literals: the scanning pass, the decoding pass, and their agreement. */
module Literals {
  import opened CText
  import opened Unicode
  import opened Wrappers

  /** A parse: a value and the offset after it, or the offset reported through `ep`,
      or a read past the terminator. */
  datatype Parsed<+T> = Ok(value: T, end: nat) | Fail(ep: nat) | Overrun

  // ---- the scanning pass ----

  /** Where the scan that starts at `i` stops: a closing quote, the terminator, or one past the terminator
      when a backslash made it step over the terminator. */
  function ScanEnd(t: CString, i: nat): (e: nat)
    requires i <= |t| + 1
    ensures i <= e <= |t| + 1
    ensures e < |t| ==> t[e] == QUOTE
    decreases |t| + 1 - i
  {
    if i >= |t| || t[i] == QUOTE then i
    else if t[i] == BACKSLASH then ScanEnd(t, i + 2)
    else ScanEnd(t, i + 1)
  }

  /** The number of characters and two-character escapes that the scan counts in `len`. */
  function Units(t: CString, i: nat): nat
    requires i <= |t| + 1
    decreases |t| + 1 - i
  {
    if i >= |t| || t[i] == QUOTE then 0
    else 1 + Units(t, if t[i] == BACKSLASH then i + 2 else i + 1)
  }

  // ---- the decoding pass ----

  /** The value of a hexadecimal digit, or -1. */
  function HexValue(c: byte): int {
    if ZERO <= c <= 57 then c - ZERO
    else if 65 <= c <= 70 then 10 + (c - 65)
    else if 97 <= c <= 102 then 10 + (c - 97)
    else -1
  }

  const UPPER_DIGITS: bytes := [48, 49, 50, 51, 52, 53, 54, 55, 56, 57, 65, 66, 67, 68, 69, 70]

  const LOWER_DIGITS: bytes := [48, 49, 50, 51, 52, 53, 54, 55, 56, 57, 97, 98, 99, 100, 101, 102]

  /** Exactly the digits of both cases have a value, and it is their place in the alphabet. */
  lemma HexValueIsPlace(c: byte)
    ensures forall n | 0 <= n < 16 :: HexValue(UPPER_DIGITS[n]) == n && HexValue(LOWER_DIGITS[n]) == n
    ensures c !in UPPER_DIGITS && c !in LOWER_DIGITS <==> HexValue(c) == -1
  {
    if HexValue(c) >= 0 {
      var n := HexValue(c);
      assert UPPER_DIGITS[n] == c || LOWER_DIGITS[n] == c;
    }
  }

  predicate FourHexDigits(t: CString, i: nat) {
    && i + 4 <= |t|
    && HexValue(t[i]) >= 0 && HexValue(t[i + 1]) >= 0 && HexValue(t[i + 2]) >= 0 && HexValue(t[i + 3]) >= 0
  }

  /** The number that four hexadecimal digits spell, or 0 when they are not four hexadecimal digits. */
  function Hex4(t: CString, i: nat): (h: nat)
    ensures h < 0x10000
  {
    if FourHexDigits(t, i) then
      ((HexValue(t[i]) * 16 + HexValue(t[i + 1])) * 16 + HexValue(t[i + 2])) * 16 + HexValue(t[i + 3])
    else 0
  }

  /** The bytes written, and the final offset. */
  datatype Decoded = Decoded(out: bytes, next: nat)

  function SimpleEscape(c: byte): byte {
    if c == LOWER_B then BACKSPACE
    else if c == LOWER_F then FORMFEED
    else if c == LOWER_N then NEWLINE
    else if c == LOWER_R then RETURN
    else if c == LOWER_T then TAB
    else c
  }

  function Prepend(out: bytes, rest: Option<Decoded>): Option<Decoded> {
    if rest.None? then None else Some(Decoded(out + rest.value.out, rest.value.next))
  }

  /** The decoding loop from `i` to the end `e` of the literal. */
  function Decode(t: CString, i: nat, e: nat): (d: Option<Decoded>)
    requires e <= |t|
    ensures d.Some? ==> i <= d.value.next
    decreases |t| + 1 - i, 1
  {
    if i >= e then Some(Decoded([], i))
    else if t[i] != BACKSLASH then Prepend([t[i]], Decode(t, i + 1, e))
    else if C(t, i + 1) == LOWER_U then DecodeUnicode(t, i, e)
    else Prepend([SimpleEscape(C(t, i + 1))], Decode(t, i + 2, e))
  }

  /** The decoding loop at a `\u` escape whose backslash is at `i`. */
  function DecodeUnicode(t: CString, i: nat, e: nat): (d: Option<Decoded>)
    requires i + 1 < |t| && e <= |t|
    ensures d.Some? ==> i < d.value.next
    decreases |t| + 1 - i, 0
  {
    var uc := Hex4(t, i + 2);
    var last := i + 5;
    if last >= e || IsLowSurrogate(uc) || uc == 0 then None
    else if IsHighSurrogate(uc) then
      if last + 6 > e || C(t, last + 1) != BACKSLASH || C(t, last + 2) != LOWER_U then None
      else
        var uc2 := Hex4(t, last + 3);
        if !IsLowSurrogate(uc2) then None
        else Prepend(Utf8(PairCodePoint(uc, uc2)), Decode(t, last + 7, e))
    else Prepend(Utf8(uc), Decode(t, last + 1, e))
  }

  lemma AtEscape(t: CString, i: nat, e: nat)
    requires i + 1 < |t| && i < e <= |t| && t[i] == BACKSLASH && t[i + 1] == LOWER_U
    ensures Decode(t, i, e) == DecodeUnicode(t, i, e)
  {
  }

  /** `parse_string` on the literal at `i`. */
  function ParseString(t: CString, i: nat): (r: Parsed<bytes>)
    requires i <= |t|
    ensures r.Ok? ==> i < r.end <= |t|
    ensures r.Fail? ==> r.ep == i
  {
    if C(t, i) != QUOTE then Fail(i)
    else
      var e := ScanEnd(t, i + 1);
      if e > |t| then Overrun
      else
        var d := Decode(t, i + 1, e);
        if d.None? then Fail(i)
        else
          PassesAgree(t, i + 1, e);
          Ok(d.value.out, if C(t, d.value.next) == QUOTE then d.value.next + 1 else d.value.next)
  }

  // ---- the two passes agree ----

  lemma ScanHex(t: CString, i: nat)
    requires FourHexDigits(t, i)
    ensures ScanEnd(t, i) == ScanEnd(t, i + 4)
    ensures Units(t, i) == 4 + Units(t, i + 4)
  {
    assert ScanEnd(t, i) == ScanEnd(t, i + 1) && Units(t, i) == 1 + Units(t, i + 1);
    assert ScanEnd(t, i + 2) == ScanEnd(t, i + 3) && Units(t, i + 2) == 1 + Units(t, i + 3);
  }

  lemma ScanEscape(t: CString, i: nat)
    requires i < |t| && t[i] == BACKSLASH
    ensures ScanEnd(t, i) == ScanEnd(t, i + 2)
    ensures Units(t, i) == 1 + Units(t, i + 2)
  {
  }

  /** A decoded literal lies within its scan: same end, no more bytes than the scan counted, and no NUL. */
  ghost predicate Agrees(t: CString, i: nat, e: nat, d: Decoded)
    requires i <= |t| + 1
  {
    d.next == e && |d.out| <= Units(t, i) && NulFree(d.out)
  }

  lemma {:induction false} UnicodeAgrees(t: CString, i: nat, e: nat)
    requires i + 1 < |t| && t[i] == BACKSLASH && t[i + 1] == LOWER_U
    requires e == ScanEnd(t, i) && e <= |t|
    requires DecodeUnicode(t, i, e).Some?
    ensures Agrees(t, i, e, DecodeUnicode(t, i, e).value)
    decreases |t| + 1 - i, 0
  {
    hide HexValue, SimpleEscape;
    ScanEscape(t, i);
    assert FourHexDigits(t, i + 2);
    ScanHex(t, i + 2);
    if IsHighSurrogate(Hex4(t, i + 2)) {
      assert t[i + 6] == BACKSLASH && t[i + 7] == LOWER_U;
      ScanEscape(t, i + 6);
      assert FourHexDigits(t, i + 8);
      ScanHex(t, i + 8);
      PassesAgree(t, i + 12, e);
    } else {
      PassesAgree(t, i + 6, e);
    }
  }

  /** The decoding pass ends exactly where the scan ended, and writes no more bytes than the scan counted. */
  lemma {:induction false} PassesAgree(t: CString, i: nat, e: nat)
    requires i <= |t| && e == ScanEnd(t, i) && e <= |t|
    requires Decode(t, i, e).Some?
    ensures Agrees(t, i, e, Decode(t, i, e).value)
    decreases |t| + 1 - i, 1
  {
    if i < e {
      if t[i] != BACKSLASH {
        PassesAgree(t, i + 1, e);
      } else if C(t, i + 1) == LOWER_U {
        UnicodeAgrees(t, i, e);
      } else {
        PassesAgree(t, i + 2, e);
      }
    }
  }

  // ---- when the scan runs past the terminator ----

  function TrailingBackslashes(t: bytes): (n: nat)
    ensures n <= |t|
  {
    if t == [] || t[|t| - 1] != BACKSLASH then 0 else 1 + TrailingBackslashes(t[..|t| - 1])
  }

  lemma {:induction false} TrailingRun(t: bytes, run: nat)
    requires run == |t| - TrailingBackslashes(t)
    ensures forall k | run <= k < |t| :: t[k] == BACKSLASH
    ensures run > 0 ==> t[run - 1] != BACKSLASH
  {
    if t != [] && t[|t| - 1] == BACKSLASH { TrailingRun(t[..|t| - 1], run); }
  }

  lemma {:induction false} ScanBackslashes(t: CString, i: nat)
    requires i <= |t| && forall k | i <= k < |t| :: t[k] == BACKSLASH
    ensures ScanEnd(t, i) == if (|t| - i) % 2 == 0 then |t| else |t| + 1
    decreases |t| - i
  {
    if i + 2 <= |t| {
      ScanEscape(t, i);
      ScanBackslashes(t, i + 2);
    }
  }

  lemma {:induction false} ScanPrefix(t: CString, i: nat, r: nat)
    requires i <= r <= |t| && (r == 0 || t[r - 1] != BACKSLASH)
    ensures NulFree(t[..r]) && ScanEnd(t[..r], i) <= r
    ensures ScanEnd(t[..r], i) < r ==> ScanEnd(t, i) == ScanEnd(t[..r], i)
    ensures ScanEnd(t[..r], i) == r ==> ScanEnd(t, i) == ScanEnd(t, r)
    decreases r - i
  {
    if i < r && t[i] != QUOTE { ScanPrefix(t, if t[i] == BACKSLASH then i + 2 else i + 1, r); }
  }

  /** The scan from `i` reaches `run` without meeting the closing quote. */
  ghost predicate OpenUntil(t: CString, i: nat, run: nat)
    requires i <= run <= |t|
  {
    NulFree(t[..run]) && ScanEnd(t[..run], i) == run
  }

  lemma ScanOverruns(t: CString, i: nat, run: nat)
    requires i <= run <= |t| && (run == 0 || t[run - 1] != BACKSLASH)
    requires forall k | run <= k < |t| :: t[k] == BACKSLASH
    ensures ScanEnd(t, i) > |t| <==> (|t| - run) % 2 == 1 && OpenUntil(t, i, run)
  {
    ScanPrefix(t, i, run);
    ScanBackslashes(t, run);
  }

  /** `parse_string` reads past the terminator exactly when the text ends in an odd run of backslashes
      and the literal is still open where that run begins. */
  lemma OverrunIff(t: CString, i: nat, run: nat)
    requires i < |t| && t[i] == QUOTE && run == |t| - TrailingBackslashes(t)
    ensures i < run
    ensures ParseString(t, i).Overrun? <==> (|t| - run) % 2 == 1 && OpenUntil(t, i + 1, run)
  {
    TrailingRun(t, run);
    assert i < run;
    ScanOverruns(t, i + 1, run);
  }

  /** The shortest text that is read past its terminator. */
  lemma QuoteBackslashOverruns()
    ensures ParseString([QUOTE, BACKSLASH], 0).Overrun?
  {
    assert ScanEnd([QUOTE, BACKSLASH], 1) == 3;
  }

  /** The letters behind a backslash: b, f, n, r and t stand for control characters, any other byte for itself. */
  lemma EscapeLetters(c: byte)
    ensures SimpleEscape(98) == 8 && SimpleEscape(102) == 12 && SimpleEscape(110) == 10
    ensures SimpleEscape(114) == 13 && SimpleEscape(116) == 9
    ensures c !in {98, 102, 110, 114, 116} ==> SimpleEscape(c) == c
  {
  }
}
