/** Tokens are parsed the same way wherever they stand: only their own characters, and the fact that
    the next character closes a number, matter. */
module Locality {
  import opened CText
  import opened Unicode
  import opened Literals
  import opened Parser
  import opened Wrappers

  /** `m` repeats at `q` the `n` characters that `t` has at `i`. */
  ghost predicate Same(t: CString, i: nat, m: CString, q: nat, n: nat) {
    i + n <= |t| && q + n <= |m| && forall k | i <= k < i + n :: m[q + k - i] == t[k]
  }

  lemma SameTail(t: CString, i: nat, m: CString, q: nat, n: nat, d: nat)
    requires Same(t, i, m, q, n) && d <= n
    ensures Same(t, i + d, m, q + d, n - d)
  {
    forall k | i + d <= k < i + n ensures m[q + d + k - (i + d)] == t[k] {
      assert m[q + k - i] == t[k];
    }
  }

  lemma SameChar(t: CString, i: nat, m: CString, q: nat, n: nat, d: nat)
    requires Same(t, i, m, q, n) && d < n
    ensures t[i + d] == m[q + d]
  {
    assert m[q + (i + d) - i] == t[i + d];
  }

  // ---- string literals ----

  lemma {:induction false} ScanLocal(t: CString, i: nat, m: CString, q: nat, n: nat)
    requires Same(t, i, m, q, n + 1) && ScanEnd(t, i) == i + n
    ensures ScanEnd(m, q) == q + n
    decreases n
  {
    SameChar(t, i, m, q, n + 1, 0);
    if n > 0 {
      var d := if t[i] == BACKSLASH then 2 else 1;
      assert ScanEnd(t, i) == ScanEnd(t, i + d);
      SameTail(t, i, m, q, n + 1, d);
      ScanLocal(t, i + d, m, q + d, n - d);
    }
  }

  lemma HexLocal(t: CString, i: nat, m: CString, q: nat)
    requires Same(t, i, m, q, 4)
    ensures Hex4(t, i) == Hex4(m, q)
  {
    SameChar(t, i, m, q, 4, 0);
    SameChar(t, i, m, q, 4, 1);
    SameChar(t, i, m, q, 4, 2);
    SameChar(t, i, m, q, 4, 3);
  }

  ghost predicate Shifted(d: Option<Decoded>, offset: int, d': Option<Decoded>) {
    if d.None? then d'.None?
    else d'.Some? && d'.value.out == d.value.out && d'.value.next == d.value.next + offset
  }

  lemma {:induction false} DecodeLocal(t: CString, i: nat, m: CString, q: nat, n: nat)
    requires Same(t, i, m, q, n + 1) && ScanEnd(t, i) == i + n
    ensures Shifted(Decode(t, i, i + n), q - i, Decode(m, q, q + n))
    decreases n, 3
  {
    SameChar(t, i, m, q, n + 1, 0);
    if n > 0 {
      if t[i] != BACKSLASH {
        SameTail(t, i, m, q, n + 1, 1);
        DecodeLocal(t, i + 1, m, q + 1, n - 1);
      } else {
        ScanEscape(t, i);
        SameChar(t, i, m, q, n + 1, 1);
        if t[i + 1] == LOWER_U {
          UnicodeLocal(t, i, m, q, n);
        } else {
          SameTail(t, i, m, q, n + 1, 2);
          DecodeLocal(t, i + 2, m, q + 2, n - 2);
        }
      }
    }
  }

  lemma {:induction false} UnicodeLocal(t: CString, i: nat, m: CString, q: nat, n: nat)
    requires Same(t, i, m, q, n + 1) && ScanEnd(t, i) == i + n && n >= 2
    requires t[i] == BACKSLASH && t[i + 1] == LOWER_U && m[q + 1] == LOWER_U
    ensures Shifted(DecodeUnicode(t, i, i + n), q - i, DecodeUnicode(m, q, q + n))
    decreases n, 2
  {
    if n > 5 {
      assert Hex4(t, i + 2) == Hex4(m, q + 2) by {
        SameTail(t, i, m, q, n + 1, 2);
        HexLocal(t, i + 2, m, q + 2);
      }
      var uc := Hex4(t, i + 2);
      if IsHighSurrogate(uc) && n >= 11 {
        PairLocal(t, i, m, q, n);
      } else if uc != 0 && !IsHighSurrogate(uc) && !IsLowSurrogate(uc) {
        BasicLocal(t, i, m, q, n);
        BasicAgree(t, i, i + n, m, q, q + n);
      }
    }
  }

  lemma {:induction false} BasicLocal(t: CString, i: nat, m: CString, q: nat, n: nat)
    requires Same(t, i, m, q, n + 1) && ScanEnd(t, i) == i + n && n > 5
    requires t[i] == BACKSLASH && FourHexDigits(t, i + 2)
    ensures Shifted(Decode(t, i + 6, i + n), q - i, Decode(m, q + 6, q + n))
    decreases n, 0
  {
    ScanEscape(t, i);
    ScanHex(t, i + 2);
    SameTail(t, i, m, q, n + 1, 6);
    DecodeLocal(t, i + 6, m, q + 6, n - 6);
  }

  lemma BasicAgree(t: CString, i: nat, e: nat, m: CString, q: nat, f: nat)
    requires i + 5 < e <= |t| && q + 5 < f <= |m|
    requires Hex4(t, i + 2) == Hex4(m, q + 2) != 0
    requires !IsHighSurrogate(Hex4(t, i + 2)) && !IsLowSurrogate(Hex4(t, i + 2))
    requires Shifted(Decode(t, i + 6, e), q - i, Decode(m, q + 6, f))
    ensures Shifted(DecodeUnicode(t, i, e), q - i, DecodeUnicode(m, q, f))
  {
  }

  lemma {:induction false} PairRest(t: CString, i: nat, m: CString, q: nat, n: nat)
    requires Same(t, i, m, q, n + 1) && ScanEnd(t, i) == i + n && n >= 11
    requires t[i] == BACKSLASH && IsHighSurrogate(Hex4(t, i + 2))
    requires t[i + 6] == BACKSLASH && t[i + 7] == LOWER_U && IsLowSurrogate(Hex4(t, i + 8))
    ensures Shifted(Decode(t, i + 12, i + n), q - i, Decode(m, q + 12, q + n))
    decreases n, 0
  {
    hide Decode;
    ScanEscape(t, i);
    ScanHex(t, i + 2);
    ScanEscape(t, i + 6);
    ScanHex(t, i + 8);
    SameTail(t, i, m, q, n + 1, 12);
    DecodeLocal(t, i + 12, m, q + 12, n - 12);
  }

  lemma {:induction false} PairLocal(t: CString, i: nat, m: CString, q: nat, n: nat)
    requires Same(t, i, m, q, n + 1) && ScanEnd(t, i) == i + n && n >= 11
    requires t[i] == BACKSLASH && Hex4(t, i + 2) == Hex4(m, q + 2) && IsHighSurrogate(Hex4(t, i + 2))
    ensures Shifted(DecodeUnicode(t, i, i + n), q - i, DecodeUnicode(m, q, q + n))
    decreases n, 1
  {
    hide Decode, DecodeUnicode, Utf8, ScanEnd, Hex4;
    SameChar(t, i, m, q, n + 1, 6);
    SameChar(t, i, m, q, n + 1, 7);
    assert Hex4(t, i + 8) == Hex4(m, q + 8) by {
      SameTail(t, i, m, q, n + 1, 8);
      HexLocal(t, i + 8, m, q + 8);
    }
    if t[i + 6] == BACKSLASH && t[i + 7] == LOWER_U && IsLowSurrogate(Hex4(t, i + 8)) { PairRest(t, i, m, q, n); }
    PairAgree(t, i, i + n, m, q, q + n);
  }

  lemma PairAgree(t: CString, i: nat, e: nat, m: CString, q: nat, f: nat)
    requires i + 11 <= e <= |t| && f == q + (e - i) <= |m|
    requires Hex4(t, i + 2) == Hex4(m, q + 2) && IsHighSurrogate(Hex4(t, i + 2))
    requires t[i + 6] == m[q + 6] && t[i + 7] == m[q + 7] && Hex4(t, i + 8) == Hex4(m, q + 8)
    requires t[i + 6] == BACKSLASH && t[i + 7] == LOWER_U && IsLowSurrogate(Hex4(t, i + 8)) ==>
      Shifted(Decode(t, i + 12, e), q - i, Decode(m, q + 12, f))
    ensures Shifted(DecodeUnicode(t, i, e), q - i, DecodeUnicode(m, q, f))
  {
  }

  lemma ClosedLiteral(t: CString, i: nat, e: nat)
    requires i < e < |t| && t[i] == QUOTE && ScanEnd(t, i + 1) == e
    ensures Decode(t, i + 1, e).None? ==> ParseString(t, i) == Fail(i)
    ensures Decode(t, i + 1, e).Some? ==> ParseString(t, i) == Ok(Decode(t, i + 1, e).value.out, e + 1)
  {
    if Decode(t, i + 1, e).Some? { PassesAgree(t, i + 1, e); }
  }

  lemma ClosedLiteralsAgree(t: CString, i: nat, e: nat, m: CString, q: nat, f: nat)
    requires i < e < |t| && t[i] == QUOTE && ScanEnd(t, i + 1) == e
    requires q < f < |m| && m[q] == QUOTE && ScanEnd(m, q + 1) == f
    requires Shifted(Decode(t, i + 1, e), q - i, Decode(m, q + 1, f))
    requires ParseString(t, i).Ok?
    ensures ParseString(t, i).end == e + 1 && ParseString(m, q) == Ok(ParseString(t, i).value, f + 1)
  {
    ClosedLiteral(t, i, e);
    ClosedLiteral(m, q, f);
  }

  /** A closed literal has the same extent and decodes the same way wherever it stands. */
  lemma LiteralLocal(t: CString, i: nat, m: CString, q: nat, n: nat)
    requires i < |t| && t[i] == QUOTE && n >= 1 && ScanEnd(t, i + 1) == i + n && Same(t, i, m, q, n + 1)
    ensures q + n < |m| && m[q] == QUOTE && ScanEnd(m, q + 1) == q + n
    ensures Shifted(Decode(t, i + 1, i + n), q - i, Decode(m, q + 1, q + n))
  {
    assert m[q] == QUOTE && Same(t, i + 1, m, q + 1, n) by {
      SameChar(t, i, m, q, n + 1, 0);
      SameTail(t, i, m, q, n + 1, 1);
    }
    ScanLocal(t, i + 1, m, q + 1, n - 1);
    DecodeLocal(t, i + 1, m, q + 1, n - 1);
  }

  // ---- numbers ----

  /** The characters that may follow a value: blanks, separators, closing brackets and the terminator. */
  predicate Closes(c: byte) {
    c <= 32 || c == COMMA || c == CLOSE_BRACKET || c == CLOSE_BRACE
  }

  ghost predicate SameNumber(t: CString, i: nat, m: CString, q: nat, n: nat) {
    Same(t, i, m, q, n) && Closes(C(t, i + n)) && Closes(C(m, q + n))
  }

  /** Inside the token the characters agree; at its end both texts close it. */
  lemma NumberChar(t: CString, i: nat, m: CString, q: nat, n: nat, d: nat)
    requires SameNumber(t, i, m, q, n) && d <= n
    ensures C(t, i + d) == C(m, q + d) || (d == n && Closes(C(t, i + d)) && Closes(C(m, q + d)))
    ensures SameNumber(t, i + d, m, q + d, n - d)
  {
    if d < n { SameChar(t, i, m, q, n, d); }
    SameTail(t, i, m, q, n, d);
  }

  lemma {:induction false} DigitsLocal(acc: nat, t: CString, i: nat, m: CString, q: nat, n: nat)
    requires SameNumber(t, i, m, q, n)
    ensures DigitsEnd(t, i) <= i + n && DigitsEnd(m, q) == q + (DigitsEnd(t, i) - i)
    ensures Digits(acc, t, i) == Digits(acc, m, q)
    decreases n
  {
    NumberChar(t, i, m, q, n, 0);
    if IsDigit(C(t, i)) {
      NumberChar(t, i, m, q, n, 1);
      DigitsLocal(acc * 10 + DigitValue(t[i]), t, i + 1, m, q + 1, n - 1);
    }
  }

  lemma ExponentLocal(t: CString, i: nat, m: CString, q: nat, n: nat)
    requires SameNumber(t, i, m, q, n)
    ensures ParseExponent(t, i).1 <= i + n && ParseExponent(m, q).1 == q + (ParseExponent(t, i).1 - i)
    ensures ParseExponent(m, q).0 == ParseExponent(t, i).0
  {
    NumberChar(t, i, m, q, n, 0);
    if C(t, i) == LOWER_E || C(t, i) == UPPER_E {
      NumberChar(t, i, m, q, n, 1);
      DigitsLocal(0, t, i + 1, m, q + 1, n - 1);
      if C(t, i + 1) == PLUS || C(t, i + 1) == MINUS {
        NumberChar(t, i, m, q, n, 2);
        DigitsLocal(0, t, i + 2, m, q + 2, n - 2);
      }
    }
  }

  lemma WholeLocal(t: CString, i: nat, m: CString, q: nat, n: nat)
    requires SameNumber(t, i, m, q, n)
    ensures WholeEnd(t, i) <= i + n && WholeEnd(m, q) == q + (WholeEnd(t, i) - i) && Whole(m, q) == Whole(t, i)
  {
    NumberChar(t, i, m, q, n, 0);
    DigitsLocal(0, t, i, m, q, n);
  }

  /** `ParseMantissa` after its optional leading zero. */
  lemma FractionLocal(t: CString, i: nat, m: CString, q: nat, n: nat, acc: nat)
    requires SameNumber(t, i, m, q, n)
    ensures C(t, i) == DOT <==> C(m, q) == DOT
    ensures C(t, i) == DOT ==> n > 0 && (IsDigit(C(t, i + 1)) <==> IsDigit(C(m, q + 1)))
    ensures C(t, i) == DOT ==> DigitsEnd(t, i + 1) <= i + n && DigitsEnd(m, q + 1) == q + (DigitsEnd(t, i + 1) - i)
    ensures C(t, i) == DOT ==> Digits(acc, m, q + 1) == Digits(acc, t, i + 1)
  {
    NumberChar(t, i, m, q, n, 0);
    if C(t, i) == DOT {
      NumberChar(t, i, m, q, n, 1);
      DigitsLocal(acc, t, i + 1, m, q + 1, n - 1);
    }
  }

  lemma MantissaLocal(t: CString, i: nat, m: CString, q: nat, n: nat)
    requires SameNumber(t, i, m, q, n)
    ensures ParseMantissa(t, i).end <= i + n && ParseMantissa(m, q).end == q + (ParseMantissa(t, i).end - i)
    ensures ParseMantissa(m, q).digits == ParseMantissa(t, i).digits
    ensures ParseMantissa(m, q).scale == ParseMantissa(t, i).scale
  {
    hide Digits, DigitsEnd, C;
    NumberChar(t, i, m, q, n, 0);
    var z := if C(t, i) == ZERO then 1 else 0;
    NumberChar(t, i, m, q, n, z);
    WholeLocal(t, i + z, m, q + z, n - z);
    var p := WholeEnd(t, i + z) - i;
    assert SameNumber(t, i + p, m, q + p, n - p) by { NumberChar(t, i, m, q, n, p); }
    FractionLocal(t, i + p, m, q + p, n - p, Whole(t, i + z));
  }

  lemma NumbersAgree(t: CString, i: nat, m: CString, q: nat, s: nat, a: Mantissa, b: Mantissa)
    requires i <= |t| && q <= |m| && C(t, i) == C(m, q) && (C(t, i) == MINUS || IsDigit(C(t, i)))
    requires s == (if C(t, i) == MINUS then 1 else 0)
    requires a == ParseMantissa(t, i + s) && b == ParseMantissa(m, q + s)
    requires a.digits == b.digits && a.scale == b.scale
    requires ParseExponent(t, a.end).0 == ParseExponent(m, b.end).0
    ensures ParseNumber(m, q) == (ParseNumber(t, i).0, ParseExponent(m, b.end).1)
    ensures ParseNumber(t, i).1 == ParseExponent(t, a.end).1
  {
  }

  /** A number token has the same value wherever it stands, when it is closed in both places. */
  lemma NumberLocal(t: CString, i: nat, m: CString, q: nat, n: nat)
    requires SameNumber(t, i, m, q, n) && (C(t, i) == MINUS || IsDigit(C(t, i)))
    ensures C(m, q) == C(t, i)
    ensures ParseNumber(t, i).1 <= i + n && ParseNumber(m, q).1 == q + (ParseNumber(t, i).1 - i)
    ensures ParseNumber(m, q).0 == ParseNumber(t, i).0
  {
    hide Same, Scaled;
    NumberChar(t, i, m, q, n, 0);
    var s := if C(t, i) == MINUS then 1 else 0;
    NumberChar(t, i, m, q, n, s);
    MantissaLocal(t, i + s, m, q + s, n - s);
    var a, b := ParseMantissa(t, i + s), ParseMantissa(m, q + s);
    NumberChar(t, i, m, q, n, a.end - i);
    ExponentLocal(t, a.end, m, b.end, n - (a.end - i));
    NumbersAgree(t, i, m, q, s, a, b);
  }
}
