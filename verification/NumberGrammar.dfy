/** What a numeral is, apart from how it is read: its parts, their spelling and their meaning.
    `parse_number` reads exactly the longest numeral, and computes its meaning. */
module NumberGrammar {
  import opened CText
  import opened Json
  import opened Wrappers
  import opened Parser

  /** A sign, at most one leading zero, digits that start with no zero, a fraction and an exponent, each of which
      may be missing. An exponent may lack its digits. */
  datatype Numeral =
    Numeral(negative: bool, zero: bool, whole: bytes, fraction: bytes, exponent: Option<Exponent>)

  datatype Exponent = Exponent(mark: byte, sign: Option<byte>, digits: bytes)

  predicate AllDigits(s: bytes) {
    forall k | 0 <= k < |s| :: IsDigit(s[k])
  }

  predicate IsExponent(x: Exponent) {
    x.mark in {LOWER_E, UPPER_E} && (x.sign.None? || x.sign.value in {MINUS, PLUS}) && AllDigits(x.digits)
  }

  /** The numerals of the parser; a sign alone is one. */
  predicate IsNumeral(n: Numeral) {
    && (n.negative || n.zero || n.whole != [])
    && AllDigits(n.whole) && (n.whole == [] || n.whole[0] != ZERO) && AllDigits(n.fraction)
    && (n.exponent.None? || IsExponent(n.exponent.value))
  }

  function Front(zero: bool, whole: bytes): bytes { Opt(zero, [ZERO]) + whole }

  function Back(fraction: bytes): bytes { Opt(fraction != [], [DOT] + fraction) }

  function PowerText(x: Option<Exponent>): bytes {
    if x.None? then []
    else [x.value.mark] + (if x.value.sign.None? then [] else [x.value.sign.value]) + x.value.digits
  }

  function NumeralText(n: Numeral): (s: bytes)
    ensures IsNumeral(n) ==> |s| >= 1
  {
    Opt(n.negative, [MINUS]) + (Front(n.zero, n.whole) + (Back(n.fraction) + PowerText(n.exponent)))
  }

  /** The number that decimal digits spell. */
  function Decimal(s: bytes): nat
    requires AllDigits(s)
  {
    if s == [] then 0 else Decimal(s[..|s| - 1]) * 10 + DigitValue(s[|s| - 1])
  }

  function PowerValue(x: Option<Exponent>): int
    requires x.None? || IsExponent(x.value)
  {
    if x.None? then 0
    else
      var n: int := Decimal(x.value.digits);
      if x.value.sign == Some(MINUS) then -n else n
  }

  lemma {:induction false} PowerPositive(n: nat)
    ensures Power10(n) > 0.0
  {
    if n > 0 { PowerPositive(n - 1); }
  }

  /** The digits with the point moved by `k` places. */
  ghost function Shifted10(digits: nat, k: int): real {
    PowerPositive(if k < 0 then -k else k);
    if k >= 0 then digits as real * Power10(k) else digits as real / Power10(-k)
  }

  /** The digits of whole and fraction, with the point moved by the exponent and back over the fraction. */
  ghost function NumeralValue(n: Numeral): real
    requires IsNumeral(n)
  {
    var x := Shifted10(Decimal(n.whole + n.fraction), PowerValue(n.exponent) - |n.fraction|);
    if n.negative then -x else x
  }

  /** What follows at `m` does not continue these digits and this fraction. */
  predicate MantissaStops(n: Numeral, t: CString, m: nat)
    requires m <= |t|
  {
    var c := C(t, m);
    if n.fraction != [] then !IsDigit(c)
    else
      && !(c == DOT && IsDigit(C(t, m + 1)))
      && if n.zero && n.whole == [] then !StartsWhole(c) else !IsDigit(c)
  }

  /** What follows at `e` does not continue the exponent, or is none. */
  predicate ExponentStops(x: Option<Exponent>, t: CString, e: nat)
    requires e <= |t|
  {
    var c := C(t, e);
    if x.None? then c !in {LOWER_E, UPPER_E}
    else !IsDigit(c) && (x.value.sign.Some? || x.value.digits != [] || c !in {PLUS, MINUS})
  }

  ghost predicate NumeralAt(n: Numeral, t: CString, i: nat, e: nat) {
    && IsNumeral(n) && At(t, i, NumeralText(n)) && e == i + |NumeralText(n)|
    && ExponentStops(n.exponent, t, e) && (n.exponent.None? ==> MantissaStops(n, t, e))
  }

  // ---- digits ----

  lemma DigitsTail(s: bytes)
    requires AllDigits(s) && s != []
    ensures AllDigits(s[1..])
  {
  }

  lemma {:induction false} RunRead(t: CString, i: nat, e: nat, p: bytes)
    requires i <= e <= |t| && AllDigits(p) && AllDigits(t[i..e]) && !IsDigit(C(t, e))
    ensures AllDigits(p + t[i..e])
    ensures DigitsEnd(t, i) == e && Digits(Decimal(p), t, i) == Decimal(p + t[i..e])
    decreases e - i
  {
    if i == e {
      assert p + t[i..e] == p;
    } else {
      assert t[i..e] == [t[i]] + t[i + 1..e];
      assert IsDigit(t[i..e][0]);
      DigitsTail(t[i..e]);
      assert t[i..e][1..] == t[i + 1..e];
      var p' := p + [t[i]];
      assert p'[..|p'| - 1] == p;
      RunRead(t, i + 1, e, p');
      assert p' + t[i + 1..e] == p + t[i..e];
    }
  }

  lemma {:induction false} RunIsDigits(t: CString, i: nat)
    requires i <= |t|
    ensures AllDigits(t[i..DigitsEnd(t, i)]) && !IsDigit(C(t, DigitsEnd(t, i)))
    decreases |t| - i
  {
    if IsDigit(C(t, i)) {
      RunIsDigits(t, i + 1);
      var e := DigitsEnd(t, i + 1);
      assert t[i..e] == [t[i]] + t[i + 1..e];
    }
  }

  lemma ScaledShift(digits: nat, k: int)
    ensures Scaled(digits as real, k) == Shifted10(digits, k)
  {
    ScaledIsPower(digits as real, k);
    PowerPositive(if k < 0 then -k else k);
  }

  // ---- every numeral is read ----

  /** A run of digits in place. */
  lemma DigitsRead(s: bytes, p: bytes, t: CString, i: nat)
    requires AllDigits(p) && AllDigits(s) && At(t, i, s) && !IsDigit(C(t, i + |s|))
    ensures AllDigits(p + s) && DigitsEnd(t, i) == i + |s| && Digits(Decimal(p), t, i) == Decimal(p + s)
    ensures s != [] ==> C(t, i) == s[0]
  {
    AtSlice(t, i, s);
    RunRead(t, i, i + |s|, p);
    if s != [] { AtIndex(t, i, s, 0); }
  }

  lemma WholeRead(whole: bytes, zero: bool, t: CString, i: nat)
    requires AllDigits(whole) && (whole == [] || whole[0] != ZERO) && At(t, i, whole)
    requires if zero && whole == [] then !StartsWhole(C(t, i)) else !IsDigit(C(t, i + |whole|))
    ensures WholeEnd(t, i) == i + |whole| && Whole(t, i) == Decimal(whole)
    ensures zero || C(t, i) != ZERO
  {
    if whole != [] {
      DigitsRead(whole, [], t, i);
      assert [] + whole == whole;
    }
  }

  lemma FractionRead(fraction: bytes, whole: bytes, t: CString, i: nat)
    requires fraction != [] && AllDigits(whole) && AllDigits(fraction)
    requires At(t, i, Back(fraction)) && !IsDigit(C(t, i + |Back(fraction)|))
    ensures i < |t| && t[i] == DOT && IsDigit(C(t, i + 1)) && DigitsEnd(t, i + 1) == i + 1 + |fraction|
    ensures Digits(Decimal(whole), t, i + 1) == Decimal(whole + fraction)
  {
    AtConcat(t, i, [DOT], fraction);
    AtByte(t, i, DOT);
    DigitsRead(fraction, whole, t, i + 1);
  }

  lemma MantissaRead(n: Numeral, t: CString, i: nat)
    requires IsNumeral(n) && At(t, i, Front(n.zero, n.whole) + Back(n.fraction))
    requires MantissaStops(n, t, i + |Front(n.zero, n.whole)| + |Back(n.fraction)|)
    ensures ParseMantissa(t, i) == Mantissa(Decimal(n.whole + n.fraction), -|n.fraction|,
      i + |Front(n.zero, n.whole)| + |Back(n.fraction)|)
  {
    hide At, Digits, DigitsEnd, Decimal, WholeEnd, Whole;
    AtConcat(t, i, Front(n.zero, n.whole), Back(n.fraction));
    AtConcat(t, i, Opt(n.zero, [ZERO]), n.whole);
    if n.zero { AtByte(t, i, ZERO); }
    var p := i + |Front(n.zero, n.whole)|;
    if n.fraction != [] {
      FractionRead(n.fraction, n.whole, t, p);
    } else {
      assert n.whole + n.fraction == n.whole;
    }
    WholeRead(n.whole, n.zero, t, p - |n.whole|);
  }

  lemma NoDigits()
    ensures Decimal([]) == 0
  {
  }

  lemma ExponentRead(x: Option<Exponent>, t: CString, i: nat)
    requires (x.None? || IsExponent(x.value)) && At(t, i, PowerText(x)) && ExponentStops(x, t, i + |PowerText(x)|)
    ensures ParseExponent(t, i) == (PowerValue(x), i + |PowerText(x)|)
  {
    hide At, Digits, DigitsEnd, Decimal;
    if x.Some? {
      var sign := if x.value.sign.None? then [] else [x.value.sign.value];
      AtConcat(t, i, [x.value.mark] + sign, x.value.digits);
      AtConcat(t, i, [x.value.mark], sign);
      AtByte(t, i, x.value.mark);
      if x.value.sign.Some? { AtByte(t, i + 1, x.value.sign.value); }
      DigitsRead(x.value.digits, [], t, i + 1 + |sign|);
      assert [] + x.value.digits == x.value.digits;
      NoDigits();
    }
  }

  /** A numeral is read to its end, with its meaning. */
  lemma NumeralIsRead(n: Numeral, t: CString, i: nat, e: nat)
    requires NumeralAt(n, t, i, e)
    ensures i < e <= |t| && (C(t, i) == MINUS || IsDigit(C(t, i))) && ParseNumber(t, i) == (NumeralValue(n), e)
  {
    hide At, ParseMantissa, ParseExponent, PowerValue, Decimal, Front, Back;
    var sign, mantissa := Opt(n.negative, [MINUS]), Front(n.zero, n.whole) + Back(n.fraction);
    var p := i + |sign|;
    var m := p + |mantissa|;
    assert NumeralText(n) == sign + mantissa + PowerText(n.exponent);
    AtConcat(t, i, sign + mantissa, PowerText(n.exponent));
    AtConcat(t, i, sign, mantissa);
    if n.negative { AtByte(t, i, MINUS); }
    ExponentRead(n.exponent, t, m);
    ExponentFollows(n, t, m);
    MantissaRead(n, t, p);
    FirstOfMantissa(n, t, p);
    ScaledShift(Decimal(n.whole + n.fraction), PowerValue(n.exponent) - |n.fraction|);
  }

  lemma ExponentFollows(n: Numeral, t: CString, m: nat)
    requires IsNumeral(n) && At(t, m, PowerText(n.exponent)) && (n.exponent.None? ==> MantissaStops(n, t, m))
    ensures MantissaStops(n, t, m)
  {
    if n.exponent.Some? { AtIndex(t, m, PowerText(n.exponent), 0); }
  }

  lemma FirstOfMantissa(n: Numeral, t: CString, i: nat)
    requires IsNumeral(n) && At(t, i, Front(n.zero, n.whole) + Back(n.fraction))
    ensures !n.negative ==> i < |t| && IsDigit(t[i]) && t[i] != MINUS
  {
    AtConcat(t, i, Front(n.zero, n.whole), Back(n.fraction));
    if n.zero || n.whole != [] { AtIndex(t, i, Front(n.zero, n.whole), 0); }
  }

  // ---- and only numerals ----

  lemma SliceAt(t: CString, i: nat, e: nat)
    requires i <= e <= |t|
    ensures At(t, i, t[i..e])
  {
    AtSlice(t, i, t[i..e]);
  }

  lemma FrontOf(t: CString, i: nat) returns (zero: bool, whole: bytes)
    requires i <= |t|
    ensures AllDigits(whole) && (whole == [] || whole[0] != ZERO) && At(t, i, Front(zero, whole))
    ensures var p := if C(t, i) == ZERO then i + 1 else i; i + |Front(zero, whole)| == WholeEnd(t, p)
    ensures var c := C(t, i + |Front(zero, whole)|); if zero && whole == [] then !StartsWhole(c) else !IsDigit(c)
  {
    hide Matches;
    zero := C(t, i) == ZERO;
    var p := if zero then i + 1 else i;
    whole := t[p..WholeEnd(t, p)];
    RunIsDigits(t, p);
    SliceAt(t, p, WholeEnd(t, p));
    SliceAt(t, i, p);
    assert t[i..p] == Opt(zero, [ZERO]);
    AtConcat(t, i, Opt(zero, [ZERO]), whole);
    if whole != [] { assert whole[0] == t[p]; }
  }

  lemma MantissaOf(t: CString, i: nat) returns (n: Numeral)
    requires i <= |t|
    ensures AllDigits(n.whole) && (n.whole == [] || n.whole[0] != ZERO) && AllDigits(n.fraction)
    ensures At(t, i, Front(n.zero, n.whole) + Back(n.fraction))
    ensures ParseMantissa(t, i).end == i + |Front(n.zero, n.whole)| + |Back(n.fraction)|
    ensures MantissaStops(n, t, ParseMantissa(t, i).end)
  {
    hide At, Front;
    var zero, whole := FrontOf(t, i);
    var p := i + |Front(zero, whole)|;
    var fraction := [];
    if C(t, p) == DOT && IsDigit(C(t, p + 1)) {
      fraction := t[p + 1..DigitsEnd(t, p + 1)];
      RunIsDigits(t, p + 1);
      SliceAt(t, p + 1, DigitsEnd(t, p + 1));
      AtByte(t, p, DOT);
      AtConcat(t, p, [DOT], fraction);
    } else {
      SliceAt(t, p, p);
    }
    AtConcat(t, i, Front(zero, whole), Back(fraction));
    n := Numeral(false, zero, whole, fraction, None);
  }

  lemma ExponentOf(t: CString, i: nat) returns (x: Option<Exponent>)
    requires i <= |t|
    ensures x.None? || IsExponent(x.value)
    ensures At(t, i, PowerText(x)) && i + |PowerText(x)| == ParseExponent(t, i).1
    ensures ExponentStops(x, t, ParseExponent(t, i).1)
  {
    hide At;
    x := None;
    SliceAt(t, i, i);
    if C(t, i) in {LOWER_E, UPPER_E} {
      var c := C(t, i + 1);
      var sign := if c in {PLUS, MINUS} then Some(c) else None;
      var p := if sign.Some? then i + 2 else i + 1;
      var digits := t[p..DigitsEnd(t, p)];
      RunIsDigits(t, p);
      AtByte(t, i, t[i]);
      SliceAt(t, i + 1, p);
      SliceAt(t, p, DigitsEnd(t, p));
      assert t[i + 1..p] == if sign.None? then [] else [sign.value];
      AtConcat(t, i, [t[i]], t[i + 1..p]);
      AtConcat(t, i, [t[i]] + t[i + 1..p], digits);
      x := Some(Exponent(t[i], sign, digits));
    }
  }

  /** The numeral that the parser reads. */
  lemma NumeralOf(t: CString, i: nat) returns (n: Numeral)
    requires i <= |t| && (C(t, i) == MINUS || IsDigit(C(t, i)))
    ensures NumeralAt(n, t, i, ParseNumber(t, i).1)
  {
    hide At, ParseExponent, Front, Back;
    var p := if C(t, i) == MINUS then i + 1 else i;
    var m := ParseMantissa(t, p).end;
    var mantissa := MantissaOf(t, p);
    var exponent := ExponentOf(t, m);
    n := mantissa.(negative := C(t, i) == MINUS, exponent := exponent);
    SliceAt(t, i, p);
    assert t[i..p] == Opt(n.negative, [MINUS]);
    AtConcat(t, p, Front(n.zero, n.whole) + Back(n.fraction), PowerText(exponent));
    assert Front(n.zero, n.whole) + Back(n.fraction) + PowerText(exponent)
      == Front(n.zero, n.whole) + (Back(n.fraction) + PowerText(exponent));
    AtConcat(t, i, Opt(n.negative, [MINUS]), Front(n.zero, n.whole) + (Back(n.fraction) + PowerText(exponent)));
    NotEmpty(n, t, p);
  }

  lemma NotEmpty(n: Numeral, t: CString, p: nat)
    requires p <= |t| && At(t, p, Front(n.zero, n.whole) + Back(n.fraction)) && (!n.negative ==> IsDigit(C(t, p)))
    requires MantissaStops(n, t, p + |Front(n.zero, n.whole)| + |Back(n.fraction)|)
    ensures n.negative || n.zero || n.whole != []
  {
    if !n.zero && n.whole == [] && n.fraction != [] {
      AtConcat(t, p, Front(n.zero, n.whole), Back(n.fraction));
      AtIndex(t, p, Back(n.fraction), 0);
    }
  }

  /** `parse_number` at a sign or digit reads exactly the longest numeral there, and computes its meaning. */
  lemma NumberIff(r: real, t: CString, i: nat, e: nat)
    requires i <= |t|
    ensures (C(t, i) == MINUS || IsDigit(C(t, i))) && ParseNumber(t, i) == (r, e)
      <==> exists n :: NumeralAt(n, t, i, e) && NumeralValue(n) == r
  {
    hide At, NumeralValue, MantissaStops, ExponentStops, IsExponent;
    if (C(t, i) == MINUS || IsDigit(C(t, i))) && ParseNumber(t, i) == (r, e) {
      var n := NumeralOf(t, i);
      NumeralIsRead(n, t, i, e);
    }
    if n :| NumeralAt(n, t, i, e) && NumeralValue(n) == r { NumeralIsRead(n, t, i, e); }
  }
}
