/** The recursive descent parser, as functions from an offset to a value and the offset after it. */
module Parser {
  import opened CText
  import opened Json
  import opened Literals

  // ---- numbers ----

  /** The end of the run of digits that starts at `i`. */
  function DigitsEnd(t: CString, i: nat): (e: nat)
    requires i <= |t|
    ensures i <= e <= |t|
    decreases |t| - i
  {
    if IsDigit(C(t, i)) then DigitsEnd(t, i + 1) else i
  }

  function DigitValue(c: byte): nat
    requires IsDigit(c)
  {
    c - ZERO
  }

  /** The number `acc` followed by the run of digits that starts at `i`. */
  function Digits(acc: nat, t: CString, i: nat): nat
    requires i <= |t|
    decreases |t| - i
  {
    if IsDigit(C(t, i)) then Digits(acc * 10 + DigitValue(t[i]), t, i + 1) else acc
  }

  /** `x * pow(10.0, e)`. */
  function Scaled(x: real, e: int): real
    decreases if e < 0 then -e else e
  {
    if e == 0 then x else if e > 0 then Scaled(10.0 * x, e - 1) else Scaled(x / 10.0, e + 1)
  }

  function Power10(n: nat): real {
    if n == 0 then 1.0 else 10.0 * Power10(n - 1)
  }

  /** Scaling by `e` is multiplication by `10^e`, or division by `10^-e`. */
  lemma {:induction false} ScaledIsPower(x: real, e: int)
    ensures e >= 0 ==> Scaled(x, e) == x * Power10(e)
    ensures e <= 0 ==> Scaled(x, e) * Power10(-e) == x
    decreases if e < 0 then -e else e
  {
    if e > 0 {
      ScaledIsPower(10.0 * x, e - 1);
      Exchange(x, Power10(e - 1));
    } else if e < 0 {
      ScaledIsPower(x / 10.0, e + 1);
      Exchange(Scaled(x, e), Power10(-e - 1));
    }
  }

  lemma Exchange(x: real, p: real)
    ensures 10.0 * x * p == x * (10.0 * p)
    ensures x * (10.0 * p) == 10.0 * (x * p)
  {
  }

  datatype Mantissa = Mantissa(digits: nat, scale: int, end: nat)

  /** The digits before the decimal point start with 1 to 9; otherwise there are none. */
  predicate StartsWhole(c: byte) {
    IsDigit(c) && c != ZERO
  }

  function WholeEnd(t: CString, i: nat): (e: nat)
    requires i <= |t|
    ensures i <= e <= |t|
  {
    if StartsWhole(C(t, i)) then DigitsEnd(t, i) else i
  }

  function Whole(t: CString, i: nat): nat
    requires i <= |t|
  {
    if StartsWhole(C(t, i)) then Digits(0, t, i) else 0
  }

  /** The digits before and after the decimal point. */
  function ParseMantissa(t: CString, i: nat): (m: Mantissa)
    requires i <= |t|
    ensures i <= m.end <= |t|
    ensures IsDigit(C(t, i)) ==> i < m.end
  {
    var p1 := if C(t, i) == ZERO then i + 1 else i;
    var p2 := WholeEnd(t, p1);
    var n := Whole(t, p1);
    if C(t, p2) == DOT && IsDigit(C(t, p2 + 1)) then
      var p3 := DigitsEnd(t, p2 + 1);
      Mantissa(Digits(n, t, p2 + 1), -(p3 - p2 - 1), p3)
    else Mantissa(n, 0, p2)
  }

  /** The exponent and the offset after it; no exponent counts as 0. */
  function ParseExponent(t: CString, i: nat): (r: (int, nat))
    requires i <= |t|
    ensures i <= r.1 <= |t|
  {
    if C(t, i) == LOWER_E || C(t, i) == UPPER_E then
      var negative := C(t, i + 1) == MINUS;
      var p := if negative || C(t, i + 1) == PLUS then i + 2 else i + 1;
      var n: int := Digits(0, t, p);
      (if negative then -n else n, DigitsEnd(t, p))
    else (0, i)
  }

  /** `parse_number` with exact arithmetic in place of doubles. */
  function ParseNumber(t: CString, i: nat): (r: (real, nat))
    requires i <= |t| && (C(t, i) == MINUS || IsDigit(C(t, i)))
    ensures i < r.1 <= |t|
  {
    var negative := C(t, i) == MINUS;
    var m := ParseMantissa(t, if negative then i + 1 else i);
    var (exponent, end) := ParseExponent(t, m.end);
    var n := Scaled(m.digits as real, m.scale + exponent);
    (if negative then -n else n, end)
  }

  // ---- values ----

  function Lift<T, U>(r: Parsed<T>): Parsed<U>
    requires !r.Ok?
  {
    match r
    case Fail(ep) => Fail(ep)
    case Overrun => Overrun
  }

  function ParseValue(t: CString, i: nat): (r: Parsed<Json>)
    requires i <= |t|
    ensures r.Ok? ==> i < r.end <= |t|
    ensures r.Fail? ==> i <= r.ep <= |t|
    decreases |t| - i, 2
  {
    if At(t, i, NULL_TEXT) then Ok(Null, i + 4)
    else if At(t, i, FALSE_TEXT) then Ok(False, i + 5)
    else if At(t, i, TRUE_TEXT) then Ok(True, i + 4)
    else if C(t, i) == QUOTE then
      var r := ParseString(t, i);
      if r.Ok? then Ok(String(r.value), r.end) else Lift(r)
    else if C(t, i) == MINUS || IsDigit(C(t, i)) then
      var (n, end) := ParseNumber(t, i);
      Ok(Number(n), end)
    else if C(t, i) == OPEN_BRACKET then ParseArray(t, i)
    else if C(t, i) == OPEN_BRACE then ParseObject(t, i)
    else Fail(i)
  }

  function ParseArray(t: CString, i: nat): (r: Parsed<Json>)
    requires i <= |t| && C(t, i) == OPEN_BRACKET
    ensures r.Ok? ==> i < r.end <= |t|
    ensures r.Fail? ==> i <= r.ep <= |t|
    decreases |t| - i, 1
  {
    var j := Skip(t, i + 1);
    if C(t, j) == CLOSE_BRACKET then Ok(Array([]), j + 1)
    else
      var r := ParseItems(t, j);
      if r.Ok? then Ok(Array(r.value), r.end) else Lift(r)
  }

  function ParseObject(t: CString, i: nat): (r: Parsed<Json>)
    requires i <= |t| && C(t, i) == OPEN_BRACE
    ensures r.Ok? ==> i < r.end <= |t|
    ensures r.Fail? ==> i <= r.ep <= |t|
    decreases |t| - i, 1
  {
    var j := Skip(t, i + 1);
    if C(t, j) == CLOSE_BRACE then Ok(Object([]), j + 1)
    else
      var r := ParseMembers(t, j);
      if r.Ok? then Ok(Object(r.value), r.end) else Lift(r)
  }

  /** The items from `i` on, up to and including the closing bracket. */
  function ParseItems(t: CString, i: nat): (r: Parsed<seq<Json>>)
    requires i <= |t|
    ensures r.Ok? ==> i < r.end <= |t| && |r.value| >= 1
    ensures r.Fail? ==> i <= r.ep <= |t|
    decreases |t| - i, 3
  {
    var v := ParseValue(t, Skip(t, i));
    if !v.Ok? then Lift(v)
    else
      var j := Skip(t, v.end);
      if C(t, j) == COMMA then
        var rest := ParseItems(t, j + 1);
        if rest.Ok? then Ok([v.value] + rest.value, rest.end) else Lift(rest)
      else if C(t, j) == CLOSE_BRACKET then Ok([v.value], j + 1)
      else Fail(j)
  }

  /** One name, colon and value, and the blanks after it. */
  function ParseMember(t: CString, i: nat): (r: Parsed<Member>)
    requires i <= |t|
    ensures r.Ok? ==> i < r.end <= |t|
    ensures r.Fail? ==> i <= r.ep <= |t|
    decreases |t| - i, 3
  {
    var n := ParseString(t, Skip(t, i));
    if !n.Ok? then Lift(n)
    else
      var j := Skip(t, n.end);
      if C(t, j) != COLON then Fail(j)
      else
        var v := ParseValue(t, Skip(t, j + 1));
        if !v.Ok? then Lift(v) else Ok(Member(n.value, v.value), Skip(t, v.end))
  }

  /** The members from `i` on, up to and including the closing brace. */
  function ParseMembers(t: CString, i: nat): (r: Parsed<seq<Member>>)
    requires i <= |t|
    ensures r.Ok? ==> i < r.end <= |t| && |r.value| >= 1
    ensures r.Fail? ==> i <= r.ep <= |t|
    decreases |t| - i, 4
  {
    var m := ParseMember(t, i);
    if !m.Ok? then Lift(m)
    else if C(t, m.end) == COMMA then
      var rest := ParseMembers(t, m.end + 1);
      if rest.Ok? then Ok([m.value] + rest.value, rest.end) else Lift(rest)
    else if C(t, m.end) == CLOSE_BRACE then Ok([m.value], m.end + 1)
    else Fail(m.end)
  }

  /** `cJSON_ParseWithOpts`. */
  function Parse(t: CString, requireTerminated: bool): (r: Parsed<Json>)
    ensures r.Ok? ==> r.end <= |t| && (requireTerminated ==> r.end == |t|)
    ensures r.Fail? ==> r.ep <= |t|
  {
    var r := ParseValue(t, Skip(t, 0));
    if r.Ok? && requireTerminated then
      var end := Skip(t, r.end);
      if C(t, end) != 0 then Fail(end) else Ok(r.value, end)
    else r
  }

  // ---- no read past the terminator ----

  /** A text whose last run of backslashes is even, for instance empty, is never read past its terminator. */
  lemma {:induction false} NoOverrunValue(t: CString, i: nat)
    requires i <= |t| && TrailingBackslashes(t) % 2 == 0
    ensures !ParseValue(t, i).Overrun?
    decreases |t| - i, 1
  {
    if C(t, i) == QUOTE {
      OverrunIff(t, i, |t| - TrailingBackslashes(t));
    } else if C(t, i) == OPEN_BRACKET {
      NoOverrunItems(t, Skip(t, i + 1));
    } else if C(t, i) == OPEN_BRACE {
      NoOverrunMembers(t, Skip(t, i + 1));
    }
  }

  lemma {:induction false} NoOverrunItems(t: CString, i: nat)
    requires i <= |t| && TrailingBackslashes(t) % 2 == 0
    ensures !ParseItems(t, i).Overrun?
    decreases |t| - i, 2
  {
    NoOverrunValue(t, Skip(t, i));
    var v := ParseValue(t, Skip(t, i));
    if v.Ok? && C(t, Skip(t, v.end)) == COMMA { NoOverrunItems(t, Skip(t, v.end) + 1); }
  }

  lemma {:induction false} NoOverrunMembers(t: CString, i: nat)
    requires i <= |t| && TrailingBackslashes(t) % 2 == 0
    ensures !ParseMembers(t, i).Overrun?
    decreases |t| - i, 3
  {
    NoOverrunMember(t, i);
    var m := ParseMember(t, i);
    if m.Ok? && C(t, m.end) == COMMA { NoOverrunMembers(t, m.end + 1); }
  }

  lemma {:induction false} NoOverrunMember(t: CString, i: nat)
    requires i <= |t| && TrailingBackslashes(t) % 2 == 0
    ensures !ParseMember(t, i).Overrun?
    decreases |t| - i, 2
  {
    var s := Skip(t, i);
    if C(t, s) == QUOTE { OverrunIff(t, s, |t| - TrailingBackslashes(t)); }
    var n := ParseString(t, s);
    if n.Ok? && C(t, Skip(t, n.end)) == COLON { NoOverrunValue(t, Skip(t, Skip(t, n.end) + 1)); }
  }

  /** Parsing such a text always ends, inside the text, with a value or a place of failure. */
  lemma ParseIsTotal(t: CString, requireTerminated: bool)
    requires TrailingBackslashes(t) % 2 == 0
    ensures !Parse(t, requireTerminated).Overrun?
  {
    NoOverrunValue(t, Skip(t, 0));
  }
}
