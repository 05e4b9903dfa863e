/** The `\u` escapes: every Unicode scalar value but NUL can be written as one escape or as a surrogate pair,
    and decoding gives its UTF-8 encoding; everything else is rejected. */
module Escapes {
  import opened CText
  import opened Unicode
  import opened Json
  import opened Literals
  import opened LiteralGrammar

  /** The hexadecimal digit for `n`, in either case. */
  predicate IsDigitFor(c: byte, n: nat)
    requires n < 16
  {
    c == UPPER_DIGITS[n] || c == LOWER_DIGITS[n]
  }

  /** Four hexadecimal digits that spell `u`, as in section 7 of RFC 8259. */
  predicate Spells(d: bytes, u: nat)
    requires u < 0x10000
  {
    && |d| == 4 && IsDigitFor(d[0], u / 0x1000) && IsDigitFor(d[1], u / 0x100 % 16)
    && IsDigitFor(d[2], u / 16 % 16) && IsDigitFor(d[3], u % 16)
  }

  /** The unit writes the character in its UTF-16 form, one escape for each code unit. */
  predicate Writes(u: Unit, cp: nat)
    requires IsScalar(cp)
  {
    if cp < 0x10000 then u.Single? && Spells(u.digits, cp)
    else u.Pair? && Spells(u.high, SurrogatePair(cp).0) && Spells(u.low, SurrogatePair(cp).1)
  }

  /** Four lower-case digits. */
  function HexDigits(u: nat): (d: bytes)
    requires u < 0x10000
    ensures Spells(d, u)
  {
    [LOWER_DIGITS[u / 0x1000], LOWER_DIGITS[u / 0x100 % 16], LOWER_DIGITS[u / 16 % 16], LOWER_DIGITS[u % 16]]
  }

  /** Every character can be written. */
  function CharUnit(cp: nat): (u: Unit)
    requires IsScalar(cp)
    ensures Writes(u, cp)
  {
    if cp < 0x10000 then Single(HexDigits(cp))
    else Pair(HexDigits(SurrogatePair(cp).0), HexDigits(SurrogatePair(cp).1))
  }

  lemma DigitsOf(u: nat, a: nat, b: nat, c: nat, d: nat)
    requires a == u / 0x1000 && b == u / 0x100 % 16 && c == u / 16 % 16 && d == u % 16
    ensures ((a * 16 + b) * 16 + c) * 16 + d == u
  {
    assert u / 16 / 16 == u / 0x100 && u / 0x100 / 16 == u / 0x1000;
  }

  lemma DigitFor(c: byte, n: nat)
    requires n < 16 && IsDigitFor(c, n)
    ensures HexValue(c) == n
  {
    HexValueIsPlace(c);
  }

  lemma SpelledWord(d: bytes, u: nat)
    requires u < 0x10000 && Spells(d, u)
    ensures IsHexWord(d) && HexWord(d) == u
  {
    hide HexValue, IsDigitFor;
    DigitFor(d[0], u / 0x1000);
    DigitFor(d[1], u / 0x100 % 16);
    DigitFor(d[2], u / 16 % 16);
    DigitFor(d[3], u % 16);
    DigitsOf(u, u / 0x1000, u / 0x100 % 16, u / 16 % 16, u % 16);
  }

  lemma WrittenMeaning(u: Unit, cp: nat)
    requires IsScalar(cp) && cp != 0 && Writes(u, cp)
    ensures IsUnit(u) && Meaning(u) == Utf8(cp)
  {
    hide Utf8, Spells, HexWord;
    if cp < 0x10000 {
      SpelledWord(u.digits, cp);
    } else {
      var (hi, lo) := SurrogatePair(cp);
      SpelledWord(u.high, hi);
      SpelledWord(u.low, lo);
      PairRoundTrip(cp, hi, lo);
    }
  }

  // ---- which escapes are accepted ----

  /** A `\u` escape, or two of them for a surrogate pair, that the literal goes on behind. */
  ghost predicate ReadableEscape(u: Unit, t: CString, i: nat, e: nat)
    requires e <= |t|
  {
    && (u.Single? || u.Pair?) && IsUnit(u) && At(t, i, Spelling(u)) && i + |Spelling(u)| <= e
    && Decode(t, i + |Spelling(u)|, e).Some?
  }

  /** Such an escape means a scalar value other than NUL. */
  lemma EscapeMeaning(u: Unit) returns (cp: nat)
    requires (u.Single? || u.Pair?) && IsUnit(u)
    ensures IsScalar(cp) && cp != 0 && Meaning(u) == Utf8(cp)
  {
    cp := if u.Single? then HexWord(u.digits) else PairCodePoint(HexWord(u.high), HexWord(u.low));
  }

  /** An escape is accepted exactly when the literal grammar has it, that is, for a scalar value other than NUL, and
      then writes that value's UTF-8 encoding: unpaired surrogates, wrong digits and U+0000 are rejected. */
  lemma EscapeAccepted(t: CString, i: nat, e: nat)
    requires i + 1 < |t| && e == ScanEnd(t, i) && i < e <= |t| && t[i] == BACKSLASH && t[i + 1] == LOWER_U
    ensures DecodeUnicode(t, i, e).Some? <==> exists u :: ReadableEscape(u, t, i, e)
    ensures forall u | ReadableEscape(u, t, i, e) ::
      DecodeUnicode(t, i, e) == Prepend(Meaning(u), Decode(t, i + |Spelling(u)|, e))
  {
    hide At, IsUnit, Spelling, Meaning, ScanEnd, Decode, DecodeUnicode;
    AtEscape(t, i, e);
    forall u | ReadableEscape(u, t, i, e)
      ensures DecodeUnicode(t, i, e) == Prepend(Meaning(u), Decode(t, i + |Spelling(u)|, e))
    {
      UnitStep(u, t, i, e);
    }
    if DecodeUnicode(t, i, e).Some? {
      var u := FirstEscape(t, i, e);
      UnitStep(u, t, i, e);
      assert ReadableEscape(u, t, i, e);
    }
  }

  // ---- whole texts ----

  ghost predicate AreCharacters(cps: seq<nat>) {
    forall k | 0 <= k < |cps| :: IsScalar(cps[k]) && cps[k] != 0
  }

  function TextUtf8(cps: seq<nat>): bytes
    requires forall k | 0 <= k < |cps| :: cps[k] <= 0x10FFFF
  {
    if cps == [] then [] else Utf8(cps[0]) + TextUtf8(cps[1..])
  }

  /** The units write these characters, one after the other. */
  ghost predicate WritesText(us: seq<Unit>, cps: seq<nat>)
    requires AreCharacters(cps)
  {
    |us| == |cps| && forall k | 0 <= k < |cps| :: Writes(us[k], cps[k])
  }

  lemma {:induction false} WrittenText(us: seq<Unit>, cps: seq<nat>)
    requires AreCharacters(cps) && WritesText(us, cps)
    ensures AreUnits(us) && Meant(us) == TextUtf8(cps)
    decreases |cps|
  {
    hide IsUnit, Writes, Meaning, Utf8;
    if cps != [] {
      WrittenMeaning(us[0], cps[0]);
      WrittenText(us[1..], cps[1..]);
    }
  }

  /** Any text without NUL, written with `\u` escapes only, in digits of either case, is read as its UTF-8 form. */
  lemma TextLiteral(us: seq<Unit>, cps: seq<nat>, t: CString, i: nat)
    requires AreCharacters(cps) && WritesText(us, cps) && At(t, i, [QUOTE] + Spelled(us) + [QUOTE])
    ensures ParseString(t, i) == Ok(TextUtf8(cps), i + |Spelled(us)| + 2)
  {
    hide At, Meant, TextUtf8, Spelled, ParseString, AreUnits, WritesText;
    AtConcat(t, i, [QUOTE] + Spelled(us), [QUOTE]);
    AtConcat(t, i, [QUOTE], Spelled(us));
    AtByte(t, i, QUOTE);
    AtByte(t, i + 1 + |Spelled(us)|, QUOTE);
    WrittenText(us, cps);
    LiteralIff(t, i, TextUtf8(cps), i + |Spelled(us)| + 2);
    assert LiteralAt(us, t, i, i + |Spelled(us)| + 2);
  }

  lemma OneSpelled(u: Unit)
    ensures Spelled([u]) == Spelling(u)
  {
    assert [u][1..] == [];
    assert Spelling(u) + [] == Spelling(u);
  }

  /** A literal made of one escape, in digits of either case, decodes to exactly the UTF-8 encoding of its character. */
  lemma CharLiteral(u: Unit, cp: nat, t: CString, i: nat)
    requires IsScalar(cp) && cp != 0 && Writes(u, cp) && At(t, i, [QUOTE] + Spelling(u) + [QUOTE])
    ensures ParseString(t, i) == Ok(Utf8(cp), i + |Spelling(u)| + 2)
    ensures IsUtf8Char(Utf8(cp)) && CodePoint(Utf8(cp)) == cp
  {
    hide Utf8, Writes, At, ParseString, Spelling;
    assert [cp][1..] == [];
    OneSpelled(u);
    assert TextUtf8([cp]) == Utf8(cp) + [] == Utf8(cp);
    TextLiteral([u], [cp], t, i);
    Utf8IsWellFormed(cp);
  }

  /** The literal of the escape `u00C9`, with upper-case digits. */
  lemma UpperCaseEscape()
    ensures ParseString([34, 92, 117, 48, 48, 67, 57, 34], 0) == Ok([0xC3, 0x89], 8)
  {
    var t: CString := [34, 92, 117, 48, 48, 67, 57, 34];
    var u := Single([48, 48, 67, 57]);
    AtSlice(t, 0, t);
    assert [QUOTE] + Spelling(u) + [QUOTE] == t;
    CharLiteral(u, 0xC9, t, 0);
  }
}
