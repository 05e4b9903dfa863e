/** What a string literal is, apart from how it is read: a list of units, each with its spelling and its meaning.
    `parse_string` accepts exactly these literals, with the meanings of their units one after the other. */
module LiteralGrammar {
  import opened CText
  import opened Unicode
  import opened Json
  import opened Literals
  import opened Wrappers

  /** A byte that stands for itself, a backslash with a letter, a `\u` escape, or two of them for a surrogate pair. */
  datatype Unit = Plain(c: byte) | Short(letter: byte) | Single(digits: bytes) | Pair(high: bytes, low: bytes)

  predicate IsHexWord(d: bytes) {
    |d| == 4 && forall k | 0 <= k < 4 :: HexValue(d[k]) >= 0
  }

  /** The number spelled by four hexadecimal digits. */
  function HexWord(d: bytes): (h: nat)
    requires IsHexWord(d)
    ensures h < 0x10000
  {
    ((HexValue(d[0]) * 16 + HexValue(d[1])) * 16 + HexValue(d[2])) * 16 + HexValue(d[3])
  }

  lemma HexCharValue(n: nat)
    requires n < 16
    ensures HexValue(HexChar(n)) == n
  {
  }

  /** The units a literal may have; any byte but `u` may stand behind a backslash. */
  predicate IsUnit(u: Unit) {
    match u
    case Plain(c) => c !in {0, QUOTE, BACKSLASH}
    case Short(letter) => letter !in {0, LOWER_U}
    case Single(digits) => IsHexWord(digits) && HexWord(digits) != 0 && IsScalar(HexWord(digits))
    case Pair(high, low) =>
      && IsHexWord(high) && IsHighSurrogate(HexWord(high))
      && IsHexWord(low) && IsLowSurrogate(HexWord(low))
  }

  function Spelling(u: Unit): (s: bytes)
    ensures IsUnit(u) ==> |s| >= 1
  {
    match u
    case Plain(c) => [c]
    case Short(letter) => [BACKSLASH, letter]
    case Single(digits) => [BACKSLASH, LOWER_U] + digits
    case Pair(high, low) => [BACKSLASH, LOWER_U] + high + ([BACKSLASH, LOWER_U] + low)
  }

  function Meaning(u: Unit): bytes
    requires IsUnit(u)
  {
    match u
    case Plain(c) => [c]
    case Short(letter) => [SimpleEscape(letter)]
    case Single(digits) => Utf8(HexWord(digits))
    case Pair(high, low) => Utf8(PairCodePoint(HexWord(high), HexWord(low)))
  }

  predicate AreUnits(us: seq<Unit>) {
    forall k | 0 <= k < |us| :: IsUnit(us[k])
  }

  function Spelled(us: seq<Unit>): bytes {
    if us == [] then [] else Spelling(us[0]) + Spelled(us[1..])
  }

  function Meant(us: seq<Unit>): bytes
    requires AreUnits(us)
  {
    if us == [] then [] else Meaning(us[0]) + Meant(us[1..])
  }

  /** The literal from `i` to `e` is made of these units. A text may end where the closing quote is missing. */
  ghost predicate LiteralAt(us: seq<Unit>, t: CString, i: nat, e: nat) {
    var q := i + 1 + |Spelled(us)|;
    && q <= |t| && t[i] == QUOTE && AreUnits(us) && At(t, i + 1, Spelled(us))
    && if q < |t| then t[q] == QUOTE && e == q + 1 else e == q
  }

  // ---- one unit ----

  lemma HexAt(d: bytes, t: CString, i: nat)
    requires IsHexWord(d) && At(t, i, d)
    ensures FourHexDigits(t, i) && Hex4(t, i) == HexWord(d)
  {
    AtIndex(t, i, d, 0);
    AtIndex(t, i, d, 1);
    AtIndex(t, i, d, 2);
    AtIndex(t, i, d, 3);
  }

  lemma EscapeAt(d: bytes, t: CString, i: nat)
    requires IsHexWord(d) && At(t, i, [BACKSLASH, LOWER_U] + d)
    ensures i + 6 <= |t| && t[i] == BACKSLASH && t[i + 1] == LOWER_U
    ensures FourHexDigits(t, i + 2) && Hex4(t, i + 2) == HexWord(d)
    ensures ScanEnd(t, i) == ScanEnd(t, i + 6)
  {
    hide HexWord, Hex4, Matches;
    var mark: bytes := [BACKSLASH, LOWER_U];
    AtConcat(t, i, mark, d);
    AtIndex(t, i, mark, 0);
    AtIndex(t, i, mark, 1);
    HexAt(d, t, i + 2);
    ScanEscape(t, i);
    ScanHex(t, i + 2);
  }

  /** One unit, read by both passes. */
  ghost predicate ReadsAs(t: CString, i: nat, n: nat, meaning: bytes, e: nat)
    requires i + n <= e <= |t|
  {
    ScanEnd(t, i) == ScanEnd(t, i + n) && Decode(t, i, e) == Prepend(meaning, Decode(t, i + n, e))
  }

  lemma ShortStep(u: Unit, t: CString, i: nat, e: nat)
    requires (u.Plain? || u.Short?) && IsUnit(u) && At(t, i, Spelling(u)) && i + |Spelling(u)| <= e <= |t|
    ensures ReadsAs(t, i, |Spelling(u)|, Meaning(u), e)
  {
    AtIndex(t, i, Spelling(u), 0);
    if u.Short? { AtIndex(t, i, Spelling(u), 1); }
  }

  lemma SingleStep(d: bytes, t: CString, i: nat, e: nat)
    requires IsUnit(Single(d)) && At(t, i, Spelling(Single(d))) && i + 6 <= e <= |t|
    ensures ReadsAs(t, i, 6, Meaning(Single(d)), e)
  {
    hide HexWord, Hex4, At, Utf8, FourHexDigits, ScanEnd;
    EscapeAt(d, t, i);
    AtEscape(t, i, e);
  }

  lemma PairStep(high: bytes, low: bytes, t: CString, i: nat, e: nat)
    requires IsUnit(Pair(high, low)) && At(t, i, Spelling(Pair(high, low))) && i + 12 <= e <= |t|
    ensures ReadsAs(t, i, 12, Meaning(Pair(high, low)), e)
  {
    hide HexWord, Hex4, At, Utf8, FourHexDigits, ScanEnd;
    var mark: bytes := [BACKSLASH, LOWER_U];
    AtConcat(t, i, mark + high, mark + low);
    EscapeAt(high, t, i);
    EscapeAt(low, t, i + 6);
    AtEscape(t, i, e);
  }

  lemma UnitStep(u: Unit, t: CString, i: nat, e: nat)
    requires IsUnit(u) && At(t, i, Spelling(u)) && i + |Spelling(u)| <= e <= |t|
    ensures ReadsAs(t, i, |Spelling(u)|, Meaning(u), e)
  {
    hide At, ReadsAs, HexWord, Utf8;
    match u
    case Single(digits) => SingleStep(digits, t, i, e);
    case Pair(high, low) => PairStep(high, low, t, i, e);
    case _ => ShortStep(u, t, i, e);
  }

  // ---- every list of units is read ----

  lemma {:induction false} UnitsAreRead(us: seq<Unit>, t: CString, i: nat, q: nat)
    requires AreUnits(us) && At(t, i, Spelled(us)) && q == i + |Spelled(us)| && (q == |t| || t[q] == QUOTE)
    ensures q <= |t| && ScanEnd(t, i) == q && Decode(t, i, q) == Some(Decoded(Meant(us), q))
  {
    hide IsUnit, At, Spelling, Meaning;
    AtSlice(t, i, Spelled(us));
    if us != [] {
      AtConcat(t, i, Spelling(us[0]), Spelled(us[1..]));
      UnitsAreRead(us[1..], t, i + |Spelling(us[0])|, q);
      UnitStep(us[0], t, i, q);
    }
  }

  /** The bytes that the scan counts for a unit: one for a character or a backslash with its letter, and one for each
      hexadecimal digit. */
  function Width(u: Unit): nat {
    match u
    case Plain(_) => 1
    case Short(_) => 1
    case Single(_) => 5
    case Pair(_, _) => 10
  }

  function Widths(us: seq<Unit>): nat {
    if us == [] then 0 else Width(us[0]) + Widths(us[1..])
  }

  lemma EscapeWidth(d: bytes, t: CString, i: nat)
    requires IsHexWord(d) && At(t, i, [BACKSLASH, LOWER_U] + d)
    ensures i + 6 <= |t| && Units(t, i) == 5 + Units(t, i + 6)
  {
    hide HexWord, Hex4, Matches;
    EscapeAt(d, t, i);
    ScanEscape(t, i);
    ScanHex(t, i + 2);
  }

  lemma UnitWidth(u: Unit, t: CString, i: nat)
    requires IsUnit(u) && At(t, i, Spelling(u))
    ensures i + |Spelling(u)| <= |t| && Units(t, i) == Width(u) + Units(t, i + |Spelling(u)|)
  {
    hide HexWord, Hex4, Matches;
    match u
    case Single(digits) => EscapeWidth(digits, t, i);
    case Pair(high, low) =>
      AtConcat(t, i, [BACKSLASH, LOWER_U] + high, [BACKSLASH, LOWER_U] + low);
      EscapeWidth(high, t, i);
      EscapeWidth(low, t, i + 6);
    case Plain(_) => AtIndex(t, i, Spelling(u), 0);
    case Short(_) =>
      AtIndex(t, i, Spelling(u), 0);
      AtIndex(t, i, Spelling(u), 1);
  }

  /** The scan counts the widths of the units, which are the bytes allocated for the decoded literal. */
  lemma {:induction false} UnitsAreCounted(us: seq<Unit>, t: CString, i: nat)
    requires AreUnits(us) && At(t, i, Spelled(us))
    requires var q := i + |Spelled(us)|; q == |t| || t[q] == QUOTE
    ensures Units(t, i) == Widths(us)
    decreases |us|
  {
    hide IsUnit, At, Spelling, Width;
    AtSlice(t, i, Spelled(us));
    if us != [] {
      AtConcat(t, i, Spelling(us[0]), Spelled(us[1..]));
      UnitWidth(us[0], t, i);
      UnitsAreCounted(us[1..], t, i + |Spelling(us[0])|);
    }
  }

  // ---- and only these ----

  lemma HexSlice(t: CString, i: nat)
    requires FourHexDigits(t, i)
    ensures var d := t[i..i + 4]; IsHexWord(d) && HexWord(d) == Hex4(t, i) && At(t, i, d)
  {
    AtSlice(t, i, t[i..i + 4]);
  }

  lemma MarkedAt(t: CString, i: nat, d: bytes)
    requires i + 2 <= |t| && t[i] == BACKSLASH && t[i + 1] == LOWER_U && At(t, i + 2, d)
    ensures At(t, i, [BACKSLASH, LOWER_U] + d)
  {
    var mark: bytes := [BACKSLASH, LOWER_U];
    AtSlice(t, i, mark);
    AtConcat(t, i, mark, d);
  }

  lemma FirstEscape(t: CString, i: nat, e: nat) returns (u: Unit)
    requires i < e <= |t| && e == ScanEnd(t, i) && t[i] == BACKSLASH && C(t, i + 1) == LOWER_U
    requires DecodeUnicode(t, i, e).Some?
    ensures (u.Single? || u.Pair?) && IsUnit(u) && At(t, i, Spelling(u)) && i + |Spelling(u)| <= e
  {
    hide At, ScanEnd, Utf8, HexWord, Decode, HexValue;
    assert FourHexDigits(t, i + 2);
    HexSlice(t, i + 2);
    var d := t[i + 2..i + 6];
    MarkedAt(t, i, d);
    if IsHighSurrogate(Hex4(t, i + 2)) {
      assert FourHexDigits(t, i + 8);
      HexSlice(t, i + 8);
      var d' := t[i + 8..i + 12];
      MarkedAt(t, i + 6, d');
      AtConcat(t, i, [BACKSLASH, LOWER_U] + d, [BACKSLASH, LOWER_U] + d');
      EndsBehind(t, i, e);
      return Pair(d, d');
    }
    EndsBehind(t, i, e);
    return Single(d);
  }

  lemma EndsBehind(t: CString, i: nat, e: nat)
    requires i + 6 <= |t| && e == ScanEnd(t, i) && t[i] == BACKSLASH && FourHexDigits(t, i + 2)
    ensures i + 6 <= e
    ensures i + 12 <= |t| && t[i + 6] == BACKSLASH && FourHexDigits(t, i + 8) ==> i + 12 <= e
  {
    ScanEscape(t, i);
    ScanHex(t, i + 2);
    if i + 12 <= |t| && t[i + 6] == BACKSLASH && FourHexDigits(t, i + 8) {
      ScanEscape(t, i + 6);
      ScanHex(t, i + 8);
    }
  }

  /** The unit that a decoded literal starts with. */
  lemma FirstUnit(t: CString, i: nat, e: nat) returns (u: Unit)
    requires i < e <= |t| && e == ScanEnd(t, i) && Decode(t, i, e).Some?
    ensures IsUnit(u) && At(t, i, Spelling(u)) && i + |Spelling(u)| <= e
  {
    hide DecodeUnicode;
    if t[i] != BACKSLASH {
      u := Plain(t[i]);
      AtByte(t, i, t[i]);
    } else if C(t, i + 1) == LOWER_U {
      u := FirstEscape(t, i, e);
    } else {
      u := Short(C(t, i + 1));
      AtSlice(t, i, Spelling(u));
    }
  }

  lemma {:induction false} UnitsOf(t: CString, i: nat, e: nat) returns (us: seq<Unit>)
    requires i <= e <= |t| && e == ScanEnd(t, i) && Decode(t, i, e).Some?
    ensures AreUnits(us) && At(t, i, Spelled(us)) && i + |Spelled(us)| == e
    decreases e - i
  {
    hide IsUnit, At, Spelling, Meaning, Decode;
    us := [];
    AtSlice(t, i, []);
    if i < e {
      var u := FirstUnit(t, i, e);
      UnitStep(u, t, i, e);
      us := UnitsOf(t, i + |Spelling(u)|, e);
      AtConcat(t, i, Spelling(u), Spelled(us));
      us := [u] + us;
    }
  }

  /** `parse_string` returns a string exactly for a literal whose units mean that string. */
  lemma LiteralIff(t: CString, i: nat, s: bytes, e: nat)
    requires i <= |t|
    ensures ParseString(t, i) == Ok(s, e) <==> exists us :: LiteralAt(us, t, i, e) && Meant(us) == s
  {
    hide At, AreUnits, Spelled, Meant, Decode, ScanEnd;
    if ParseString(t, i) == Ok(s, e) {
      var q := ScanEnd(t, i + 1);
      var us := UnitsOf(t, i + 1, q);
      UnitsAreRead(us, t, i + 1, q);
      assert LiteralAt(us, t, i, e) && Meant(us) == s;
    }
    if us :| LiteralAt(us, t, i, e) && Meant(us) == s {
      UnitsAreRead(us, t, i + 1, i + 1 + |Spelled(us)|);
    }
  }
}
