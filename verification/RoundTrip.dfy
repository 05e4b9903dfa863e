/** What the printer writes denotes the value: parsing it gives the value back and consumes exactly that text. */
module RoundTrip {
  import opened CText
  import opened Json
  import opened Literals
  import opened LiteralGrammar
  import opened Parser
  import opened NumberGrammar
  import opened Grammar
  import opened PrintText
  import opened Wrappers

  // ---- strings ----

  /** The unit that a character is printed as. */
  function PrintedUnit(c: byte): Unit {
    if !NeedsEscape(c) then Plain(c)
    else if ShortEscape(c) != 0 then Short(ShortEscape(c))
    else Single([ZERO, ZERO, HexChar(c / 16), HexChar(c % 16)])
  }

  function PrintedUnits(s: bytes): (us: seq<Unit>) {
    if s == [] then [] else [PrintedUnit(s[0])] + PrintedUnits(s[1..])
  }

  lemma PrintedUnitIs(c: byte)
    requires c != 0
    ensures var u := PrintedUnit(c); IsUnit(u) && Spelling(u) == EscapeChar(c) && Meaning(u) == [c]
  {
    HexCharValue(c / 16);
    HexCharValue(c % 16);
  }

  /** A printed string is spelled by the units of its characters. */
  lemma {:induction false} PrintedUnitsAre(s: bytes)
    requires NulFree(s)
    ensures var us := PrintedUnits(s); AreUnits(us) && Spelled(us) == Escape(s) && Meant(us) == s
    decreases |s|
  {
    hide IsUnit, Spelling, Meaning, PrintedUnit, EscapeChar;
    if s != [] {
      PrintedUnitIs(s[0]);
      PrintedUnitsAre(s[1..]);
    }
  }

  lemma EscapedDecodes(s: bytes, t: CString, i: nat)
    requires NulFree(s) && At(t, i, Escape(s)) && C(t, i + |Escape(s)|) == QUOTE
    ensures ScanEnd(t, i) == i + |Escape(s)|
    ensures Decode(t, i, i + |Escape(s)|) == Some(Decoded(s, i + |Escape(s)|))
  {
    hide At, Escape, PrintedUnits, Spelled, Meant, Decode, ScanEnd;
    PrintedUnitsAre(s);
    UnitsAreRead(PrintedUnits(s), t, i, i + |Escape(s)|);
  }

  /** `parse_string` undoes `print_string_ptr` and stops just after the closing quote, whatever follows. */
  lemma StringRoundTrip(s: bytes, t: CString, i: nat)
    requires NulFree(s) && At(t, i, PrintString(s))
    ensures ParseString(t, i) == Ok(s, i + |PrintString(s)|)
    ensures t[i] == QUOTE
  {
    AtConcat(t, i, [QUOTE] + Escape(s), [QUOTE]);
    AtConcat(t, i, [QUOTE], Escape(s));
    AtByte(t, i, QUOTE);
    AtByte(t, i + 1 + |Escape(s)|, QUOTE);
    EscapedDecodes(s, t, i + 1);
  }

  lemma PrintedString(s: bytes, t: CString, i: nat)
    requires NulFree(s) && At(t, i, PrintString(s))
    ensures StringAt(s, t, i, i + |PrintString(s)|)
  {
    hide StringAt, NumberAt;
    StringRoundTrip(s, t, i);
    StringIff(s, t, i, i + |PrintString(s)|);
  }

  // ---- numbers ----

  /** A character that ends a number: no digit, point or exponent mark. */
  predicate EndsNumber(c: byte) {
    !IsDigit(c) && c != DOT && c != LOWER_E && c != UPPER_E
  }

  lemma {:induction false} NatTextDecimal(n: nat)
    ensures AllDigits(NatText(n)) && Decimal(NatText(n)) == n && (NatText(n)[0] == ZERO <==> n == 0)
    decreases n
  {
    var s := NatText(n);
    if n < 10 {
      assert Decimal(s[..0]) == 0;
    } else {
      NatTextDecimal(n / 10);
      assert s[..|s| - 1] == NatText(n / 10);
    }
  }

  /** The numeral that an integer is printed as. */
  function PrintedNumeral(n: int): Numeral {
    Numeral(n < 0, n == 0, if n == 0 then [] else NatText(if n < 0 then -n else n), [], None)
  }

  lemma PrintedNumeralIs(n: int)
    ensures var x := PrintedNumeral(n); IsNumeral(x) && NumeralText(x) == IntText(n) && NumeralValue(x) == n as real
  {
    hide Decimal;
    var m: nat := if n < 0 then -n else n;
    NatTextDecimal(m);
    var x := PrintedNumeral(n);
    assert x.whole + x.fraction == x.whole;
    NoDigits();
    assert Power10(0) == 1.0;
    assert n == 0 ==> NatText(0) == [ZERO];
  }

  /** `parse_number` undoes `%d` when the character after the number does not continue it. */
  lemma NumberRoundTrip(n: int, t: CString, i: nat)
    requires At(t, i, IntText(n)) && EndsNumber(C(t, i + |IntText(n)|))
    ensures C(t, i) == MINUS || IsDigit(C(t, i))
    ensures ParseNumber(t, i) == (n as real, i + |IntText(n)|)
  {
    hide At, NumeralText, NumeralValue, IntText, ParseNumber, IsNumeral;
    PrintedNumeralIs(n);
    NumeralIsRead(PrintedNumeral(n), t, i, i + |IntText(n)|);
  }

  lemma PrintedNumber(n: int, t: CString, i: nat)
    requires At(t, i, IntText(n)) && EndsNumber(C(t, i + |IntText(n)|))
    ensures NumberAt(n as real, t, i, i + |IntText(n)|)
  {
    hide NumberAt;
    NumberRoundTrip(n, t, i);
    NumeralIff(n as real, t, i, i + |IntText(n)|);
  }

  // ---- values ----

  ghost predicate AllBlank(s: bytes) {
    forall k | 0 <= k < |s| :: IsBlank(s[k])
  }

  lemma SkipBlanks(t: CString, i: nat, s: bytes)
    requires At(t, i, s) && AllBlank(s)
    ensures Skip(t, i) == Skip(t, i + |s|)
  {
    forall k | i <= k < i + |s| ensures IsBlank(t[k]) { AtIndex(t, i, s, k - i); }
    SkipTo(t, i, i + |s|);
  }

  // How printed pieces lie in the text, whatever the pieces are.

  lemma BracketLayout(open: byte, line: bytes, inner: bytes, tabs: bytes, close: byte, t: CString, i: nat)
    requires At(t, i, [open] + line + inner + tabs + [close]) && AllBlank(line) && AllBlank(tabs)
    requires !IsBlank(close)
    ensures var k := i + 1 + |line|;
      && i < |t| && t[i] == open
      && At(t, k, inner) && Skip(t, i + 1) == Skip(t, k)
      && k + |inner| + |tabs| < |t|
      && Skip(t, k + |inner|) == k + |inner| + |tabs| && t[k + |inner| + |tabs|] == close
  {
    hide At;
    AtConcat(t, i, [open] + line + inner + tabs, [close]);
    AtByte(t, i + 1 + |line| + |inner| + |tabs|, close);
    AtConcat(t, i, [open] + line + inner, tabs);
    AtConcat(t, i, [open] + line, inner);
    AtConcat(t, i, [open], line);
    AtByte(t, i, open);
    SkipBlanks(t, i + 1, line);
    SkipBlanks(t, i + 1 + |line| + |inner|, tabs);
  }

  lemma EntryLayout(first: bytes, gap: bytes, rest: bytes, t: CString, i: nat)
    requires At(t, i, first + [COMMA] + gap + rest) && AllBlank(gap)
    ensures var j := i + |first|;
      && At(t, i, first) && j < |t| && t[j] == COMMA
      && At(t, j + 1 + |gap|, rest) && Skip(t, j + 1) == Skip(t, j + 1 + |gap|)
  {
    hide At, Skip;
    AtConcat(t, i, first + [COMMA] + gap, rest);
    AtConcat(t, i, first + [COMMA], gap);
    AtConcat(t, i, first, [COMMA]);
    AtByte(t, i + |first|, COMMA);
    SkipBlanks(t, i + |first| + 1, gap);
  }

  lemma LastLayout(first: bytes, line: bytes, t: CString, i: nat)
    requires At(t, i, first + line) && AllBlank(line)
    ensures At(t, i, first) && Skip(t, i + |first|) == Skip(t, i + |first| + |line|)
  {
    AtConcat(t, i, first, line);
    SkipBlanks(t, i + |first|, line);
  }

  lemma MemberLayout(tabs: bytes, name: bytes, gap: bytes, value: bytes, t: CString, i: nat)
    requires At(t, i, tabs + name + [COLON] + gap + value) && AllBlank(tabs) && AllBlank(gap)
    ensures var n := i + |tabs|; var c := n + |name|;
      && At(t, n, name) && Skip(t, i) == Skip(t, n)
      && c < |t| && t[c] == COLON
      && At(t, c + 1 + |gap|, value) && Skip(t, c + 1) == Skip(t, c + 1 + |gap|)
  {
    hide At, Skip;
    AtConcat(t, i, tabs + name + [COLON] + gap, value);
    AtConcat(t, i, tabs + name + [COLON], gap);
    AtConcat(t, i, tabs + name, [COLON]);
    AtConcat(t, i, tabs, name);
    AtByte(t, i + |tabs| + |name|, COLON);
    SkipBlanks(t, i, tabs);
    SkipBlanks(t, i + |tabs| + |name| + 1, gap);
  }

  lemma SkipStays(t: CString, i: nat)
    requires i < |t| && !IsBlank(t[i])
    ensures Skip(t, i) == i
  {
  }

  /** Blanks and closing marks do not continue a number. */
  lemma GapEndsNumber(t: CString, i: nat)
    requires i <= |t| && (Skip(t, i) > i || C(t, i) in {CLOSE_BRACE, CLOSE_BRACKET, COMMA})
    ensures EndsNumber(C(t, i))
  {
  }

  // The induction over the value.

  /** The printed form of a value, at any depth and in either format, denotes the value,
      when what follows does not continue a number. */
  lemma {:induction false} PrintedValue(v: Json, depth: nat, fmt: bool, t: CString, i: nat)
    requires Printable(v) && At(t, i, PrintValue(v, depth, fmt))
    requires EndsNumber(C(t, i + |PrintValue(v, depth, fmt)|))
    ensures ValueAt(v, t, i, i + |PrintValue(v, depth, fmt)|)
    decreases v, 0
  {
    hide StringAt, NumberAt;
    match v
    case Null =>
    case False =>
    case True =>
    case Number(r) => PrintedNumber(r.Floor, t, i);
    case String(s) => PrintedString(s, t, i);
    case Array(items) => PrintedArray(items, depth, fmt, t, i);
    case Object(ms) => PrintedObject(ms, depth, fmt, t, i);
  }

  lemma {:induction false} PrintedArray(items: seq<Json>, depth: nat, fmt: bool, t: CString, i: nat)
    requires Printable(Array(items)) && At(t, i, PrintValue(Array(items), depth, fmt))
    ensures ValueAt(Array(items), t, i, i + |PrintValue(Array(items), depth, fmt)|)
    decreases items, 6
  {
    ArrayLayout(items, depth, fmt, t, i);
    ArrayAt(items, depth + 1, fmt, t, i);
  }

  lemma ArrayLayout(items: seq<Json>, depth: nat, fmt: bool, t: CString, i: nat)
    requires Printable(Array(items)) && At(t, i, PrintValue(Array(items), depth, fmt))
    ensures var inner := PrintItems(items, depth + 1, fmt);
      && i < |t| && t[i] == OPEN_BRACKET && At(t, i + 1, inner) && C(t, i + 1 + |inner|) == CLOSE_BRACKET
      && |PrintValue(Array(items), depth, fmt)| == |inner| + 2
  {
    var inner := PrintItems(items, depth + 1, fmt);
    assert [OPEN_BRACKET] + [] + inner + [] + [CLOSE_BRACKET] == PrintValue(Array(items), depth, fmt);
    BracketLayout(OPEN_BRACKET, [], inner, [], CLOSE_BRACKET, t, i);
  }

  lemma {:induction false} PrintedObject(ms: seq<Member>, depth: nat, fmt: bool, t: CString, i: nat)
    requires Printable(Object(ms)) && At(t, i, PrintValue(Object(ms), depth, fmt))
    ensures ValueAt(Object(ms), t, i, i + |PrintValue(Object(ms), depth, fmt)|)
    decreases ms, 6
  {
    hide PrintValue, PrintMembers, ValueAt, Skip;
    var k := i + 1 + |Opt(fmt, [NEWLINE])|;
    ObjectLayout(ms, depth, fmt, t, i, k, PrintMembers(ms, depth + 1, fmt));
    ObjectAt(ms, depth + 1, fmt, t, i, k);
  }

  lemma BlankGaps(fmt: bool, depth: nat)
    ensures AllBlank(Opt(fmt, [NEWLINE])) && AllBlank(Opt(fmt, [SPACE])) && AllBlank(Opt(fmt, [TAB]))
    ensures AllBlank(Opt(fmt, Tabs(depth)))
  {
  }

  lemma ObjectLayout(ms: seq<Member>, depth: nat, fmt: bool, t: CString, i: nat, k: nat, inner: bytes)
    requires Printable(Object(ms)) && At(t, i, PrintValue(Object(ms), depth, fmt))
    requires k == i + 1 + |Opt(fmt, [NEWLINE])| && inner == PrintMembers(ms, depth + 1, fmt)
    ensures i < |t| && t[i] == OPEN_BRACE && k <= |t| && Skip(t, i + 1) == Skip(t, k) && At(t, k, inner)
    ensures C(t, Skip(t, k + |inner|)) == CLOSE_BRACE
    ensures Skip(t, k + |inner|) + 1 == i + |PrintValue(Object(ms), depth, fmt)|
  {
    hide PrintValue, PrintMembers, Skip, At;
    var line, tabs := Opt(fmt, [NEWLINE]), Opt(fmt, Tabs(depth));
    ObjectText(ms, depth, fmt, line, inner, tabs);
    BlankGaps(fmt, depth);
    BracketLayout(OPEN_BRACE, line, inner, tabs, CLOSE_BRACE, t, i);
  }

  lemma {:induction false} ArrayAt(items: seq<Json>, depth: nat, fmt: bool, t: CString, i: nat)
    requires forall k | 0 <= k < |items| :: Printable(items[k])
    requires i < |t| && t[i] == OPEN_BRACKET && At(t, i + 1, PrintItems(items, depth, fmt))
    requires C(t, i + 1 + |PrintItems(items, depth, fmt)|) == CLOSE_BRACKET
    ensures ValueAt(Array(items), t, i, i + 1 + |PrintItems(items, depth, fmt)| + 1)
    decreases items, 5
  {
    if items == [] {
      SkipStays(t, i + 1);
    } else {
      PrintedItems(items, depth, fmt, t, i + 1);
      ItemsFromSkip(items, t, i + 1, i + 1 + |PrintItems(items, depth, fmt)| + 1);
    }
  }

  lemma ItemsFromSkip(items: seq<Json>, t: CString, i: nat, e: nat)
    requires i <= |t| && items != [] && ItemsAt(items, t, i, e)
    ensures ItemsAt(items, t, Skip(t, i), e)
  {
    var j: nat :| ValueAt(items[0], t, Skip(t, i), j) && ItemsRest(items[1..], t, Skip(t, j), e);
    assert Skip(t, Skip(t, i)) == Skip(t, i);
  }

  lemma {:induction false} ObjectAt(ms: seq<Member>, depth: nat, fmt: bool, t: CString, i: nat, k: nat)
    requires forall j | 0 <= j < |ms| :: NulFree(ms[j].name) && Printable(ms[j].value)
    requires i < k <= |t| && t[i] == OPEN_BRACE && Skip(t, i + 1) == Skip(t, k)
    requires At(t, k, PrintMembers(ms, depth, fmt))
    requires C(t, Skip(t, k + |PrintMembers(ms, depth, fmt)|)) == CLOSE_BRACE
    ensures ValueAt(Object(ms), t, i, Skip(t, k + |PrintMembers(ms, depth, fmt)|) + 1)
    decreases ms, 5
  {
    hide MembersAt, At;
    var e := Skip(t, k + |PrintMembers(ms, depth, fmt)|) + 1;
    if ms != [] {
      PrintedMembers(ms, depth, fmt, t, k);
      MembersFromSkip(ms, t, k, Skip(t, i + 1), e);
    }
    ObjectFromMembers(ms, t, i, e);
  }

  lemma ObjectFromMembers(ms: seq<Member>, t: CString, i: nat, e: nat)
    requires i < |t| && t[i] == OPEN_BRACE
    requires var j := Skip(t, i + 1);
      if ms == [] then C(t, j) == CLOSE_BRACE && e == j + 1 else MembersAt(ms, t, j, e)
    ensures ValueAt(Object(ms), t, i, e)
  {
  }

  lemma MembersFromSkip(ms: seq<Member>, t: CString, i: nat, k: nat, e: nat)
    requires i <= |t| && k <= |t| && ms != [] && Skip(t, i) == Skip(t, k) && MembersAt(ms, t, i, e)
    ensures MembersAt(ms, t, k, e)
  {
    hide StringAt, NumberAt;
    var j: nat :| MemberAt(ms[0], t, i, j) && MembersRest(ms[1..], t, Skip(t, j), e);
    var c: nat :| StringAt(ms[0].name, t, Skip(t, i), c) && NamedAt(ms[0].value, t, Skip(t, c), j);
    assert MemberAt(ms[0], t, k, j);
  }

  lemma ItemsText(items: seq<Json>, depth: nat, fmt: bool)
    requires items != [] && forall k | 0 <= k < |items| :: Printable(items[k])
    ensures |items| == 1 ==> PrintItems(items, depth, fmt) == PrintValue(items[0], depth, fmt)
    ensures |items| > 1 ==> (
      PrintItems(items, depth, fmt)
      == PrintValue(items[0], depth, fmt) + [COMMA] + Opt(fmt, [SPACE]) + PrintItems(items[1..], depth, fmt))
  {
    if |items| > 1 {
      var first, gap, rest := PrintValue(items[0], depth, fmt), Opt(fmt, [SPACE]), PrintItems(items[1..], depth, fmt);
      assert first + ([COMMA] + gap + rest) == first + [COMMA] + gap + rest;
    }
  }

  /** The items of an array, up to its closing bracket. */
  lemma {:induction false} PrintedItems(items: seq<Json>, depth: nat, fmt: bool, t: CString, i: nat)
    requires items != [] && forall k | 0 <= k < |items| :: Printable(items[k])
    requires At(t, i, PrintItems(items, depth, fmt))
    requires C(t, i + |PrintItems(items, depth, fmt)|) == CLOSE_BRACKET
    ensures ItemsAt(items, t, i, i + |PrintItems(items, depth, fmt)| + 1)
    decreases items, 3
  {
    hide At, ItemsAt, PrintValue;
    ItemsText(items, depth, fmt);
    var first, gap := PrintValue(items[0], depth, fmt), Opt(fmt, [SPACE]);
    var e := i + |first|;
    if |items| > 1 {
      var rest := PrintItems(items[1..], depth, fmt);
      BlankGaps(fmt, depth);
      EntryLayout(first, gap, rest, t, i);
      RestOfItems(items[1..], depth, fmt, t, e, e + 1 + |gap|);
    }
    FirstItem(items, depth, fmt, t, i, i + |PrintItems(items, depth, fmt)| + 1);
  }

  lemma {:induction false} FirstItem(items: seq<Json>, depth: nat, fmt: bool, t: CString, i: nat, end: nat)
    requires items != [] && Printable(items[0]) && At(t, i, PrintValue(items[0], depth, fmt))
    requires var e := i + |PrintValue(items[0], depth, fmt)|;
      C(t, e) in {COMMA, CLOSE_BRACKET} && ItemsRest(items[1..], t, e, end)
    ensures ItemsAt(items, t, i, end)
    decreases items, 1
  {
    var e := i + |PrintValue(items[0], depth, fmt)|;
    PrintedValue(items[0], depth, fmt, t, i);
    FirstOfValue(items[0], t, i, e);
    SkipStays(t, i);
    SkipStays(t, e);
  }

  lemma {:induction false} RestOfItems(items: seq<Json>, depth: nat, fmt: bool, t: CString, e: nat, j: nat)
    requires items != [] && forall k | 0 <= k < |items| :: Printable(items[k])
    requires e < j <= |t| && t[e] == COMMA && Skip(t, e + 1) == Skip(t, j)
    requires At(t, j, PrintItems(items, depth, fmt)) && C(t, j + |PrintItems(items, depth, fmt)|) == CLOSE_BRACKET
    ensures ItemsRest(items, t, e, j + |PrintItems(items, depth, fmt)| + 1)
    decreases items, 4
  {
    hide ValueAt, At;
    var end := j + |PrintItems(items, depth, fmt)| + 1;
    PrintedItems(items, depth, fmt, t, j);
    var k: nat :| ValueAt(items[0], t, Skip(t, j), k) && ItemsRest(items[1..], t, Skip(t, k), end);
    assert ItemsAt(items, t, e + 1, end);
  }

  lemma MembersText(ms: seq<Member>, depth: nat, fmt: bool)
    requires ms != [] && forall k | 0 <= k < |ms| :: NulFree(ms[k].name) && Printable(ms[k].value)
    ensures |ms| == 1 ==> PrintMembers(ms, depth, fmt) == PrintMember(ms[0], depth, fmt) + Opt(fmt, [NEWLINE])
    ensures |ms| > 1 ==> (
      PrintMembers(ms, depth, fmt)
      == PrintMember(ms[0], depth, fmt) + [COMMA] + Opt(fmt, [NEWLINE]) + PrintMembers(ms[1..], depth, fmt))
  {
    var first, line := PrintMember(ms[0], depth, fmt), Opt(fmt, [NEWLINE]);
    assert first + [] + line + [] == first + line;
  }

  /** The members of an object, up to its closing brace. */
  lemma {:induction false} PrintedMembers(ms: seq<Member>, depth: nat, fmt: bool, t: CString, i: nat)
    requires ms != [] && forall k | 0 <= k < |ms| :: NulFree(ms[k].name) && Printable(ms[k].value)
    requires At(t, i, PrintMembers(ms, depth, fmt))
    requires C(t, Skip(t, i + |PrintMembers(ms, depth, fmt)|)) == CLOSE_BRACE
    ensures MembersAt(ms, t, i, Skip(t, i + |PrintMembers(ms, depth, fmt)|) + 1)
    decreases ms, 4
  {
    hide StringAt, NumberAt, At, Skip;
    MembersText(ms, depth, fmt);
    if |ms| == 1 {
      LastMember(ms, depth, fmt, t, i);
    } else {
      MoreMembers(ms, depth, fmt, t, i, i + |PrintMembers(ms, depth, fmt)|);
    }
  }

  lemma {:induction false} LastMember(ms: seq<Member>, depth: nat, fmt: bool, t: CString, i: nat)
    requires |ms| == 1 && NulFree(ms[0].name) && Printable(ms[0].value)
    requires At(t, i, PrintMember(ms[0], depth, fmt) + Opt(fmt, [NEWLINE]))
    requires C(t, Skip(t, i + |PrintMember(ms[0], depth, fmt)| + |Opt(fmt, [NEWLINE])|)) == CLOSE_BRACE
    ensures MembersAt(ms, t, i, Skip(t, i + |PrintMember(ms[0], depth, fmt)| + |Opt(fmt, [NEWLINE])|) + 1)
    decreases ms, 3
  {
    hide At, MemberAt, PrintMember;
    BlankGaps(fmt, depth);
    LastLayout(PrintMember(ms[0], depth, fmt), Opt(fmt, [NEWLINE]), t, i);
    FirstMember(ms, depth, fmt, t, i, Skip(t, i + |PrintMember(ms[0], depth, fmt)|) + 1);
  }

  lemma {:induction false} MoreMembers(ms: seq<Member>, depth: nat, fmt: bool, t: CString, i: nat, end: nat)
    requires |ms| > 1 && forall k | 0 <= k < |ms| :: NulFree(ms[k].name) && Printable(ms[k].value)
    requires
      At(t, i, PrintMember(ms[0], depth, fmt) + [COMMA] + Opt(fmt, [NEWLINE]) + PrintMembers(ms[1..], depth, fmt))
    requires end
      == i + |PrintMember(ms[0], depth, fmt)| + 1 + |Opt(fmt, [NEWLINE])| + |PrintMembers(ms[1..], depth, fmt)|
    requires C(t, Skip(t, end)) == CLOSE_BRACE
    ensures MembersAt(ms, t, i, Skip(t, end) + 1)
    decreases ms, 3
  {
    hide MembersAt, PrintMembers, Skip, At;
    var first, line := PrintMember(ms[0], depth, fmt), Opt(fmt, [NEWLINE]);
    var e := i + |first|;
    BlankGaps(fmt, depth);
    EntryLayout(first, line, PrintMembers(ms[1..], depth, fmt), t, i);
    RestOfMembers(ms[1..], depth, fmt, t, e, e + 1 + |line|);
    FirstMember(ms, depth, fmt, t, i, Skip(t, end) + 1);
  }

  lemma {:induction false} FirstMember(ms: seq<Member>, depth: nat, fmt: bool, t: CString, i: nat, end: nat)
    requires ms != [] && NulFree(ms[0].name) && Printable(ms[0].value) && At(t, i, PrintMember(ms[0], depth, fmt))
    requires var e := i + |PrintMember(ms[0], depth, fmt)|;
      C(t, Skip(t, e)) in {COMMA, CLOSE_BRACE} && MembersRest(ms[1..], t, Skip(t, e), end)
    ensures MembersAt(ms, t, i, end)
    decreases ms, 1
  {
    var e := i + |PrintMember(ms[0], depth, fmt)|;
    GapEndsNumber(t, e);
    PrintedMember(ms[0], depth, fmt, t, i);
  }

  lemma {:induction false} RestOfMembers(ms: seq<Member>, depth: nat, fmt: bool, t: CString, e: nat, j: nat)
    requires ms != [] && forall k | 0 <= k < |ms| :: NulFree(ms[k].name) && Printable(ms[k].value)
    requires e < j <= |t| && t[e] == COMMA && Skip(t, e + 1) == Skip(t, j)
    requires At(t, j, PrintMembers(ms, depth, fmt)) && C(t, Skip(t, j + |PrintMembers(ms, depth, fmt)|)) == CLOSE_BRACE
    ensures Skip(t, e) == e && MembersRest(ms, t, e, Skip(t, j + |PrintMembers(ms, depth, fmt)|) + 1)
    decreases ms, 5
  {
    hide PrintMembers, Printable, MembersAt;
    PrintedMembers(ms, depth, fmt, t, j);
    MembersFromSkip(ms, t, j, e + 1, Skip(t, j + |PrintMembers(ms, depth, fmt)|) + 1);
  }

  lemma {:induction false} PrintedMember(m: Member, depth: nat, fmt: bool, t: CString, i: nat)
    requires NulFree(m.name) && Printable(m.value)
    requires At(t, i, PrintMember(m, depth, fmt))
    requires EndsNumber(C(t, i + |PrintMember(m, depth, fmt)|))
    ensures MemberAt(m, t, i, i + |PrintMember(m, depth, fmt)|)
    decreases m, 2
  {
    hide At, Skip, PrintValue, PrintString, MemberAt;
    var tabs, gap := Opt(fmt, Tabs(depth)), Opt(fmt, [TAB]);
    BlankGaps(fmt, depth);
    MemberLayout(tabs, PrintString(m.name), gap, PrintValue(m.value, depth, fmt), t, i);
    var n := i + |tabs|;
    NamedValue(m, depth, fmt, t, i, n, n + |PrintString(m.name)| + 1 + |gap|);
  }

  lemma {:induction false} NamedValue(m: Member, depth: nat, fmt: bool, t: CString, i: nat, n: nat, v: nat)
    requires NulFree(m.name) && Printable(m.value)
    requires i <= n <= |t| && Skip(t, i) == Skip(t, n) && At(t, n, PrintString(m.name))
    requires var c := n + |PrintString(m.name)|;
      c < v <= |t| && t[c] == COLON && Skip(t, c + 1) == Skip(t, v)
    requires At(t, v, PrintValue(m.value, depth, fmt)) && EndsNumber(C(t, v + |PrintValue(m.value, depth, fmt)|))
    ensures MemberAt(m, t, i, v + |PrintValue(m.value, depth, fmt)|)
    decreases m, 1
  {
    hide StringAt, NumberAt;
    PrintedString(m.name, t, n);
    PrintedValue(m.value, depth, fmt, t, v);
    MemberFromParts(m, t, i, n, n + |PrintString(m.name)|, v, v + |PrintValue(m.value, depth, fmt)|);
  }

  lemma MemberFromParts(m: Member, t: CString, i: nat, n: nat, c: nat, v: nat, e: nat)
    requires i <= n <= |t| && Skip(t, i) == Skip(t, n) && StringAt(m.name, t, n, c)
    requires c < v <= |t| && t[c] == COLON && Skip(t, c + 1) == Skip(t, v)
    requires ValueAt(m.value, t, v, e)
    ensures MemberAt(m, t, i, e)
  {
    hide StringAt, NumberAt;
    StringIff(m.name, t, n, c);
    SkipStays(t, n);
    SkipStays(t, c);
    FirstOfValue(m.value, t, v, e);
    SkipStays(t, v);
    assert StringAt(m.name, t, Skip(t, i), c) && NamedAt(m.value, t, Skip(t, c), e);
  }

  /** Parsing a printed value, followed by anything that does not continue a number,
      gives the value and stops right after it. */
  lemma ValueRoundTrip(v: Json, depth: nat, fmt: bool, t: CString, i: nat)
    requires Printable(v) && At(t, i, PrintValue(v, depth, fmt))
    requires EndsNumber(C(t, i + |PrintValue(v, depth, fmt)|))
    ensures ParseValue(t, i) == Ok(v, i + |PrintValue(v, depth, fmt)|)
  {
    PrintedValue(v, depth, fmt, t, i);
    CompleteValue(v, t, i, i + |PrintValue(v, depth, fmt)|);
  }

  /** `cJSON_Parse` of `cJSON_Print` or `cJSON_PrintUnformatted` gives the value back,
      whether or not the terminator must follow. */
  lemma PrintThenParse(v: Json, fmt: bool, requireTerminated: bool)
    requires Printable(v)
    ensures NulFree(PrintValue(v, 0, fmt))
    ensures Parse(PrintValue(v, 0, fmt), requireTerminated) == Ok(v, |PrintValue(v, 0, fmt)|)
  {
    ValueNulFree(v, 0, fmt);
    var t: CString := PrintValue(v, 0, fmt);
    assert t[0..0 + |t|] == t;
    AtSlice(t, 0, t);
    PrintedValue(v, 0, fmt, t, 0);
    FirstOfValue(v, t, 0, |t|);
    SkipStays(t, 0);
    CompleteValue(v, t, 0, |t|);
  }
}
