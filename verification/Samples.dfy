/** One document in bytes, printed and parsed, and the places where wrong texts are reported. */
module Samples {
  import opened CText
  import opened Json
  import opened Literals
  import opened Parser
  import opened RoundTrip

  const LIST := Array([Number(1.0), True])
  const SAMPLE := Object([Member([97], LIST), Member([], Object([]))])

  const PLAIN: bytes := [123, 34, 97, 34, 58, 91, 49, 44, 116, 114, 117, 101, 93, 44, 34, 34, 58, 123, 125, 125]

  const FORMATTED: bytes := [
    123, 10, 9, 34, 97, 34, 58, 9, 91, 49, 44, 32, 116, 114, 117, 101, 93, 44, 10,
    9, 34, 34, 58, 9, 123, 10, 9, 125, 10, 125
  ]

  lemma SampleIsPrintable()
    ensures Printable(LIST) && Printable(Object([])) && Printable(SAMPLE)
  {
  }

  lemma PrintedList(depth: nat, fmt: bool)
    requires Printable(LIST)
    ensures PrintValue(LIST, depth, fmt) == [91, 49, 44] + Opt(fmt, [32]) + [116, 114, 117, 101, 93]
  {
    hide PrintMembers, PrintMember, PrintString, Tabs;
    var items := [Number(1.0), True];
    assert IntText(1) == [49];
    assert PrintItems(items[1..], depth + 1, fmt) == TRUE_TEXT + [];
    assert ItemsTail(items[1..], depth + 1, fmt) == [44] + Opt(fmt, [32]) + (TRUE_TEXT + []);
    assert PrintItems(items, depth + 1, fmt) == [49] + ([44] + Opt(fmt, [32]) + (TRUE_TEXT + []));
  }

  lemma PrintedEmpty(fmt: bool)
    ensures PrintValue(Object([]), 1, fmt) == if fmt then [123, 10, 9, 125] else [123, 125]
  {
    assert Tabs(1) == [9] + Tabs(0);
  }

  lemma PrintedMember(m: Member, text: bytes, fmt: bool)
    requires NulFree(m.name) && Printable(m.value) && PrintValue(m.value, 1, fmt) == text
    ensures PrintMember(m, 1, fmt) == Opt(fmt, [9]) + PrintString(m.name) + [58] + Opt(fmt, [9]) + text
  {
    assert Tabs(1) == [9] + Tabs(0);
  }

  /** `{"a":[1,true],"":{}}` in both formats. */
  lemma PrintedSample()
    requires Printable(SAMPLE)
    ensures PrintValue(SAMPLE, 0, false) == PLAIN && PrintValue(SAMPLE, 0, true) == FORMATTED
  {
    SampleIsPrintable();
    SampleText(false);
    SampleText(true);
  }

  lemma ListMember(fmt: bool)
    requires Printable(LIST)
    ensures PrintMember(Member([97], LIST), 1, fmt)
      == if fmt then [9, 34, 97, 34, 58, 9, 91, 49, 44, 32, 116, 114, 117, 101, 93]
         else [34, 97, 34, 58, 91, 49, 44, 116, 114, 117, 101, 93]
  {
    hide PrintValue, PrintMember;
    PrintedList(1, fmt);
    PrintedMember(Member([97], LIST), PrintValue(LIST, 1, fmt), fmt);
    assert PrintString([97]) == [34, 97, 34];
  }

  lemma EmptyMember(fmt: bool)
    requires Printable(Object([]))
    ensures PrintMember(Member([], Object([])), 1, fmt)
      == if fmt then [9, 34, 34, 58, 9, 123, 10, 9, 125] else [34, 34, 58, 123, 125]
  {
    hide PrintValue, PrintMember;
    PrintedEmpty(fmt);
    PrintedMember(Member([], Object([])), PrintValue(Object([]), 1, fmt), fmt);
    assert PrintString([]) == [34, 34];
  }

  lemma JoinedPlain(a: bytes, b: bytes)
    requires a == [34, 97, 34, 58, 91, 49, 44, 116, 114, 117, 101, 93] && b == [34, 34, 58, 123, 125]
    ensures [123] + [] + (a + [44] + [] + (b + [])) + [125] == PLAIN
  {
  }

  lemma JoinedFormatted(a: bytes, b: bytes)
    requires a == [9, 34, 97, 34, 58, 9, 91, 49, 44, 32, 116, 114, 117, 101, 93]
    requires b == [9, 34, 34, 58, 9, 123, 10, 9, 125]
    ensures [123] + [10] + (a + [44] + [10] + (b + [10])) + [125] == FORMATTED
  {
  }

  lemma SampleText(fmt: bool)
    requires Printable(LIST) && Printable(Object([])) && Printable(SAMPLE)
    ensures PrintValue(SAMPLE, 0, fmt) == if fmt then FORMATTED else PLAIN
  {
    hide PrintValue, PrintMember, Printable;
    ListMember(fmt);
    EmptyMember(fmt);
    SampleLayout([Member([97], LIST), Member([], Object([]))], fmt);
    var a, b := PrintMember(Member([97], LIST), 1, fmt), PrintMember(Member([], Object([])), 1, fmt);
    if fmt { JoinedFormatted(a, b); } else { JoinedPlain(a, b); }
  }

  lemma SampleLayout(ms: seq<Member>, fmt: bool)
    requires |ms| == 2 && forall k | 0 <= k < |ms| :: NulFree(ms[k].name) && Printable(ms[k].value)
    ensures PrintValue(Object(ms), 0, fmt)
      == [123] + Opt(fmt, [10]) + (PrintMember(ms[0], 1, fmt) + [44] + Opt(fmt, [10])
                                   + (PrintMember(ms[1], 1, fmt) + Opt(fmt, [10]))) + [125]
  {
    hide PrintMember;
    assert PrintMembers(ms[1..][1..], 1, fmt) == [];
    assert PrintMembers(ms[1..], 1, fmt) == PrintMember(ms[1], 1, fmt) + Opt(fmt, [10]);
    assert Opt(fmt, Tabs(0)) == [];
  }

  /** Both texts are read as that document. */
  lemma ParsedSample(requireTerminated: bool)
    ensures NulFree(PLAIN) && Parse(PLAIN, requireTerminated) == Ok(SAMPLE, 20)
    ensures NulFree(FORMATTED) && Parse(FORMATTED, requireTerminated) == Ok(SAMPLE, 30)
  {
    hide Parse, PrintValue, Printable;
    SampleIsPrintable();
    PrintedSample();
    PrintThenParse(SAMPLE, false, requireTerminated);
    PrintThenParse(SAMPLE, true, requireTerminated);
  }
}
