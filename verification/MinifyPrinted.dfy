/** `cJSON_Minify` of a printed value is the unformatted print of that value. */
module MinifyPrinted {
  import opened CText
  import opened Json
  import opened PrintText
  import opened RoundTrip
  import opened Minify
  import opened MinifyMeaning
  import opened Wrappers

  lemma AtFour(t: CString, i: nat, a: bytes, b: bytes, c: bytes, d: bytes)
    requires At(t, i, a + b + c + d)
    ensures At(t, i, a) && At(t, i + |a|, b) && At(t, i + |a| + |b|, c) && At(t, i + |a| + |b| + |c|, d)
  {
    AtConcat(t, i, a + b + c, d);
    AtConcat(t, i, a + b, c);
    AtConcat(t, i, a, b);
  }

  lemma KeepsFour(t: CString, i: nat, j: nat, k: nat, l: nat, e: nat, a: bytes, b: bytes, c: bytes, d: bytes)
    requires Keeps(t, i, j, a) && Keeps(t, j, k, b) && Keeps(t, k, l, c) && Keeps(t, l, e, d)
    ensures Keeps(t, i, e, a + b + c + d)
  {
    hide Minified;
    KeepsBoth(t, i, j, k, a, b);
    KeepsBoth(t, i, k, l, a + b, c);
    KeepsBoth(t, i, l, e, a + b + c, d);
  }

  lemma {:induction false} KeepsNoGap(t: CString, i: nat, s: bytes)
    requires At(t, i, s) && forall k | 0 <= k < |s| :: IsGap(s[k])
    ensures Keeps(t, i, i + |s|, [])
    decreases |s|
  {
    if s == [] {
      KeepsNothing(t, i);
    } else {
      assert [s[0]] + s[1..] == s;
      AtConcat(t, i, [s[0]], s[1..]);
      AtByte(t, i, s[0]);
      KeepsNoGap(t, i + 1, s[1..]);
    }
  }

  lemma {:induction false} KeepsToken(t: CString, i: nat, s: bytes)
    requires At(t, i, s) && forall k | 0 <= k < |s| :: IsTokenByte(s[k])
    ensures Keeps(t, i, i + |s|, s)
    decreases |s|
  {
    if s == [] {
      KeepsNothing(t, i);
    } else {
      assert [s[0]] + s[1..] == s;
      AtConcat(t, i, [s[0]], s[1..]);
      AtByte(t, i, s[0]);
      MinifiedChar(t, i);
      KeepsToken(t, i + 1, s[1..]);
      KeepsBoth(t, i, i + 1, i + |s|, [s[0]], s[1..]);
    }
  }

  lemma KeepsMark(t: CString, i: nat, c: byte)
    requires At(t, i, [c]) && IsTokenByte(c)
    ensures Keeps(t, i, i + 1, [c])
  {
    AtByte(t, i, c);
    MinifiedChar(t, i);
  }

  lemma KeepsString(s: bytes, t: CString, i: nat)
    requires NulFree(s) && At(t, i, PrintString(s))
    ensures Keeps(t, i, i + |PrintString(s)|, PrintString(s))
  {
    AtConcat(t, i, [QUOTE] + Escape(s), [QUOTE]);
    AtConcat(t, i, [QUOTE], Escape(s));
    AtByte(t, i, QUOTE);
    AtByte(t, i + 1 + |Escape(s)|, QUOTE);
    EscapedDecodes(s, t, i + 1);
    AtSlice(t, i, PrintString(s));
  }

  ghost predicate AllGap(s: bytes) {
    forall k | 0 <= k < |s| :: IsGap(s[k])
  }

  lemma GapOptions(fmt: bool, depth: nat)
    ensures AllGap(Opt(fmt, [NEWLINE])) && AllGap(Opt(fmt, [SPACE])) && AllGap(Opt(fmt, [TAB]))
    ensures AllGap(Opt(fmt, Tabs(depth)))
  {
  }

  lemma AtBraces(open: byte, line: bytes, inner: bytes, tabs: bytes, close: byte, t: CString, i: nat)
    requires At(t, i, [open] + line + inner + tabs + [close])
    ensures At(t, i, [open]) && At(t, i + 1, line) && At(t, i + 1 + |line|, inner)
    ensures At(t, i + 1 + |line| + |inner|, tabs) && At(t, i + 1 + |line| + |inner| + |tabs|, [close])
  {
    AtConcat(t, i, [open] + line + inner + tabs, [close]);
    AtFour(t, i, [open], line, inner, tabs);
  }

  lemma KeepsBraces(open: byte, line: bytes, inner: bytes, text: bytes, tabs: bytes, close: byte, t: CString, i: nat)
    requires At(t, i, [open] + line + inner + tabs + [close]) && AllGap(line) && AllGap(tabs)
    requires IsTokenByte(open) && IsTokenByte(close)
    requires Keeps(t, i + 1 + |line|, i + 1 + |line| + |inner|, text)
    ensures Keeps(t, i, i + 1 + |line| + |inner| + |tabs| + 1, [open] + [] + text + [] + [close])
  {
    hide Minified;
    var k := i + 1 + |line|;
    var j := k + |inner|;
    AtBraces(open, line, inner, tabs, close, t, i);
    KeepsMark(t, i, open);
    KeepsNoGap(t, i + 1, line);
    KeepsNoGap(t, j, tabs);
    KeepsMark(t, j + |tabs|, close);
    KeepsFour(t, i, i + 1, k, j, j + |tabs|, [open], [], text, []);
    KeepsBoth(t, i, j + |tabs|, j + |tabs| + 1, [open] + [] + text + [], [close]);
  }

  lemma KeepsMemberParts(tabs: bytes, s: bytes, gap: bytes, value: bytes, text: bytes, t: CString, i: nat, v: nat)
    requires At(t, i, tabs + PrintString(s) + [COLON] + gap + value) && NulFree(s) && AllGap(tabs) && AllGap(gap)
    requires v == i + |tabs| + |PrintString(s)| + 1 + |gap| && Keeps(t, v, v + |value|, text)
    ensures Keeps(t, i, v + |value|, [] + PrintString(s) + [COLON] + [] + text)
  {
    hide Minified;
    var name := PrintString(s);
    var n := i + |tabs|;
    var c := n + |name|;
    AtConcat(t, i, tabs + name + [COLON] + gap, value);
    AtFour(t, i, tabs, name, [COLON], gap);
    KeepsNoGap(t, i, tabs);
    KeepsString(s, t, n);
    KeepsMark(t, c, COLON);
    KeepsNoGap(t, c + 1, gap);
    KeepsFour(t, i, n, c, c + 1, v, [], name, [COLON], []);
    KeepsBoth(t, i, v, v + |value|, [] + name + [COLON] + [], text);
  }

  // The induction over the value. The depth of the unformatted print does not matter.

  lemma {:induction false} KeepsValue(v: Json, depth: nat, flat: nat, fmt: bool, t: CString, i: nat)
    requires Printable(v) && At(t, i, PrintValue(v, depth, fmt))
    ensures Keeps(t, i, i + |PrintValue(v, depth, fmt)|, PrintValue(v, flat, false))
    decreases v, 0
  {
    hide Minified;
    match v
    case Null => KeepsToken(t, i, NULL_TEXT);
    case False => KeepsToken(t, i, FALSE_TEXT);
    case True => KeepsToken(t, i, TRUE_TEXT);
    case Number(r) => KeepsToken(t, i, IntText(r.Floor));
    case String(s) => KeepsString(s, t, i);
    case Array(items) => KeepsArray(items, depth, flat, fmt, t, i);
    case Object(ms) => KeepsObject(ms, depth, flat, fmt, t, i);
  }

  lemma ArrayText(items: seq<Json>, depth: nat, fmt: bool, inner: bytes)
    requires Printable(Array(items)) && inner == PrintItems(items, depth + 1, fmt)
    ensures PrintValue(Array(items), depth, fmt) == [OPEN_BRACKET] + [] + inner + [] + [CLOSE_BRACKET]
  {
  }

  lemma {:induction false} KeepsArray(items: seq<Json>, depth: nat, flat: nat, fmt: bool, t: CString, i: nat)
    requires Printable(Array(items)) && At(t, i, PrintValue(Array(items), depth, fmt))
    ensures Keeps(t, i, i + |PrintValue(Array(items), depth, fmt)|, PrintValue(Array(items), flat, false))
    decreases items, 4
  {
    hide Minified;
    var inner, text := PrintItems(items, depth + 1, fmt), PrintItems(items, flat + 1, false);
    ArrayText(items, depth, fmt, inner);
    ArrayText(items, flat, false, text);
    AtBraces(OPEN_BRACKET, [], inner, [], CLOSE_BRACKET, t, i);
    KeepsItems(items, depth + 1, flat + 1, fmt, t, i + 1);
    KeepsBraces(OPEN_BRACKET, [], inner, text, [], CLOSE_BRACKET, t, i);
  }

  lemma {:induction false} KeepsItems(items: seq<Json>, depth: nat, flat: nat, fmt: bool, t: CString, i: nat)
    requires (forall k | 0 <= k < |items| :: Printable(items[k])) && At(t, i, PrintItems(items, depth, fmt))
    ensures Keeps(t, i, i + |PrintItems(items, depth, fmt)|, PrintItems(items, flat, false))
    decreases items, 1
  {
    hide Minified;
    if items == [] {
      KeepsNothing(t, i);
    } else {
      var first, tail := PrintValue(items[0], depth, fmt), ItemsTail(items[1..], depth, fmt);
      AtConcat(t, i, first, tail);
      KeepsValue(items[0], depth, flat, fmt, t, i);
      KeepsTail(items[1..], depth, flat, fmt, t, i + |first|);
      KeepsBoth(t, i, i + |first|, i + |first| + |tail|,
                PrintValue(items[0], flat, false), ItemsTail(items[1..], flat, false));
    }
  }

  lemma {:induction false} KeepsTail(items: seq<Json>, depth: nat, flat: nat, fmt: bool, t: CString, i: nat)
    requires (forall k | 0 <= k < |items| :: Printable(items[k])) && At(t, i, ItemsTail(items, depth, fmt))
    ensures Keeps(t, i, i + |ItemsTail(items, depth, fmt)|, ItemsTail(items, flat, false))
    decreases items, 2
  {
    hide Minified;
    if items == [] {
      KeepsNothing(t, i);
    } else {
      var gap, rest := Opt(fmt, [SPACE]), PrintItems(items, depth, fmt);
      var j := i + 1 + |gap|;
      AtConcat(t, i, [COMMA] + gap, rest);
      assert Keeps(t, i, j, [COMMA] + []) by {
        AtConcat(t, i, [COMMA], gap);
        GapOptions(fmt, depth);
        KeepsMark(t, i, COMMA);
        KeepsNoGap(t, i + 1, gap);
        KeepsBoth(t, i, i + 1, j, [COMMA], []);
      }
      KeepsItems(items, depth, flat, fmt, t, j);
      KeepsBoth(t, i, j, j + |rest|, [COMMA] + [], PrintItems(items, flat, false));
    }
  }

  lemma {:induction false} KeepsObject(ms: seq<Member>, depth: nat, flat: nat, fmt: bool, t: CString, i: nat)
    requires Printable(Object(ms)) && At(t, i, PrintValue(Object(ms), depth, fmt))
    ensures Keeps(t, i, i + |PrintValue(Object(ms), depth, fmt)|, PrintValue(Object(ms), flat, false))
    decreases ms, 4
  {
    hide Minified, At, Keeps, PrintValue, PrintMembers;
    var line, inner, tabs := Opt(fmt, [NEWLINE]), PrintMembers(ms, depth + 1, fmt), Opt(fmt, Tabs(depth));
    assert At(t, i + 1 + |line|, inner) by {
      ObjectText(ms, depth, fmt, line, inner, tabs);
      AtBraces(OPEN_BRACE, line, inner, tabs, CLOSE_BRACE, t, i);
    }
    KeepsMembers(ms, depth + 1, flat + 1, fmt, t, i + 1 + |line|);
    KeepsObjectText(ms, depth, flat, fmt, t, i, line, inner);
  }

  lemma KeepsObjectText(ms: seq<Member>, depth: nat, flat: nat, fmt: bool, t: CString, i: nat, line: bytes,
          inner: bytes)
    requires Printable(Object(ms)) && At(t, i, PrintValue(Object(ms), depth, fmt))
    requires line == Opt(fmt, [NEWLINE]) && inner == PrintMembers(ms, depth + 1, fmt)
    requires Keeps(t, i + 1 + |line|, i + 1 + |line| + |inner|, PrintMembers(ms, flat + 1, false))
    ensures Keeps(t, i, i + |PrintValue(Object(ms), depth, fmt)|, PrintValue(Object(ms), flat, false))
  {
    hide Minified;
    var tabs, text := Opt(fmt, Tabs(depth)), PrintMembers(ms, flat + 1, false);
    ObjectText(ms, depth, fmt, line, inner, tabs);
    GapOptions(fmt, depth);
    KeepsBraces(OPEN_BRACE, line, inner, text, tabs, CLOSE_BRACE, t, i);
    ObjectText(ms, flat, false, [], text, []);
  }

  lemma {:induction false} KeepsMember(m: Member, depth: nat, flat: nat, fmt: bool, t: CString, i: nat)
    requires NulFree(m.name) && Printable(m.value) && At(t, i, PrintMember(m, depth, fmt))
    ensures Keeps(t, i, i + |PrintMember(m, depth, fmt)|, PrintMember(m, flat, false))
    decreases m, 1
  {
    hide Minified;
    var tabs, gap, value := Opt(fmt, Tabs(depth)), Opt(fmt, [TAB]), PrintValue(m.value, depth, fmt);
    var v := i + |tabs| + |PrintString(m.name)| + 1 + |gap|;
    GapOptions(fmt, depth);
    AtConcat(t, i, tabs + PrintString(m.name) + [COLON] + gap, value);
    KeepsValue(m.value, depth, flat, fmt, t, v);
    KeepsMemberParts(tabs, m.name, gap, value, PrintValue(m.value, flat, false), t, i, v);
  }

  lemma KeepsEntry(first: bytes, text: bytes, comma: bytes, line: bytes, t: CString, i: nat, j: nat)
    requires At(t, i, first + comma + line) && Keeps(t, i, j, text) && j == i + |first|
    requires AllGap(line) && (forall k | 0 <= k < |comma| :: IsTokenByte(comma[k]))
    ensures Keeps(t, i, j + |comma| + |line|, text + comma + [])
  {
    hide Minified;
    AtConcat(t, i, first + comma, line);
    AtConcat(t, i, first, comma);
    KeepsToken(t, j, comma);
    KeepsNoGap(t, j + |comma|, line);
    KeepsBoth(t, i, j, j + |comma|, text, comma);
    KeepsBoth(t, i, j + |comma|, j + |comma| + |line|, text + comma, []);
  }

  lemma MembersStart(ms: seq<Member>, depth: nat, fmt: bool, t: CString, i: nat, first: bytes, comma: bytes,
          line: bytes)
    requires ms != [] && forall k | 0 <= k < |ms| :: NulFree(ms[k].name) && Printable(ms[k].value)
    requires At(t, i, PrintMembers(ms, depth, fmt)) && first == PrintMember(ms[0], depth, fmt)
    requires comma == Opt(|ms| > 1, [COMMA]) && line == Opt(fmt, [NEWLINE])
    ensures At(t, i, first) && At(t, i, first + comma + line)
    ensures At(t, i + |first| + |comma| + |line|, PrintMembers(ms[1..], depth, fmt))
    ensures |PrintMembers(ms, depth, fmt)| == |first| + |comma| + |line| + |PrintMembers(ms[1..], depth, fmt)|
  {
    AtConcat(t, i, first + comma + line, PrintMembers(ms[1..], depth, fmt));
    AtConcat(t, i, first + comma, line);
    AtConcat(t, i, first, comma);
  }

  lemma MembersFlat(ms: seq<Member>, flat: nat)
    requires ms != [] && forall k | 0 <= k < |ms| :: NulFree(ms[k].name) && Printable(ms[k].value)
    ensures PrintMembers(ms, flat, false)
      == PrintMember(ms[0], flat, false) + Opt(|ms| > 1, [COMMA]) + [] + PrintMembers(ms[1..], flat, false)
  {
  }

  lemma {:induction false} KeepsMembers(ms: seq<Member>, depth: nat, flat: nat, fmt: bool, t: CString, i: nat)
    requires forall k | 0 <= k < |ms| :: NulFree(ms[k].name) && Printable(ms[k].value)
    requires At(t, i, PrintMembers(ms, depth, fmt))
    ensures Keeps(t, i, i + |PrintMembers(ms, depth, fmt)|, PrintMembers(ms, flat, false))
    decreases ms, 3
  {
    hide Minified;
    if ms == [] {
      KeepsNothing(t, i);
    } else {
      var first, comma, line := PrintMember(ms[0], depth, fmt), Opt(|ms| > 1, [COMMA]), Opt(fmt, [NEWLINE]);
      MembersStart(ms, depth, fmt, t, i, first, comma, line);
      MembersFlat(ms, flat);
      KeepsFirst(ms, depth, flat, fmt, t, i, first, comma, line);
    }
  }

  lemma {:induction false} KeepsFirst(ms: seq<Member>, depth: nat, flat: nat, fmt: bool, t: CString, i: nat,
                                      first: bytes, comma: bytes, line: bytes)
    requires ms != [] && forall k | 0 <= k < |ms| :: NulFree(ms[k].name) && Printable(ms[k].value)
    requires first == PrintMember(ms[0], depth, fmt) && comma == Opt(|ms| > 1, [COMMA]) && line == Opt(fmt, [NEWLINE])
    requires At(t, i, first) && At(t, i, first + comma + line)
    requires At(t, i + |first| + |comma| + |line|, PrintMembers(ms[1..], depth, fmt))
    ensures Keeps(t, i, i + |first| + |comma| + |line| + |PrintMembers(ms[1..], depth, fmt)|,
                  PrintMember(ms[0], flat, false) + comma + [] + PrintMembers(ms[1..], flat, false))
    decreases ms, 2
  {
    hide Minified;
    var text, c := PrintMember(ms[0], flat, false), i + |first| + |comma| + |line|;
    assert Keeps(t, i, c, text + comma + []) by {
      KeepsMember(ms[0], depth, flat, fmt, t, i);
      GapOptions(fmt, depth);
      KeepsEntry(first, text, comma, line, t, i, i + |first|);
    }
    KeepsMembers(ms[1..], depth, flat, fmt, t, c);
    KeepsBoth(t, i, c, c + |PrintMembers(ms[1..], depth, fmt)|,
              text + comma + [], PrintMembers(ms[1..], flat, false));
  }

  /** `cJSON_Minify` turns the output of either printer into the output of `cJSON_PrintUnformatted`. */
  lemma MinifyPrintedValue(v: Json, fmt: bool)
    requires Printable(v)
    ensures NulFree(PrintValue(v, 0, fmt))
    ensures Minified(PrintValue(v, 0, fmt), 0) == Some(PrintValue(v, 0, false))
  {
    hide Minified;
    ValueNulFree(v, 0, fmt);
    var t: CString := PrintValue(v, 0, fmt);
    assert t[0..0 + |t|] == t;
    AtSlice(t, 0, t);
    KeepsValue(v, 0, 0, fmt, t, 0);
    KeepsAll(t, PrintValue(v, 0, false));
  }
}
