/** The text of a printable value is a C string: no byte of it is NUL. */
module PrintText {
  import opened CText
  import opened Json

  lemma NulFreeBoth(a: bytes, b: bytes)
    ensures NulFree(a) && NulFree(b) <==> NulFree(a + b)
  {
    if NulFree(a + b) {
      forall k | 0 <= k < |a| ensures a[k] != 0 { assert a[k] == (a + b)[k]; }
      forall k | 0 <= k < |b| ensures b[k] != 0 { assert b[k] == (a + b)[|a| + k]; }
    }
  }

  lemma {:induction false} EscapeNulFree(s: bytes)
    requires NulFree(s)
    ensures NulFree(Escape(s))
    decreases |s|
  {
    if s != [] {
      EscapeNulFree(s[1..]);
      NulFreeBoth(EscapeChar(s[0]), Escape(s[1..]));
    }
  }

  lemma StringNulFree(s: bytes)
    requires NulFree(s)
    ensures NulFree(PrintString(s))
  {
    EscapeNulFree(s);
    NulFreeBoth([QUOTE], Escape(s));
    NulFreeBoth([QUOTE] + Escape(s), [QUOTE]);
  }

  lemma GapNulFree(fmt: bool, depth: nat)
    ensures NulFree(Opt(fmt, [NEWLINE])) && NulFree(Opt(fmt, [SPACE])) && NulFree(Opt(fmt, [TAB]))
    ensures NulFree(Opt(fmt, Tabs(depth)))
  {
  }

  lemma FiveNulFree(a: bytes, b: bytes, c: bytes, d: bytes, e: bytes)
    requires NulFree(a) && NulFree(b) && NulFree(c) && NulFree(d) && NulFree(e)
    ensures NulFree(a + b + c + d + e)
  {
    NulFreeBoth(a, b);
    NulFreeBoth(a + b, c);
    NulFreeBoth(a + b + c, d);
    NulFreeBoth(a + b + c + d, e);
  }

  lemma {:induction false} ValueNulFree(v: Json, depth: nat, fmt: bool)
    requires Printable(v)
    ensures NulFree(PrintValue(v, depth, fmt))
    decreases v, 0
  {
    match v
    case Null =>
    case False =>
    case True =>
    case Number(r) =>
    case String(s) => StringNulFree(s);
    case Array(items) =>
      ItemsNulFree(items, depth + 1, fmt);
      NulFreeBoth([OPEN_BRACKET], PrintItems(items, depth + 1, fmt));
      NulFreeBoth([OPEN_BRACKET] + PrintItems(items, depth + 1, fmt), [CLOSE_BRACKET]);
    case Object(ms) =>
      MembersNulFree(ms, depth + 1, fmt);
      GapNulFree(fmt, depth);
      FiveNulFree([OPEN_BRACE], Opt(fmt, [NEWLINE]), PrintMembers(ms, depth + 1, fmt),
                  Opt(fmt, Tabs(depth)), [CLOSE_BRACE]);
  }

  lemma {:induction false} ItemsNulFree(items: seq<Json>, depth: nat, fmt: bool)
    requires forall k | 0 <= k < |items| :: Printable(items[k])
    ensures NulFree(PrintItems(items, depth, fmt))
    decreases items, 1
  {
    if items != [] {
      ValueNulFree(items[0], depth, fmt);
      TailNulFree(items[1..], depth, fmt);
      NulFreeBoth(PrintValue(items[0], depth, fmt), ItemsTail(items[1..], depth, fmt));
    }
  }

  lemma {:induction false} TailNulFree(items: seq<Json>, depth: nat, fmt: bool)
    requires forall k | 0 <= k < |items| :: Printable(items[k])
    ensures NulFree(ItemsTail(items, depth, fmt))
    decreases items, 2
  {
    if items != [] {
      ItemsNulFree(items, depth, fmt);
      GapNulFree(fmt, depth);
      NulFreeBoth([COMMA], Opt(fmt, [SPACE]));
      NulFreeBoth([COMMA] + Opt(fmt, [SPACE]), PrintItems(items, depth, fmt));
    }
  }

  lemma {:induction false} MemberNulFree(m: Member, depth: nat, fmt: bool)
    requires NulFree(m.name) && Printable(m.value)
    ensures NulFree(PrintMember(m, depth, fmt))
    decreases m, 1
  {
    StringNulFree(m.name);
    ValueNulFree(m.value, depth, fmt);
    GapNulFree(fmt, depth);
    FiveNulFree(Opt(fmt, Tabs(depth)), PrintString(m.name), [COLON], Opt(fmt, [TAB]), PrintValue(m.value, depth, fmt));
  }

  lemma {:induction false} MembersNulFree(ms: seq<Member>, depth: nat, fmt: bool)
    requires forall k | 0 <= k < |ms| :: NulFree(ms[k].name) && Printable(ms[k].value)
    ensures NulFree(PrintMembers(ms, depth, fmt))
    decreases ms, 0
  {
    if ms != [] {
      MemberNulFree(ms[0], depth, fmt);
      GapNulFree(fmt, depth);
      MembersNulFree(ms[1..], depth, fmt);
      FiveNulFree(PrintMember(ms[0], depth, fmt), Opt(|ms| > 1, [COMMA]), Opt(fmt, [NEWLINE]),
                  PrintMembers(ms[1..], depth, fmt), []);
      NulFreeBoth(PrintMember(ms[0], depth, fmt) + Opt(|ms| > 1, [COMMA]) + Opt(fmt, [NEWLINE])
                  + PrintMembers(ms[1..], depth, fmt), []);
    }
  }

  lemma ObjectText(ms: seq<Member>, depth: nat, fmt: bool, line: bytes, inner: bytes, tabs: bytes)
    requires Printable(Object(ms))
    requires line == Opt(fmt, [NEWLINE]) && inner == PrintMembers(ms, depth + 1, fmt) && tabs == Opt(fmt, Tabs(depth))
    ensures PrintValue(Object(ms), depth, fmt) == [OPEN_BRACE] + line + inner + tabs + [CLOSE_BRACE]
    ensures |PrintValue(Object(ms), depth, fmt)| == 1 + |line| + |inner| + |tabs| + 1
  {
  }
}
