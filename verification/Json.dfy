/** JSON values and the text that the printers are meant to produce for them. */
module Json {
  import opened CText

  datatype Json =
    | Null
    | False
    | True
    | Number(value: real)
    | String(text: bytes)
    | Array(items: seq<Json>)
    | Object(members: seq<Member>)

  datatype Member = Member(name: bytes, value: Json)

  const INT_MIN := -0x8000_0000
  const INT_MAX := 0x7FFF_FFFF

  /** A number that `print_number` writes with `%d` (or as the special case 0). */
  predicate IsInt32(r: real) {
    r.Floor as real == r && INT_MIN <= r.Floor <= INT_MAX
  }

  /** The trees the printers are modelled on: 32-bit integers, and strings that are C strings. */
  ghost predicate Printable(v: Json)
    decreases v
  {
    match v
    case Null => true
    case False => true
    case True => true
    case Number(r) => IsInt32(r)
    case String(s) => NulFree(s)
    case Array(items) => forall k | 0 <= k < |items| :: Printable(items[k])
    case Object(ms) => forall k | 0 <= k < |ms| :: NulFree(ms[k].name) && Printable(ms[k].value)
  }

  const NULL_TEXT: bytes := [110, 117, 108, 108]
  const FALSE_TEXT: bytes := [102, 97, 108, 115, 101]
  const TRUE_TEXT: bytes := [116, 114, 117, 101]

  // ---- numbers ----

  function NatText(n: nat): (s: bytes)
    ensures |s| >= 1
    ensures forall k | 0 <= k < |s| :: IsDigit(s[k])
  {
    if n < 10 then [ZERO + n] else NatText(n / 10) + [ZERO + n % 10]
  }

  /** What `sprintf("%d", n)` writes. */
  function IntText(n: int): (s: bytes)
    ensures |s| >= 1
    ensures forall k | 0 <= k < |s| :: IsDigit(s[k]) || s[k] == MINUS
  {
    if n < 0 then [MINUS] + NatText(-n) else NatText(n)
  }

  // ---- strings ----

  /** The lower-case hexadecimal digit that `%04x` writes. */
  function HexChar(n: nat): byte
    requires n < 16
  {
    if n < 10 then ZERO + n else 87 + n
  }

  predicate NeedsEscape(c: byte) {
    c < 32 || c == QUOTE || c == BACKSLASH
  }

  function ShortEscape(c: byte): (e: byte)
    ensures e != 0 <==> c in {BACKSLASH, QUOTE, BACKSPACE, FORMFEED, NEWLINE, RETURN, TAB}
  {
    if c == BACKSLASH then BACKSLASH
    else if c == QUOTE then QUOTE
    else if c == BACKSPACE then LOWER_B
    else if c == FORMFEED then LOWER_F
    else if c == NEWLINE then LOWER_N
    else if c == RETURN then LOWER_R
    else if c == TAB then LOWER_T
    else 0
  }

  function EscapeChar(c: byte): (s: bytes)
    ensures 1 <= |s| <= 6
  {
    if !NeedsEscape(c) then [c]
    else if ShortEscape(c) != 0 then [BACKSLASH, ShortEscape(c)]
    else [BACKSLASH, LOWER_U, ZERO, ZERO, HexChar(c / 16), HexChar(c % 16)]
  }

  function Escape(s: bytes): (e: bytes)
    ensures |s| <= |e|
  {
    if s == [] then [] else EscapeChar(s[0]) + Escape(s[1..])
  }

  function PrintString(s: bytes): (e: bytes)
    ensures |e| == |Escape(s)| + 2
  {
    [QUOTE] + Escape(s) + [QUOTE]
  }

  // ---- values ----

  function Tabs(n: nat): (s: bytes)
    ensures |s| == n && forall k | 0 <= k < n :: s[k] == TAB
  {
    if n == 0 then [] else [TAB] + Tabs(n - 1)
  }

  function Opt(present: bool, s: bytes): bytes {
    if present then s else []
  }

  ghost function PrintValue(v: Json, depth: nat, fmt: bool): (s: bytes)
    requires Printable(v)
    ensures |s| >= 1
    decreases v, 0
  {
    match v
    case Null => NULL_TEXT
    case False => FALSE_TEXT
    case True => TRUE_TEXT
    case Number(r) => IntText(r.Floor)
    case String(s) => PrintString(s)
    case Array(items) =>
      [OPEN_BRACKET] + PrintItems(items, depth + 1, fmt) + [CLOSE_BRACKET]
    case Object(ms) =>
      [OPEN_BRACE] + Opt(fmt, [NEWLINE]) + PrintMembers(ms, depth + 1, fmt)
      + Opt(fmt, Tabs(depth)) + [CLOSE_BRACE]
  }

  ghost function PrintItems(items: seq<Json>, depth: nat, fmt: bool): bytes
    requires forall k | 0 <= k < |items| :: Printable(items[k])
    decreases items, 1
  {
    if items == [] then []
    else PrintValue(items[0], depth, fmt) + ItemsTail(items[1..], depth, fmt)
  }

  /** The items after the first one, each with its separator in front. */
  ghost function ItemsTail(items: seq<Json>, depth: nat, fmt: bool): bytes
    requires forall k | 0 <= k < |items| :: Printable(items[k])
    decreases items, 2
  {
    if items == [] then []
    else [COMMA] + Opt(fmt, [SPACE]) + PrintItems(items, depth, fmt)
  }

  ghost function PrintMember(m: Member, depth: nat, fmt: bool): (s: bytes)
    requires NulFree(m.name) && Printable(m.value)
    decreases m, 1
  {
    Opt(fmt, Tabs(depth)) + PrintString(m.name) + [COLON] + Opt(fmt, [TAB])
    + PrintValue(m.value, depth, fmt)
  }

  ghost function PrintMembers(ms: seq<Member>, depth: nat, fmt: bool): bytes
    requires forall k | 0 <= k < |ms| :: NulFree(ms[k].name) && Printable(ms[k].value)
    decreases ms, 0
  {
    if ms == [] then []
    else (
      PrintMember(ms[0], depth, fmt) + Opt(|ms| > 1, [COMMA]) + Opt(fmt, [NEWLINE])
      + PrintMembers(ms[1..], depth, fmt)
    )
  }

  // ---- what is printed, in bytes ----

  /** A byte is printed as itself unless it is a control character, a quote or a backslash. Seven of those have a
      letter, the others are `\u00` and two lower-case hexadecimal digits. */
  lemma PrintedCharacter(c: byte)
    ensures c >= 32 && c !in {34, 92} ==> EscapeChar(c) == [c]
    ensures EscapeChar(34) == [92, 34] && EscapeChar(92) == [92, 92]
    ensures EscapeChar(8) == [92, 98] && EscapeChar(12) == [92, 102] && EscapeChar(10) == [92, 110]
    ensures EscapeChar(13) == [92, 114] && EscapeChar(9) == [92, 116]
    ensures c < 32 && c !in {8, 12, 10, 13, 9} ==>
      EscapeChar(c) == [92, 117, 48, 48, if c < 16 then 48 else 49, (
        var low: byte := c % 16; if low < 10 then 48 + low else 97 + (low - 10))]
  {
  }

  /** The integers that are printed with `%d`. */
  lemma IntegersAre(n: int)
    ensures IsInt32(n as real) <==> -2147483648 <= n <= 2147483647
  {
  }

  lemma FractionsAreNot(r: real, n: int)
    requires n as real < r < (n + 1) as real
    ensures !IsInt32(r)
  {
    assert r.Floor == n;
  }
}
