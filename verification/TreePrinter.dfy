/** The unbuffered printers: every result is a fresh C string, and every size is computed before it is written. */
module TreePrinter {
  import opened CText
  import opened Json
  import opened Buffers
  import opened PrintText
  import opened StringPrinter
  import opened Tree
  import opened Wrappers

  // ---- sizes ----

  /** What `print_array` adds up over the entries. */
  ghost function ItemsRoom(items: seq<Json>, depth: nat, fmt: bool): nat
    requires forall k | 0 <= k < |items| :: Printable(items[k])
  {
    if items == [] then 0
    else |PrintValue(items[0], depth, fmt)| + 2 + (if fmt then 1 else 0) + ItemsRoom(items[1..], depth, fmt)
  }

  /** What `print_object` adds up over the names and entries. */
  ghost function MembersRoom(ms: seq<Member>, depth: nat, fmt: bool): nat
    requires forall k | 0 <= k < |ms| :: NulFree(ms[k].name) && Printable(ms[k].value)
  {
    if ms == [] then 0
    else |PrintValue(ms[0].value, depth, fmt)| + |PrintString(ms[0].name)| + 2 + (if fmt then 2 + depth else 0)
         + MembersRoom(ms[1..], depth, fmt)
  }

  /** The computed size of an array covers its text. */
  lemma {:induction false} ItemsFit(items: seq<Json>, depth: nat, fmt: bool)
    requires forall k | 0 <= k < |items| :: Printable(items[k])
    ensures |PrintItems(items, depth, fmt)| <= ItemsRoom(items, depth, fmt)
    ensures |ItemsTail(items, depth, fmt)| <= ItemsRoom(items, depth, fmt) + 2
    decreases |items|
  {
    if items != [] { ItemsFit(items[1..], depth, fmt); }
  }

  /** The computed size of an object covers its text. */
  lemma {:induction false} MembersFit(ms: seq<Member>, depth: nat, fmt: bool)
    requires forall k | 0 <= k < |ms| :: NulFree(ms[k].name) && Printable(ms[k].value)
    ensures |PrintMembers(ms, depth, fmt)| <= MembersRoom(ms, depth, fmt)
    decreases |ms|
  {
    if ms != [] { MembersFit(ms[1..], depth, fmt); }
  }

  /** How much the computed sizes exceed the text: for an array by a byte for every item and one or two more. */
  lemma {:induction false} ItemsSlack(items: seq<Json>, depth: nat, fmt: bool)
    requires items != [] && forall k | 0 <= k < |items| :: Printable(items[k])
    ensures ItemsRoom(items, depth, fmt) == |PrintItems(items, depth, fmt)| + |items| + if fmt then 2 else 1
    decreases |items|
  {
    if |items| > 1 { ItemsSlack(items[1..], depth, fmt); }
  }

  /** For an object by one byte. */
  lemma {:induction false} MembersSlack(ms: seq<Member>, depth: nat, fmt: bool)
    requires ms != [] && forall k | 0 <= k < |ms| :: NulFree(ms[k].name) && Printable(ms[k].value)
    ensures MembersRoom(ms, depth, fmt) == |PrintMembers(ms, depth, fmt)| + 1
    decreases |ms|
  {
    if |ms| > 1 { MembersSlack(ms[1..], depth, fmt); }
  }

  // ---- composing the text of an array ----

  /** Everything behind the entry at `i`, up to the closing bracket. */
  lemma ItemsNext(items: seq<Json>, depth: nat, fmt: bool, i: nat)
    requires (forall k | 0 <= k < |items| :: Printable(items[k])) && i < |items|
    ensures PrintItems(items[i..], depth, fmt)
      == PrintValue(items[i], depth, fmt)
         + ((if i + 1 < |items| then [COMMA] + Opt(fmt, [SPACE]) else []) + PrintItems(items[i + 1..], depth, fmt))
  {
    assert items[i..][1..] == items[i + 1..];
  }

  lemma EntryNulFree(items: seq<Json>, depth: nat, fmt: bool, i: nat)
    requires (forall k | 0 <= k < |items| :: Printable(items[k])) && i < |items|
    ensures NulFree(PrintValue(items[i], depth, fmt))
  {
    ValueNulFree(items[i], depth, fmt);
  }

  /** The text written so far and the text still to come make up the whole. */
  ghost predicate Composing(out: array<byte>, ptr: nat, rest: bytes, whole: bytes)
    reads out
  {
    ptr + |rest| < out.Length && out[..ptr] + rest == whole
  }

  /** Writes the next piece of the text. */
  method Emit(out: array<byte>, ptr: nat, piece: bytes, ghost rest: bytes, ghost whole: bytes) returns (end: nat)
    requires Composing(out, ptr, piece + rest, whole)
    modifies out
    ensures end == ptr + |piece| && Composing(out, end, rest, whole)
  {
    assert out[..ptr] + (piece + rest) == out[..ptr] + piece + rest;
    end := Put(out, ptr, piece);
  }

  /** Copies an entry of known text: `memcpy` of `strlen` bytes. */
  method EmitEntry(out: array<byte>, ptr: nat, entry: array<byte>, ghost text: bytes, ghost rest: bytes,
          ghost whole: bytes)
    returns (end: nat)
    requires out != entry && Holds(entry, text) && NulFree(text) && Composing(out, ptr, text + rest, whole)
    modifies out
    ensures end == ptr + |text| && Composing(out, end, rest, whole)
  {
    assert text[0..] == text;
    var tmplen := StrLen(entry, 0, text);
    end := Emit(out, ptr, entry[..tmplen], rest, whole);
  }

  /** The writing loop of `print_array`. */
  method ComposeArray(out: array<byte>, entries: seq<array<byte>>, ghost items: seq<Json>, ghost depth: nat, fmt: bool)
    requires (forall k | 0 <= k < |items| :: Printable(items[k])) && |entries| == |items| > 0
    requires forall k | 0 <= k < |entries| :: entries[k] != out && Holds(entries[k], PrintValue(items[k], depth, fmt))
    requires out.Length >= |PrintItems(items, depth, fmt)| + 3
    modifies out
    ensures Holds(out, [OPEN_BRACKET] + PrintItems(items, depth, fmt) + [CLOSE_BRACKET])
  {
    hide PrintValue, PrintItems, Printable;
    ghost var whole := [OPEN_BRACKET] + PrintItems(items, depth, fmt);
    out[0] := OPEN_BRACKET;
    var ptr: nat := 1;
    out[ptr] := 0;
    assert items[0..] == items;
    var i := 0;
    while i < |entries|
      invariant 0 <= i <= |entries| && ptr <= out.Length
      invariant Composing(out, ptr, PrintItems(items[i..], depth, fmt), whole)
      invariant ptr + |PrintItems(items[i..], depth, fmt)| == |whole|
    {
      ghost var rest := PrintItems(items[i + 1..], depth, fmt);
      ItemsNext(items, depth, fmt, i);
      EntryNulFree(items, depth, fmt, i);
      if i != |entries| - 1 {
        ptr := EmitEntry(out, ptr, entries[i], PrintValue(items[i], depth, fmt), [COMMA] + Opt(fmt, [SPACE]) + rest,
          whole);
        ptr := Emit(out, ptr, [COMMA] + Opt(fmt, [SPACE]), rest, whole);
        out[ptr] := 0;
      } else {
        ptr := EmitEntry(out, ptr, entries[i], PrintValue(items[i], depth, fmt), [] + rest, whole);
        ptr := Emit(out, ptr, [], rest, whole);
      }
      i := i + 1;
    }
    NoMoreItems(items, depth, fmt, out[..ptr]);
    ptr := PutByte(out, ptr, CLOSE_BRACKET);
    Terminate(out, ptr, whole + [CLOSE_BRACKET]);
  }

  lemma NoMoreItems(items: seq<Json>, depth: nat, fmt: bool, s: bytes)
    requires forall k | 0 <= k < |items| :: Printable(items[k])
    ensures s + PrintItems(items[|items|..], depth, fmt) == s
  {
  }

  // ---- composing the text of an object ----

  lemma MembersNext(ms: seq<Member>, depth: nat, fmt: bool, i: nat)
    requires (forall k | 0 <= k < |ms| :: NulFree(ms[k].name) && Printable(ms[k].value)) && i < |ms|
    ensures PrintMembers(ms[i..], depth, fmt)
      == Opt(fmt, Tabs(depth)) + (PrintString(ms[i].name) + ([COLON] + Opt(fmt, [TAB])
         + (PrintValue(ms[i].value, depth, fmt) + (Opt(i + 1 < |ms|, [COMMA]) + Opt(fmt, [NEWLINE])
            + PrintMembers(ms[i + 1..], depth, fmt)))))
  {
    hide PrintMember;
    var rest, gap, line := ms[i..], Opt(fmt, [TAB]), Opt(fmt, [NEWLINE]);
    assert rest[1..] == ms[i + 1..];
    MemberIs(ms[i], depth, fmt);
    RightNested(Opt(fmt, Tabs(depth)), PrintString(ms[i].name), [COLON], gap, PrintValue(ms[i].value, depth, fmt),
                Opt(i + 1 < |ms|, [COMMA]), line, PrintMembers(ms[i + 1..], depth, fmt));
  }

  lemma MemberIs(m: Member, depth: nat, fmt: bool)
    requires NulFree(m.name) && Printable(m.value)
    ensures PrintMember(m, depth, fmt)
      == Opt(fmt, Tabs(depth)) + PrintString(m.name) + [COLON] + Opt(fmt, [TAB]) + PrintValue(m.value, depth, fmt)
  {
  }

  lemma RightNested(a: bytes, b: bytes, c: bytes, d: bytes, e: bytes, f: bytes, g: bytes, h: bytes)
    ensures a + b + c + d + e + f + g + h == a + (b + (c + d + (e + (f + g + h))))
  {
  }

  lemma MemberNulFree(ms: seq<Member>, depth: nat, fmt: bool, i: nat)
    requires (forall k | 0 <= k < |ms| :: NulFree(ms[k].name) && Printable(ms[k].value)) && i < |ms|
    ensures NulFree(PrintString(ms[i].name)) && NulFree(PrintValue(ms[i].value, depth, fmt))
  {
    StringNulFree(ms[i].name);
    ValueNulFree(ms[i].value, depth, fmt);
  }

  lemma NoMoreMembers(ms: seq<Member>, depth: nat, fmt: bool, s: bytes)
    requires forall k | 0 <= k < |ms| :: NulFree(ms[k].name) && Printable(ms[k].value)
    ensures s + PrintMembers(ms[|ms|..], depth, fmt) == s
  {
  }

  /** One round of the writing loop of `print_object`. */
  method ComposeMember(out: array<byte>, at: nat, name: array<byte>, entry: array<byte>, depth: nat, fmt: bool,
          last: bool,
                       ghost m: bytes, ghost v: bytes, ghost rest: bytes, ghost whole: bytes)
    returns (ptr: nat)
    requires name != out && entry != out && Holds(name, m) && Holds(entry, v) && NulFree(m) && NulFree(v)
    requires Composing(out, at, Opt(fmt, Tabs(depth)) + (m + ([COLON] + Opt(fmt, [TAB])
             + (v + (Opt(!last, [COMMA]) + Opt(fmt, [NEWLINE]) + rest)))), whole)
    modifies out
    ensures Composing(out, ptr, rest, whole)
  {
    ghost var close := Opt(!last, [COMMA]) + Opt(fmt, [NEWLINE]) + rest;
    ghost var colon := [COLON] + Opt(fmt, [TAB]);
    ptr := Emit(out, at, Opt(fmt, Tabs(depth)), m + (colon + (v + close)), whole);
    ptr := EmitEntry(out, ptr, name, m, colon + (v + close), whole);
    ptr := Emit(out, ptr, [COLON] + Opt(fmt, [TAB]), v + close, whole);
    ptr := EmitEntry(out, ptr, entry, v, close, whole);
    ptr := Emit(out, ptr, Opt(!last, [COMMA]) + Opt(fmt, [NEWLINE]), rest, whole);
    out[ptr] := 0;
  }

  /** The writing loop of `print_object`; `depth` is that of the members. */
  method ComposeObject(out: array<byte>, names: seq<array<byte>>, entries: seq<array<byte>>,
                       ghost ms: seq<Member>, depth: nat, fmt: bool)
    requires (forall k | 0 <= k < |ms| :: NulFree(ms[k].name) && Printable(ms[k].value)) && depth >= 1
    requires |names| == |entries| == |ms| > 0
    requires forall k | 0 <= k < |names| :: names[k] != out && Holds(names[k], PrintString(ms[k].name))
    requires forall k | 0 <= k < |entries| ::
      entries[k] != out && Holds(entries[k], PrintValue(ms[k].value, depth, fmt))
    requires out.Length >= |PrintMembers(ms, depth, fmt)| + (if fmt then depth + 3 else 3)
    modifies out
    ensures Holds(out,
      [OPEN_BRACE] + Opt(fmt, [NEWLINE]) + PrintMembers(ms, depth, fmt) + Opt(fmt, Tabs(depth - 1)) + [CLOSE_BRACE])
  {
    hide PrintValue, PrintMembers, PrintString, Printable;
    ghost var start := [OPEN_BRACE] + Opt(fmt, [NEWLINE]);
    ghost var whole := start + PrintMembers(ms, depth, fmt);
    var ptr: nat := PutByte(out, 0, OPEN_BRACE);
    ptr := Put(out, ptr, Opt(fmt, [NEWLINE]));
    out[ptr] := 0;
    assert ms[0..] == ms;
    var i := 0;
    while i < |entries|
      invariant 0 <= i <= |entries| && Composing(out, ptr, PrintMembers(ms[i..], depth, fmt), whole)
    {
      MembersNext(ms, depth, fmt, i);
      MemberNulFree(ms, depth, fmt, i);
      ptr := ComposeMember(out, ptr, names[i], entries[i], depth, fmt, i == |entries| - 1, PrintString(ms[i].name),
                           PrintValue(ms[i].value, depth, fmt), PrintMembers(ms[i + 1..], depth, fmt), whole);
      i := i + 1;
    }
    NoMoreMembers(ms, depth, fmt, out[..ptr]);
    ptr := Put(out, ptr, Opt(fmt, Tabs(depth - 1)));
    ptr := PutByte(out, ptr, CLOSE_BRACE);
    Terminate(out, ptr, whole + Opt(fmt, Tabs(depth - 1)) + [CLOSE_BRACE]);
  }

  // ---- nodes ----

  /** `cJSON_strdup` and the other allocations that hold exactly one text. */
  method Dup(text: bytes, size: nat) returns (out: array<byte>)
    requires |text| < size
    ensures fresh(out) && out.Length == size && Holds(out, text)
  {
    out := new byte[size];
    var end := Put(out, 0, text);
    assert [] + text == text;
    Terminate(out, end, text);
  }

  /** What the printers read from a child of a container. */
  lemma ItemChild(item: Node, i: nat)
    requires item.Valid() && item.kind == IsArray && Printable(item.model) && i < |item.kids|
    ensures item.model.Array? && |item.model.items| == |item.kids| && item.model.items[i] == item.kids[i].model
    ensures ChildOf(item, i) && Printable(item.kids[i].model)
  {
    hide Separate;
    assert item.kids[i] in item.kids;
    assert item !in item.kids[i].repr && item in item.repr;
  }

  lemma MemberChild(item: Node, i: nat)
    requires item.Valid() && item.kind == IsObject && Printable(item.model) && i < |item.kids|
    ensures item.model.Object? && |item.model.members| == |item.kids| && item.model.members[i] == MemberOf(item.kids[i])
    ensures ChildOf(item, i) && Printable(item.kids[i].model)
  {
    hide Separate;
    assert item.kids[i] in item.kids;
    assert item !in item.kids[i].repr && item in item.repr;
    assert item.model.members[i] == MemberOf(item.kids[i]);
  }

  ghost predicate ChildOf(item: Node, i: nat)
    requires i < |item.kids|
    reads item, item.kids, item.kids[i].repr
  {
    item.kids[i].Valid() && item.kids[i].repr < item.repr && item.kids[i].next == NodeAt(item.kids, i + 1)
  }

  lemma ArrayModel(item: Node)
    requires item.Valid() && item.kind == IsArray && Printable(item.model)
    ensures item.model.Array? && |item.model.items| == |item.kids| && item.child == NodeAt(item.kids, 0)
    ensures forall k | 0 <= k < |item.model.items| :: Printable(item.model.items[k])
  {
    hide Separate;
  }

  lemma ObjectModel(item: Node)
    requires item.Valid() && item.kind == IsObject && Printable(item.model)
    ensures item.model.Object? && |item.model.members| == |item.kids| && item.child == NodeAt(item.kids, 0)
    ensures var ms := item.model.members;
      forall k | 0 <= k < |ms| :: NulFree(ms[k].name) && Printable(ms[k].value)
  {
    hide Separate;
  }

  /** `print_value`. */
  method PrintNode(item: Node, depth: nat, fmt: bool) returns (out: array<byte>)
    requires item.Valid() && Printable(item.model)
    ensures fresh(out) && Holds(out, PrintValue(item.model, depth, fmt))
    decreases item.repr, 2
  {
    hide Chain, Separate, Node.Holds, PrintItems, PrintMembers, PrintString, IntText;
    match item.kind {
      case IsNull => out := Dup(NULL_TEXT, 5);
      case IsFalse => out := Dup(FALSE_TEXT, 6);
      case IsTrue => out := Dup(TRUE_TEXT, 5);
      case IsNumber =>
        var size, text := NumberText(item.valuedouble, item.valueint);
        out := Dup(text, size);
      case IsString =>
        out := PrintName(item.valuestring);
      case IsArray => out := PrintArrayNode(item, depth, fmt);
      case IsObject => out := PrintObjectNode(item, depth, fmt);
    }
  }

  /** The loop that prints every item and adds up the room it needs. */
  method PrintEntries(item: Node, depth: nat, fmt: bool) returns (entries: seq<array<byte>>, len: nat)
    requires item.Valid() && item.kind == IsArray && Printable(item.model)
    ensures item.model.Array? && |entries| == |item.model.items|
    ensures forall k | 0 <= k < |item.model.items| :: Printable(item.model.items[k])
    ensures forall k | 0 <= k < |entries| ::
      fresh(entries[k]) && Holds(entries[k], PrintValue(item.model.items[k], depth, fmt))
    ensures len == 5 + ItemsRoom(item.model.items, depth, fmt)
    decreases item.repr, 0
  {
    hide Node.Valid, PrintValue;
    ArrayModel(item);
    ghost var items := item.model.items;
    assert items[0..] == items;
    var child := item.child;
    entries, len := [], 5;
    while child != null
      invariant |entries| <= |item.kids| && child == NodeAt(item.kids, |entries|)
      invariant forall k | 0 <= k < |entries| ::
        fresh(entries[k]) && Holds(entries[k], PrintValue(items[k], depth, fmt))
      invariant len + ItemsRoom(items[|entries|..], depth, fmt) == 5 + ItemsRoom(items, depth, fmt)
      decreases |item.kids| - |entries|
    {
      ghost var i := |entries|;
      ItemChild(item, i);
      var ret := PrintNode(child, depth, fmt);
      entries := entries + [ret];
      ValueNulFree(items[i], depth, fmt);
      var n := StrLen(ret, 0, PrintValue(items[i], depth, fmt));
      assert items[i..][1..] == items[i + 1..];
      len := len + n + 2 + if fmt then 1 else 0;
      child := child.next;
    }
  }

  /** `print_array` without a print buffer. */
  method PrintArrayNode(item: Node, depth: nat, fmt: bool) returns (out: array<byte>)
    requires item.Valid() && item.kind == IsArray && Printable(item.model)
    ensures fresh(out) && Holds(out, PrintValue(item.model, depth, fmt))
    decreases item.repr, 1
  {
    hide Node.Valid;
    ArrayModel(item);
    var numentries := item.GetArraySize();
    if numentries == 0 {
      assert [OPEN_BRACKET] + [] + [CLOSE_BRACKET] == [OPEN_BRACKET, CLOSE_BRACKET];
      out := Dup([OPEN_BRACKET, CLOSE_BRACKET], 3);
      return;
    }
    var entries, len := PrintEntries(item, depth + 1, fmt);
    ItemsFit(item.model.items, depth + 1, fmt);
    out := new byte[len];
    ComposeArray(out, entries, item.model.items, depth + 1, fmt);
  }

  /** The loop that prints every name and value and adds up the room they need; `depth` is that of the members. */
  method PrintNamesAndEntries(item: Node, depth: nat, fmt: bool)
    returns (names: seq<array<byte>>, entries: seq<array<byte>>, len: nat)
    requires item.Valid() && item.kind == IsObject && Printable(item.model)
    ensures item.model.Object? && |names| == |entries| == |item.model.members|
    ensures var ms := item.model.members;
      forall k | 0 <= k < |ms| :: NulFree(ms[k].name) && Printable(ms[k].value)
    ensures forall k | 0 <= k < |names| ::
      fresh(names[k]) && Holds(names[k], PrintString(item.model.members[k].name))
    ensures forall k | 0 <= k < |entries| ::
      fresh(entries[k]) && Holds(entries[k], PrintValue(item.model.members[k].value, depth, fmt))
    ensures len == 7 + (if fmt then depth else 0) + MembersRoom(item.model.members, depth, fmt)
    decreases item.repr, 0
  {
    hide Node.Valid, PrintValue, PrintString, MembersRoom, NulFree, Printable, Holds;
    ObjectModel(item);
    ghost var ms := item.model.members;
    assert ms[0..] == ms;
    var child := item.child;
    names, entries, len := [], [], 7;
    if fmt { len := len + depth; }
    ghost var all := len + MembersRoom(ms, depth, fmt);
    while child != null
      invariant |names| == |entries| <= |item.kids| && child == NodeAt(item.kids, |entries|)
      invariant forall k | 0 <= k < |names| :: fresh(names[k]) && Holds(names[k], PrintString(ms[k].name))
      invariant forall k | 0 <= k < |entries| ::
        fresh(entries[k]) && Holds(entries[k], PrintValue(ms[k].value, depth, fmt))
      invariant len + MembersRoom(ms[|entries|..], depth, fmt) == all
      decreases |item.kids| - |entries|
    {
      ghost var i := |entries|;
      MemberChild(item, i);
      RoomNext(ms, depth, fmt, i);
      var str, ret, room := PrintNamed(child, depth, fmt);
      names, entries := names + [str], entries + [ret];
      len := len + room;
      child := child.next;
    }
    NoRoom(ms, depth, fmt);
  }

  lemma RoomNext(ms: seq<Member>, depth: nat, fmt: bool, i: nat)
    requires (forall k | 0 <= k < |ms| :: NulFree(ms[k].name) && Printable(ms[k].value)) && i < |ms|
    ensures MembersRoom(ms[i..], depth, fmt)
      == |PrintValue(ms[i].value, depth, fmt)| + |PrintString(ms[i].name)| + 2 + (if fmt then 2 + depth else 0)
         + MembersRoom(ms[i + 1..], depth, fmt)
  {
    assert ms[i..][1..] == ms[i + 1..];
  }

  lemma NoRoom(ms: seq<Member>, depth: nat, fmt: bool)
    requires forall k | 0 <= k < |ms| :: NulFree(ms[k].name) && Printable(ms[k].value)
    ensures MembersRoom(ms[|ms|..], depth, fmt) == 0
  {
  }

  /** The name and the value of one member, and the room that they need. */
  method PrintNamed(child: Node, depth: nat, fmt: bool) returns (str: array<byte>, ret: array<byte>, room: nat)
    requires child.Valid() && Printable(child.model)
    ensures fresh(str) && Holds(str, PrintString(MemberOf(child).name))
    ensures fresh(ret) && Holds(ret, PrintValue(child.model, depth, fmt))
    ensures room == |PrintValue(child.model, depth, fmt)| + |PrintString(MemberOf(child).name)| + 2
                    + (if fmt then 2 + depth else 0)
    decreases child.repr, 3
  {
    hide Node.Valid, PrintValue, PrintString;
    str := PrintName(child.name);
    ret := PrintNode(child, depth, fmt);
    ValueNulFree(child.model, depth, fmt);
    StringNulFree(MemberOf(child).name);
    var n := StrLen(ret, 0, PrintValue(child.model, depth, fmt));
    var m := StrLen(str, 0, PrintString(MemberOf(child).name));
    room := n + m + 2 + if fmt then 2 + depth else 0;
  }

  /** `print_string_ptr` without a print buffer. */
  method PrintName(name: Option<CString>) returns (out: array<byte>)
    ensures fresh(out) && out.Length == |PrintString(if name.None? then [] else name.value)| + 1
    ensures Holds(out, PrintString(if name.None? then [] else name.value))
  {
    var size := StringSize(name);
    out := new byte[size];
    ghost var text := PrintString(if name.None? then [] else name.value);
    assert [] + text == text;
    WriteString(out, 0, name, []);
  }

  lemma EmptyObject(depth: nat, fmt: bool)
    ensures PrintValue(Object([]), depth, fmt)
      == [OPEN_BRACE] + Opt(fmt, [NEWLINE]) + Opt(fmt, Tabs(depth)) + [CLOSE_BRACE]
  {
    ObjectText([], depth, fmt, Opt(fmt, [NEWLINE]), [], Opt(fmt, Tabs(depth)));
    assert [OPEN_BRACE] + Opt(fmt, [NEWLINE]) + [] == [OPEN_BRACE] + Opt(fmt, [NEWLINE]);
  }

  /** `print_object` without a print buffer. */
  method PrintObjectNode(item: Node, depth: nat, fmt: bool) returns (out: array<byte>)
    requires item.Valid() && item.kind == IsObject && Printable(item.model)
    ensures fresh(out) && Holds(out, PrintValue(item.model, depth, fmt))
    decreases item.repr, 1
  {
    hide Node.Valid, PrintValue, PrintMembers, Tabs, Holds;
    ObjectModel(item);
    var numentries := item.GetArraySize();
    if numentries == 0 {
      EmptyObject(depth, fmt);
      out := Dup([OPEN_BRACE] + Opt(fmt, [NEWLINE]) + Opt(fmt, Tabs(depth)) + [CLOSE_BRACE],
        if fmt then depth + 4 else 3);
      return;
    }
    var names, entries, len := PrintNamesAndEntries(item, depth + 1, fmt);
    MembersFit(item.model.members, depth + 1, fmt);
    out := new byte[len];
    ComposeObject(out, names, entries, item.model.members, depth + 1, fmt);
    ghost var ms := item.model.members;
    ObjectText(ms, depth, fmt, Opt(fmt, [NEWLINE]), PrintMembers(ms, depth + 1, fmt), Opt(fmt, Tabs(depth)));
  }

  /** `cJSON_Print` and `cJSON_PrintUnformatted`. */
  method Print(item: Node, fmt: bool) returns (out: array<byte>)
    requires item.Valid() && Printable(item.model)
    ensures fresh(out) && Holds(out, PrintValue(item.model, 0, fmt))
  {
    out := PrintNode(item, 0, fmt);
  }
}
