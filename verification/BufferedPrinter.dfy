/** The buffered printers: the same text as the unbuffered ones, for every initial size. */
module BufferedPrinter {
  import opened CText
  import opened Json
  import opened Buffers
  import opened PowerOfTwo
  import opened PrintText
  import opened StringPrinter
  import opened Tree
  import opened TreePrinter
  import opened GrowingBuffer
  import opened Wrappers

  const SLACK: nat := 64

  /** The text in front of the offset, and the text still to come. */
  ghost predicate Underway(p: PrintBuffer, rest: bytes, whole: bytes)
    reads p, p.buffer
  {
    p.Valid() && p.Written() + rest == whole && |whole| + SLACK <= MAX_SIZE
  }

  /** A leaf: `ensure`, and a text that is left behind the offset with its terminator. */
  method PrintLeaf(p: PrintBuffer, text: bytes, size: nat, ghost start: bytes)
    requires p.Valid() && p.Written() == start && |text| < size && |start| + size <= MAX_SIZE
    modifies p, p.buffer
    ensures p.Ends(|start|, start + text) && (p.buffer == old(p.buffer) || fresh(p.buffer))
  {
    hide IsLeastPower;
    p.Ensure(size);
    var end := Put(p.buffer, p.offset, text);
    Terminate(p.buffer, end, start + text);
  }

  /** A piece inside an array or object: `ensure`, the bytes, and the offset moved behind them. */
  method Emit(p: PrintBuffer, piece: bytes, spare: nat, ghost rest: bytes, ghost whole: bytes)
    requires Underway(p, piece + rest, whole) && spare <= 1 && |piece| + spare >= 1
    modifies p, p.buffer
    ensures Underway(p, rest, whole) && (p.buffer == old(p.buffer) || fresh(p.buffer))
    ensures p.offset == old(p.offset) + |piece|
  {
    hide IsLeastPower;
    ghost var before := p.Written();
    assert before + (piece + rest) == before + piece + rest;
    p.Ensure(|piece| + spare);
    var end := Put(p.buffer, p.offset, piece);
    if spare == 1 { p.buffer[end] := 0; }
    p.offset := end;
  }

  /** `p->offset = update(p)` behind a printed child. */
  method Advance(p: PrintBuffer, ghost start: bytes, ghost text: bytes, ghost rest: bytes, ghost whole: bytes)
    requires p.Ends(|start|, start + text) && NulFree(text) && start + (text + rest) == whole
      && |whole| + SLACK <= MAX_SIZE
    modifies p`offset
    ensures Underway(p, rest, whole)
  {
    ghost var all := start + text;
    assert all[p.offset..] == text[p.offset - |start|..];
    var end := p.Update(|start|, all);
    p.offset := end;
    assert start + (text + rest) == start + text + rest;
  }

  /** The end of an array or object: the closing mark stays behind the offset. */
  method Close(p: PrintBuffer, tabs: bytes, close: byte, ghost start: bytes, ghost whole: bytes)
    requires Underway(p, tabs + [close], whole) && |start| <= p.offset
    requires |p.Written()| + |tabs| + 2 <= MAX_SIZE
    modifies p, p.buffer
    ensures p.Ends(|start|, whole) && (p.buffer == old(p.buffer) || fresh(p.buffer))
  {
    hide IsLeastPower;
    p.Ensure(|tabs| + 2);
    ghost var before := p.Written();
    var end := Put(p.buffer, p.offset, tabs + [close]);
    Terminate(p.buffer, end, whole);
  }

  // ---- arrays ----

  function Separator(more: bool, fmt: bool): bytes {
    if more then [COMMA] + Opt(fmt, [SPACE]) else []
  }

  lemma ItemsNextClosed(items: seq<Json>, depth: nat, fmt: bool, i: nat, close: bytes)
    requires (forall k | 0 <= k < |items| :: Printable(items[k])) && i < |items|
    ensures PrintItems(items[i..], depth, fmt) + close
      == PrintValue(items[i], depth, fmt)
         + (Separator(i + 1 < |items|, fmt) + (PrintItems(items[i + 1..], depth, fmt) + close))
  {
    ItemsNext(items, depth, fmt, i);
    Regroup(PrintValue(items[i], depth, fmt), Separator(i + 1 < |items|, fmt),
      PrintItems(items[i + 1..], depth, fmt), close);
  }

  lemma Regroup(a: bytes, b: bytes, c: bytes, d: bytes)
    ensures a + (b + c) + d == a + (b + (c + d))
  {
  }

  lemma ArrayParts(items: seq<Json>, depth: nat, fmt: bool, start: bytes)
    requires forall k | 0 <= k < |items| :: Printable(items[k])
    ensures start + PrintValue(Array(items), depth, fmt)
      == start + ([OPEN_BRACKET] + (PrintItems(items, depth + 1, fmt) + [CLOSE_BRACKET]))
  {
    assert [OPEN_BRACKET] + PrintItems(items, depth + 1, fmt) + [CLOSE_BRACKET]
      == [OPEN_BRACKET] + (PrintItems(items, depth + 1, fmt) + [CLOSE_BRACKET]);
  }

  lemma NoItemsLeft(items: seq<Json>, depth: nat, fmt: bool, close: bytes)
    requires forall k | 0 <= k < |items| :: Printable(items[k])
    ensures PrintItems(items[|items|..], depth, fmt) + close == close
  {
  }

  /** `print_value` with a print buffer. */
  method PrintNodeBuffered(item: Node, depth: nat, fmt: bool, p: PrintBuffer, ghost start: bytes)
    requires item.Valid() && Printable(item.model) && p.Valid() && p.Written() == start
    requires |start| + |PrintValue(item.model, depth, fmt)| + SLACK <= MAX_SIZE
    modifies p, p.buffer
    ensures p.Ends(|start|, start + PrintValue(item.model, depth, fmt))
    ensures p.buffer == old(p.buffer) || fresh(p.buffer)
    decreases item.repr, 2
  {
    hide Chain, Separate, Node.Holds, PrintItems, PrintMembers, PrintString, IntText, IsLeastPower;
    match item.kind {
      case IsNull => PrintLeaf(p, NULL_TEXT, 5, start);
      case IsFalse => PrintLeaf(p, FALSE_TEXT, 6, start);
      case IsTrue => PrintLeaf(p, TRUE_TEXT, 5, start);
      case IsNumber =>
        var size, text := NumberText(item.valuedouble, item.valueint);
        PrintLeaf(p, text, size, start);
      case IsString => PrintNameBuffered(item.valuestring, p, start);
      case IsArray => PrintArrayBuffered(item, depth, fmt, p, start);
      case IsObject => PrintObjectBuffered(item, depth, fmt, p, start);
    }
  }

  /** `print_string_ptr` with a print buffer. */
  method PrintNameBuffered(name: Option<CString>, p: PrintBuffer, ghost start: bytes)
    requires p.Valid() && p.Written() == start
    requires |start| + |PrintString(if name.None? then [] else name.value)| + SLACK <= MAX_SIZE
    modifies p, p.buffer
    ensures p.Ends(|start|, start + PrintString(if name.None? then [] else name.value))
    ensures p.buffer == old(p.buffer) || fresh(p.buffer)
  {
    hide IsLeastPower;
    var size := StringSize(name);
    p.Ensure(size);
    WriteString(p.buffer, p.offset, name, start);
  }

  /** `print_array` with a print buffer. */
  method PrintArrayBuffered(item: Node, depth: nat, fmt: bool, p: PrintBuffer, ghost start: bytes)
    requires item.Valid() && item.kind == IsArray && Printable(item.model) && p.Valid() && p.Written() == start
    requires |start| + |PrintValue(item.model, depth, fmt)| + SLACK <= MAX_SIZE
    modifies p, p.buffer
    ensures p.Ends(|start|, start + PrintValue(item.model, depth, fmt))
    ensures p.buffer == old(p.buffer) || fresh(p.buffer)
    decreases item.repr, 1
  {
    hide Node.Valid, PrintValue, PrintItems;
    ArrayModel(item);
    ghost var items, whole := item.model.items, start + PrintValue(item.model, depth, fmt);
    ArrayParts(items, depth, fmt, start);
    var numentries := item.GetArraySize();
    if numentries == 0 {
      NoItemsLeft(items, depth + 1, fmt, [CLOSE_BRACKET]);
      assert items[|items|..] == items;
      assert start + [OPEN_BRACKET, CLOSE_BRACKET] == whole;
      PrintLeaf(p, [OPEN_BRACKET, CLOSE_BRACKET], 3, start);
      return;
    }
    Emit(p, [OPEN_BRACKET], 0, PrintItems(items, depth + 1, fmt) + [CLOSE_BRACKET], whole);
    PrintItemsBuffered(item, depth + 1, fmt, p, start, whole);
  }

  /** The loop over the items, and the closing bracket. */
  method PrintItemsBuffered(item: Node, depth: nat, fmt: bool, p: PrintBuffer, ghost start: bytes, ghost whole: bytes)
    requires item.Valid() && item.kind == IsArray && Printable(item.model) && |start| <= p.offset
    requires ArrayEntries(item) && Underway(p, PrintItems(item.model.items, depth, fmt) + [CLOSE_BRACKET], whole)
    modifies p, p.buffer
    ensures p.Ends(|start|, whole) && (p.buffer == old(p.buffer) || fresh(p.buffer))
    decreases item.repr, 0
  {
    hide Node.Valid, PrintValue, PrintItems;
    ArrayModel(item);
    ghost var items := item.model.items;
    assert items[0..] == items;
    var child := item.child;
    ghost var i := 0;
    while child != null
      invariant i <= |item.kids| && child == NodeAt(item.kids, i)
      invariant |start| <= p.offset && (p.buffer == old(p.buffer) || fresh(p.buffer))
      invariant Underway(p, PrintItems(items[i..], depth, fmt) + [CLOSE_BRACKET], whole)
      decreases |item.kids| - i
    {
      ItemChild(item, i);
      ItemsNextClosed(items, depth, fmt, i, [CLOSE_BRACKET]);
      PrintItemBuffered(child, depth, fmt, p, child.next != null,
        PrintItems(items[i + 1..], depth, fmt) + [CLOSE_BRACKET], whole);
      child := child.next;
      i := i + 1;
    }
    NoItemsLeft(items, depth, fmt, [CLOSE_BRACKET]);
    assert [] + [CLOSE_BRACKET] == [CLOSE_BRACKET];
    Close(p, [], CLOSE_BRACKET, start, whole);
  }

  ghost predicate ArrayEntries(item: Node)
    reads item
  {
    item.model.Array? && forall k | 0 <= k < |item.model.items| :: Printable(item.model.items[k])
  }

  /** One item, the `update` behind it, and its separator. */
  method PrintItemBuffered(child: Node, depth: nat, fmt: bool, p: PrintBuffer, more: bool, ghost rest: bytes,
          ghost whole: bytes)
    requires child.Valid() && Printable(child.model)
    requires Underway(p, PrintValue(child.model, depth, fmt) + (Separator(more, fmt) + rest), whole)
    modifies p, p.buffer
    ensures Underway(p, rest, whole) && (p.buffer == old(p.buffer) || fresh(p.buffer))
    ensures old(p.offset) <= p.offset
    decreases child.repr, 3
  {
    hide Node.Valid, PrintValue;
    ghost var start, text := p.Written(), PrintValue(child.model, depth, fmt);
    PrintNodeBuffered(child, depth, fmt, p, start);
    ValueNulFree(child.model, depth, fmt);
    Advance(p, start, text, Separator(more, fmt) + rest, whole);
    if more {
      Emit(p, [COMMA] + Opt(fmt, [SPACE]), 1, rest, whole);
    } else {
      assert [] + rest == rest;
    }
  }

  // ---- objects ----

  lemma MembersNextClosed(ms: seq<Member>, depth: nat, fmt: bool, i: nat, close: bytes)
    requires (forall k | 0 <= k < |ms| :: NulFree(ms[k].name) && Printable(ms[k].value)) && i < |ms|
    ensures PrintMembers(ms[i..], depth, fmt) + close
      == Opt(fmt, Tabs(depth)) + (PrintString(ms[i].name) + ([COLON] + Opt(fmt, [TAB])
         + (PrintValue(ms[i].value, depth, fmt) + (Opt(i + 1 < |ms|, [COMMA]) + Opt(fmt, [NEWLINE])
            + (PrintMembers(ms[i + 1..], depth, fmt) + close)))))
  {
    hide PrintMembers, PrintValue, PrintString, Tabs;
    MembersNext(ms, depth, fmt, i);
    RegroupSix(Opt(fmt, Tabs(depth)), PrintString(ms[i].name), [COLON] + Opt(fmt, [TAB]),
               PrintValue(ms[i].value, depth, fmt), Opt(i + 1 < |ms|, [COMMA]) + Opt(fmt, [NEWLINE]),
               PrintMembers(ms[i + 1..], depth, fmt), close);
  }

  lemma RegroupSix(a: bytes, b: bytes, c: bytes, d: bytes, e: bytes, f: bytes, g: bytes)
    ensures a + (b + (c + (d + (e + f)))) + g == a + (b + (c + (d + (e + (f + g)))))
  {
  }

  lemma ObjectParts(ms: seq<Member>, depth: nat, fmt: bool, start: bytes)
    requires Printable(Object(ms))
    ensures start + PrintValue(Object(ms), depth, fmt)
      == start + ([OPEN_BRACE] + Opt(fmt, [NEWLINE]) + (PrintMembers(ms, depth + 1, fmt)
         + (Opt(fmt, Tabs(depth)) + [CLOSE_BRACE])))
  {
    hide PrintMembers, PrintValue;
    var line, inner, tabs := Opt(fmt, [NEWLINE]), PrintMembers(ms, depth + 1, fmt), Opt(fmt, Tabs(depth));
    ObjectText(ms, depth, fmt, line, inner, tabs);
    assert [OPEN_BRACE] + line + inner + tabs + [CLOSE_BRACE] == [OPEN_BRACE] + line + (inner + (tabs + [CLOSE_BRACE]));
  }

  lemma NoMembersLeft(ms: seq<Member>, depth: nat, fmt: bool, close: bytes)
    requires forall k | 0 <= k < |ms| :: NulFree(ms[k].name) && Printable(ms[k].value)
    ensures PrintMembers(ms[|ms|..], depth, fmt) + close == close
  {
  }

  /** `print_object` with a print buffer. */
  method PrintObjectBuffered(item: Node, depth: nat, fmt: bool, p: PrintBuffer, ghost start: bytes)
    requires item.Valid() && item.kind == IsObject && Printable(item.model) && p.Valid() && p.Written() == start
    requires |start| + |PrintValue(item.model, depth, fmt)| + SLACK <= MAX_SIZE
    modifies p, p.buffer
    ensures p.Ends(|start|, start + PrintValue(item.model, depth, fmt))
    ensures p.buffer == old(p.buffer) || fresh(p.buffer)
    decreases item.repr, 1
  {
    hide Node.Valid, PrintValue, PrintMembers, Tabs;
    ObjectModel(item);
    ghost var ms, whole := item.model.members, start + PrintValue(item.model, depth, fmt);
    ObjectParts(ms, depth, fmt, start);
    var numentries := item.GetArraySize();
    if numentries == 0 {
      EmptyObject(depth, fmt);
      EmptySize(depth, fmt);
      PrintLeaf(p, [OPEN_BRACE] + Opt(fmt, [NEWLINE]) + Opt(fmt, Tabs(depth)) + [CLOSE_BRACE],
                if fmt then depth + 4 else 3, start);
      return;
    }
    Emit(p, [OPEN_BRACE] + Opt(fmt, [NEWLINE]), 1,
         PrintMembers(ms, depth + 1, fmt) + (Opt(fmt, Tabs(depth)) + [CLOSE_BRACE]), whole);
    PrintMembersBuffered(item, depth + 1, fmt, p, start, whole);
  }

  lemma EmptySize(depth: nat, fmt: bool)
    ensures |[OPEN_BRACE] + Opt(fmt, [NEWLINE]) + Opt(fmt, Tabs(depth)) + [CLOSE_BRACE]| == if fmt then depth + 3 else 2
  {
  }

  ghost predicate ObjectEntries(item: Node)
    reads item
  {
    item.model.Object?
    && forall k | 0 <= k < |item.model.members| ::
      NulFree(item.model.members[k].name) && Printable(item.model.members[k].value)
  }

  /** The loop over the members, and the closing brace; `depth` is that of the members. */
  method PrintMembersBuffered(item: Node, depth: nat, fmt: bool, p: PrintBuffer, ghost start: bytes, ghost whole: bytes)
    requires item.Valid() && item.kind == IsObject && Printable(item.model) && |start| <= p.offset && depth >= 1
    requires ObjectEntries(item)
    requires Underway(p, PrintMembers(item.model.members, depth, fmt) + (Opt(fmt, Tabs(depth - 1)) + [CLOSE_BRACE]),
      whole)
    modifies p, p.buffer
    ensures p.Ends(|start|, whole) && (p.buffer == old(p.buffer) || fresh(p.buffer))
    decreases item.repr, 0
  {
    hide Node.Valid, PrintValue, PrintMembers, PrintString, Tabs;
    ObjectModel(item);
    ghost var ms, close := item.model.members, Opt(fmt, Tabs(depth - 1)) + [CLOSE_BRACE];
    assert ms[0..] == ms;
    var child := item.child;
    ghost var i := 0;
    while child != null
      invariant i <= |item.kids| && child == NodeAt(item.kids, i)
      invariant |start| <= p.offset && (p.buffer == old(p.buffer) || fresh(p.buffer))
      invariant Underway(p, PrintMembers(ms[i..], depth, fmt) + close, whole)
      decreases |item.kids| - i
    {
      MemberChild(item, i);
      MembersNextClosed(ms, depth, fmt, i, close);
      PrintMemberBuffered(child, depth, fmt, p, child.next != null,
        PrintMembers(ms[i + 1..], depth, fmt) + close, whole);
      child := child.next;
      i := i + 1;
    }
    NoMembersLeft(ms, depth, fmt, close);
    Close(p, Opt(fmt, Tabs(depth - 1)), CLOSE_BRACE, start, whole);
  }

  /** The start of a member: indentation, name with an `update` behind it, and colon. */
  method PrintKeyBuffered(name: Option<CString>, depth: nat, fmt: bool, p: PrintBuffer, ghost text: bytes,
          ghost rest: bytes, ghost whole: bytes)
    requires depth >= 1 && text == PrintString(if name.None? then [] else name.value)
    requires Underway(p, Opt(fmt, Tabs(depth)) + (text + ([COLON] + Opt(fmt, [TAB]) + rest)), whole)
    modifies p, p.buffer
    ensures Underway(p, rest, whole) && (p.buffer == old(p.buffer) || fresh(p.buffer))
    ensures old(p.offset) <= p.offset
  {
    hide PrintString;
    ghost var colon := [COLON] + Opt(fmt, [TAB]) + rest;
    StringNulFree(if name.None? then [] else name.value);
    if fmt {
      Emit(p, Tabs(depth), 0, text + colon, whole);
    } else {
      assert [] + (text + colon) == text + colon;
    }
    ghost var start := p.Written();
    PrintNameBuffered(name, p, start);
    Advance(p, start, text, colon, whole);
    Emit(p, [COLON] + Opt(fmt, [TAB]), 0, rest, whole);
  }

  /** One member: its key, its value with an `update` behind it, and its separator. */
  method PrintMemberBuffered(child: Node, depth: nat, fmt: bool, p: PrintBuffer, more: bool, ghost rest: bytes,
          ghost whole: bytes)
    requires child.Valid() && Printable(child.model) && depth >= 1
    requires Underway(p, Opt(fmt, Tabs(depth)) + (PrintString(MemberOf(child).name) + ([COLON] + Opt(fmt, [TAB])
             + (PrintValue(child.model, depth, fmt) + (Opt(more, [COMMA]) + Opt(fmt, [NEWLINE]) + rest)))), whole)
    modifies p, p.buffer
    ensures Underway(p, rest, whole) && (p.buffer == old(p.buffer) || fresh(p.buffer))
    ensures old(p.offset) <= p.offset
    decreases child.repr, 3
  {
    hide Node.Valid, PrintValue, PrintString, Tabs;
    ghost var text := PrintValue(child.model, depth, fmt);
    ghost var close := Opt(more, [COMMA]) + Opt(fmt, [NEWLINE]) + rest;
    ValueNulFree(child.model, depth, fmt);
    PrintKeyBuffered(child.name, depth, fmt, p, PrintString(MemberOf(child).name), text + close, whole);
    ghost var start := p.Written();
    PrintNodeBuffered(child, depth, fmt, p, start);
    Advance(p, start, text, close, whole);
    Emit(p, Opt(more, [COMMA]) + Opt(fmt, [NEWLINE]), 1, rest, whole);
  }

  /** `cJSON_PrintBuffered`: the text of `cJSON_Print` or `cJSON_PrintUnformatted`, for any initial size. */
  method PrintBuffered(item: Node, prebuffer: nat, fmt: bool) returns (out: array<byte>)
    requires item.Valid() && Printable(item.model) && prebuffer > 0
    requires |PrintValue(item.model, 0, fmt)| + SLACK <= MAX_SIZE
    ensures fresh(out) && Holds(out, PrintValue(item.model, 0, fmt))
  {
    hide Node.Valid, PrintValue;
    var p := new PrintBuffer(prebuffer);
    PrintNodeBuffered(item, 0, fmt, p, []);
    assert [] + PrintValue(item.model, 0, fmt) == PrintValue(item.model, 0, fmt);
    out := p.buffer;
  }
}
