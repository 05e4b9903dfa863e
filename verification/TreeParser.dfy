/** `parse_number`, `parse_value`, `parse_array`, `parse_object` and `cJSON_ParseWithOpts`: text to nodes. */
module TreeParser {
  import opened CText
  import opened Json
  import opened Literals
  import opened Parser
  import opened StringParser
  import opened Tree
  import opened Wrappers

  /** The loop over a run of digits. */
  method ReadDigits(t: CString, start: nat, acc: nat) returns (n: nat, num: nat)
    requires start <= |t|
    ensures n == Digits(acc, t, start) && num == DigitsEnd(t, start)
  {
    n, num := acc, start;
    while IsDigit(C(t, num))
      invariant start <= num <= |t|
      invariant Digits(n, t, num) == Digits(acc, t, start) && DigitsEnd(t, num) == DigitsEnd(t, start)
      decreases |t| - num
    {
      n := n * 10 + DigitValue(C(t, num));
      num := num + 1;
    }
  }

  /** The exponent of `parse_number`. */
  method ReadExponent(t: CString, i: nat) returns (subscale: int, num: nat)
    requires i <= |t|
    ensures (subscale, num) == ParseExponent(t, i)
  {
    hide Digits, DigitsEnd;
    subscale, num := 0, i;
    if C(t, num) == LOWER_E || C(t, num) == UPPER_E {
      var negative := false;
      num := num + 1;
      if C(t, num) == PLUS {
        num := num + 1;
      } else if C(t, num) == MINUS {
        negative, num := true, num + 1;
      }
      subscale, num := ReadDigits(t, num, 0);
      if negative { subscale := -subscale; }
    }
  }

  /** `parse_number`, with exact arithmetic in place of doubles. */
  method ParseNumberText(t: CString, i: nat) returns (value: real, num: nat)
    requires i <= |t| && (C(t, i) == MINUS || IsDigit(C(t, i)))
    ensures (value, num) == ParseNumber(t, i)
  {
    hide Digits, DigitsEnd, Scaled, ParseExponent;
    var n, scale, subscale, negative := 0, 0, 0, false;
    num := i;
    if C(t, num) == MINUS { negative, num := true, num + 1; }
    if C(t, num) == ZERO { num := num + 1; }
    if StartsWhole(C(t, num)) { n, num := ReadDigits(t, num, n); }
    if C(t, num) == DOT && IsDigit(C(t, num + 1)) {
      var point := num + 1;
      n, num := ReadDigits(t, point, n);
      scale := -(num - point);
    }
    subscale, num := ReadExponent(t, num);
    value := Scaled(n as real, scale + subscale);
    if negative { value := -value; }
  }

  /** `(int)n`, which cuts off the fraction. */
  function Truncated(r: real): int {
    if r >= 0.0 then r.Floor else -(-r).Floor
  }

  /** Rounding goes towards zero, and integers stay. */
  lemma TruncatedIs(r: real)
    ensures r >= 0.0 ==> 0.0 <= Truncated(r) as real <= r < Truncated(r) as real + 1.0
    ensures r <= 0.0 ==> Truncated(r) as real - 1.0 < r <= Truncated(r) as real <= 0.0
  {
  }

  /** `skip`. */
  method SkipBlanks(t: CString, i: nat) returns (j: nat)
    requires i <= |t|
    ensures j == Skip(t, i)
  {
    j := i;
    while IsBlank(C(t, j))
      invariant i <= j <= |t| && Skip(t, j) == Skip(t, i)
      decreases |t| - j
    {
      j := j + 1;
    }
  }

  // ---- lists of items and members, one loop round at a time ----

  /** A list whose first entries are known, and what parsing the rest of it gives. */
  function Join<T>(done: seq<T>, rest: Parsed<seq<T>>): Parsed<seq<T>> {
    if rest.Ok? then Ok(done + rest.value, rest.end) else rest
  }

  lemma JoinBoth<T>(a: seq<T>, b: seq<T>, rest: Parsed<seq<T>>)
    ensures Join(a, Join(b, rest)) == Join(a + b, rest)
  {
    if rest.Ok? { assert a + (b + rest.value) == a + b + rest.value; }
  }

  /** What follows an item and its blanks. */
  function AfterItem(t: CString, j: nat): Parsed<seq<Json>>
    requires j <= |t|
  {
    if C(t, j) == COMMA then ParseItems(t, j + 1)
    else if C(t, j) == CLOSE_BRACKET then Ok([], j + 1)
    else Fail(j)
  }

  function AfterMember(t: CString, j: nat): Parsed<seq<Member>>
    requires j <= |t|
  {
    if C(t, j) == COMMA then ParseMembers(t, j + 1)
    else if C(t, j) == CLOSE_BRACE then Ok([], j + 1)
    else Fail(j)
  }

  lemma ItemsAreJoined(t: CString, i: nat)
    requires i <= |t|
    ensures var v := ParseValue(t, Skip(t, i));
      ParseItems(t, i) == if v.Ok? then Join([v.value], AfterItem(t, Skip(t, v.end))) else Lift(v)
  {
    var v := ParseValue(t, Skip(t, i));
    if v.Ok? { assert [v.value] + [] == [v.value]; }
  }

  lemma MembersAreJoined(t: CString, i: nat)
    requires i <= |t|
    ensures var m := ParseMember(t, i);
      ParseMembers(t, i) == if m.Ok? then Join([m.value], AfterMember(t, m.end)) else Lift(m)
  {
    var m := ParseMember(t, i);
    if m.Ok? { assert [m.value] + [] == [m.value]; }
  }

  // ---- values into nodes ----

  /** A node as `cJSON_New_Item` makes it, apart from its links and name. */
  ghost predicate Plain(item: Node)
    reads item, item.repr
  {
    item.Valid() && item.kind == IsNull && item.kids == [] && item.repr == {item}
  }

  /** The integer field of a parsed value: 1 for true, the truncated number for a number. */
  ghost predicate IntegerField(item: Node)
    reads item
  {
    && (item.kind == IsTrue ==> item.valueint == 1)
    && (item.kind == IsNumber ==> item.valueint == Truncated(item.valuedouble))
  }

  method BecomeLeaf(item: Node, kind: Kind)
    requires Plain(item) && kind in {IsNull, IsFalse, IsTrue}
    modifies item`kind, item`valueint, item`model
    ensures item.Valid() && item.model == if kind == IsNull then Null else if kind == IsFalse then False else True
    ensures IntegerField(item)
  {
    item.kind := kind;
    if kind == IsTrue { item.valueint := 1; }
    item.model := if kind == IsNull then Null else if kind == IsFalse then False else True;
  }

  method BecomeNumber(item: Node, n: real)
    requires Plain(item)
    modifies item`kind, item`valueint, item`valuedouble, item`model
    ensures item.Valid() && item.model == Number(n) && IntegerField(item)
  {
    item.valuedouble := n;
    item.valueint := Truncated(n);
    item.kind := IsNumber;
    item.model := Number(n);
  }

  method BecomeString(item: Node, text: CString)
    requires Plain(item)
    modifies item`kind, item`valuestring, item`model
    ensures item.Valid() && item.model == String(text)
  {
    item.valuestring := Some(text);
    item.kind := IsString;
    item.model := String(text);
  }

  method BecomeContainer(item: Node, kind: Kind)
    requires Plain(item) && kind in {IsArray, IsObject}
    modifies item`kind, item`model
    ensures item.Valid() && item.kind == kind && item.model == if kind == IsArray then Array([]) else Object([])
  {
    item.kind := kind;
    item.model := if kind == IsArray then Array([]) else Object([]);
  }

  /** `parse_value`: fills a plain node, or reports where the text is wrong. */
  method ParseValueInto(item: Node, t: CString, i: nat) returns (ok: bool, end: nat)
    requires Plain(item) && i <= |t| && !ParseValue(t, i).Overrun?
    modifies item`kind, item`child, item`valueint, item`valuedouble, item`valuestring, item`kids, item`repr, item`model
    ensures ok ==> IntegerField(item)
    ensures ok ==> item.Valid() && item in item.repr && fresh(item.repr - {item})
    ensures ok ==> ParseValue(t, i) == Ok(item.model, end)
    ensures !ok ==> ParseValue(t, i) == Fail(end)
    decreases |t| - i, 2
  {
    hide ParseItems, ParseMembers, ParseString, ParseNumber;
    if At(t, i, NULL_TEXT) {
      BecomeLeaf(item, IsNull);
      return true, i + 4;
    } else if At(t, i, FALSE_TEXT) {
      BecomeLeaf(item, IsFalse);
      return true, i + 5;
    } else if At(t, i, TRUE_TEXT) {
      BecomeLeaf(item, IsTrue);
      return true, i + 4;
    } else if C(t, i) == QUOTE {
      var r := ParseStringText(t, i);
      if r.Fail? { return false, r.ep; }
      StringNulFree(t, i);
      BecomeString(item, r.value);
      return true, r.end;
    } else if C(t, i) == MINUS || IsDigit(C(t, i)) {
      var n, num := ParseNumberText(t, i);
      BecomeNumber(item, n);
      return true, num;
    } else if C(t, i) == OPEN_BRACKET {
      ok, end := ParseArrayInto(item, t, i);
    } else if C(t, i) == OPEN_BRACE {
      ok, end := ParseObjectInto(item, t, i);
    } else {
      return false, i;
    }
  }

  lemma StringNulFree(t: CString, i: nat)
    requires i <= |t| && ParseString(t, i).Ok?
    ensures NulFree(ParseString(t, i).value)
  {
    PassesAgree(t, i + 1, ScanEnd(t, i + 1));
  }

  /** `parse_array`: the items are parsed one after the other and hooked in behind the last one. */
  method ParseArrayInto(item: Node, t: CString, i: nat) returns (ok: bool, end: nat)
    requires Plain(item) && i <= |t| && C(t, i) == OPEN_BRACKET && !ParseArray(t, i).Overrun?
    modifies item`kind, item`child, item`valueint, item`valuedouble, item`valuestring, item`kids, item`repr, item`model
    ensures ok ==> item.Valid() && item in item.repr && fresh(item.repr - {item})
    ensures ok ==> ParseArray(t, i) == Ok(item.model, end)
    ensures !ok ==> ParseArray(t, i) == Fail(end)
    decreases |t| - i, 1
  {
    BecomeContainer(item, IsArray);
    var start := SkipBlanks(t, i + 1);
    if C(t, start) == CLOSE_BRACKET { return true, start + 1; }
    ok, end := ParseItemsInto(item, t, start);
  }

  /** A new node for the item at `i`, and the offset after the item and its blanks. */
  method ParseOneItem(t: CString, i: nat) returns (ok: bool, child: Node, end: nat)
    requires i <= |t| && !ParseItems(t, i).Overrun?
    ensures ok ==> child.Valid() && child in child.repr && fresh(child.repr) && child.next == null && child.prev == null
    ensures ok ==> i < end <= |t| && ParseItems(t, i) == Join([child.model], AfterItem(t, end))
    ensures !ok ==> ParseItems(t, i) == Fail(end)
    decreases |t| - i, 3
  {
    hide ParseItems, ParseValue, Node.Valid;
    ItemsAreJoined(t, i);
    child := new Node();
    var value := SkipBlanks(t, i);
    ok, end := ParseValueInto(child, t, value);
    if ok { end := SkipBlanks(t, end); }
  }

  method ParseItemsInto(item: Node, t: CString, start: nat) returns (ok: bool, end: nat)
    requires item.Valid() && item.kind == IsArray && item.model == Array([]) && item.kids == [] && item.repr == {item}
    requires start <= |t| && !ParseItems(t, start).Overrun?
    modifies item`child, item`kids, item`repr, item`model
    ensures ok ==> item.Valid() && item in item.repr && fresh(item.repr - {item}) && item.model.Array?
    ensures ok ==> ParseItems(t, start) == Ok(item.model.items, end)
    ensures !ok ==> ParseItems(t, start) == Fail(end)
    decreases |t| - start, 4
  {
    hide ParseItems, Node.Valid, SplicedModel;
    var child: Node;
    ok, child, end := ParseOneItem(t, start);
    if !ok { return; }
    AppendedModel(item.model, 0, child);
    assert [] + [child.model] == [child.model];
    item.Append(null, child);
    while C(t, end) == COMMA
      invariant start < end <= |t|
      invariant item.Valid() && item in item.repr && item.kind == IsArray && fresh(item.repr - {item})
      invariant |item.kids| > 0 && child == NodeAt(item.kids, |item.kids| - 1)
      invariant forall j | 0 <= j < |item.kids| :: fresh(item.kids[j])
      invariant item.model.Array? && |item.model.items| == |item.kids|
      invariant ParseItems(t, start) == Join(item.model.items, AfterItem(t, end))
      decreases |t| - end
    {
      var newItem: Node;
      ok, newItem, end := ParseOneItem(t, end + 1);
      if !ok { return; }
      AppendedModel(item.model, |item.kids|, newItem);
      JoinBoth(item.model.items, [newItem.model], AfterItem(t, end));
      item.Append(child, newItem);
      child := newItem;
    }
    assert item.model.items + [] == item.model.items;
    if C(t, end) == CLOSE_BRACKET { return true, end + 1; }
    return false, end;
  }

  /** The name, colon and value of one member; the name ends up in the node's own name field. */
  method ParseMemberInto(child: Node, t: CString, i: nat) returns (ok: bool, end: nat)
    requires Plain(child) && i <= |t| && !ParseMember(t, i).Overrun?
    modifies child`kind, child`child, child`valueint, child`valuedouble, child`valuestring
    modifies child`kids, child`repr, child`model, child`name
    ensures ok ==> child.Valid() && child in child.repr && fresh(child.repr - {child})
    ensures ok ==> ParseMember(t, i) == Ok(MemberOf(child), end)
    ensures !ok ==> ParseMember(t, i) == Fail(end)
    decreases |t| - i, 3
  {
    hide ParseValue, ParseString;
    var value := SkipBlanks(t, i);
    var r := ParseStringText(t, value);
    if r.Fail? { return false, r.ep; }
    StringNulFree(t, value);
    child.name := Some(r.value);
    value := SkipBlanks(t, r.end);
    if C(t, value) != COLON { return false, value; }
    value := SkipBlanks(t, value + 1);
    ok, end := ParseValueInto(child, t, value);
    if ok { end := SkipBlanks(t, end); }
  }

  /** `parse_object`: like `parse_array`, with a name in front of every value. */
  method ParseObjectInto(item: Node, t: CString, i: nat) returns (ok: bool, end: nat)
    requires Plain(item) && i <= |t| && C(t, i) == OPEN_BRACE && !ParseObject(t, i).Overrun?
    modifies item`kind, item`child, item`valueint, item`valuedouble, item`valuestring, item`kids, item`repr, item`model
    ensures ok ==> item.Valid() && item in item.repr && fresh(item.repr - {item})
    ensures ok ==> ParseObject(t, i) == Ok(item.model, end)
    ensures !ok ==> ParseObject(t, i) == Fail(end)
    decreases |t| - i, 1
  {
    BecomeContainer(item, IsObject);
    var start := SkipBlanks(t, i + 1);
    if C(t, start) == CLOSE_BRACE { return true, start + 1; }
    ok, end := ParseMembersInto(item, t, start);
  }

  /** A new node for the member at `i`, and the offset after the member and its blanks. */
  method ParseOneMember(t: CString, i: nat) returns (ok: bool, child: Node, end: nat)
    requires i <= |t| && !ParseMembers(t, i).Overrun?
    ensures ok ==> child.Valid() && child in child.repr && fresh(child.repr) && child.next == null && child.prev == null
    ensures ok ==> i < end <= |t| && ParseMembers(t, i) == Join([MemberOf(child)], AfterMember(t, end))
    ensures !ok ==> ParseMembers(t, i) == Fail(end)
    decreases |t| - i, 4
  {
    hide ParseMembers, ParseMember, Node.Valid;
    MembersAreJoined(t, i);
    child := new Node();
    ok, end := ParseMemberInto(child, t, i);
  }

  method ParseMembersInto(item: Node, t: CString, start: nat) returns (ok: bool, end: nat)
    requires item.Valid() && item.kind == IsObject && item.model == Object([]) && item.kids == [] && item.repr == {item}
    requires start <= |t| && !ParseMembers(t, start).Overrun?
    modifies item`child, item`kids, item`repr, item`model
    ensures ok ==> item.Valid() && item in item.repr && fresh(item.repr - {item}) && item.model.Object?
    ensures ok ==> ParseMembers(t, start) == Ok(item.model.members, end)
    ensures !ok ==> ParseMembers(t, start) == Fail(end)
    decreases |t| - start, 5
  {
    hide ParseMembers, Node.Valid, SplicedModel;
    var child: Node;
    ok, child, end := ParseOneMember(t, start);
    if !ok { return; }
    AppendedModel(item.model, 0, child);
    assert [] + [MemberOf(child)] == [MemberOf(child)];
    item.Append(null, child);
    while C(t, end) == COMMA
      invariant start < end <= |t|
      invariant item.Valid() && item in item.repr && item.kind == IsObject && fresh(item.repr - {item})
      invariant |item.kids| > 0 && child == NodeAt(item.kids, |item.kids| - 1)
      invariant forall j | 0 <= j < |item.kids| :: fresh(item.kids[j])
      invariant item.model.Object? && |item.model.members| == |item.kids|
      invariant ParseMembers(t, start) == Join(item.model.members, AfterMember(t, end))
      decreases |t| - end
    {
      var newItem: Node;
      ok, newItem, end := ParseOneMember(t, end + 1);
      if !ok { return; }
      AppendedModel(item.model, |item.kids|, newItem);
      JoinBoth(item.model.members, [MemberOf(newItem)], AfterMember(t, end));
      item.Append(child, newItem);
      child := newItem;
    }
    assert item.model.members + [] == item.model.members;
    if C(t, end) == CLOSE_BRACE { return true, end + 1; }
    return false, end;
  }

  /** `cJSON_ParseWithOpts`: a fresh tree with the value of the text, or null and the place of the error. */
  method ParseWithOpts(t: CString, requireTerminated: bool) returns (c: Node?, end: nat)
    requires !Parse(t, requireTerminated).Overrun?
    ensures c == null <==> Parse(t, requireTerminated).Fail?
    ensures c == null ==> Parse(t, requireTerminated) == Fail(end)
    ensures c != null ==> c.Valid() && fresh(c.repr) && c.next == null && c.prev == null && c.name == None
    ensures c != null ==> Parse(t, requireTerminated) == Ok(c.model, end)
  {
    hide ParseValue;
    var root := new Node();
    var value := SkipBlanks(t, 0);
    var ok: bool;
    ok, end := ParseValueInto(root, t, value);
    if !ok { return null, end; }
    if requireTerminated {
      end := SkipBlanks(t, end);
      if C(t, end) != 0 { return null, end; }
    }
    c := root;
  }
}
