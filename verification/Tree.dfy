/** The `cJSON` node: a doubly linked list of children under every container. */
module Tree {
  import opened CText
  import opened Json
  import opened Names
  import opened Wrappers

  datatype Kind = IsNull | IsFalse | IsTrue | IsNumber | IsString | IsArray | IsObject

  /** The member at `i`, or null outside the list. */
  function NodeAt(kids: seq<Node>, i: int): Node? {
    if 0 <= i < |kids| then kids[i] else null
  }

  /** `next`, `prev` and the head describe exactly this list. */
  ghost predicate Chain(head: Node?, kids: seq<Node>)
    reads kids`next, kids`prev
  {
    && head == NodeAt(kids, 0)
    && forall i | 0 <= i < |kids| ::
      kids[i].next == NodeAt(kids, i + 1) && kids[i].prev == NodeAt(kids, i - 1)
  }

  /** The trees under different list members share no node. */
  ghost predicate Separate(kids: seq<Node>)
    reads kids`repr
  {
    forall i, j | 0 <= i < j < |kids| :: kids[i].repr !! kids[j].repr
  }

  ghost function Values(kids: seq<Node>): (values: seq<Json>)
    reads kids`model
    ensures |values| == |kids| && forall i | 0 <= i < |kids| :: values[i] == kids[i].model
  {
    if kids == [] then [] else [kids[0].model] + Values(kids[1..])
  }

  /** A member as it is printed: a missing name counts as the empty one. */
  ghost function MemberOf(k: Node): Member
    reads k`name, k`model
  {
    Member(if k.name.None? then [] else k.name.value, k.model)
  }

  ghost function Members(kids: seq<Node>): (members: seq<Member>)
    reads kids`name, kids`model
    ensures |members| == |kids| && forall i | 0 <= i < |kids| :: members[i] == MemberOf(kids[i])
  {
    if kids == [] then [] else [MemberOf(kids[0])] + Members(kids[1..])
  }

  /** `s` with the elements from `i` up to `j` replaced by `x`. */
  function Spliced<T>(s: seq<T>, i: nat, j: nat, x: seq<T>): (r: seq<T>)
  {
    if i <= j <= |s| then s[..i] + x + s[j..] else s
  }

  /** The value of a container whose children from `i` up to `j` are replaced by others. */
  ghost function SplicedModel(m: Json, i: nat, j: nat, x: seq<Node>): Json
    reads x`name, x`model
  {
    match m
    case Array(items) => Array(Spliced(items, i, j, Values(x)))
    case Object(ms) => Object(Spliced(ms, i, j, Members(x)))
    case _ => m
  }

  class Node {
    var next: Node?
    var prev: Node?
    var child: Node?
    var kind: Kind
    var valueint: int
    var valuedouble: real
    var valuestring: Option<CString>
    var name: Option<CString>

    ghost var kids: seq<Node>
    ghost var repr: set<Node>
    ghost var model: Json

    /** `cJSON_New_Item`: all fields zero, which reads as an unlinked null without a name. */
    constructor ()
      ensures Valid() && fresh(repr) && repr == {this}
      ensures Blank() && valueint == 0 && valuedouble == 0.0
    {
      next, prev, child := null, null, null;
      kind, valueint, valuedouble, valuestring, name := IsNull, 0, 0.0, None, None;
      kids, repr, model := [], {this}, Null;
    }

    ghost predicate Blank()
      reads this
    {
      && next == null && prev == null && child == null && name == None
      && kind == IsNull && valuestring == None && kids == [] && repr == {this} && model == Null
    }

    /** What the node's own fields say about the value it stands for. */
    ghost predicate Models()
      reads `kind, `valueint, `valuedouble, `valuestring, `kids, `model
      reads kids`name, kids`model
    {
      match kind
      case IsNull => model == Null && kids == []
      case IsFalse => model == False && kids == []
      case IsTrue => model == True && kids == []
      case IsNumber =>
        && model == Number(valuedouble) && kids == []
        && (IsInt32(valuedouble) ==> valueint == valuedouble.Floor)
      case IsString => valuestring.Some? && model == String(valuestring.value) && kids == []
      case IsArray => model == Array(Values(kids))
      case IsObject => model == Object(Members(kids))
    }

    /** The nodes include this one and the trees of the children, none of which contains this one. */
    ghost predicate Holds(list: seq<Node>, nodes: set<Node>)
      reads list`repr
    {
      && this in nodes
      && forall k | k in list :: k in nodes && k != this && k.repr <= nodes && this !in k.repr && k in k.repr
    }

    /** The node is the root of a finite tree whose sibling lists are well linked, and `model` is its value.
        The node's own links and name belong to its parent. */
    ghost predicate Valid()
      reads `kind, `child, `valueint, `valuedouble, `valuestring, `kids, `repr, `model
      reads repr - {this}
      decreases repr
    {
      && (forall k | k in kids :: k in repr)
      && Holds(kids, repr)
      && (forall k | k in kids :: k.Valid())
      && Separate(kids)
      && Chain(child, kids)
      && Models()
    }

    predicate IsContainer()
      reads `kind
    {
      kind == IsArray || kind == IsObject
    }

    /** Closes the container over a new list of children. */
    ghost method Seal(list: seq<Node>, nodes: set<Node>)
      requires IsContainer() && Holds(list, nodes) && forall k | k in list :: k.Valid()
      requires Separate(list) && Chain(child, list)
      modifies `kids, `repr, `model
      ensures Valid() && kids == list && repr == nodes
      ensures model == if kind == IsArray then Array(Values(list)) else Object(Members(list))
    {
      hide Chain, Separate, Values, Members, NodeAt;
      kids, repr := list, nodes;
      model := if kind == IsArray then Array(Values(list)) else Object(Members(list));
    }

    // ---- reading the list ----

    /** `cJSON_GetArraySize`. */
    method GetArraySize() returns (n: nat)
      requires Valid()
      ensures n == |kids|
    {
      var c := child;
      n := 0;
      while c != null
        invariant n <= |kids| && c == NodeAt(kids, n)
        decreases |kids| - n
      {
        n, c := n + 1, c.next;
      }
    }

    /** `cJSON_GetArrayItem`: a negative index acts as 0, and there is no item past the end. */
    method GetArrayItem(which: int) returns (c: Node?)
      requires Valid()
      ensures c == NodeAt(kids, Index(which))
    {
      c := child;
      var left := which;
      ghost var i := 0;
      while c != null && left > 0
        invariant i <= |kids| && c == NodeAt(kids, i) && i + Index(left) == Index(which)
        decreases |kids| - i
      {
        i, left, c := i + 1, left - 1, c.next;
      }
    }

    // ---- changing the list ----

    /** A tree that can become a child: linked to nothing, and sharing no node with this one. */
    ghost predicate CanAdopt(item: Node)
      requires Valid()
      reads this, repr, item, item.repr
    {
      && IsContainer() && item.Valid() && item in item.repr && item.next == null && item.prev == null
      && repr !! item.repr
    }

    /** Closes the container after its links have been redirected around the children from `i` up to `j`. */
    ghost method SealSpliced(list: seq<Node>, before: Json, i: nat, j: nat, x: seq<Node>, after: seq<Node>,
            nodes: set<Node>)
      requires IsContainer() && i <= j <= |list| && Separate(list) && after == Spliced(list, i, j, x)
      requires Holds(after, nodes) && Chain(child, after) && this !in x && forall k | k in after :: k.Valid()
      requires |x| <= 1 && forall k | k in list && x != [] :: k.repr !! x[0].repr
      requires before == if kind == IsArray then Array(Values(list)) else Object(Members(list))
      modifies `kids, `repr, `model
      ensures Valid() && kids == after && repr == nodes
      ensures model == SplicedModel(before, i, j, x)
    {
      hide Chain, NodeAt, Separate, Values, Members, Spliced, Valid;
      SplicedSeparate(list, i, j, x);
      SplicedValues(list, i, j, x);
      SplicedMembers(list, i, j, x);
      Seal(after, nodes);
    }

    /** Hooks an item in behind the last child, or as the first one (`suffix_object`). */
    method LinkAfter(ghost list: seq<Node>, last: Node?, item: Node)
      requires Chain(child, list) && Distinct(list) && item !in list && item.next == null && item.prev == null
      requires last == NodeAt(list, |list| - 1)
      modifies `child, list`next, item`prev
      ensures Chain(child, list + [item])
    {
      if last == null {
        child := item;
      } else {
        last.next := item;
        item.prev := last;
      }
    }

    /** Appends an item, given the last child: the step that builds every list. */
    method Append(last: Node?, item: Node)
      requires Valid() && CanAdopt(item) && last == NodeAt(kids, |kids| - 1)
      modifies `child, `kids, `repr, `model, kids`next, item`prev
      ensures Valid() && kids == old(kids) + [item] && repr == old(repr) + item.repr
      ensures model == SplicedModel(old(model), |old(kids)|, |old(kids)|, [item])
    {
      hide Chain, NodeAt, Values, Members, Spliced, SplicedModel, Separate, Models;
      ContainerModel(this);
      ghost var list, after, nodes := kids, kids + [item], repr + item.repr;
      SeparateDistinct(list);
      SeparateApart(list);
      assert Holds(after, nodes);
      LinkAfter(list, last, item);
      ghost var all := list + [item];
      forall m | 0 <= m < |all| ensures all[m].Valid() {
        assert m < |list| ==> all[m] == list[m] && list[m] in list;
        StillValid(all[m]);
      }
      SplicedEnd<Node>(list, [item]);
      SealSpliced(list, model, |list|, |list|, [item], after, nodes);
    }

    /** `cJSON_AddItemToArray`. */
    method AddItemToArray(item: Node?)
      requires Valid() && (item != null ==> CanAdopt(item))
      modifies `child, `kids, `repr, `model, kids`next, (if item == null then {} else {item})`prev
      ensures Valid()
      ensures item == null ==> unchanged(this)
      ensures item != null ==> kids == old(kids) + [item] && repr == old(repr) + item.repr
      ensures item != null ==> model == SplicedModel(old(model), |old(kids)|, |old(kids)|, [item])
    {
      if item != null {
        var c := child;
        ghost var i := 0;
        while c != null && c.next != null
          invariant kids == [] ==> c == null
          invariant kids != [] ==> i < |kids| && c == kids[i]
          decreases |kids| - i
        {
          i, c := i + 1, c.next;
        }
        Append(c, item);
      }
    }

    /** The link updates of `cJSON_InsertItemInArray`: the item goes in front of the child at `i`. */
    method LinkBefore(ghost list: seq<Node>, ghost i: nat, c: Node, item: Node)
      requires Chain(child, list) && Distinct(list) && item !in list && i < |list| && c == list[i]
      modifies `child, list`next, list`prev, item`next, item`prev
      ensures Chain(child, Spliced(list, i, i, [item]))
    {
      hide Spliced, NodeAt;
      Neighbours(child, list, i);
      item.next := c;
      item.prev := c.prev;
      c.prev := item;
      if c == child { child := item; } else { item.prev.next := item; }
      forall k | 0 <= k < |list|
        ensures list[k].next == (if k == i - 1 then item else NodeAt(list, k + 1))
        ensures list[k].prev == (if k == i then item else NodeAt(list, k - 1))
      {
        if k != i { Elsewhere(list, i, k); }
        assert list[k] in list;
      }
      ChainAround(child, list, i, i, [item]);
    }

    /** The link updates of `cJSON_DetachItemFromArray` at the child at `i`. */
    method Unlink(ghost list: seq<Node>, ghost i: nat, c: Node)
      requires Chain(child, list) && Distinct(list) && i < |list| && c == list[i]
      modifies `child, list`next, list`prev
      ensures Chain(child, Spliced(list, i, i + 1, []))
      ensures c.next == null && c.prev == null
    {
      hide Spliced, NodeAt;
      Neighbours(child, list, i);
      if c.prev != null { c.prev.next := c.next; }
      if c.next != null { c.next.prev := c.prev; }
      if c == child { child := c.next; }
      c.prev, c.next := null, null;
      forall k | 0 <= k < |list| && k != i
        ensures list[k].next == (if k == i - 1 then NodeAt(list, i + 1) else NodeAt(list, k + 1))
        ensures list[k].prev == (if k == i + 1 then NodeAt(list, i - 1) else NodeAt(list, k - 1))
      {
        Elsewhere(list, i, k);
      }
      ChainAround(child, list, i, i + 1, []);
    }

    /** The item takes the place of the child at `i` in the list. */
    method Relink(ghost list: seq<Node>, ghost i: nat, c: Node, item: Node)
      requires Chain(child, list) && Distinct(list) && item !in list && i < |list| && c == list[i]
      modifies `child, list`next, list`prev, item`next, item`prev
      ensures Chain(child, Spliced(list, i, i + 1, [item]))
    {
      hide Spliced, NodeAt;
      Neighbours(child, list, i);
      item.next := c.next;
      item.prev := c.prev;
      if item.next != null { item.next.prev := item; }
      if c == child { child := item; } else { item.prev.next := item; }
      forall k | 0 <= k < |list| && k != i
        ensures list[k].next == (if k == i - 1 then item else NodeAt(list, k + 1))
        ensures list[k].prev == (if k == i + 1 then item else NodeAt(list, k - 1))
      {
        Elsewhere(list, i, k);
        assert list[k] in list;
      }
      ChainAround(child, list, i, i + 1, [item]);
    }

    /** The link updates of `cJSON_ReplaceItemInArray`, which end with clearing the links of the old child. */
    method Displace(ghost list: seq<Node>, ghost i: nat, c: Node, item: Node)
      requires Chain(child, list) && Distinct(list) && item !in list && i < |list| && c == list[i]
      modifies `child, list`next, list`prev, item`next, item`prev
      ensures Chain(child, Spliced(list, i, i + 1, [item])) && c.next == null && c.prev == null
    {
      hide Chain, NodeAt;
      Relink(list, i, c, item);
      assert c !in Spliced(list, i, i + 1, [item]);
      c.next, c.prev := null, null;
    }

    /** Puts an item in front of the child at `i`. */
    method PutBefore(ghost i: nat, c: Node, item: Node)
      requires Valid() && CanAdopt(item) && i < |kids| && c == kids[i]
      modifies `child, `kids, `repr, `model, kids`next, kids`prev, item`next, item`prev
      ensures Valid() && repr == old(repr) + item.repr
      ensures kids == Spliced(old(kids), i, i, [item]) && model == SplicedModel(old(model), i, i, [item])
    {
      hide Chain, Values, Members, Spliced, SplicedModel, NodeAt, Separate, Models;
      ContainerModel(this);
      ghost var list := kids;
      ghost var after, nodes := Spliced(list, i, i, [item]), repr + item.repr;
      SplicedElements(list, i, i, [item]);
      SeparateDistinct(list);
      SeparateApart(list);
      assert Holds(after, nodes);
      LinkBefore(list, i, c, item);
      ghost var all := list + [item];
      forall m | 0 <= m < |all| ensures all[m].Valid() {
        assert m < |list| ==> all[m] == list[m] && list[m] in list;
        StillValid(all[m]);
      }
      SealSpliced(list, model, i, i, [item], after, nodes);
    }

    /** `cJSON_InsertItemInArray`: past the end it appends, and a negative index acts as 0. */
    method InsertItemInArray(which: int, newitem: Node)
      requires Valid() && CanAdopt(newitem)
      modifies `child, `kids, `repr, `model, kids`next, kids`prev, newitem`next, newitem`prev
      ensures Valid() && repr == old(repr) + newitem.repr
      ensures var i := if Index(which) < |old(kids)| then Index(which) else |old(kids)|;
        kids == Spliced(old(kids), i, i, [newitem]) && model == SplicedModel(old(model), i, i, [newitem])
    {
      hide Valid, Spliced, SplicedModel;
      var c := GetArrayItem(which);
      if c == null {
        SplicedEnd<Node>(kids, [newitem]);
        AddItemToArray(newitem);
      } else {
        PutBefore(Index(which), c, newitem);
      }
    }

    /** Takes the child at `i` out of the list. */
    method TakeOut(ghost i: nat, c: Node)
      requires Valid() && IsContainer() && i < |kids| && c == kids[i]
      modifies `child, `kids, `repr, `model, kids`next, kids`prev
      ensures Valid() && repr == old(repr) - c.repr && c.Valid() && c.next == null && c.prev == null
      ensures kids == Spliced(old(kids), i, i + 1, []) && model == SplicedModel(old(model), i, i + 1, [])
    {
      hide Chain, Values, Members, Spliced, SplicedModel, NodeAt, Separate, Models;
      ContainerModel(this);
      ghost var list := kids;
      ghost var after, nodes := Spliced(list, i, i + 1, []), repr - c.repr;
      SplicedOthers(list, i);
      SeparateDistinct(list);
      SeparateApart(list);
      assert Holds(after, nodes);
      Unlink(list, i, c);
      forall m | 0 <= m < |list| ensures list[m].Valid() {
        assert list[m] in list;
        StillValid(list[m]);
      }
      SealSpliced(list, model, i, i + 1, [], after, nodes);
    }

    /** The link updates of a replacement leave every subtree as it is. */
    method Exchange(ghost i: nat, c: Node, item: Node)
      requires Valid() && CanAdopt(item) && i < |kids| && c == kids[i]
      modifies `child, kids`next, kids`prev, item`next, item`prev
      ensures Chain(child, Spliced(kids, i, i + 1, [item])) && c.next == null && c.prev == null
      ensures item.Valid() && forall m | 0 <= m < |kids| :: kids[m].Valid()
    {
      hide Chain, Spliced, NodeAt, Separate, Models;
      SeparateDistinct(kids);
      SeparateApart(kids);
      Displace(kids, i, c, item);
      forall m | 0 <= m < |kids| ensures kids[m].Valid() {
        assert kids[m] in kids;
        StillValid(kids[m]);
      }
      StillValid(item);
    }

    /** Puts an item in the place of the child at `i`. */
    method Substitute(ghost i: nat, c: Node, item: Node)
      requires Valid() && CanAdopt(item) && i < |kids| && c == kids[i]
      modifies `child, `kids, `repr, `model, kids`next, kids`prev, item`next, item`prev
      ensures Valid() && repr == old(repr) - c.repr + item.repr && c.Valid() && c.next == null && c.prev == null
      ensures kids == Spliced(old(kids), i, i + 1, [item]) && model == SplicedModel(old(model), i, i + 1, [item])
    {
      hide Chain, Values, Members, Spliced, SplicedModel, NodeAt, Separate, Models;
      ContainerModel(this);
      ghost var list := kids;
      ghost var after, nodes := Spliced(list, i, i + 1, [item]), repr - c.repr + item.repr;
      SplicedReplaced(list, i, item);
      SeparateApart(list);
      HoldsReplaced(this, i, item);
      Exchange(i, c, item);
      assert this !in c.repr;
      SealSpliced(list, model, i, i + 1, [item], after, nodes);
    }

    /** `cJSON_DetachItemFromArray`: past the end it does nothing and returns null. */
    method DetachItemFromArray(which: int) returns (c: Node?)
      requires Valid() && IsContainer()
      modifies `child, `kids, `repr, `model, kids`next, kids`prev
      ensures Valid() && c == NodeAt(old(kids), Index(which))
      ensures c == null ==> unchanged(this) && unchanged(kids)
      ensures c != null ==> c.Valid() && c.next == null && c.prev == null && repr == old(repr) - c.repr
      ensures c != null ==> kids == Spliced(old(kids), Index(which), Index(which) + 1, [])
      ensures c != null ==> model == SplicedModel(old(model), Index(which), Index(which) + 1, [])
    {
      hide Valid, Spliced, SplicedModel;
      c := GetArrayItem(which);
      if c != null { TakeOut(Index(which), c); }
    }

    /** `cJSON_ReplaceItemInArray`: past the end it does nothing. The old item is left unlinked. */
    method ReplaceItemInArray(which: int, newitem: Node)
      requires Valid() && CanAdopt(newitem)
      modifies `child, `kids, `repr, `model, kids`next, kids`prev, newitem`next, newitem`prev
      ensures Valid()
      ensures Index(which) >= |old(kids)| ==> unchanged(this) && unchanged(kids) && unchanged(newitem)
      ensures Index(which) < |old(kids)| ==>
        var i := Index(which);
        && repr == old(repr) - old(kids)[i].repr + newitem.repr
        && kids == Spliced(old(kids), i, i + 1, [newitem]) && model == SplicedModel(old(model), i, i + 1, [newitem])
        && old(kids)[i].Valid() && old(kids)[i].next == null && old(kids)[i].prev == null
    {
      hide Valid, Spliced, SplicedModel;
      var c := GetArrayItem(which);
      if c != null { Substitute(Index(which), c, newitem); }
    }

    // ---- the same by name ----

    /** `cJSON_GetObjectItem`: the first child whose name matches, ignoring case. */
    method GetObjectItem(key: Option<CString>) returns (c: Node?)
      requires Valid()
      ensures c == NodeAt(kids, FirstNamed(kids, key, 0))
    {
      ghost var i: nat;
      c, i := Find(key);
    }

    /** The search loop of the object operations, with the index it counts. */
    method Find(key: Option<CString>) returns (c: Node?, i: nat)
      requires Valid()
      ensures i == FirstNamed(kids, key, 0) && c == NodeAt(kids, i)
    {
      hide SameName, Separate, Models;
      c, i := child, 0;
      while c != null
        invariant i <= |kids| && c == NodeAt(kids, i)
        invariant FirstNamed(kids, key, i) == FirstNamed(kids, key, 0)
        decreases |kids| - i
      {
        var order := StrCaseCmp(c.name, key);
        if order == 0 { break; }
        i, c := i + 1, c.next;
      }
    }

    /** `cJSON_HasObjectItem`. */
    method HasObjectItem(key: Option<CString>) returns (found: bool)
      requires Valid()
      ensures found <==> exists i :: 0 <= i < |kids| && SameName(kids[i].name, key)
    {
      var c := GetObjectItem(key);
      found := c != null;
      FirstNamedIs(kids, key, 0);
    }

    /** `cJSON_AddItemToObject`. */
    method AddItemToObject(key: CString, item: Node?)
      requires Valid() && (item != null ==> CanAdopt(item))
      modifies `child, `kids, `repr, `model, kids`next
      modifies (if item == null then {} else {item})`prev, (if item == null then {} else {item})`name
      ensures Valid()
      ensures item == null ==> unchanged(this)
      ensures item != null ==> item.name == Some(key) && kids == old(kids) + [item] && repr == old(repr) + item.repr
      ensures item != null ==> model == SplicedModel(old(model), |old(kids)|, |old(kids)|, [item])
    {
      hide SplicedModel;
      if item != null {
        item.name := Some(key);
        AddItemToArray(item);
      }
    }

    /** `cJSON_DetachItemFromObject`. */
    method DetachItemFromObject(key: Option<CString>) returns (c: Node?)
      requires Valid() && IsContainer()
      modifies `child, `kids, `repr, `model, kids`next, kids`prev
      ensures Valid() && c == NodeAt(old(kids), old(FirstNamed(kids, key, 0)))
      ensures c == null ==> unchanged(this) && unchanged(kids)
      ensures c != null ==> c.Valid() && c.next == null && c.prev == null && repr == old(repr) - c.repr
      ensures c != null ==> var i := old(FirstNamed(kids, key, 0));
        kids == Spliced(old(kids), i, i + 1, []) && model == SplicedModel(old(model), i, i + 1, [])
    {
      hide Valid, Spliced, SplicedModel, FirstNamed;
      var i: nat;
      c, i := Find(key);
      if c != null { c := DetachItemFromArray(i); }
    }

    /** `cJSON_ReplaceItemInObject`. */
    method ReplaceItemInObject(key: CString, newitem: Node)
      requires Valid() && CanAdopt(newitem)
      modifies `child, `kids, `repr, `model, kids`next, kids`prev, newitem`next, newitem`prev, newitem`name
      ensures Valid()
      ensures var i := old(FirstNamed(kids, Some(key), 0));
        && (i >= |old(kids)| ==> unchanged(this) && unchanged(kids) && unchanged(newitem))
        && (i < |old(kids)| ==>
            && newitem.name == Some(key) && repr == old(repr) - old(kids)[i].repr + newitem.repr
            && kids == Spliced(old(kids), i, i + 1, [newitem])
            && model == SplicedModel(old(model), i, i + 1, [newitem])
            && old(kids)[i].Valid() && old(kids)[i].next == null && old(kids)[i].prev == null)
    {
      hide Valid, Spliced, SplicedModel, FirstNamed;
      var c, i := Find(Some(key));
      if c != null {
        newitem.name := Some(key);
        ReplaceItemInArray(i, newitem);
      }
    }
  }

  /** The index of the first child from `i` on with this name, or the number of children. */
  ghost function FirstNamed(kids: seq<Node>, key: Option<CString>, i: nat): (r: nat)
    requires i <= |kids|
    reads kids`name
    ensures i <= r <= |kids|
    decreases |kids| - i
  {
    if i == |kids| || SameName(kids[i].name, key) then i else FirstNamed(kids, key, i + 1)
  }

  lemma {:induction false} FirstNamedIs(kids: seq<Node>, key: Option<CString>, i: nat)
    requires i <= |kids|
    ensures var r := FirstNamed(kids, key, i);
      && (forall j | i <= j < r :: !SameName(kids[j].name, key))
      && (r < |kids| ==> SameName(kids[r].name, key))
    decreases |kids| - i
  {
    if i < |kids| && !SameName(kids[i].name, key) { FirstNamedIs(kids, key, i + 1); }
  }

  lemma NodeAtSpliced(list: seq<Node>, i: nat, j: nat, x: seq<Node>, k: int)
    requires i <= j <= |list|
    ensures |Spliced(list, i, j, x)| == |list| + |x| - (j - i)
    ensures k < i ==> NodeAt(Spliced(list, i, j, x), k) == NodeAt(list, k)
    ensures i <= k < i + |x| ==> NodeAt(Spliced(list, i, j, x), k) == x[k - i]
    ensures i + |x| <= k ==> NodeAt(Spliced(list, i, j, x), k) == NodeAt(list, k - |x| + (j - i))
  {
  }

  /** What the links of the child at `i` say about its neighbours. */
  lemma Neighbours(head: Node?, list: seq<Node>, i: nat)
    requires Chain(head, list) && Distinct(list) && i < |list|
    ensures list[i].next == NodeAt(list, i + 1) && list[i].prev == NodeAt(list, i - 1)
    ensures (list[i] == head <==> i == 0) && (NodeAt(list, i - 1) == null <==> i == 0)
    ensures head == list[0]
    ensures NodeAt(list, i) == list[i] && (i > 0 ==> NodeAt(list, i - 1) == list[i - 1])
    ensures NodeAt(list, i + 1) == if i + 1 < |list| then list[i + 1] else null
  {
  }

  /** Any other child is neither the child at `i` nor, unless it stands there, one of its neighbours. */
  lemma Elsewhere(list: seq<Node>, i: nat, k: nat)
    requires Distinct(list) && i < |list| && k < |list| && k != i
    ensures list[k] != list[i]
    ensures list[k] == NodeAt(list, i - 1) <==> k == i - 1
    ensures list[k] == NodeAt(list, i + 1) <==> k == i + 1
  {
  }

  /** Links redirected around the children from `i` up to `j`, with `x` (at most one node) in their place. */
  ghost predicate Around(head: Node?, list: seq<Node>, i: nat, j: nat, x: seq<Node>)
    requires i <= j <= |list|
    reads list`next, list`prev, x`next, x`prev
  {
    var onwards := if x == [] then NodeAt(list, j) else x[0];
    var back := if x == [] then NodeAt(list, i - 1) else x[0];
    && head == (if i > 0 then list[0] else onwards)
    && (forall k | 0 <= k < |list| && !(i <= k < j) ::
        && list[k].next == (if k == i - 1 then onwards else NodeAt(list, k + 1))
        && list[k].prev == (if k == j then back else NodeAt(list, k - 1)))
    && (x != [] ==> x[0].next == NodeAt(list, j) && x[0].prev == NodeAt(list, i - 1))
  }

  /** The node at `k` after the splice, seen from the links around it. */
  lemma LinkAround(head: Node?, list: seq<Node>, i: nat, j: nat, x: seq<Node>, k: nat)
    requires i <= j <= |list| && |x| <= 1 && Around(head, list, i, j, x) && k < |Spliced(list, i, j, x)|
    ensures Spliced(list, i, j, x)[k].next == NodeAt(Spliced(list, i, j, x), k + 1)
    ensures Spliced(list, i, j, x)[k].prev == NodeAt(Spliced(list, i, j, x), k - 1)
  {
    hide Spliced;
    NodeAtSpliced(list, i, j, x, k);
    NodeAtSpliced(list, i, j, x, k + 1);
    NodeAtSpliced(list, i, j, x, k - 1);
  }

  lemma ChainAround(head: Node?, list: seq<Node>, i: nat, j: nat, x: seq<Node>)
    requires i <= j <= |list| && |x| <= 1 && Around(head, list, i, j, x)
    ensures Chain(head, Spliced(list, i, j, x))
  {
    hide Spliced;
    var after := Spliced(list, i, j, x);
    NodeAtSpliced(list, i, j, x, 0);
    forall k | 0 <= k < |after| ensures after[k].next == NodeAt(after, k + 1) && after[k].prev == NodeAt(after, k - 1) {
      LinkAround(head, list, i, j, x, k);
    }
  }

  lemma SplicedElements(list: seq<Node>, i: nat, j: nat, x: seq<Node>)
    ensures forall k | k in Spliced(list, i, j, x) :: k in list || k in x
  {
  }

  lemma SplicedOthers(list: seq<Node>, i: nat)
    requires i < |list| && Separate(list) && forall k | k in list :: k in k.repr
    ensures forall k | k in Spliced(list, i, i + 1, []) :: k in list && k.repr !! list[i].repr
  {
  }

  lemma SplicedReplaced(list: seq<Node>, i: nat, item: Node)
    requires i < |list| && Separate(list) && forall k | k in list :: k in k.repr
    ensures forall k | k in Spliced(list, i, i + 1, [item]) :: k == item || (k in list && k.repr !! list[i].repr)
  {
  }

  lemma HoldsReplaced(parent: Node, i: nat, item: Node)
    requires parent.Holds(parent.kids, parent.repr) && Separate(parent.kids) && i < |parent.kids|
    requires item in item.repr && parent !in item.repr
    ensures parent.Holds(Spliced(parent.kids, i, i + 1, [item]), parent.repr - parent.kids[i].repr + item.repr)
  {
    SplicedReplaced(parent.kids, i, item);
  }

  lemma ContainerModel(item: Node)
    requires item.Valid() && item.IsContainer()
    ensures item.model == if item.kind == IsArray then Array(Values(item.kids)) else Object(Members(item.kids))
  {
    hide Chain, Separate, Node.Holds, Values, Members;
  }

  ghost predicate Distinct(list: seq<Node>) {
    forall i, j | 0 <= i < j < |list| :: list[i] != list[j]
  }

  lemma SeparateDistinct(list: seq<Node>)
    requires Separate(list) && forall k | k in list :: k in k.repr
    ensures Distinct(list)
  {
  }

  /** No list member lies in the tree under another one. */
  ghost predicate Apart(list: seq<Node>)
    reads list`repr
  {
    forall i, j | 0 <= i < |list| && 0 <= j < |list| && i != j :: list[j] !in list[i].repr
  }

  lemma SeparateApart(list: seq<Node>)
    requires Separate(list) && forall k | k in list :: k in k.repr
    ensures Apart(list)
  {
    forall i, j | 0 <= i < |list| && 0 <= j < |list| && i != j ensures list[j] !in list[i].repr {
      assert if i < j then list[i].repr !! list[j].repr else list[j].repr !! list[i].repr;
    }
  }

  /** A node keeps its tree when at most its own links and name have changed. */
  twostate predicate SameTree(k: Node)
    reads k, k.repr
  {
    && unchanged(k`kind) && unchanged(k`child) && unchanged(k`valueint) && unchanged(k`valuedouble)
    && unchanged(k`valuestring) && unchanged(k`kids) && unchanged(k`repr) && unchanged(k`model)
    && unchanged(old(k.repr) - {k})
  }

  twostate lemma StillValid(k: Node)
    requires old(k.Valid())
    requires SameTree(k)
    ensures k.Valid()
  {
    hide Node.Valid;
  }

  lemma SplicedEnd<T>(s: seq<T>, x: seq<T>)
    ensures Spliced(s, |s|, |s|, x) == s + x
  {
  }

  /** Appending a node appends its value. */
  lemma AppendedModel(m: Json, n: nat, x: Node)
    ensures m.Array? && n == |m.items| ==> SplicedModel(m, n, n, [x]) == Array(m.items + [x.model])
    ensures m.Object? && n == |m.members| ==> SplicedModel(m, n, n, [x]) == Object(m.members + [MemberOf(x)])
  {
    assert Values([x]) == [x.model] && Members([x]) == [MemberOf(x)];
    if m.Array? { SplicedEnd(m.items, [x.model]); }
    if m.Object? { SplicedEnd(m.members, [MemberOf(x)]); }
  }

  lemma SplicedSeparate(list: seq<Node>, i: nat, j: nat, x: seq<Node>)
    requires i <= j <= |list| && Separate(list) && |x| <= 1 && forall k | k in list && x != [] :: k.repr !! x[0].repr
    ensures Separate(Spliced(list, i, j, x))
  {
  }

  lemma SplicedValues(list: seq<Node>, i: nat, j: nat, x: seq<Node>)
    requires i <= j <= |list|
    ensures Values(Spliced(list, i, j, x)) == Spliced(Values(list), i, j, Values(x))
  {
    hide Values;
    var a, b := Values(Spliced(list, i, j, x)), Spliced(Values(list), i, j, Values(x));
    assert |a| == |b| && forall k | 0 <= k < |a| :: a[k] == b[k];
  }

  lemma SplicedMembers(list: seq<Node>, i: nat, j: nat, x: seq<Node>)
    requires i <= j <= |list|
    ensures Members(Spliced(list, i, j, x)) == Spliced(Members(list), i, j, Members(x))
  {
    hide MemberOf, Members;
  }

  function Index(which: int): nat {
    if which < 0 then 0 else which
  }

  /** The first child for 0 and every negative index, and otherwise the child with that many before it. */
  lemma IndexedChild(kids: seq<Node>, which: int)
    ensures which <= 0 && kids != [] ==> NodeAt(kids, Index(which)) == kids[0]
    ensures 0 <= which < |kids| ==> NodeAt(kids, Index(which)) == kids[which]
    ensures |kids| <= which || kids == [] ==> NodeAt(kids, Index(which)) == null
  {
  }
}
