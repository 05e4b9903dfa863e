/** `cJSON_Duplicate`: deep and shallow copies of a tree. */
module Copy {
  import opened Json
  import opened Tree

  /** A value whose container keeps only its first `n` entries. */
  ghost function Upto(m: Json, n: nat): Json {
    match m
    case Array(items) => if n <= |items| then Array(items[..n]) else m
    case Object(ms) => if n <= |ms| then Object(ms[..n]) else m
    case _ => m
  }

  lemma PrefixSpliced<T>(s: seq<T>, n: nat, x: seq<T>)
    requires n < |s| && |x| == 1 && x[0] == s[n]
    ensures Spliced(s[..n], n, n, x) == s[..n + 1]
  {
  }

  /** What the children say about the value of their container. */
  lemma EntryIs(item: Node, n: nat)
    requires item.Valid() && n < |item.kids|
    ensures item.model.Array? || item.model.Object?
    ensures item.model.Array? ==> n < |item.model.items| && item.model.items[n] == item.kids[n].model
    ensures item.model.Object? ==> n < |item.model.members| && item.model.members[n] == MemberOf(item.kids[n])
  {
    hide Chain, Separate, Node.Holds;
  }

  lemma UptoStep(item: Node, n: nat, copy: Node)
    requires item.Valid() && n < |item.kids| && MemberOf(copy) == MemberOf(item.kids[n])
    ensures SplicedModel(Upto(item.model, n), n, n, [copy]) == Upto(item.model, n + 1)
  {
    hide Node.Valid, Spliced;
    EntryIs(item, n);
    if item.model.Array? {
      PrefixSpliced(item.model.items, n, Values([copy]));
    } else {
      PrefixSpliced(item.model.members, n, Members([copy]));
    }
  }

  lemma UptoAll(item: Node)
    requires item.Valid()
    ensures Upto(item.model, |item.kids|) == item.model
  {
    hide Chain, Separate;
    if item.model.Array? {
      assert item.model.items[..|item.kids|] == item.model.items;
    } else if item.model.Object? {
      assert item.model.members[..|item.kids|] == item.model.members;
    }
  }

  /** `cJSON_New_Item` and the copying of the node's own fields. */
  method CopyFields(item: Node) returns (copy: Node)
    requires item.Valid()
    ensures copy.Valid() && fresh(copy) && copy.repr == {copy} && copy.kids == []
    ensures copy.next == null && copy.prev == null
    ensures copy.kind == item.kind && copy.valueint == item.valueint && copy.valuedouble == item.valuedouble
    ensures copy.valuestring == item.valuestring && copy.name == item.name
    ensures copy.model == Upto(item.model, 0)
  {
    copy := new Node();
    copy.kind, copy.valueint, copy.valuedouble := item.kind, item.valueint, item.valuedouble;
    copy.valuestring, copy.name := item.valuestring, item.name;
    copy.model := Upto(item.model, 0);
  }

  /** `cJSON_Duplicate`. Only fresh nodes are written, so the source stays as it is. */
  method Duplicate(item: Node?, recurse: bool) returns (copy: Node?)
    requires item != null ==> item.Valid()
    ensures copy == null <==> item == null
    ensures copy != null ==> copy.Valid() && copy in copy.repr && fresh(copy.repr)
    ensures copy != null ==> copy.next == null && copy.prev == null
    ensures copy != null ==> copy.name == item.name && copy.kind == item.kind && copy.valueint == item.valueint
    ensures copy != null ==> copy.valuedouble == item.valuedouble && copy.valuestring == item.valuestring
    ensures copy != null ==> copy.model == if recurse then item.model else Upto(item.model, 0)
    decreases if item == null then {} else item.repr
  {
    copy := null;
    if item != null {
      var root := CopyFields(item);
      if recurse { CopyChildren(item, root); }
      copy := root;
    }
  }

  lemma HeadIsFirst(item: Node)
    requires item.Valid()
    ensures item.child == NodeAt(item.kids, 0)
  {
  }

  lemma ChildFacts(item: Node, i: nat)
    requires item.Valid() && i < |item.kids|
    ensures item.kids[i].Valid() && item.kids[i].next == NodeAt(item.kids, i + 1)
    ensures item in item.repr && item.kids[i].repr < item.repr && item.IsContainer()
  {
    hide Separate, Values, Members;
    var k := item.kids[i];
    assert k in item.kids && item in item.repr && item !in k.repr;
  }

  /** The loop over the children: each copy is hooked in behind the one before. */
  method CopyChildren(item: Node, root: Node)
    requires item.Valid() && root.Valid() && root.kind == item.kind && root.kids == []
    requires root.repr == {root} && root !in item.repr && root != item && root.model == Upto(item.model, 0)
    modifies root`child, root`kids, root`repr, root`model
    ensures root.Valid() && root in root.repr && fresh(root.repr - {root}) && root.model == item.model
    decreases item.repr, 0
  {
    hide Node.Valid, Upto, SplicedModel;
    var cptr := item.child;
    var nptr: Node? := null;
    ghost var i := 0;
    assert cptr == NodeAt(item.kids, 0) by { HeadIsFirst(item); }
    while cptr != null
      invariant i <= |item.kids| && cptr == NodeAt(item.kids, i) && item.Valid()
      invariant root.Valid() && fresh(root.repr - {root}) && root in root.repr
      invariant |root.kids| == i && nptr == NodeAt(root.kids, i - 1)
      invariant forall j | 0 <= j < |root.kids| :: fresh(root.kids[j])
      invariant root.model == Upto(item.model, i)
      decreases |item.kids| - i
    {
      ChildFacts(item, i);
      var newchild := Duplicate(cptr, true);
      UptoStep(item, i, newchild);
      root.Append(nptr, newchild);
      nptr, cptr := newchild, cptr.next;
      i := i + 1;
    }
    UptoAll(item);
  }
}
