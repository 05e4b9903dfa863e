/** Which accepted texts `cJSON_Minify` handles without stepping over the terminator. */
module MinifySafety {
  import opened CText
  import opened Json
  import opened Literals
  import opened Parser
  import opened Grammar
  import opened Minify
  import opened Locality
  import opened MinifyMeaning

  /** Minifying from `i` steps over the terminator exactly when minifying from `e` does. */
  ghost predicate Alike(t: CString, i: nat, e: nat) {
    i <= |t| && e <= |t| && (Minified(t, i).None? <==> Minified(t, e).None?)
  }

  lemma {:induction false} BlanksAlike(t: CString, i: nat)
    requires i <= |t|
    ensures Alike(t, i, Skip(t, i))
    decreases |t| - i
  {
    if IsBlank(C(t, i)) { BlanksAlike(t, i + 1); }
  }

  lemma {:induction false} TokenAlike(t: CString, i: nat, e: nat)
    requires TokenBytes(t, i, e)
    ensures Alike(t, i, e)
    decreases e - i
  {
    if i < e { TokenAlike(t, i + 1, e); }
  }

  lemma MarkAlike(t: CString, i: nat)
    requires i <= |t| && C(t, i) in {COMMA, COLON, OPEN_BRACKET, CLOSE_BRACKET, OPEN_BRACE, CLOSE_BRACE}
    ensures Alike(t, i, i + 1)
  {
  }

  lemma WordAlike(w: bytes, t: CString, i: nat, e: nat)
    requires WordAt(w, t, i, e) && forall k | 0 <= k < |w| :: IsTokenByte(w[k])
    ensures Alike(t, i, e)
  {
    forall k | i <= k < e ensures IsTokenByte(t[k]) { AtIndex(t, i, w, k - i); }
    TokenAlike(t, i, e);
  }

  lemma StringAlike(s: bytes, t: CString, i: nat, e: nat)
    requires StringAt(s, t, i, e) && e < |t|
    ensures Alike(t, i, e)
  {
    hide StringAt;
    StringIff(s, t, i, e);
    var f := ScanEnd(t, i + 1);
    PassesAgree(t, i + 1, f);
    assert e == f + 1;
  }

  /** A value with something after it keeps the answer: only a literal cut off by the terminator does not. */
  lemma {:induction false} ValueAlike(v: Json, t: CString, i: nat, e: nat)
    requires ValueAt(v, t, i, e) && (v.String? ==> e < |t|)
    ensures Alike(t, i, e)
    decreases v, 0
  {
    hide Minified;
    match v
    case Null => WordAlike(NULL_TEXT, t, i, e);
    case False => WordAlike(FALSE_TEXT, t, i, e);
    case True => WordAlike(TRUE_TEXT, t, i, e);
    case Number(r) => NumberIsToken(r, t, i, e); TokenAlike(t, i, e);
    case String(s) => StringAlike(s, t, i, e);
    case Array(items) =>
      MarkAlike(t, i);
      BlanksAlike(t, i + 1);
      if items == [] { MarkAlike(t, Skip(t, i + 1)); } else { ItemsAlike(items, t, Skip(t, i + 1), e); }
    case Object(ms) =>
      MarkAlike(t, i);
      BlanksAlike(t, i + 1);
      if ms == [] { MarkAlike(t, Skip(t, i + 1)); } else { MembersAlike(ms, t, Skip(t, i + 1), e); }
  }

  lemma {:induction false} ItemsAlike(items: seq<Json>, t: CString, i: nat, e: nat)
    requires i <= |t| && items != [] && ItemsAt(items, t, i, e)
    ensures Alike(t, i, e)
    decreases items, 2
  {
    hide Minified;
    var j: nat :| ValueAt(items[0], t, Skip(t, i), j) && ItemsRest(items[1..], t, Skip(t, j), e);
    BlanksAlike(t, i);
    ValueAlike(items[0], t, Skip(t, i), j);
    BlanksAlike(t, j);
    MarkAlike(t, Skip(t, j));
    if |items| > 1 { ItemsAlike(items[1..], t, Skip(t, j) + 1, e); }
  }

  lemma {:induction false} MemberAlike(m: Member, t: CString, i: nat, e: nat)
    requires i <= |t| && MemberAt(m, t, i, e) && e < |t|
    ensures Alike(t, i, e)
    decreases m, 1
  {
    hide Minified, StringAt, NumberAt;
    var c: nat :| StringAt(m.name, t, Skip(t, i), c) && NamedAt(m.value, t, Skip(t, c), e);
    BlanksAlike(t, i);
    StringAlike(m.name, t, Skip(t, i), c);
    BlanksAlike(t, c);
    MarkAlike(t, Skip(t, c));
    BlanksAlike(t, Skip(t, c) + 1);
    ValueAlike(m.value, t, Skip(t, Skip(t, c) + 1), e);
  }

  lemma {:induction false} MembersAlike(ms: seq<Member>, t: CString, i: nat, e: nat)
    requires i <= |t| && ms != [] && MembersAt(ms, t, i, e)
    ensures Alike(t, i, e)
    decreases ms, 2
  {
    hide Minified, StringAt, NumberAt;
    var j: nat :| MemberAt(ms[0], t, i, j) && MembersRest(ms[1..], t, Skip(t, j), e);
    MemberAlike(ms[0], t, i, j);
    BlanksAlike(t, j);
    MarkAlike(t, Skip(t, j));
    if |ms| > 1 { MembersAlike(ms[1..], t, Skip(t, j) + 1, e); }
  }

  lemma ClosedMinified(t: CString, i: nat, e: nat)
    requires i < |t| && t[i] == QUOTE && ScanEnd(t, i + 1) == e && e < |t|
    ensures Minified(t, i).None? <==> Minified(t, e + 1).None?
  {
  }

  lemma BareString(t: CString, i: nat)
    requires i < |t| && t[i] == QUOTE && ParseString(t, i).Ok?
    requires Skip(t, ParseString(t, i).end) == |t|
    ensures Minified(t, i).None? <==> ScanEnd(t, i + 1) == |t|
  {
    hide Skip, Decode, IsGap;
    var e := ScanEnd(t, i + 1);
    if e < |t| {
      ClosedLiteral(t, i, e);
      BlanksAlike(t, e + 1);
      ClosedMinified(t, i, e);
    }
  }

  lemma NotBareString(t: CString, i: nat, v: Json, e: nat)
    requires i <= |t| && C(t, i) != QUOTE && ValueAt(v, t, i, e) && Skip(t, e) == |t|
    ensures Minified(t, i).Some?
  {
    ValueAlike(v, t, i, e);
    BlanksAlike(t, e);
  }

  lemma Accepted(t: CString, i: nat, r: Parsed<Json>)
    requires Parse(t, true).Ok? && i == Skip(t, 0) && r == ParseValue(t, i)
    ensures r.Ok? && Skip(t, r.end) == |t|
    ensures C(t, i) == QUOTE ==> ParseString(t, i).Ok? && r.end == ParseString(t, i).end
  {
    if C(t, i) == QUOTE { Words(t, i); }
  }

  /** On accepted text, minifying steps over the terminator exactly when the value is a string
      whose closing quote is missing. */
  lemma MinifyOverrunIff(t: CString)
    requires Parse(t, true).Ok?
    ensures Minified(t, 0).None? <==> C(t, Skip(t, 0)) == QUOTE && ScanEnd(t, Skip(t, 0) + 1) == |t|
  {
    hide Minified, Parse, ParseValue, ValueAt, Skip, ParseString;
    var i := Skip(t, 0);
    var r := ParseValue(t, i);
    Accepted(t, i, r);
    assert Alike(t, 0, i) by { BlanksAlike(t, 0); }
    if C(t, i) == QUOTE {
      BareString(t, i);
    } else {
      assert ValueAt(r.value, t, i, r.end) by { SoundValue(t, i, r.value, r.end); }
      NotBareString(t, i, r.value, r.end);
    }
  }

  /** A lone quote is accepted as the empty string, and minifying it steps over the terminator. */
  lemma LoneQuote()
    ensures Parse([QUOTE], true) == Ok(String([]), 1)
    ensures Minified([QUOTE], 0).None?
  {
    var t: CString := [QUOTE];
    Words(t, 0);
    assert ScanEnd(t, 1) == 1;
    MinifyOverrunIff(t);
  }
}
