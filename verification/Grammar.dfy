/** The language of the parser as a relation: which values a stretch of text denotes.
    The recursive descent functions compute exactly this relation. */
module Grammar {
  import opened CText
  import opened Json
  import opened Literals
  import opened LiteralGrammar
  import opened Parser
  import opened NumberGrammar

  /** A literal whose units mean this string. */
  ghost predicate StringAt(s: bytes, t: CString, i: nat, e: nat) {
    i < e <= |t| && exists us :: LiteralAt(us, t, i, e) && Meant(us) == s
  }

  lemma StringIff(s: bytes, t: CString, i: nat, e: nat)
    ensures StringAt(s, t, i, e) <==> i < |t| && ParseString(t, i) == Ok(s, e)
    ensures StringAt(s, t, i, e) ==> i < e <= |t| && t[i] == QUOTE
  {
    hide Meant;
    if i < |t| { LiteralIff(t, i, s, e); }
  }

  /** The longest numeral at `i`, which means this number. */
  ghost predicate NumberAt(r: real, t: CString, i: nat, e: nat) {
    i < e <= |t| && exists n :: NumeralAt(n, t, i, e) && NumeralValue(n) == r
  }

  lemma NumeralIff(r: real, t: CString, i: nat, e: nat)
    ensures NumberAt(r, t, i, e)
      <==> i < |t| && (t[i] == MINUS || IsDigit(t[i])) && ParseNumber(t, i) == (r, e)
    ensures NumberAt(r, t, i, e) ==> i < e <= |t|
  {
    hide NumeralValue, NumeralAt;
    if i < |t| { NumberIff(r, t, i, e); }
  }

  ghost predicate WordAt(w: bytes, t: CString, i: nat, e: nat) {
    At(t, i, w) && e == i + |w|
  }

  /** The text from `i` to `e` denotes `v`. */
  ghost predicate ValueAt(v: Json, t: CString, i: nat, e: nat)
    ensures ValueAt(v, t, i, e) ==> i < e <= |t|
    decreases v, 0
  {
    match v
    case Null => WordAt(NULL_TEXT, t, i, e)
    case False => WordAt(FALSE_TEXT, t, i, e)
    case True => WordAt(TRUE_TEXT, t, i, e)
    case Number(r) => NumberAt(r, t, i, e)
    case String(s) => StringAt(s, t, i, e)
    case Array(items) =>
      && i < |t| && t[i] == OPEN_BRACKET
      && var j := Skip(t, i + 1);
         if items == [] then C(t, j) == CLOSE_BRACKET && e == j + 1 else ItemsAt(items, t, j, e)
    case Object(ms) =>
      && i < |t| && t[i] == OPEN_BRACE
      && var j := Skip(t, i + 1);
         if ms == [] then C(t, j) == CLOSE_BRACE && e == j + 1 else MembersAt(ms, t, j, e)
  }

  /** Items and their separators, up to and including the closing bracket. */
  ghost predicate ItemsAt(items: seq<Json>, t: CString, i: nat, e: nat)
    requires i <= |t| && items != []
    ensures ItemsAt(items, t, i, e) ==> i < e <= |t|
    decreases items, 2
  {
    exists j: nat :: ValueAt(items[0], t, Skip(t, i), j) && ItemsRest(items[1..], t, Skip(t, j), e)
  }

  ghost predicate ItemsRest(items: seq<Json>, t: CString, i: nat, e: nat)
    requires i <= |t|
    ensures ItemsRest(items, t, i, e) ==> i < e <= |t|
    decreases items, 3
  {
    if items == [] then C(t, i) == CLOSE_BRACKET && e == i + 1
    else C(t, i) == COMMA && ItemsAt(items, t, i + 1, e)
  }

  /** A name, a colon and a value. */
  ghost predicate MemberAt(m: Member, t: CString, i: nat, e: nat)
    requires i <= |t|
    ensures MemberAt(m, t, i, e) ==> i < e <= |t|
    decreases m, 1
  {
    exists c: nat :: StringAt(m.name, t, Skip(t, i), c) && NamedAt(m.value, t, Skip(t, c), e)
  }

  ghost predicate NamedAt(v: Json, t: CString, i: nat, e: nat)
    requires i <= |t|
    ensures NamedAt(v, t, i, e) ==> i < e <= |t|
    decreases v, 1
  {
    C(t, i) == COLON && ValueAt(v, t, Skip(t, i + 1), e)
  }

  /** Members and their separators, up to and including the closing brace. */
  ghost predicate MembersAt(ms: seq<Member>, t: CString, i: nat, e: nat)
    requires i <= |t| && ms != []
    ensures MembersAt(ms, t, i, e) ==> i < e <= |t|
    decreases ms, 2
  {
    exists j: nat :: MemberAt(ms[0], t, i, j) && MembersRest(ms[1..], t, Skip(t, j), e)
  }

  ghost predicate MembersRest(ms: seq<Member>, t: CString, i: nat, e: nat)
    requires i <= |t|
    ensures MembersRest(ms, t, i, e) ==> i < e <= |t|
    decreases ms, 3
  {
    if ms == [] then C(t, i) == CLOSE_BRACE && e == i + 1
    else C(t, i) == COMMA && MembersAt(ms, t, i + 1, e)
  }

  // ---- what the first character of a value decides ----

  lemma FirstOfWord(w: bytes, t: CString, i: nat)
    requires w != [] && At(t, i, w)
    ensures i < |t| && t[i] == w[0]
  {
    AtIndex(t, i, w, 0);
  }

  /** A text starts with at most one of the three words, and only when its first character is that of the word. */
  lemma Words(t: CString, i: nat)
    requires i < |t|
    ensures At(t, i, NULL_TEXT) ==> t[i] == LOWER_N
    ensures At(t, i, FALSE_TEXT) ==> t[i] == LOWER_F
    ensures At(t, i, TRUE_TEXT) ==> t[i] == LOWER_T
  {
    if At(t, i, NULL_TEXT) { FirstOfWord(NULL_TEXT, t, i); }
    if At(t, i, FALSE_TEXT) { FirstOfWord(FALSE_TEXT, t, i); }
    if At(t, i, TRUE_TEXT) { FirstOfWord(TRUE_TEXT, t, i); }
  }

  lemma FirstOfValue(v: Json, t: CString, i: nat, e: nat)
    requires ValueAt(v, t, i, e)
    ensures !IsBlank(t[i]) && t[i] != CLOSE_BRACKET
  {
    Words(t, i);
  }

  // ---- the parser finds every derivation ----

  lemma {:induction false} CompleteValue(v: Json, t: CString, i: nat, e: nat)
    requires ValueAt(v, t, i, e)
    ensures ParseValue(t, i) == Ok(v, e)
    decreases v, 0
  {
    hide StringAt, NumberAt;
    Words(t, i);
    match v
    case Number(r) => NumeralIff(r, t, i, e);
    case String(s) => StringIff(s, t, i, e);
    case Array(items) =>
      if items != [] { CompleteItems(items, t, Skip(t, i + 1), e); }
    case Object(ms) =>
      if ms != [] { CompleteMembers(ms, t, Skip(t, i + 1), e); }
    case _ =>
  }

  lemma ItemsStep(t: CString, i: nat, v: Json, j: nat, rest: seq<Json>, e: nat)
    requires i <= |t| && ParseValue(t, Skip(t, i)) == Ok(v, j) && j <= |t|
    requires var k := Skip(t, j);
      if rest == [] then C(t, k) == CLOSE_BRACKET && e == k + 1
      else C(t, k) == COMMA && ParseItems(t, k + 1) == Ok(rest, e)
    ensures ParseItems(t, i) == Ok([v] + rest, e)
  {
    assert rest == [] ==> [v] + rest == [v];
  }

  lemma LastMemberStep(t: CString, i: nat, m: Member, k: nat)
    requires i <= |t| && ParseMember(t, i) == Ok(m, k) && k <= |t| && C(t, k) == CLOSE_BRACE
    ensures ParseMembers(t, i) == Ok([m], k + 1)
  {
  }

  lemma NextMemberStep(t: CString, i: nat, m: Member, k: nat, rest: seq<Member>, e: nat)
    requires i <= |t| && ParseMember(t, i) == Ok(m, k) && k <= |t| && C(t, k) == COMMA
    requires ParseMembers(t, k + 1) == Ok(rest, e)
    ensures ParseMembers(t, i) == Ok([m] + rest, e)
  {
  }

  lemma MembersStep(t: CString, i: nat, m: Member, k: nat, rest: seq<Member>, e: nat)
    requires i <= |t| && ParseMember(t, i) == Ok(m, k) && k <= |t|
    requires
      if rest == [] then C(t, k) == CLOSE_BRACE && e == k + 1
      else C(t, k) == COMMA && ParseMembers(t, k + 1) == Ok(rest, e)
    ensures ParseMembers(t, i) == Ok([m] + rest, e)
  {
    if rest == [] {
      LastMemberStep(t, i, m, k);
      assert [m] + rest == [m];
    } else {
      NextMemberStep(t, i, m, k, rest, e);
    }
  }

  lemma {:induction false} CompleteItems(items: seq<Json>, t: CString, i: nat, e: nat)
    requires i <= |t| && items != [] && ItemsAt(items, t, i, e)
    ensures ParseItems(t, i) == Ok(items, e)
    ensures C(t, Skip(t, i)) != CLOSE_BRACKET
    decreases items, 2
  {
    var j: nat :| ValueAt(items[0], t, Skip(t, i), j) && ItemsRest(items[1..], t, Skip(t, j), e);
    FirstOfValue(items[0], t, Skip(t, i), j);
    CompleteValue(items[0], t, Skip(t, i), j);
    assert items == [items[0]] + items[1..];
    if |items| > 1 { CompleteItems(items[1..], t, Skip(t, j) + 1, e); }
    ItemsStep(t, i, items[0], j, items[1..], e);
  }

  lemma {:induction false} CompleteMember(m: Member, t: CString, i: nat, e: nat)
    requires i <= |t| && MemberAt(m, t, i, e)
    ensures ParseMember(t, i) == Ok(m, Skip(t, e))
    ensures C(t, Skip(t, i)) == QUOTE
    decreases m, 1
  {
    hide ParseValue, ParseString, StringAt;
    var c: nat :| StringAt(m.name, t, Skip(t, i), c) && NamedAt(m.value, t, Skip(t, c), e);
    StringIff(m.name, t, Skip(t, i), c);
    CompleteValue(m.value, t, Skip(t, Skip(t, c) + 1), e);
  }

  lemma {:induction false} CompleteMembers(ms: seq<Member>, t: CString, i: nat, e: nat)
    requires i <= |t| && ms != [] && MembersAt(ms, t, i, e)
    ensures ParseMembers(t, i) == Ok(ms, e)
    ensures C(t, Skip(t, i)) == QUOTE
    decreases ms, 2
  {
    hide ParseValue, ParseString, ParseMember, ParseMembers, MemberAt;
    var j: nat :| MemberAt(ms[0], t, i, j) && MembersRest(ms[1..], t, Skip(t, j), e);
    CompleteMember(ms[0], t, i, j);
    assert ms == [ms[0]] + ms[1..];
    if |ms| > 1 { CompleteMembers(ms[1..], t, Skip(t, j) + 1, e); }
    MembersStep(t, i, ms[0], Skip(t, j), ms[1..], e);
  }

  // ---- and only derivations ----

  lemma {:induction false} SoundValue(t: CString, i: nat, v: Json, e: nat)
    requires i <= |t| && ParseValue(t, i) == Ok(v, e)
    ensures ValueAt(v, t, i, e)
    decreases |t| - i, 1
  {
    hide StringAt, NumberAt;
    if v.Number? {
      NumeralIff(v.value, t, i, e);
    } else if v.String? {
      StringIff(v.text, t, i, e);
    } else if v.Array? && v.items != [] {
      SoundItems(t, Skip(t, i + 1), v.items, e);
    } else if v.Object? && v.members != [] {
      SoundMembers(t, Skip(t, i + 1), v.members, e);
    }
  }

  lemma {:induction false} SoundItems(t: CString, i: nat, items: seq<Json>, e: nat)
    requires i <= |t| && ParseItems(t, i) == Ok(items, e)
    ensures items != [] && ItemsAt(items, t, i, e)
    decreases |t| - i, 2
  {
    hide ParseValue, ParseString;
    var v := ParseValue(t, Skip(t, i));
    SoundValue(t, Skip(t, i), v.value, v.end);
    var j := Skip(t, v.end);
    if C(t, j) == COMMA {
      SoundItems(t, j + 1, ParseItems(t, j + 1).value, e);
      assert items[1..] == ParseItems(t, j + 1).value;
    }
    assert ValueAt(items[0], t, Skip(t, i), v.end) && ItemsRest(items[1..], t, Skip(t, v.end), e);
  }

  lemma {:induction false} SoundMember(t: CString, i: nat, m: Member, e: nat)
    requires i <= |t| && ParseMember(t, i) == Ok(m, e)
    ensures exists j: nat :: MemberAt(m, t, i, j) && Skip(t, j) == e
    decreases |t| - i, 2
  {
    hide StringAt;
    var n := ParseString(t, Skip(t, i));
    var j := Skip(t, n.end);
    var v := ParseValue(t, Skip(t, j + 1));
    StringIff(m.name, t, Skip(t, i), n.end);
    SoundValue(t, Skip(t, j + 1), v.value, v.end);
    assert StringAt(m.name, t, Skip(t, i), n.end) && NamedAt(m.value, t, j, v.end);
    assert MemberAt(m, t, i, v.end);
  }

  lemma {:induction false} SoundMembers(t: CString, i: nat, ms: seq<Member>, e: nat)
    requires i <= |t| && ParseMembers(t, i) == Ok(ms, e)
    ensures ms != [] && MembersAt(ms, t, i, e)
    decreases |t| - i, 3
  {
    hide ParseValue, ParseString, ParseMember, MemberAt;
    var m := ParseMember(t, i);
    SoundMember(t, i, m.value, m.end);
    var j: nat :| MemberAt(m.value, t, i, j) && Skip(t, j) == m.end;
    if C(t, m.end) == COMMA {
      SoundMembers(t, m.end + 1, ParseMembers(t, m.end + 1).value, e);
      assert ms[1..] == ParseMembers(t, m.end + 1).value;
    }
    assert MemberAt(ms[0], t, i, j) && MembersRest(ms[1..], t, Skip(t, j), e);
  }

  /** The parser succeeds with a value exactly when the text denotes it. */
  lemma ParseIffDenotes(t: CString, i: nat, v: Json, e: nat)
    requires i <= |t|
    ensures ParseValue(t, i) == Ok(v, e) <==> ValueAt(v, t, i, e)
  {
    if ParseValue(t, i) == Ok(v, e) { SoundValue(t, i, v, e); }
    if ValueAt(v, t, i, e) { CompleteValue(v, t, i, e); }
  }
}
