/** Minifying keeps the meaning of every text that the parser accepts. */
module MinifyMeaning {
  import opened CText
  import opened Json
  import opened Literals
  import opened Parser
  import opened Grammar
  import opened Minify
  import opened Locality
  import opened Wrappers

  // ---- tokens ----

  /** The characters of words and numbers: all of them are copied. */
  predicate IsTokenByte(c: byte) {
    !IsGap(c) && c != SLASH && c != QUOTE
  }

  ghost predicate TokenBytes(t: CString, i: nat, e: nat) {
    i <= e <= |t| && forall k | i <= k < e :: IsTokenByte(t[k])
  }

  lemma {:induction false} DigitsAreToken(t: CString, i: nat)
    requires i <= |t|
    ensures TokenBytes(t, i, DigitsEnd(t, i))
    decreases |t| - i
  {
    if IsDigit(C(t, i)) { DigitsAreToken(t, i + 1); }
  }

  lemma MantissaIsToken(t: CString, i: nat)
    requires i <= |t|
    ensures TokenBytes(t, i, ParseMantissa(t, i).end)
  {
    var p1 := if C(t, i) == ZERO then i + 1 else i;
    DigitsAreToken(t, p1);
    var p2 := WholeEnd(t, p1);
    if C(t, p2) == DOT { DigitsAreToken(t, p2 + 1); }
  }

  lemma ExponentIsToken(t: CString, i: nat)
    requires i <= |t|
    ensures TokenBytes(t, i, ParseExponent(t, i).1)
  {
    if C(t, i) == LOWER_E || C(t, i) == UPPER_E {
      DigitsAreToken(t, if C(t, i + 1) == MINUS || C(t, i + 1) == PLUS then i + 2 else i + 1);
    }
  }

  lemma NumberIsToken(r: real, t: CString, i: nat, e: nat)
    requires NumberAt(r, t, i, e)
    ensures TokenBytes(t, i, e)
  {
    hide NumberAt;
    NumeralIff(r, t, i, e);
    var s := if C(t, i) == MINUS then i + 1 else i;
    MantissaIsToken(t, s);
    ExponentIsToken(t, ParseMantissa(t, s).end);
  }

  lemma AlignedToken(t: CString, i: nat, e: nat, m: CString, q: nat)
    requires TokenBytes(t, i, e) && Aligned(t, i, m, q)
    ensures Same(t, i, m, q, e - i) && Aligned(t, e, m, q + (e - i))
  {
    AlignedRun(t, i, e, m, q);
  }

  /** The characters that come next after a value and any blanks. */
  predicate Follows(c: byte) {
    c == 0 || c == COMMA || c == CLOSE_BRACKET || c == CLOSE_BRACE
  }

  lemma FollowedCloses(t: CString, i: nat)
    requires i <= |t| && Follows(C(t, Skip(t, i)))
    ensures Closes(C(t, i))
  {
  }

  lemma KeptNumber(r: real, t: CString, i: nat, e: nat, m: CString, q: nat)
    requires NumberAt(r, t, i, e) && Aligned(t, i, m, q) && Follows(C(t, Skip(t, e)))
    ensures NumberAt(r, m, q, q + (e - i)) && Aligned(t, e, m, q + (e - i))
  {
    hide Minified, NumberAt, ParseNumber;
    var n, f := e - i, q + (e - i);
    NumeralIff(r, t, i, e);
    assert SameNumber(t, i, m, q, n) && Aligned(t, e, m, f) by {
      NumberIsToken(r, t, i, e);
      AlignedToken(t, i, e, m, q);
      AlignedSkip(t, e, m, f);
      FollowedCloses(t, e);
      FollowedCloses(m, f);
    }
    NumberLocal(t, i, m, q, n);
    NumeralIff(r, m, q, q + (e - i));
  }

  lemma KeptWord(w: bytes, t: CString, i: nat, e: nat, m: CString, q: nat)
    requires WordAt(w, t, i, e) && (forall k | 0 <= k < |w| :: IsTokenByte(w[k])) && Aligned(t, i, m, q)
    ensures WordAt(w, m, q, q + (e - i)) && Aligned(t, e, m, q + (e - i))
  {
    forall k | i <= k < e ensures IsTokenByte(t[k]) { AtIndex(t, i, w, k - i); }
    AlignedToken(t, i, e, m, q);
    forall j | 0 <= j < |w| ensures m[q + j] == w[j] {
      AtIndex(t, i, w, j);
      SameChar(t, i, m, q, e - i, j);
    }
    MatchesIndex(m, q, w, 0);
  }

  lemma KeptString(s: bytes, t: CString, i: nat, e: nat, m: CString, q: nat)
    requires StringAt(s, t, i, e) && Aligned(t, i, m, q)
    ensures StringAt(s, m, q, q + (e - i)) && Aligned(t, e, m, q + (e - i))
  {
    hide Minified, StringAt, NumberAt;
    StringIff(s, t, i, e);
    var n := ScanEnd(t, i + 1) - i;
    assert Same(t, i, m, q, n + 1) && i + n < |t| && Aligned(t, i + n + 1, m, q + n + 1) by {
      AlignedLiteral(t, i, i + n, m, q);
    }
    LiteralLocal(t, i, m, q, n);
    ClosedLiteralsAgree(t, i, i + n, m, q, q + n);
    StringIff(s, m, q, q + (e - i));
  }

  // ---- values ----

  /** A mark that the parser looks for after blanks. */
  lemma KeptMark(t: CString, i: nat, m: CString, q: nat)
    requires i <= |t| && Aligned(t, i, m, q)
    requires C(t, Skip(t, i)) in {COMMA, COLON, CLOSE_BRACKET, CLOSE_BRACE}
    ensures q <= |m| && C(m, Skip(m, q)) == C(t, Skip(t, i))
    ensures Aligned(t, Skip(t, i) + 1, m, Skip(m, q) + 1)
  {
    AlignedSkip(t, i, m, q);
    AlignedChar(t, Skip(t, i), m, Skip(m, q));
  }

  lemma NoSlash(v: Json, t: CString, i: nat, e: nat)
    requires ValueAt(v, t, i, e)
    ensures t[i] != SLASH
  {
    Words(t, i);
  }

  lemma {:induction false} KeptValue(v: Json, t: CString, i: nat, e: nat, m: CString, q: nat) returns (f: nat)
    requires ValueAt(v, t, i, e) && Aligned(t, i, m, q) && Follows(C(t, Skip(t, e)))
    ensures ValueAt(v, m, q, f) && Aligned(t, e, m, f)
    decreases v, 0
  {
    hide Minified, StringAt, NumberAt;
    match v
    case Null => KeptWord(NULL_TEXT, t, i, e, m, q); f := q + (e - i);
    case False => KeptWord(FALSE_TEXT, t, i, e, m, q); f := q + (e - i);
    case True => KeptWord(TRUE_TEXT, t, i, e, m, q); f := q + (e - i);
    case Number(r) => KeptNumber(r, t, i, e, m, q); f := q + (e - i);
    case String(s) => KeptString(s, t, i, e, m, q); f := q + (e - i);
    case Array(items) => f := KeptArray(items, t, i, e, m, q);
    case Object(ms) => f := KeptObject(ms, t, i, e, m, q);
  }

  lemma {:induction false} KeptArray(items: seq<Json>, t: CString, i: nat, e: nat, m: CString, q: nat) returns (f: nat)
    requires ValueAt(Array(items), t, i, e) && Aligned(t, i, m, q)
    ensures ValueAt(Array(items), m, q, f) && Aligned(t, e, m, f)
    decreases items, 4
  {
    hide Minified;
    AlignedChar(t, i, m, q);
    if items == [] {
      KeptMark(t, i + 1, m, q + 1);
      f := Skip(m, q + 1) + 1;
    } else {
      var j := Skip(t, i + 1);
      FirstOfItems(items, t, j, e);
      AlignedSkip(t, i + 1, m, q + 1);
      f := KeptItems(items, t, j, e, m, Skip(m, q + 1));
    }
  }

  lemma FirstOfItems(items: seq<Json>, t: CString, i: nat, e: nat)
    requires i <= |t| && items != [] && ItemsAt(items, t, i, e)
    ensures C(t, Skip(t, i)) != SLASH
  {
    var j: nat :| ValueAt(items[0], t, Skip(t, i), j) && ItemsRest(items[1..], t, Skip(t, j), e);
    NoSlash(items[0], t, Skip(t, i), j);
  }

  lemma FirstOfMembers(ms: seq<Member>, t: CString, i: nat, e: nat)
    requires i <= |t| && ms != [] && MembersAt(ms, t, i, e)
    ensures C(t, Skip(t, i)) == QUOTE
  {
    var j: nat :| MemberAt(ms[0], t, i, j) && MembersRest(ms[1..], t, Skip(t, j), e);
  }

  lemma {:induction false} KeptItems(items: seq<Json>, t: CString, i: nat, e: nat, m: CString, q: nat) returns (f: nat)
    requires i <= |t| && items != [] && ItemsAt(items, t, i, e) && Aligned(t, i, m, q)
    ensures q <= |m| && ItemsAt(items, m, q, f) && Aligned(t, e, m, f)
    decreases items, 2
  {
    hide Minified;
    FirstOfItems(items, t, i, e);
    var j: nat :| ValueAt(items[0], t, Skip(t, i), j) && ItemsRest(items[1..], t, Skip(t, j), e);
    AlignedSkip(t, i, m, q);
    var g := KeptValue(items[0], t, Skip(t, i), j, m, Skip(m, q));
    KeptMark(t, j, m, g);
    f := KeptItemsRest(items[1..], t, Skip(t, j), e, m, Skip(m, g));
  }

  lemma {:induction false} KeptItemsRest(items: seq<Json>, t: CString, i: nat, e: nat, m: CString,
          q: nat) returns (f: nat)
    requires i < |t| && ItemsRest(items, t, i, e) && q <= |m| && C(m, q) == C(t, i) && Aligned(t, i + 1, m, q + 1)
    ensures ItemsRest(items, m, q, f) && Aligned(t, e, m, f)
    decreases items, 3
  {
    hide Minified, ValueAt;
    if items == [] {
      f := q + 1;
    } else {
      f := KeptItems(items, t, i + 1, e, m, q + 1);
    }
  }

  lemma {:induction false} KeptObject(ms: seq<Member>, t: CString, i: nat, e: nat, m: CString, q: nat) returns (f: nat)
    requires ValueAt(Object(ms), t, i, e) && Aligned(t, i, m, q)
    ensures ValueAt(Object(ms), m, q, f) && Aligned(t, e, m, f)
    decreases ms, 4
  {
    hide Minified;
    AlignedChar(t, i, m, q);
    if ms == [] {
      KeptMark(t, i + 1, m, q + 1);
      f := Skip(m, q + 1) + 1;
    } else {
      var j := Skip(t, i + 1);
      FirstOfMembers(ms, t, j, e);
      AlignedSkip(t, i + 1, m, q + 1);
      f := KeptMembers(ms, t, j, e, m, Skip(m, q + 1));
    }
  }

  lemma {:induction false} KeptMember(mem: Member, t: CString, i: nat, e: nat, m: CString, q: nat) returns (f: nat)
    requires i <= |t| && MemberAt(mem, t, i, e) && Aligned(t, i, m, q) && Follows(C(t, Skip(t, e)))
    ensures q <= |m| && MemberAt(mem, m, q, f) && Aligned(t, e, m, f)
    decreases mem, 1
  {
    hide Minified, StringAt, NumberAt;
    var c: nat :| StringAt(mem.name, t, Skip(t, i), c) && NamedAt(mem.value, t, Skip(t, c), e);
    StringIff(mem.name, t, Skip(t, i), c);
    AlignedSkip(t, i, m, q);
    var d := Skip(m, q) + (c - Skip(t, i));
    KeptString(mem.name, t, Skip(t, i), c, m, Skip(m, q));
    KeptMark(t, c, m, d);
    f := KeptNamed(mem.value, t, Skip(t, c), e, m, Skip(m, d));
  }

  lemma {:induction false} KeptNamed(v: Json, t: CString, i: nat, e: nat, m: CString, q: nat) returns (f: nat)
    requires i < |t| && NamedAt(v, t, i, e) && q <= |m| && C(m, q) == C(t, i) && Aligned(t, i + 1, m, q + 1)
    requires Follows(C(t, Skip(t, e)))
    ensures NamedAt(v, m, q, f) && Aligned(t, e, m, f)
    decreases v, 1
  {
    NoSlash(v, t, Skip(t, i + 1), e);
    AlignedSkip(t, i + 1, m, q + 1);
    f := KeptValue(v, t, Skip(t, i + 1), e, m, Skip(m, q + 1));
  }

  lemma {:induction false} KeptMembers(ms: seq<Member>, t: CString, i: nat, e: nat, m: CString, q: nat) returns (f: nat)
    requires i <= |t| && ms != [] && MembersAt(ms, t, i, e) && Aligned(t, i, m, q)
    ensures q <= |m| && MembersAt(ms, m, q, f) && Aligned(t, e, m, f)
    decreases ms, 2
  {
    hide Minified, MemberAt;
    var j: nat :| MemberAt(ms[0], t, i, j) && MembersRest(ms[1..], t, Skip(t, j), e);
    var g := KeptMember(ms[0], t, i, j, m, q);
    KeptMark(t, j, m, g);
    f := KeptMembersRest(ms[1..], t, Skip(t, j), e, m, Skip(m, g));
  }

  lemma {:induction false} KeptMembersRest(ms: seq<Member>, t: CString, i: nat, e: nat, m: CString,
          q: nat) returns (f: nat)
    requires i < |t| && MembersRest(ms, t, i, e) && q <= |m| && C(m, q) == C(t, i) && Aligned(t, i + 1, m, q + 1)
    ensures MembersRest(ms, m, q, f) && Aligned(t, e, m, f)
    decreases ms, 3
  {
    if ms == [] {
      f := q + 1;
    } else {
      f := KeptMembers(ms, t, i + 1, e, m, q + 1);
    }
  }

  // ---- whole texts ----

  lemma {:induction false} MinifiedNulFree(t: CString, i: nat)
    requires i <= |t| && Minified(t, i).Some?
    ensures NulFree(Minified(t, i).value)
    decreases |t| - i
  {
    if i < |t| {
      if IsGap(t[i]) {
        MinifiedNulFree(t, i + 1);
      } else if t[i] == SLASH && C(t, i + 1) == SLASH {
        MinifiedNulFree(t, LineEnd(t, i));
      } else if t[i] == SLASH && C(t, i + 1) == STAR {
        MinifiedNulFree(t, CommentEnd(t, i) + 2);
      } else if t[i] == QUOTE {
        MinifiedNulFree(t, ScanEnd(t, i + 1) + 1);
      } else {
        MinifiedNulFree(t, i + 1);
      }
    }
  }

  lemma AlignedWhole(t: CString, m: bytes)
    requires Minified(t, 0) == Some(m)
    ensures NulFree(m) && Aligned(t, 0, m, 0)
  {
    MinifiedNulFree(t, 0);
    assert m[0..0 + |m|] == m;
    AtSlice(m, 0, m);
  }

  /** Minifying an accepted text gives a text that is accepted with the same value. */
  lemma MinifyKeepsMeaning(t: CString, v: Json, m: bytes)
    requires Parse(t, true) == Ok(v, |t|) && Minified(t, 0) == Some(m)
    ensures NulFree(m) && Parse(m, true) == Ok(v, |m|)
  {
    AlignedWhole(t, m);
    var i := Skip(t, 0);
    var e := ParseValue(t, i).end;
    SoundValue(t, i, v, e);
    NoSlash(v, t, i, e);
    AlignedSkip(t, 0, m, 0);
    var f := KeptValue(v, t, i, e, m, Skip(m, 0));
    AlignedSkip(t, e, m, f);
    AlignedEnd(t, m, Skip(m, f));
    CompleteValue(v, m, Skip(m, 0), f);
  }
}
