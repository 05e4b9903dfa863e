/** Exactly which texts `cJSON_ParseWithOpts` reads past their terminator: those where the grammar leads to a string
    literal that is still open where the text ends in an odd run of backslashes. */
module Overruns {
  import opened CText
  import opened Json
  import opened Literals
  import opened Parser
  import opened Grammar

  /** A literal starts at `k` and is still open where the odd run of backslashes at the end begins. */
  ghost predicate OpenAtEnd(t: CString, k: nat) {
    var run := |t| - TrailingBackslashes(t);
    k < run && t[k] == QUOTE && (|t| - run) % 2 == 1 && OpenUntil(t, k + 1, run)
  }

  /** A literal at `k` is reached from a value that is due at `i`, behind complete values and names. */
  ghost predicate ValueLeadsTo(t: CString, i: nat, k: nat)
    requires i <= |t|
    decreases |t| - i, 1
  {
    || i == k
    || (C(t, i) == OPEN_BRACKET && C(t, Skip(t, i + 1)) != CLOSE_BRACKET && ItemsLeadTo(t, Skip(t, i + 1), k))
    || (C(t, i) == OPEN_BRACE && C(t, Skip(t, i + 1)) != CLOSE_BRACE && MembersLeadTo(t, Skip(t, i + 1), k))
  }

  ghost predicate ItemsLeadTo(t: CString, i: nat, k: nat)
    requires i <= |t|
    decreases |t| - i, 2
  {
    ValueLeadsTo(t, Skip(t, i), k) || exists v, j :: ItemPassed(t, i, v, j) && ItemsLeadTo(t, Skip(t, j) + 1, k)
  }

  /** An item and the comma behind it. */
  ghost predicate ItemPassed(t: CString, i: nat, v: Json, j: nat)
    requires i <= |t|
    ensures ItemPassed(t, i, v, j) ==> i < j <= |t| && Skip(t, j) < |t|
  {
    ValueAt(v, t, Skip(t, i), j) && C(t, Skip(t, j)) == COMMA
  }

  ghost predicate MembersLeadTo(t: CString, i: nat, k: nat)
    requires i <= |t|
    decreases |t| - i, 3
  {
    || MemberLeadsTo(t, i, k)
    || exists m, j :: MemberPassed(t, i, m, j) && MembersLeadTo(t, Skip(t, j) + 1, k)
  }

  /** The name of a member, or its value behind the colon. */
  ghost predicate MemberLeadsTo(t: CString, i: nat, k: nat)
    requires i <= |t|
    decreases |t| - i, 2
  {
    || Skip(t, i) == k
    || exists s, c :: NamePassed(t, i, s, c) && ValueLeadsTo(t, Skip(t, Skip(t, c) + 1), k)
  }

  ghost predicate NamePassed(t: CString, i: nat, s: bytes, c: nat)
    requires i <= |t|
    ensures NamePassed(t, i, s, c) ==> i < c <= |t| && Skip(t, c) < |t|
  {
    StringAt(s, t, Skip(t, i), c) && C(t, Skip(t, c)) == COLON
  }

  ghost predicate MemberPassed(t: CString, i: nat, m: Member, j: nat)
    requires i <= |t|
    ensures MemberPassed(t, i, m, j) ==> i < j <= |t| && Skip(t, j) < |t|
  {
    MemberAt(m, t, i, j) && C(t, Skip(t, j)) == COMMA
  }

  lemma LiteralOverrun(t: CString, i: nat)
    requires i <= |t|
    ensures ParseString(t, i).Overrun? <==> OpenAtEnd(t, i)
  {
    if C(t, i) == QUOTE { OverrunIff(t, i, |t| - TrailingBackslashes(t)); }
  }

  lemma {:induction false} ValueOverrun(t: CString, i: nat)
    requires i <= |t|
    ensures ParseValue(t, i).Overrun? <==> exists k :: ValueLeadsTo(t, i, k) && OpenAtEnd(t, k)
    decreases |t| - i, 1
  {
    hide OpenAtEnd, ItemsLeadTo, MembersLeadTo;
    if i < |t| { Words(t, i); }
    LiteralOverrun(t, i);
    if C(t, i) == OPEN_BRACKET {
      ItemsOverrun(t, Skip(t, i + 1));
    } else if C(t, i) == OPEN_BRACE {
      MembersOverrun(t, Skip(t, i + 1));
    }
  }

  lemma ItemPassedIs(t: CString, i: nat, v: Json, j: nat)
    requires i <= |t| && ItemPassed(t, i, v, j)
    ensures ParseValue(t, Skip(t, i)) == Ok(v, j)
  {
    CompleteValue(v, t, Skip(t, i), j);
  }

  lemma {:induction false} ItemsOverrun(t: CString, i: nat)
    requires i <= |t|
    ensures ParseItems(t, i).Overrun? <==> exists k :: ItemsLeadTo(t, i, k) && OpenAtEnd(t, k)
    decreases |t| - i, 2
  {
    hide OpenAtEnd, ValueLeadsTo, ParseValue, ValueAt;
    ValueOverrun(t, Skip(t, i));
    var v := ParseValue(t, Skip(t, i));
    if k, w, j :| ItemPassed(t, i, w, j) && ItemsLeadTo(t, Skip(t, j) + 1, k) && OpenAtEnd(t, k) {
      ItemPassedIs(t, i, w, j);
      ItemsOverrun(t, Skip(t, j) + 1);
    }
    if v.Ok? && C(t, Skip(t, v.end)) == COMMA {
      SoundValue(t, Skip(t, i), v.value, v.end);
      assert ItemPassed(t, i, v.value, v.end);
      ItemsOverrun(t, Skip(t, v.end) + 1);
    }
  }

  lemma {:induction false} MemberOverrun(t: CString, i: nat)
    requires i <= |t|
    ensures ParseMember(t, i).Overrun? <==> exists k :: MemberLeadsTo(t, i, k) && OpenAtEnd(t, k)
    decreases |t| - i, 2
  {
    hide OpenAtEnd, ValueLeadsTo, ParseValue, ParseString, StringAt;
    LiteralOverrun(t, Skip(t, i));
    var n := ParseString(t, Skip(t, i));
    if k, s, c :| NamePassed(t, i, s, c) && ValueLeadsTo(t, Skip(t, Skip(t, c) + 1), k) && OpenAtEnd(t, k) {
      StringIff(s, t, Skip(t, i), c);
      ValueOverrun(t, Skip(t, Skip(t, c) + 1));
    }
    if n.Ok? && C(t, Skip(t, n.end)) == COLON {
      StringIff(n.value, t, Skip(t, i), n.end);
      assert NamePassed(t, i, n.value, n.end);
      ValueOverrun(t, Skip(t, Skip(t, n.end) + 1));
    }
  }

  lemma {:induction false} MembersOverrun(t: CString, i: nat)
    requires i <= |t|
    ensures ParseMembers(t, i).Overrun? <==> exists k :: MembersLeadTo(t, i, k) && OpenAtEnd(t, k)
    decreases |t| - i, 3
  {
    hide OpenAtEnd, MemberLeadsTo, ParseMember, MemberAt;
    MemberOverrun(t, i);
    var m := ParseMember(t, i);
    if k, w, j :| MemberPassed(t, i, w, j) && MembersLeadTo(t, Skip(t, j) + 1, k) && OpenAtEnd(t, k) {
      CompleteMember(w, t, i, j);
      MembersOverrun(t, Skip(t, j) + 1);
    }
    if m.Ok? && C(t, m.end) == COMMA {
      SoundMember(t, i, m.value, m.end);
      var j: nat :| MemberAt(m.value, t, i, j) && Skip(t, j) == m.end;
      assert MemberPassed(t, i, m.value, j);
      MembersOverrun(t, m.end + 1);
    }
  }

  /** A text is read past its terminator exactly when its first value leads to a literal that is open at the end. */
  lemma ParseOverrunIff(t: CString, requireTerminated: bool)
    ensures Parse(t, requireTerminated).Overrun?
      <==> exists k :: ValueLeadsTo(t, Skip(t, 0), k) && OpenAtEnd(t, k)
  {
    hide ParseValue, ValueLeadsTo, OpenAtEnd;
    ValueOverrun(t, Skip(t, 0));
  }
}
