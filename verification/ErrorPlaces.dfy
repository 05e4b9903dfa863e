/** Where the parser reports a wrong text: at the first character that does not continue what stands before it. */
module ErrorPlaces {
  import opened CText
  import opened Json
  import opened Literals
  import opened Parser
  import opened Grammar

  /** A character that begins no value. */
  predicate BeginsNothing(c: byte) {
    c !in {34, 45, 91, 102, 110, 116, 123} && !(48 <= c <= 57)
  }

  lemma NoValue(t: CString, i: nat)
    requires i <= |t| && BeginsNothing(C(t, i))
    ensures ParseValue(t, i) == Fail(i)
  {
    if i < |t| { Words(t, i); }
  }

  /** A literal that its escapes do not allow is reported at its quote, and a missing one where it is due. */
  lemma NoLiteral(t: CString, i: nat)
    requires i <= |t| && ParseString(t, i).Fail?
    ensures ParseString(t, i) == Fail(i)
    ensures C(t, i) == 34 ==> ParseValue(t, i) == Fail(i)
  {
    if i < |t| { Words(t, i); }
  }

  /** Behind an item, anything but a comma or a closing bracket. */
  lemma NoItemEnd(t: CString, i: nat, v: Json, j: nat)
    requires i <= |t| && ValueAt(v, t, Skip(t, i), j) && C(t, Skip(t, j)) !in {44, 93}
    ensures ParseItems(t, i) == Fail(Skip(t, j))
  {
    CompleteValue(v, t, Skip(t, i), j);
  }

  /** Behind the name of a member, anything but a colon. */
  lemma NoColon(t: CString, i: nat, s: bytes, j: nat)
    requires i <= |t| && StringAt(s, t, Skip(t, i), j) && C(t, Skip(t, j)) != 58
    ensures ParseMembers(t, i) == Fail(Skip(t, j))
  {
    hide StringAt, ParseString;
    StringIff(s, t, Skip(t, i), j);
  }

  /** Behind a member, anything but a comma or a closing brace. */
  lemma NoMemberEnd(t: CString, i: nat, m: Member, j: nat)
    requires i <= |t| && MemberAt(m, t, i, j) && C(t, Skip(t, j)) !in {44, 125}
    ensures ParseMembers(t, i) == Fail(Skip(t, j))
  {
    hide MemberAt, ParseMember;
    CompleteMember(m, t, i, j);
  }

  /** Behind the whole value, anything but blanks, when the terminator is required. */
  lemma NotTheEnd(t: CString, v: Json, j: nat)
    requires ValueAt(v, t, Skip(t, 0), j) && Skip(t, j) < |t|
    ensures Parse(t, true) == Fail(Skip(t, j)) && Parse(t, false) == Ok(v, j)
  {
    CompleteValue(v, t, Skip(t, 0), j);
  }

  /** The place of an inner failure is the place of the whole failure. */
  lemma InnerPlace(t: CString, i: nat, ep: nat)
    requires i < |t|
    ensures t[i] == 91 && C(t, Skip(t, i + 1)) != 93 && ParseItems(t, Skip(t, i + 1)) == Fail(ep) ==>
      ParseValue(t, i) == Fail(ep)
    ensures t[i] == 123 && C(t, Skip(t, i + 1)) != 125 && ParseMembers(t, Skip(t, i + 1)) == Fail(ep) ==>
      ParseValue(t, i) == Fail(ep)
  {
    Words(t, i);
  }
}
