/** Names of object members, compared without regard to ASCII case. */
module Names {
  import opened CText
  import opened Wrappers

  /** `tolower` in the C locale. */
  function Lower(c: byte): byte {
    if 65 <= c <= 90 then c + 32 else c
  }

  /** The 26 capitals have another case, 32 above them. */
  lemma LowerIs(c: byte)
    ensures Lower(65) == 97 && Lower(90) == 122
    ensures 65 <= c <= 90 <==> Lower(c) != c
    ensures Lower(c) != c ==> Lower(c) == c + 32
  {
  }

  /** The same byte, or an upper-case ASCII letter and the lower-case one, which is 32 more. */
  predicate SameLetter(a: byte, b: byte) {
    a == b || (65 <= a <= 90 && b == a + 32) || (65 <= b <= 90 && a == b + 32)
  }

  lemma LowerIsSameLetter(a: byte, b: byte)
    ensures Lower(a) == Lower(b) <==> SameLetter(a, b)
  {
  }

  /** Equal up to the case of ASCII letters; a missing name equals only another missing name. */
  ghost predicate SameName(a: Option<CString>, b: Option<CString>) {
    match (a, b)
    case (None, None) => true
    case (Some(s), Some(t)) => |s| == |t| && forall i | 0 <= i < |s| :: SameLetter(s[i], t[i])
    case _ => false
  }

  /** `cJSON_strcasecmp`: zero for equal names, and otherwise the difference at the first place where they differ. */
  method StrCaseCmp(s1: Option<CString>, s2: Option<CString>) returns (order: int)
    ensures order == 0 <==> SameName(s1, s2)
    ensures s1.None? || s2.None? ==> order == if s1 == s2 then 0 else 1
    ensures s1.Some? && s2.Some? && order != 0 ==> exists i: nat ::
      && i <= |s1.value| && i <= |s2.value| && order == Lower(C(s1.value, i)) - Lower(C(s2.value, i))
      && forall j | 0 <= j < i :: SameLetter(s1.value[j], s2.value[j])
  {
    if s1.None? { return if s1 == s2 then 0 else 1; }
    if s2.None? { return 1; }
    var a, b, i := s1.value, s2.value, 0;
    while Lower(C(a, i)) == Lower(C(b, i))
      invariant 0 <= i <= |a| && i <= |b|
      invariant forall j | 0 <= j < i :: SameLetter(a[j], b[j])
      decreases |a| - i
    {
      if C(a, i) == 0 { return 0; }
      i := i + 1;
    }
    return Lower(C(a, i)) - Lower(C(b, i));
  }
}
