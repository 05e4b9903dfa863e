/** `print_number` and `print_string_ptr`: what they allocate is exactly enough for what they write. */
module StringPrinter {
  import opened CText
  import opened Json
  import opened Buffers
  import opened Wrappers

  /** The number of characters that `%d` writes. */
  lemma {:induction false} NatTextLength(n: nat, digits: nat, bound: nat)
    requires n < bound && bound == Pow10(digits) && digits >= 1
    ensures |NatText(n)| <= digits
    decreases digits
  {
    if n >= 10 { NatTextLength(n / 10, digits - 1, Pow10(digits - 1)); }
  }

  function Pow10(n: nat): nat {
    if n == 0 then 1 else 10 * Pow10(n - 1)
  }

  lemma IntTextLength(n: int)
    requires INT_MIN <= n <= INT_MAX
    ensures |IntText(n)| <= 11
  {
    assert Pow10(5) == 100000;
    assert Pow10(10) == 100000 * Pow10(5);
    if n < 0 { NatTextLength(-n, 10, Pow10(10)); } else { NatTextLength(n, 10, Pow10(10)); }
  }

  /** The branches of `print_number` for the numbers that a printable tree holds: 0, or an `int`. */
  method NumberText(valuedouble: real, valueint: int) returns (size: nat, text: bytes)
    requires IsInt32(valuedouble) && valueint == valuedouble.Floor
    ensures text == IntText(valuedouble.Floor) && |text| < size <= 21
  {
    IntTextLength(valueint);
    if valuedouble == 0.0 {
      size, text := 2, [ZERO];
    } else {
      size, text := 21, IntText(valueint);
    }
  }

  // ---- strings ----

  lemma {:induction false} NothingToEscape(s: bytes)
    requires forall k | 0 <= k < |s| :: !NeedsEscape(s[k])
    ensures Escape(s) == s
    decreases |s|
  {
    if s != [] {
      NothingToEscape(s[1..]);
      assert [s[0]] + s[1..] == s;
    }
  }

  lemma EscapeNext(s: bytes, k: nat)
    requires k < |s|
    ensures Escape(s[k..]) == EscapeChar(s[k]) + Escape(s[k + 1..])
  {
    assert s[k..][1..] == s[k + 1..];
  }

  /** The first loop: whether any character needs an escape. */
  method AnyEscape(s: CString) returns (flag: bool)
    ensures flag <==> exists k :: 0 <= k < |s| && NeedsEscape(s[k])
  {
    flag := false;
    var k := 0;
    while C(s, k) != 0
      invariant 0 <= k <= |s|
      invariant flag <==> exists j :: 0 <= j < k && NeedsEscape(s[j])
      decreases |s| - k
    {
      flag := flag || NeedsEscape(C(s, k));
      k := k + 1;
    }
  }

  /** The counting loop. */
  method EscapedLength(s: CString) returns (len: nat)
    ensures len == |Escape(s)|
  {
    len := 0;
    var k := 0;
    assert s[0..] == s;
    while C(s, k) != 0
      invariant 0 <= k <= |s| && len + |Escape(s[k..])| == |Escape(s)|
      decreases |s| - k
    {
      EscapeNext(s, k);
      var token := C(s, k);
      len := len + 1;
      if ShortEscape(token) != 0 { len := len + 1; } else if token < 32 { len := len + 5; }
      k := k + 1;
    }
  }

  /** The bytes that `print_string_ptr` asks for: with both quotes and the terminator. */
  method StringSize(str: Option<CString>) returns (size: nat)
    ensures size == (if str.None? then 3 else |PrintString(str.value)| + 1)
  {
    if str.None? { return 3; }
    var flag := AnyEscape(str.value);
    if !flag {
      NothingToEscape(str.value);
      return |str.value| + 3;
    }
    size := EscapedLength(str.value);
    size := size + 3;
  }

  /** The writing loop: everything between the quotes. */
  method WriteEscaped(out: array<byte>, at: nat, s: CString) returns (end: nat)
    requires at + |Escape(s)| < out.Length
    modifies out
    ensures end == at + |Escape(s)| && out[..end] == old(out[..at]) + Escape(s)
  {
    end := at;
    var k := 0;
    assert s[0..] == s;
    ghost var before := out[..at];
    while C(s, k) != 0
      invariant 0 <= k <= |s| && end + |Escape(s[k..])| == at + |Escape(s)|
      invariant out[..end] + Escape(s[k..]) == before + Escape(s)
      decreases |s| - k
    {
      EscapeNext(s, k);
      end := WriteChar(out, end, C(s, k), Escape(s[k + 1..]), before + Escape(s));
      k := k + 1;
    }
    assert out[..end] + [] == out[..end];
  }

  /** One character, plain or escaped. `sprintf` also puts a terminator behind `\\u00xx`. */
  method WriteChar(out: array<byte>, at: nat, c: byte, ghost rest: bytes, ghost whole: bytes) returns (end: nat)
    requires at + |EscapeChar(c)| < out.Length && out[..at] + (EscapeChar(c) + rest) == whole
    modifies out
    ensures end == at + |EscapeChar(c)| && out[..end] + rest == whole
  {
    ghost var before := out[..at];
    assert before + (EscapeChar(c) + rest) == before + EscapeChar(c) + rest;
    if c > 31 && c != QUOTE && c != BACKSLASH {
      end := PutByte(out, at, c);
    } else if ShortEscape(c) != 0 {
      end := Put(out, at, [BACKSLASH, ShortEscape(c)]);
    } else {
      end := Put(out, at, [BACKSLASH, LOWER_U, ZERO, ZERO, HexChar(c / 16), HexChar(c % 16)]);
      out[end] := 0;
    }
  }

  /** The text of `print_string_ptr` and its terminator, behind the first `at` bytes of the buffer. */
  method WriteString(out: array<byte>, at: nat, str: Option<CString>, ghost before: bytes)
    requires out.Length >= at + (if str.None? then 3 else |PrintString(str.value)| + 1)
    requires |before| == at && out[..at] == before
    modifies out
    ensures Holds(out, before + PrintString(if str.None? then [] else str.value))
  {
    var s := if str.None? then [] else str.value;
    var end := PutByte(out, at, QUOTE);
    var flag := AnyEscape(s);
    if flag {
      end := WriteEscaped(out, end, s);
    } else {
      NothingToEscape(s);
      end := Put(out, end, s);
    }
    end := PutByte(out, end, QUOTE);
    assert before + [QUOTE] + Escape(s) + [QUOTE] == before + PrintString(s);
    Terminate(out, end, before + PrintString(s));
  }
}
