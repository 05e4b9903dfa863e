/** `parse_hex4` and `parse_string`: the two passes over a string literal. */
module StringParser {
  import opened Bits
  import opened CText
  import opened Unicode
  import opened Literals
  import opened Wrappers

  /** `h << 4` never leaves the word while four digits are read. */
  lemma ShiftDigit(h: nat)
    requires h < 0x1000
    ensures Shl32(h, 4) == 16 * h
  {
    ByFour(h);
  }

  /** `parse_hex4`: stops at the first character that is no digit, so it never reads past the terminator. */
  method ParseHex4(t: CString, i: nat) returns (h: nat)
    requires i <= |t|
    ensures h == Hex4(t, i)
  {
    var d := HexValue(C(t, i));
    if d < 0 { return 0; }
    h := d;
    ShiftDigit(h);
    h := Shl32(h, 4);
    d := HexValue(C(t, i + 1));
    if d < 0 { return 0; }
    h := h + d;
    ShiftDigit(h);
    h := Shl32(h, 4);
    d := HexValue(C(t, i + 2));
    if d < 0 { return 0; }
    h := h + d;
    ShiftDigit(h);
    h := Shl32(h, 4);
    d := HexValue(C(t, i + 3));
    if d < 0 { return 0; }
    h := h + d;
  }

  // ---- writing one character ----

  const TAIL_MARK: nat := 0x80
  const TAIL_MASK: nat := 0xBF
  const SIX: nat := 6

  lemma TailByte(uc: nat)
    ensures And(Or(uc, TAIL_MARK), TAIL_MASK) == 0x80 + uc % 64
    ensures Shr(uc, SIX) == uc / 64
  {
    ContinuationByte(uc);
    BySix(uc);
  }

  /** `firstByteMark`. */
  function FirstByteMark(n: nat): (mark: nat)
    requires 1 <= n <= 4
  {
    if n == 1 then 0 else if n == 2 then 0xC0 else if n == 3 then 0xE0 else 0xF0
  }

  lemma LeadByte(uc: nat, n: nat)
    requires 1 <= n <= 4
    requires uc < if n == 1 then 128 else if n == 2 then 32 else if n == 3 then 16 else 8
    ensures Or(uc, FirstByteMark(n)) == FirstByteMark(n) + uc
  {
    Pow2Values();
    ShlIsProduct(3, 6);
    ShlIsProduct(7, 5);
    ShlIsProduct(15, 4);
    if n == 1 { OrZero(uc); }
    else if n == 2 { OrDisjoint(3, uc, 6); }
    else if n == 3 { OrDisjoint(7, uc, 5); }
    else { OrDisjoint(15, uc, 4); }
  }

  /** One round of the fall-through `switch` that writes the tail octets from the back. */
  method WriteTail(out: array<byte>, at: nat, code: nat) returns (rest: nat)
    requires at < out.Length
    modifies out
    ensures rest == code / 64
    ensures out[..] == old(out[..])[at := 0x80 + code % 64]
  {
    TailByte(code);
    out[at] := And(Or(code, TAIL_MARK), TAIL_MASK);
    rest := Shr(code, SIX);
  }

  /** The UTF-8 encoding of a code point, written from the back. */
  method WriteUtf8(out: array<byte>, at: nat, code: nat) returns (n: nat)
    requires code <= 0x10FFFF && at + |Utf8(code)| <= out.Length
    modifies out
    ensures n == |Utf8(code)| && out[..at + n] == old(out[..at]) + Utf8(code)
  {
    hide Or, And;
    var uc := code;
    n := 4;
    if uc < 0x80 { n := 1; } else if uc < 0x800 { n := 2; } else if uc < 0x10000 { n := 3; }
    var k := n;
    while k > 1
      invariant 1 <= k <= n
      invariant uc == if n - k == 0 then code else if n - k == 1 then code / 64
                      else if n - k == 2 then code / 64 / 64 else code / 64 / 64 / 64
      invariant out[..at] == old(out[..at])
      invariant forall j | k <= j < n :: out[at + j] == Utf8(code)[j]
    {
      k := k - 1;
      uc := WriteTail(out, at + k, uc);
    }
    LeadByte(uc, n);
    out[at] := Or(uc, FirstByteMark(n));
    assert out[..at + n] == out[..at] + out[at..at + n];
    assert out[at..at + n] == Utf8(code);
  }

  // ---- the decoding loop ----

  /** The loop has written `done` and stands at `ptr`, and the rest of the literal fits in the space left. */
  ghost predicate Decoding(t: CString, start: nat, e: nat, ptr: nat, done: bytes, len: nat) {
    && start <= ptr <= e <= |t| && ScanEnd(t, ptr) == e
    && Decode(t, start, e) == Prepend(done, Decode(t, ptr, e))
    && |done| + Units(t, ptr) <= len
  }

  lemma PrependBoth(a: bytes, b: bytes, d: Option<Decoded>)
    ensures Prepend(a, Prepend(b, d)) == Prepend(a + b, d)
  {
    if d.Some? { assert a + (b + d.value.out) == a + b + d.value.out; }
  }

  lemma StepOver(t: CString, start: nat, e: nat, ptr: nat, done: bytes, len: nat, next: nat, s: bytes)
    requires Decoding(t, start, e, ptr, done, len) && ptr < next <= e && ScanEnd(t, next) == e
    requires Decode(t, ptr, e) == Prepend(s, Decode(t, next, e)) && Units(t, ptr) >= |s| + Units(t, next)
    ensures Decoding(t, start, e, next, done + s, len)
  {
    hide Decode, Units, ScanEnd;
    PrependBoth(done, s, Decode(t, next, e));
  }

  lemma PlainStep(t: CString, start: nat, e: nat, ptr: nat, done: bytes, len: nat)
    requires Decoding(t, start, e, ptr, done, len) && ptr < e && t[ptr] != BACKSLASH
    ensures Decoding(t, start, e, ptr + 1, done + [t[ptr]], len)
  {
    StepOver(t, start, e, ptr, done, len, ptr + 1, [t[ptr]]);
  }

  lemma SimpleStep(t: CString, start: nat, e: nat, ptr: nat, done: bytes, len: nat)
    requires Decoding(t, start, e, ptr, done, len) && ptr < e && t[ptr] == BACKSLASH && C(t, ptr + 1) != LOWER_U
    ensures Decoding(t, start, e, ptr + 2, done + [SimpleEscape(C(t, ptr + 1))], len)
  {
    StepOver(t, start, e, ptr, done, len, ptr + 2, [SimpleEscape(C(t, ptr + 1))]);
  }

  /** An escape of a character outside the surrogate range. */
  lemma BasicStep(t: CString, start: nat, e: nat, ptr: nat, done: bytes, len: nat)
    requires Decoding(t, start, e, ptr, done, len) && ptr + 5 < e
    requires t[ptr] == BACKSLASH && t[ptr + 1] == LOWER_U
    requires Hex4(t, ptr + 2) != 0 && !IsLowSurrogate(Hex4(t, ptr + 2)) && !IsHighSurrogate(Hex4(t, ptr + 2))
    ensures |Utf8(Hex4(t, ptr + 2))| <= 3
    ensures Decoding(t, start, e, ptr + 6, done + Utf8(Hex4(t, ptr + 2)), len)
  {
    hide Utf8;
    var uc := Hex4(t, ptr + 2);
    assert |Utf8(uc)| <= 3 by { ShortUtf8(uc); }
    AtEscape(t, ptr, e);
    assert DecodeUnicode(t, ptr, e) == Prepend(Utf8(uc), Decode(t, ptr + 6, e));
    ScanEscape(t, ptr);
    ScanHex(t, ptr + 2);
    StepOver(t, start, e, ptr, done, len, ptr + 6, Utf8(uc));
  }

  lemma ShortUtf8(uc: nat)
    requires uc < 0x10000
    ensures |Utf8(uc)| <= 3
  {
  }

  /** An escape of a surrogate pair. */
  lemma PairStep(t: CString, start: nat, e: nat, ptr: nat, done: bytes, len: nat, code: nat)
    requires Decoding(t, start, e, ptr, done, len) && ptr + 11 <= e
    requires t[ptr] == BACKSLASH && t[ptr + 1] == LOWER_U && t[ptr + 6] == BACKSLASH && t[ptr + 7] == LOWER_U
    requires IsHighSurrogate(Hex4(t, ptr + 2)) && IsLowSurrogate(Hex4(t, ptr + 8))
    requires code == PairCodePoint(Hex4(t, ptr + 2), Hex4(t, ptr + 8))
    ensures ptr + 12 <= e && Decoding(t, start, e, ptr + 12, done + Utf8(code), len)
  {
    hide Utf8;
    AtEscape(t, ptr, e);
    assert DecodeUnicode(t, ptr, e) == Prepend(Utf8(code), Decode(t, ptr + 12, e));
    ScanEscape(t, ptr);
    ScanHex(t, ptr + 2);
    ScanEscape(t, ptr + 6);
    ScanHex(t, ptr + 8);
    StepOver(t, start, e, ptr, done, len, ptr + 12, Utf8(code));
  }

  /** The `\u` branch of the decoding loop: `ptr` is at the backslash. */
  method DecodeEscape(t: CString, ghost start: nat, e: nat, ptr: nat, out: array<byte>, ptr2: nat, ghost len: nat)
    returns (ok: bool, next: nat, next2: nat)
    requires ptr2 <= len < out.Length && Decoding(t, start, e, ptr, out[..ptr2], len)
    requires ptr < e && t[ptr] == BACKSLASH && C(t, ptr + 1) == LOWER_U
    modifies out
    ensures ok ==> ptr < next && next2 <= len && Decoding(t, start, e, next, out[..next2], len)
    ensures !ok ==> Decode(t, start, e).None?
  {
    hide Utf8, Units, ScanEnd, Decode, Hex4, And, Or, Shl;
    AtEscape(t, ptr, e);
    ghost var done := out[..ptr2];
    var uc := ParseHex4(t, ptr + 2);
    var last := ptr + 5;
    if last >= e || IsLowSurrogate(uc) || uc == 0 {
      return false, ptr, ptr2;
    }
    if IsHighSurrogate(uc) {
      if last + 6 > e || C(t, last + 1) != BACKSLASH || C(t, last + 2) != LOWER_U {
        return false, ptr, ptr2;
      }
      var uc2 := ParseHex4(t, last + 3);
      if !IsLowSurrogate(uc2) {
        return false, ptr, ptr2;
      }
      SurrogatePayload(uc, uc2);
      uc := 0x10000 + Or(Shl(And(uc, PAYLOAD_MASK), 10), And(uc2, PAYLOAD_MASK));
      PairStep(t, start, e, ptr, done, len, uc);
      last := last + 6;
    } else {
      BasicStep(t, start, e, ptr, done, len);
    }
    var n := WriteUtf8(out, ptr2, uc);
    return true, last + 1, ptr2 + n;
  }

  const PAYLOAD_MASK: nat := 0x3FF

  /** The scanning pass: the end of the literal and the bytes to allocate for it. */
  method ScanLiteral(t: CString, start: nat) returns (endPtr: nat, len: nat)
    requires start <= |t| && ScanEnd(t, start) <= |t|
    ensures endPtr == ScanEnd(t, start) && len == Units(t, start)
  {
    endPtr, len := start, 0;
    while C(t, endPtr) != QUOTE && C(t, endPtr) != 0
      invariant start <= endPtr <= |t| && ScanEnd(t, endPtr) == ScanEnd(t, start)
      invariant len + Units(t, endPtr) == Units(t, start)
      decreases |t| - endPtr
    {
      len := len + 1;
      endPtr := if C(t, endPtr) == BACKSLASH then endPtr + 2 else endPtr + 1;
    }
  }

  /** The decoding pass, into a buffer of one byte more than the scan counted. */
  method DecodeLiteral(t: CString, start: nat, e: nat, len: nat) returns (ok: bool, out: array<byte>, n: nat, ptr: nat)
    requires start <= e <= |t| && e == ScanEnd(t, start) && len == Units(t, start)
    ensures fresh(out) && out.Length == len + 1
    ensures ok <==> Decode(t, start, e).Some?
    ensures ok ==> n <= len && out[n] == 0 && Decode(t, start, e) == Some(Decoded(out[..n], ptr))
  {
    hide Units, ScanEnd, Utf8;
    out := new byte[len + 1];
    ok, n, ptr := true, 0, start;
    assert Prepend([], Decode(t, start, e)) == Decode(t, start, e) by { PrependNothing(Decode(t, start, e)); }
    while ptr < e
      invariant n <= len && Decoding(t, start, e, ptr, out[..n], len)
      decreases e - ptr
    {
      ghost var done := out[..n];
      if C(t, ptr) != BACKSLASH {
        PlainStep(t, start, e, ptr, done, len);
        out[n] := C(t, ptr);
        n, ptr := n + 1, ptr + 1;
        assert out[..n] == done + [t[ptr - 1]];
      } else if C(t, ptr + 1) == LOWER_U {
        ok, ptr, n := DecodeEscape(t, start, e, ptr, out, n, len);
        if !ok { return; }
      } else {
        SimpleStep(t, start, e, ptr, done, len);
        out[n] := SimpleEscape(C(t, ptr + 1));
        n, ptr := n + 1, ptr + 2;
        assert out[..n] == done + [SimpleEscape(C(t, ptr - 1))];
      }
    }
    DecodedAll(t, start, e, out[..n], len);
    out[n] := 0;
  }

  lemma DecodedAll(t: CString, start: nat, e: nat, done: bytes, len: nat)
    requires Decoding(t, start, e, e, done, len)
    ensures Decode(t, start, e) == Some(Decoded(done, e))
  {
    assert done + [] == done;
  }

  lemma PrependNothing(d: Option<Decoded>)
    ensures Prepend([], d) == d
  {
    if d.Some? { assert [] + d.value.out == d.value.out; }
  }

  /** `parse_string`. */
  method ParseStringText(t: CString, i: nat) returns (r: Parsed<bytes>)
    requires i <= |t| && !ParseString(t, i).Overrun?
    ensures r == ParseString(t, i)
  {
    hide Units, Decode;
    if C(t, i) != QUOTE { return Fail(i); }
    var e, len := ScanLiteral(t, i + 1);
    var ok, out, n, ptr := DecodeLiteral(t, i + 1, e, len);
    if !ok { return Fail(i); }
    PassesAgree(t, i + 1, e);
    r := Ok(out[..n], if C(t, ptr) == QUOTE then ptr + 1 else ptr);
  }
}
