/** C strings in byte buffers. */
module Buffers {
  import opened CText

  /** The buffer starts with this text and its terminator. */
  ghost predicate Holds(a: array<byte>, text: bytes)
    reads a
  {
    |text| < a.Length && a[..|text|] == text && a[|text|] == 0
  }

  /** `strlen(a + from)`. */
  method StrLen(a: array<byte>, from: nat, ghost text: bytes) returns (n: nat)
    requires from <= |text| && Holds(a, text) && NulFree(text[from..])
    ensures from + n == |text|
  {
    forall k | from <= k < |text| ensures a[k] != 0 {
      assert text[from..][k - from] == text[k] == a[k];
    }
    n := 0;
    while a[from + n] != 0
      invariant from + n <= |text|
      decreases |text| - n
    {
      n := n + 1;
    }
  }

  /** `strcpy` or `memcpy` without the terminator: the text is written behind the first `at` bytes. */
  method Put(out: array<byte>, at: nat, text: bytes) returns (end: nat)
    requires at + |text| <= out.Length
    modifies out
    ensures end == at + |text|
    ensures out[..end] == old(out[..at]) + text
    ensures out[end..] == old(out[end..])
  {
    var k := 0;
    while k < |text|
      invariant 0 <= k <= |text|
      invariant out[..at] == old(out[..at]) && out[at..at + k] == text[..k]
      invariant out[at + k..] == old(out[at + k..])
    {
      out[at + k] := text[k];
      k := k + 1;
    }
    end := at + |text|;
    assert out[..end] == out[..at] + out[at..end];
  }

  method PutByte(out: array<byte>, at: nat, b: byte) returns (end: nat)
    requires at < out.Length
    modifies out
    ensures end == at + 1 && out[..end] == old(out[..at]) + [b] && out[end..] == old(out[end..])
  {
    out[at] := b;
    end := at + 1;
  }

  /** Writes the terminator behind the text. */
  method Terminate(out: array<byte>, at: nat, ghost text: bytes)
    requires at == |text| < out.Length && out[..at] == text
    modifies out
    ensures Holds(out, text)
  {
    out[at] := 0;
  }
}
