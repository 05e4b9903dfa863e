/** The eight 4-bit requirement values: packed into one word by the client, unpacked by the server. */
module Requirements {
  import opened Bits

  function Pow16(n: nat): (p: nat)
    ensures p >= 1
  {
    if n == 0 then 1 else 16 * Pow16(n - 1)
  }

  ghost predicate Fits(values: seq<int>) {
    forall i | 0 <= i < |values| :: 0 <= values[i] <= 15
  }

  /** The values read as base-16 digits, the first one the most significant. */
  ghost function Packed(values: seq<int>): (word: nat)
    requires Fits(values)
    ensures word < Pow16(|values|)
  {
    if values == [] then 0
    else 16 * Packed(values[..|values| - 1]) + values[|values| - 1]
  }

  /** The `n` low nibbles of `word`, the least significant first. */
  ghost function Nibbles(word: nat, n: nat): (values: seq<int>)
    ensures |values| == n && Fits(values)
  {
    if n == 0 then [] else [word % 16] + Nibbles(word / 16, n - 1)
  }

  ghost function Reversed<T>(s: seq<T>): (r: seq<T>)
    ensures |r| == |s|
    ensures forall i | 0 <= i < |s| :: r[i] == s[|s| - 1 - i]
  {
    if s == [] then [] else [s[|s| - 1]] + Reversed(s[..|s| - 1])
  }

  const NIBBLE_BITS: nat := 4
  const NIBBLE_MASK: nat := 15

  lemma OrNibble(x: nat, v: nat)
    requires v <= 15
    ensures Or(16 * x, v) == 16 * x + v
  {
    Pow2Values();
    ByFour(x);
    OrDisjoint(x, v, 4);
  }

  lemma MaskNibble(x: nat)
    ensures And(x, NIBBLE_MASK) == x % 16
    ensures Shr(x, NIBBLE_BITS) == x / 16
  {
    Pow2Values();
    AndMask(x, 4);
    ByFour(x);
  }

  lemma ShiftNibble(x: nat)
    requires 16 * x < UINT32_RANGE
    ensures Shl32(x, NIBBLE_BITS) == 16 * x
  {
    ByFour(x);
  }

  lemma PairStep(before: nat, v: nat, w: nat)
    requires v <= 15 && w <= 15
    requires 16 * (16 * before + v) < UINT32_RANGE
    ensures Or(Shl32(Or(16 * before, v), NIBBLE_BITS), w) == 16 * (16 * before + v) + w
  {
    hide Or, Shl32;
    OrNibble(before, v);
    ShiftNibble(16 * before + v);
    OrNibble(16 * before + v, w);
  }

  method PrepareRequirements(values: seq<int>) returns (requirements: nat)
    requires |values| == 8
    ensures Fits(values) ==> requirements == Packed(values)
    ensures !Fits(values) ==> requirements == 0
  {
    requirements := 0;
    assert values[..8] == values;
    var i := 0;
    while i < 7
      invariant i in {0, 2, 4, 6, 8}
      invariant Fits(values[..i])
      invariant i < 8 ==> requirements == 16 * Packed(values[..i])
      invariant i == 8 ==> requirements == Packed(values[..i])
    {
      if values[i] < 0 || values[i] > 15 || values[i + 1] < 0 || values[i + 1] > 15 {
        return 0;
      }
      ghost var before := Packed(values[..i]);
      TwoDigits(values, i);
      PairStep(before, values[i], values[i + 1]);
      requirements := Or(requirements, values[i]);
      requirements := Shl32(requirements, NIBBLE_BITS);
      requirements := Or(requirements, values[i + 1]);
      if i + 1 != 7 { ShiftNibble(requirements); }
      requirements := if i + 1 == 7 then requirements else Shl32(requirements, NIBBLE_BITS);
      i := i + 2;
    }
  }

  /** What the two digits of one loop round add, and that all of it still fits the word. */
  lemma TwoDigits(values: seq<int>, i: nat)
    requires i in {0, 2, 4, 6} && |values| == 8
    requires Fits(values[..i])
    requires 0 <= values[i] <= 15 && 0 <= values[i + 1] <= 15
    ensures Fits(values[..i + 2])
    ensures Packed(values[..i + 2]) == 16 * (16 * Packed(values[..i]) + values[i]) + values[i + 1]
    ensures 16 * (16 * Packed(values[..i]) + values[i]) < UINT32_RANGE
    ensures i < 6 ==> 16 * Packed(values[..i + 2]) < UINT32_RANGE
  {
    var one, two := values[..i + 1], values[..i + 2];
    assert one[..i] == values[..i];
    assert two[..i + 1] == one;
    Pow16Bounds(i);
  }

  lemma Pow16Bounds(i: nat)
    requires i <= 6
    ensures 256 * Pow16(i) <= UINT32_RANGE
    ensures i < 6 ==> 4096 * Pow16(i) <= UINT32_RANGE
  {
    assert Pow16(2) == 256;
    assert Pow16(4) == 65536;
    assert Pow16(5) == 1048576;
    assert Pow16(6) == 16777216;
  }

  /** The server's unpacking loop, followed by the swap loop it runs from `j = 0`. */
  method ParseRequirements(result: array<int>, raw: nat)
    requires result.Length == 8
    modifies result
    ensures result[..] == Nibbles(raw, 8)
  {
    hide And, Shr;
    var rawCopy := raw;
    var i := 0;
    while i < 8
      invariant 0 <= i <= 8
      invariant result[..i] + Nibbles(rawCopy, 8 - i) == Nibbles(raw, 8)
    {
      MaskNibble(rawCopy);
      ghost var done := result[..i];
      result[i] := And(rawCopy, NIBBLE_MASK);
      assert result[..i + 1] == done + [rawCopy % 16];
      rawCopy := Shr(rawCopy, NIBBLE_BITS);
      i := i + 1;
    }
    assert result[..8] == result[..];
    ghost var unpacked := result[..];
    SwapEnds(result, 0);
    assert Reversed(unpacked[..1]) == unpacked[..1];
  }

  /** The swap loop started with `i = 0` and `j = last`: it reverses the elements up to `last`. */
  method SwapEnds(result: array<int>, last: nat)
    requires last < result.Length
    modifies result
    ensures result[..] == Reversed(old(result[..last + 1])) + old(result[last + 1..])
  {
    var i, j := 0, last as int;
    while i < j
      invariant 0 <= i <= last && j == last - i
      invariant i <= j + 1
      invariant forall k | 0 <= k < i || j < k <= last :: result[k] == old(result[last - k])
      invariant forall k | i <= k <= j || last < k < result.Length :: result[k] == old(result[k])
    {
      var tmp := result[i];
      result[i] := result[j];
      result[j] := tmp;
      i, j := i + 1, j - 1;
    }
  }

  /** The lowest nibble of a packed word is its last value. */
  lemma {:induction false} UnpackPacked(values: seq<int>)
    requires Fits(values)
    ensures Nibbles(Packed(values), |values|) == Reversed(values)
  {
    if values != [] {
      UnpackPacked(values[..|values| - 1]);
    }
  }

  lemma ReversedCons(x: int, s: seq<int>)
    ensures Reversed([x] + s) == Reversed(s) + [x]
  {
  }

  lemma PackedSnoc(values: seq<int>, v: int)
    requires Fits(values) && 0 <= v <= 15
    ensures Fits(values + [v]) && Packed(values + [v]) == 16 * Packed(values) + v
  {
    assert (values + [v])[..|values|] == values;
  }

  /** Packing the reversed nibbles of a word restores the word. */
  lemma {:induction false} PackUnpacked(word: nat, n: nat)
    requires word < Pow16(n)
    ensures Packed(Reversed(Nibbles(word, n))) == word
  {
    hide Reversed, Packed;
    if n > 0 {
      var low := Nibbles(word / 16, n - 1);
      PackUnpacked(word / 16, n - 1);
      ReversedCons(word % 16, low);
      PackedSnoc(Reversed(low), word % 16);
    } else {
      NothingPacked();
    }
  }

  lemma NothingPacked()
    ensures Packed(Reversed([])) == 0
  {
  }

  /** The server sees the client's values in their own order exactly when they read the same both ways. */
  lemma OrderKeptIffPalindrome(values: seq<int>)
    requires |values| == 8 && Fits(values)
    ensures Nibbles(Packed(values), 8) == values <==> forall i | 0 <= i < 8 :: values[i] == values[7 - i]
  {
    UnpackPacked(values);
    assert Reversed(values) == values <==> forall i | 0 <= i < 8 :: values[i] == values[7 - i];
  }

  /** A requirement on the first place arrives as one on the last. */
  lemma FirstArrivesLast()
    ensures Nibbles(Packed([1, 0, 0, 0, 0, 0, 0, 0]), 8) == [0, 0, 0, 0, 0, 0, 0, 1]
  {
    hide Nibbles, Packed;
    UnpackPacked([1, 0, 0, 0, 0, 0, 0, 0]);
  }

  /** Had the swap loop started at `last = 7`, the server would have recovered the values in order. */
  lemma FullSwapRecovers(values: seq<int>)
    requires |values| == 8 && Fits(values)
    ensures Reversed(Nibbles(Packed(values), 8)[..8]) + Nibbles(Packed(values), 8)[8..] == values
  {
    UnpackPacked(values);
    assert Reversed(values)[..8] == Reversed(values);
    assert Reversed(Reversed(values)) == values;
  }
}
