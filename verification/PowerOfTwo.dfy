/** `pow2gt`: smearing the highest bit downwards gives the least power of two above a number. */
module PowerOfTwo {
  import opened Bits

  /** All bits below the highest one are set. */
  predicate IsOnes(x: nat) {
    x == 0 || (x % 2 == 1 && IsOnes(x / 2))
  }

  lemma {:induction false} ShrAdd(x: nat, a: nat, b: nat)
    ensures Shr(Shr(x, a), b) == Shr(x, a + b)
    decreases a
  {
    if a > 0 { ShrAdd(x / 2, a - 1, b); }
  }

  lemma {:induction false} OrShr(x: nat, y: nat, k: nat)
    ensures Shr(Or(x, y), k) == Or(Shr(x, k), Shr(y, k))
    decreases k
  {
    if k > 0 { OrShr(x / 2, y / 2, k - 1); }
  }

  lemma {:induction false} ShrOnes(x: nat, k: nat, j: nat)
    requires IsOnes(x)
    ensures IsOnes(Shr(x, k))
    ensures j >= k && x + 1 >= Pow2(j) ==> Shr(x, k) + 1 >= Pow2(j - k)
    decreases k
  {
    if k > 0 {
      if j > 0 {
        ShrOnes(x / 2, k - 1, j - 1);
      } else {
        ShrOnes(x / 2, k - 1, 0);
      }
    }
  }

  lemma OneMore(x: nat)
    requires IsOnes(x)
    ensures IsOnes(2 * x + 1)
  {
    assert (2 * x + 1) / 2 == x;
  }

  lemma OrOdd(x: nat, y: nat)
    requires x % 2 == 1 || y % 2 == 1
    ensures Or(x, y) == 2 * Or(x / 2, y / 2) + 1
  {
  }

  lemma {:induction false} OnesOr(x: nat, y: nat)
    requires IsOnes(x) && IsOnes(y)
    ensures IsOnes(Or(x, y))
    decreases x + y
  {
    hide Or;
    if x == 0 || y == 0 {
      OrZero(x);
      OrZero(y);
    } else {
      OnesOr(x / 2, y / 2);
      OrOdd(x, y);
      OneMore(Or(x / 2, y / 2));
    }
  }

  /** The ones of `y` fill the `m` lowest bits of `x`, behind the `j` that were set already. */
  lemma {:induction false} FillLow(x: nat, y: nat, m: nat, j: nat)
    requires IsOnes(Shr(x, m)) && IsOnes(y) && y + 1 >= Pow2(m) && Shr(x, m) + 1 >= Pow2(j)
    ensures IsOnes(Or(x, y)) && Or(x, y) + 1 >= Pow2(m + j)
    decreases m
  {
    hide Or;
    if m == 0 {
      OnesOr(x, y);
      OrBounds(x, y, 0);
    } else {
      assert Shr(x, m) == Shr(x / 2, m - 1);
      assert Pow2(m) == 2 * Pow2(m - 1) && Pow2(m + j) == 2 * Pow2(m - 1 + j);
      FillLow(x / 2, y / 2, m - 1, j);
      OrOdd(x, y);
      OneMore(Or(x / 2, y / 2));
    }
  }

  /** Above the lowest `r` bits, everything is set, and that is at least `j` bits unless `r` is 0. */
  ghost predicate SetAbove(x: nat, r: nat, j: nat) {
    IsOnes(Shr(x, r)) && (r > 0 ==> Shr(x, r) + 1 >= Pow2(j))
  }

  lemma {:induction false} SmearLast(x: nat, r: nat, j: nat)
    requires SetAbove(x, r, j) && r <= j
    ensures IsOnes(Or(x, Shr(x, j)))
  {
    ShrAdd(x, r, j - r);
    ShrOnes(Shr(x, r), j - r, j);
    FillLow(x, Shr(x, j), r, 0);
  }

  lemma {:induction false} SmearMore(x: nat, r: nat, j: nat)
    requires SetAbove(x, r, j) && r > j > 0
    ensures SetAbove(Or(x, Shr(x, j)), r - j, 2 * j)
  {
    var high, ones := Shr(x, r - j), Shr(x, r);
    ShrAdd(x, r - j, j);
    ShrAdd(x, j, r - j);
    OrShr(x, Shr(x, j), r - j);
    FillLow(high, ones, j, j);
  }

  /** The smearing of `pow2gt`. */
  function Smear(x: nat): nat {
    var x1 := Or(x, Shr(x, 1));
    var x2 := Or(x1, Shr(x1, 2));
    var x4 := Or(x2, Shr(x2, 4));
    var x8 := Or(x4, Shr(x4, 8));
    Or(x8, Shr(x8, 16))
  }

  const MAX_SIZE: nat := 0x4000_0000

  lemma {:induction false} TopBit(x: nat, m: nat) returns (r: nat)
    requires 0 < x < Pow2(m)
    ensures r < m && Shr(x, r) == 1 && Pow2(r) <= x < Pow2(r + 1)
    decreases m
  {
    if x == 1 {
      r := 0;
      assert Pow2(1) == 2;
    } else {
      r := TopBit(x / 2, m - 1);
      r := r + 1;
    }
  }

  /** Five rounds reach every bit of a number below `2^31`. */
  lemma SmearOnes(x: nat, r: nat)
    requires SetAbove(x, r, 1) && r <= 30
    ensures IsOnes(Smear(x))
  {
    var x1 := Or(x, Shr(x, 1));
    var x2 := Or(x1, Shr(x1, 2));
    var x4 := Or(x2, Shr(x2, 4));
    var x8 := Or(x4, Shr(x4, 8));
    var r1 := SmearOnce(x, r, 1);
    var r2 := SmearOnce(x1, r1, 2);
    var r4 := SmearOnce(x2, r2, 4);
    var r8 := SmearOnce(x4, r4, 8);
    SmearLast(x8, r8, 16);
  }

  lemma SmearOnce(x: nat, r: nat, j: nat) returns (less: nat)
    requires SetAbove(x, r, j) && j > 0
    ensures less == (if r > j then r - j else 0) && SetAbove(Or(x, Shr(x, j)), less, 2 * j)
  {
    if r > j {
      SmearMore(x, r, j);
      less := r - j;
    } else {
      SmearLast(x, r, j);
      less := 0;
    }
  }

  lemma OrShrBounds(x: nat, j: nat, m: nat)
    requires x < Pow2(m)
    ensures x <= Or(x, Shr(x, j)) < Pow2(m)
  {
    ShrSmaller(x, j);
    OrBounds(x, Shr(x, j), m);
  }

  lemma {:induction false} ShrSmaller(x: nat, j: nat)
    ensures Shr(x, j) <= x
    decreases j
  {
    if j > 0 { ShrSmaller(x / 2, j - 1); }
  }

  lemma SmearBounds(x: nat, m: nat)
    requires x < Pow2(m)
    ensures x <= Smear(x) < Pow2(m)
  {
    var x1 := Or(x, Shr(x, 1));
    var x2 := Or(x1, Shr(x1, 2));
    var x4 := Or(x2, Shr(x2, 4));
    var x8 := Or(x4, Shr(x4, 8));
    OrShrBounds(x, 1, m);
    OrShrBounds(x1, 2, m);
    OrShrBounds(x2, 4, m);
    OrShrBounds(x4, 8, m);
    OrShrBounds(x8, 16, m);
  }

  /** The least power of two that is at least `n`. */
  ghost predicate IsLeastPower(n: nat, p: nat) {
    && (exists k: nat :: p == Pow2(k))
    && n <= p
    && forall k: nat :: n <= Pow2(k) ==> p <= Pow2(k)
  }

  lemma SmearIsLeast(n: nat)
    requires 1 <= n <= MAX_SIZE
    ensures IsLeastPower(n, Smear(n - 1) + 1)
  {
    var x := n - 1;
    if x == 0 {
      assert Pow2(0) == 1 && Smear(0) == 0;
    } else {
      assert MAX_SIZE == Pow2(30) by { Pow2Values(); Pow2Add(10, 10); Pow2Add(20, 10); }
      var r := TopBit(x, 30);
      assert Pow2(1) == 2;
      SmearOnes(x, r);
      SmearBounds(x, r + 1);
      OnesFill(Smear(x), r);
      forall k: nat | n <= Pow2(k) ensures Pow2(r + 1) <= Pow2(k) {
        if k <= r { Pow2Monotone(k, r); }
        Pow2Monotone(r + 1, if k <= r then r + 1 else k);
      }
    }
  }

  /** Ones between `2^r` and `2^(r+1)` are all the ones below `2^(r+1)`. */
  lemma {:induction false} OnesFill(x: nat, r: nat)
    requires IsOnes(x) && Pow2(r) <= x < Pow2(r + 1)
    ensures x + 1 == Pow2(r + 1)
    decreases r
  {
    if r > 0 {
      OnesFill(x / 2, r - 1);
    } else {
      assert Pow2(0) == 1 && Pow2(1) == 2;
    }
  }

  /** `pow2gt`. */
  method Pow2Gt(n: nat) returns (p: nat)
    requires 1 <= n <= MAX_SIZE
    ensures IsLeastPower(n, p)
  {
    var x := n - 1;
    x := Or(x, Shr(x, 1));
    x := Or(x, Shr(x, 2));
    x := Or(x, Shr(x, 4));
    x := Or(x, Shr(x, 8));
    x := Or(x, Shr(x, 16));
    SmearIsLeast(n);
    return x + 1;
  }
}
