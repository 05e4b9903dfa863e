/** The C bit operations on non-negative integers, and the arithmetic facts the rest of the model needs. */
module Bits {
  const UINT32_RANGE := 0x1_0000_0000

  function Pow2(n: nat): (p: nat)
    ensures p >= 1
  {
    if n == 0 then 1 else 2 * Pow2(n - 1)
  }

  /** Bitwise `x & y`. */
  function And(x: nat, y: nat): nat
    decreases x
  {
    if x == 0 then 0 else 2 * And(x / 2, y / 2) + if x % 2 == 1 && y % 2 == 1 then 1 else 0
  }

  /** Bitwise `x | y`. */
  function Or(x: nat, y: nat): nat
    decreases x + y
  {
    if x == 0 && y == 0 then 0
    else 2 * Or(x / 2, y / 2) + if x % 2 == 1 || y % 2 == 1 then 1 else 0
  }

  /** `x << k` before it is cut to the word size. */
  function Shl(x: nat, k: nat): nat {
    if k == 0 then x else 2 * Shl(x, k - 1)
  }

  /** `x << k` on a 32-bit unsigned word. */
  function Shl32(x: nat, k: nat): nat {
    Shl(x, k) % UINT32_RANGE
  }

  /** `x >> k`. */
  function Shr(x: nat, k: nat): nat
    decreases k
  {
    if k == 0 then x else Shr(x / 2, k - 1)
  }

  /** The low `k` bits of `x`. */
  function Low(x: nat, k: nat): (r: nat)
    ensures r < Pow2(k)
    decreases k
  {
    if k == 0 then 0 else 2 * Low(x / 2, k - 1) + x % 2
  }

  lemma OrStep(x: nat, y: nat)
    ensures Or(x, y) == 2 * Or(x / 2, y / 2) + if x % 2 == 1 || y % 2 == 1 then 1 else 0
  {
  }

  lemma AndStep(x: nat, y: nat)
    ensures And(x, y) == 2 * And(x / 2, y / 2) + if x % 2 == 1 && y % 2 == 1 then 1 else 0
  {
  }

  lemma {:induction false} Pow2Add(a: nat, b: nat)
    ensures Pow2(a + b) == Pow2(a) * Pow2(b)
  {
    if a > 0 { Pow2Add(a - 1, b); }
  }

  lemma {:induction false} Pow2Monotone(a: nat, b: nat)
    requires a <= b
    ensures Pow2(a) <= Pow2(b)
    decreases b - a
  {
    if a < b { Pow2Monotone(a + 1, b); }
  }

  lemma {:induction false} Recompose(x: nat, k: nat)
    ensures x == Shl(Shr(x, k), k) + Low(x, k)
    decreases k
  {
    if k > 0 { Recompose(x / 2, k - 1); }
  }

  lemma {:induction false} ShlShift(x: nat, k: nat)
    ensures Shl(2 * x, k) == 2 * Shl(x, k)
    decreases k
  {
    if k > 0 { ShlShift(x, k - 1); }
  }

  /** A number built from a high part and a low part of `k` bits has exactly these parts. */
  lemma {:induction false} Compose(h: nat, l: nat, k: nat)
    requires l < Pow2(k)
    ensures Shr(Shl(h, k) + l, k) == h
    ensures Low(Shl(h, k) + l, k) == l
    decreases k
  {
    if k > 0 {
      assert (Shl(h, k) + l) / 2 == Shl(h, k - 1) + l / 2;
      Compose(h, l / 2, k - 1);
    }
  }

  /** Both operations act separately on the bits above and below any position. */
  lemma {:induction false} Split(x: nat, y: nat, k: nat)
    ensures Or(x, y) == Shl(Or(Shr(x, k), Shr(y, k)), k) + Or(Low(x, k), Low(y, k))
    ensures And(x, y) == Shl(And(Shr(x, k), Shr(y, k)), k) + And(Low(x, k), Low(y, k))
    decreases k
  {
    hide And, Or;
    if k > 0 {
      OrStep(x, y);
      AndStep(x, y);
      Split(x / 2, y / 2, k - 1);
      var xl, yl := Low(x, k), Low(y, k);
      OrStep(xl, yl);
      AndStep(xl, yl);
      assert xl / 2 == Low(x / 2, k - 1) && xl % 2 == x % 2;
      assert yl / 2 == Low(y / 2, k - 1) && yl % 2 == y % 2;
    } else {
      OrBothZero();
      AndZero(0);
    }
  }

  lemma OrBothZero()
    ensures Or(0, 0) == 0
  {
  }

  lemma {:induction false} OrZero(x: nat)
    ensures Or(x, 0) == x && Or(0, x) == x
  {
    hide Or;
    if x > 0 {
      OrStep(x, 0);
      OrStep(0, x);
      OrZero(x / 2);
    } else {
      OrBothZero();
    }
  }

  lemma {:induction false} AndZero(x: nat)
    ensures And(x, 0) == 0
  {
    if x > 0 { AndZero(x / 2); }
  }

  lemma {:induction false} OrBounds(x: nat, y: nat, m: nat)
    ensures x <= Or(x, y) && y <= Or(x, y)
    ensures x < Pow2(m) && y < Pow2(m) ==> Or(x, y) < Pow2(m)
    decreases x + y
  {
    hide Or;
    if x + y > 0 {
      OrStep(x, y);
      OrBounds(x / 2, y / 2, if m == 0 then 0 else m - 1);
    } else {
      OrBothZero();
    }
  }

  lemma {:induction false} OrCommutes(x: nat, y: nat)
    ensures Or(x, y) == Or(y, x)
    decreases x + y
  {
    hide Or;
    if x + y > 0 {
      OrStep(x, y);
      OrStep(y, x);
      OrCommutes(x / 2, y / 2);
    }
  }

  /** `|` is the sum when one operand has its low `k` bits clear and the other fits in them. */
  lemma OrDisjoint(h: nat, l: nat, k: nat)
    requires l < Pow2(k)
    ensures Or(Shl(h, k), l) == Shl(h, k) + l
    ensures Or(l, Shl(h, k)) == Shl(h, k) + l
  {
    hide And, Or, Shl, Shr, Low, Pow2;
    var high := Shl(h, k);
    assert Shr(high, k) == h && Low(high, k) == 0 by { Compose(h, 0, k); }
    assert Shr(l, k) == 0 && Low(l, k) == l by { ShlZero(k); Compose(0, l, k); }
    Split(high, l, k);
    OrZero(h);
    OrZero(l);
    OrCommutes(high, l);
  }

  lemma {:induction false} ShlZero(k: nat)
    ensures Shl(0, k) == 0
  {
    if k > 0 { ShlZero(k - 1); }
  }

  /** Masking with `2^k - 1` keeps the low `k` bits. */
  lemma {:induction false} AndMask(x: nat, k: nat)
    ensures And(x, Pow2(k) - 1) == Low(x, k)
    decreases k
  {
    hide And;
    if k == 0 {
      AndZero(x);
    } else {
      var mask := Pow2(k) - 1;
      assert mask == 2 * (Pow2(k - 1) - 1) + 1;
      AndStep(x, mask);
      assert mask / 2 == Pow2(k - 1) - 1 && mask % 2 == 1;
      AndMask(x / 2, k - 1);
    }
  }

  lemma Pow2Values()
    ensures Pow2(1) == 2 && Pow2(2) == 4 && Pow2(3) == 8 && Pow2(4) == 16 && Pow2(5) == 32 && Pow2(6) == 64
    ensures Pow2(8) == 256 && Pow2(10) == 1024
  {
    assert Pow2(7) == 128;
    assert Pow2(9) == 512;
  }

  lemma TwoAtOnce(x: nat, k: nat)
    requires k >= 2
    ensures Shr(x, k) == Shr(x / 4, k - 2)
    ensures Low(x, k) == 4 * Low(x / 4, k - 2) + x % 4
    ensures Shl(x, k) == 4 * Shl(x, k - 2)
  {
    assert Shr(x, k) == Shr(x / 2, k - 1);
    assert Low(x, k) == 2 * Low(x / 2, k - 1) + x % 2;
    assert Shl(x, k) == 2 * Shl(x, k - 1);
  }

  lemma ByFour(x: nat)
    ensures Shr(x, 4) == x / 16 && Low(x, 4) == x % 16 && Shl(x, 4) == 16 * x
  {
    TwoAtOnce(x, 4);
    TwoAtOnce(x / 4, 2);
    TwoAtOnce(x, 2);
  }

  lemma BySix(x: nat)
    ensures Shr(x, 6) == x / 64 && Low(x, 6) == x % 64 && Shl(x, 6) == 64 * x
  {
    TwoAtOnce(x, 6);
    ByFour(x / 4);
    ByFour(x);
  }

  lemma {:induction false} ShlIsProduct(x: nat, k: nat)
    ensures Shl(x, k) == x * Pow2(k)
  {
    if k > 0 { ShlIsProduct(x, k - 1); }
  }

  /** `((hi & 0x3FF) << 10) | (lo & 0x3FF)` joins the payloads of a surrogate pair. */
  lemma SurrogatePayload(hi: nat, lo: nat)
    requires 0xD800 <= hi < 0xDC00 <= lo < 0xE000
    ensures Or(Shl(And(hi, 0x3FF), 10), And(lo, 0x3FF)) == (hi - 0xD800) * 1024 + (lo - 0xDC00)
  {
    JoinLow(54, hi - 0xD800, 55, lo - 0xDC00, 10, 1024);
  }

  lemma JoinLow(h1: nat, l1: nat, h2: nat, l2: nat, k: nat, p: nat)
    requires p == Pow2(k) && l1 < p && l2 < p
    ensures Or(Shl(And(h1 * p + l1, p - 1), k), And(h2 * p + l2, p - 1)) == l1 * p + l2
  {
    hide And, Or, Shl, Pow2;
    assert And(h1 * p + l1, p - 1) == l1 by { KeepLow(h1, l1, k); }
    assert And(h2 * p + l2, p - 1) == l2 by { KeepLow(h2, l2, k); }
    ShlIsProduct(l1, k);
    OrDisjoint(l1, l2, k);
  }

  lemma KeepLow(h: nat, l: nat, k: nat)
    requires l < Pow2(k)
    ensures And(h * Pow2(k) + l, Pow2(k) - 1) == l
  {
    hide And, Shl, Low, Shr, Pow2;
    ShlIsProduct(h, k);
    Compose(h, l, k);
    AndMask(Shl(h, k) + l, k);
  }

  /** The UTF-8 continuation byte for the low six bits of `x`: `(x | 0x80) & 0xBF`. */
  lemma ContinuationByte(x: nat)
    ensures And(Or(x, 0x80), 0xBF) == 0x80 + x % 64
  {
    hide And, Or, Shl, Shr, Low, Pow2;
    Pow2Values();
    Marked(x, 2, 6);
    BySix(x);
    BySix(2);
  }

  lemma Marked(x: nat, two: nat, k: nat)
    requires two == 2 && k == 6 && Pow2(k) == 64
    ensures And(Or(x, Shl(two, k)), Shl(two, k) + 63) == Shl(two, k) + Low(x, k)
  {
    hide And, Or, Shl, Shr, Low, Pow2;
    var o := Or(Shr(x, k), two);
    OrHigh(x, two, k);
    AndHigh(o, Low(x, k), two, k);
    TwoBit(Shr(x, k), two);
  }

  lemma OrHigh(x: nat, m: nat, k: nat)
    ensures Or(x, Shl(m, k)) == Shl(Or(Shr(x, k), m), k) + Low(x, k)
  {
    hide And, Or, Shl, Shr, Low, Pow2;
    Compose(m, 0, k);
    Split(x, Shl(m, k), k);
    OrZero(Low(x, k));
  }

  lemma AndHigh(h: nat, l: nat, m: nat, k: nat)
    requires l < Pow2(k)
    ensures And(Shl(h, k) + l, Shl(m, k) + (Pow2(k) - 1)) == Shl(And(h, m), k) + l
  {
    hide And, Or, Shl, Shr, Low, Pow2;
    var ones := Pow2(k) - 1;
    Compose(h, l, k);
    Compose(m, ones, k);
    Split(Shl(h, k) + l, Shl(m, k) + ones, k);
    AndMask(l, k);
    Compose(0, l, k);
    ShlZero(k);
  }

  lemma TwoBit(h: nat, two: nat)
    requires two == 2
    ensures And(Or(h, two), two) == two
  {
    hide And, Or;
    var o := Or(h, two);
    OrStep(h, two);
    OrStep(h / 2, two / 2);
    AndStep(o, two);
    AndStep(o / 2, two / 2);
    AndZero(o / 2 / 2);
  }
}
