/** The bits of a LID, and how TabulateRoutes forms the LIDs of a range: LID | offset. */
module LidBits {
  import opened Fabrics

  /** `a | b` */
  function BitOr(a: nat, b: nat): nat {
    if a == 0 then b else if b == 0 then a
    else 2 * BitOr(a / 2, b / 2) + (if a % 2 == 1 || b % 2 == 1 then 1 else 0)
  }

  lemma OrZero(a: nat, b: nat)
    ensures a == 0 ==> BitOr(a, b) == b
    ensures b == 0 ==> BitOr(a, b) == a
  {
  }

  /** Bit `k` of `a` is set. */
  predicate Bit(a: nat, k: nat) {
    a / Pow2(k) % 2 == 1
  }

  lemma BitHalf(a: nat, k: nat)
    requires k > 0
    ensures Bit(a, k) <==> Bit(a / 2, k - 1)
  {
    var m := Pow2(k - 1);
    var q, r := a / 2 / m, a / 2 % m;
    assert a / 2 == q * m + r;
    var low := 2 * r + a % 2;
    assert a == q * (2 * m) + low && 0 <= low < 2 * m;
    DivUnique(a, 2 * m, q, low);
  }

  lemma DivUnique(a: int, n: int, q: int, r: int)
    requires n > 0 && a == q * n + r && 0 <= r < n
    ensures a / n == q
  {
    var d := a / n - q;
    assert a / n * n + a % n == a;
    assert d * n == r - a % n;
    assert d >= 1 ==> d * n >= n;
    assert d <= -1 ==> d * n <= -n;
  }

  lemma NoBits(k: nat)
    ensures !Bit(0, k)
  {
    DivUnique(0, Pow2(k), 0, 0);
  }

  lemma LowBit(a: nat)
    ensures Bit(a, 0) <==> a % 2 == 1
  {
    assert Pow2(0) == 1 && a / 1 == a;
  }

  lemma OrStep(a: nat, b: nat)
    requires a != 0 && b != 0
    ensures BitOr(a, b) == 2 * BitOr(a / 2, b / 2) + (if a % 2 == 1 || b % 2 == 1 then 1 else 0)
  {
  }

  lemma OddOr(a: nat, b: nat)
    requires a != 0 && b != 0
    ensures BitOr(a, b) % 2 == 1 <==> a % 2 == 1 || b % 2 == 1
  {
    OrStep(a, b);
    OddSum(BitOr(a / 2, b / 2), if a % 2 == 1 || b % 2 == 1 then 1 else 0);
  }

  lemma OddSum(x: nat, r: nat)
    requires r < 2
    ensures (2 * x + r) % 2 == r
  {
  }

  /** A bit of `a | b` is set if and only if it is set in `a` or in `b`. */
  lemma {:induction false} OrBits(a: nat, b: nat, k: nat)
    ensures Bit(BitOr(a, b), k) <==> Bit(a, k) || Bit(b, k)
    decreases k
  {
    hide Bit, BitOr;
    OrZero(a, b);
    if a == 0 || b == 0 {
      NoBits(k);
    } else if k == 0 {
      LowBit(a);
      LowBit(b);
      LowBit(BitOr(a, b));
      OddOr(a, b);
    } else {
      var c := BitOr(a, b);
      OrStep(a, b);
      assert c / 2 == BitOr(a / 2, b / 2);
      OrBits(a / 2, b / 2, k - 1);
      BitHalf(a, k);
      BitHalf(b, k);
      BitHalf(c, k);
    }
  }

  lemma HalfAligned(a: int, m: int)
    requires m > 0 && a % (2 * m) == 0
    ensures a == 2 * (a / 2) && a / 2 % m == 0
  {
    var q := a / (2 * m);
    assert a == q * (2 * m);
    assert a == 2 * (q * m);
    DivUnique(a / 2, m, q, 0);
  }

  /** An offset below 2^n is added to a multiple of 2^n. */
  lemma {:induction false} OrAligned(a: nat, i: nat, n: nat)
    requires a % Pow2(n) == 0 && i < Pow2(n)
    ensures BitOr(a, i) == a + i
    decreases n
  {
    if a == 0 || i == 0 {
      OrZero(a, i);
    } else {
      hide BitOr;
      HalfAligned(a, Pow2(n - 1));
      OrAligned(a / 2, i / 2, n - 1);
      OrStep(a, i);
    }
  }

  lemma {:induction false} Pow2Grows(m: nat, n: nat)
    requires m <= n
    ensures Pow2(m) <= Pow2(n)
    decreases n
  {
    if m < n {
      Pow2Grows(m, n - 1);
    }
  }
}
