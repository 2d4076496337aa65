/** Bits of natural numbers. */
module Bits {
  function PowerOf2(n: nat): (p: nat)
    ensures p >= 1
  {
    if n == 0 then 1 else 2 * PowerOf2(n - 1)
  }

  /** `m & (1 << i) != 0` */
  predicate HasBit(m: nat, i: nat) {
    if i == 0 then m % 2 == 1 else HasBit(m / 2, i - 1)
  }

  /** `m | (1 << i)` */
  function SetBit(m: nat, i: nat): nat {
    if i == 0 then 2 * (m / 2) + 1 else m % 2 + 2 * SetBit(m / 2, i - 1)
  }

  lemma Halves(low: nat, high: nat)
    requires low < 2
    ensures (low + 2 * high) / 2 == high && (low + 2 * high) % 2 == low
  {
  }

  lemma {:induction false} SetBitSets(m: nat, i: nat, j: nat)
    ensures HasBit(SetBit(m, i), j) <==> j == i || HasBit(m, j)
  {
    if i == 0 {
      Halves(1, m / 2);
    } else {
      Halves(m % 2, SetBit(m / 2, i - 1));
      if j > 0 {
        SetBitSets(m / 2, i - 1, j - 1);
      }
    }
  }

  lemma {:induction false} SetBitFits(m: nat, i: nat, n: nat)
    requires m < PowerOf2(n) && i < n
    ensures SetBit(m, i) < PowerOf2(n)
  {
    assert m / 2 < PowerOf2(n - 1);
    if i > 0 {
      SetBitFits(m / 2, i - 1, n - 1);
    }
  }

  lemma {:induction false} NoBitsInZero(i: nat)
    ensures !HasBit(0, i)
  {
    if i > 0 {
      NoBitsInZero(i - 1);
    }
  }

  ghost predicate AllBits(m: nat, n: nat) {
    forall i :: 0 <= i < n ==> HasBit(m, i)
  }

  lemma AllBitsOfHalf(m: nat, n: nat)
    requires n > 0
    ensures AllBits(m, n) <==> m % 2 == 1 && AllBits(m / 2, n - 1)
  {
    if AllBits(m, n) {
      assert HasBit(m, 0);
      forall i | 0 <= i < n - 1 ensures HasBit(m / 2, i) {
        assert HasBit(m, i + 1);
      }
    }
    if m % 2 == 1 && AllBits(m / 2, n - 1) {
      forall i | 0 <= i < n ensures HasBit(m, i) {
        assert i > 0 ==> HasBit(m / 2, i - 1);
      }
    }
  }

  /** A mask of `n` bits is all ones exactly when it has every bit. */
  lemma {:induction false} FullIff(m: nat, n: nat)
    requires m < PowerOf2(n)
    ensures m == PowerOf2(n) - 1 <==> AllBits(m, n)
  {
    if n > 0 {
      assert m == 2 * (m / 2) + m % 2 && m / 2 < PowerOf2(n - 1);
      FullIff(m / 2, n - 1);
      AllBitsOfHalf(m, n);
    }
  }

  /** Exclusive or of the low `k` bits. */
  function XorBits(a: nat, b: nat, k: nat): (r: nat)
    ensures r < PowerOf2(k)
  {
    if k == 0 then 0 else (if a % 2 == b % 2 then 0 else 1) + 2 * XorBits(a / 2, b / 2, k - 1)
  }

  lemma {:induction false} XorBitsTwice(a: nat, b: nat, k: nat)
    requires a < PowerOf2(k)
    ensures XorBits(XorBits(a, b, k), b, k) == a
  {
    if k > 0 {
      Halves(if a % 2 == b % 2 then 0 else 1, XorBits(a / 2, b / 2, k - 1));
      XorBitsTwice(a / 2, b / 2, k - 1);
    }
  }

  lemma {:induction false} XorBitsZero(a: nat, k: nat)
    requires a < PowerOf2(k)
    ensures XorBits(a, 0, k) == a
  {
    if k > 0 {
      XorBitsZero(a / 2, k - 1);
    }
  }

  lemma {:induction false} XorBitsMove(a: nat, b: nat, c: nat, k: nat)
    ensures XorBits(a, XorBits(b, c, k), k) == XorBits(XorBits(a, b, k), c, k)
  {
    if k > 0 {
      Halves(if a % 2 == b % 2 then 0 else 1, XorBits(a / 2, b / 2, k - 1));
      Halves(if b % 2 == c % 2 then 0 else 1, XorBits(b / 2, c / 2, k - 1));
      XorBitsMove(a / 2, b / 2, c / 2, k - 1);
    }
  }

  /** Each bit is set exactly if the two bits differ. */
  lemma {:induction false} XorBitAt(a: nat, b: nat, k: nat, i: nat)
    requires i < k
    ensures HasBit(XorBits(a, b, k), i) <==> HasBit(a, i) != HasBit(b, i)
  {
    Halves(if a % 2 == b % 2 then 0 else 1, XorBits(a / 2, b / 2, k - 1));
    if i > 0 {
      XorBitAt(a / 2, b / 2, k - 1, i - 1);
    }
  }
}
