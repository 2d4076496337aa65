/** Unsigned integers as bytes, most significant first. */
module BigEndian {
  import opened Bytes

  function Power256(k: nat): (p: nat)
    ensures p >= 1
  {
    if k == 0 then 1 else 256 * Power256(k - 1)
  }

  /** The low `k` bytes of `n`. */
  function ToBytes(n: nat, k: nat): (b: bytes)
    ensures |b| == k
  {
    if k == 0 then [] else ToBytes(n / 256, k - 1) + [n % 256]
  }

  function FromBytes(b: bytes): (n: nat)
    ensures n < Power256(|b|)
  {
    if b == [] then 0 else 256 * FromBytes(b[..|b| - 1]) + b[|b| - 1]
  }

  lemma {:induction false} FromToBytes(n: nat, k: nat)
    requires n < Power256(k)
    ensures FromBytes(ToBytes(n, k)) == n
  {
    if k > 0 {
      FromToBytes(n / 256, k - 1);
      assert ToBytes(n, k)[..k - 1] == ToBytes(n / 256, k - 1);
    }
  }

  lemma {:induction false} ToFromBytes(b: bytes)
    ensures ToBytes(FromBytes(b), |b|) == b
  {
    if b != [] {
      var (front, last) := (b[..|b| - 1], b[|b| - 1]);
      ToFromBytes(front);
      LowByte(FromBytes(front), last);
      assert b == front + [last];
    }
  }

  lemma LowByte(n: nat, last: byte)
    ensures (256 * n + last) / 256 == n && (256 * n + last) % 256 == last
  {
  }

  /** Byte `i` is the number shifted right by the bytes after it, modulo 256. */
  lemma {:induction false} ByteAt(n: nat, k: nat, i: nat)
    requires i < k
    ensures ToBytes(n, k)[i] == n / Power256(k - 1 - i) % 256
    decreases k
  {
    if i < k - 1 {
      ByteAt(n / 256, k - 1, i);
      DivDiv(n, Power256(k - 2 - i));
    }
  }

  lemma DivDiv(n: nat, p: nat)
    requires p > 0
    ensures n / 256 / p == n / (256 * p)
  {
    var (q, r) := (n / (256 * p), n % (256 * p));
    assert n == 256 * (p * q) + r;
    assert n / 256 == p * q + r / 256 && 0 <= r / 256 < p;
    QuotientIs(n / 256, p, q, r / 256);
  }

  /** Division is the one way to write `n` as a multiple of `d` and a remainder. */
  lemma QuotientIs(n: int, d: int, q: int, r: int)
    requires d > 0 && n == d * q + r && 0 <= r < d
    ensures n / d == q && n % d == r
  {
    var (q', r') := (n / d, n % d);
    Distribute(d, q', q);
    NoBigger(d, q' - q, r', r);
    NoBigger(d, q - q', r, r');
  }

  lemma NoBigger(d: int, k: int, r: int, r': int)
    requires d > 0 && 0 <= r < d && 0 <= r' < d && d * k == r' - r
    ensures k <= 0
  {
    if k >= 1 {
      MulAtLeast(d, k);
    }
  }

  lemma Distribute(d: int, a: int, b: int)
    ensures d * (a - b) == d * a - d * b && d * (b - a) == d * b - d * a
  {
  }

  lemma MulAtLeast(d: int, k: int)
    requires d > 0 && k >= 1
    ensures d * k >= d
  {
  }

  /** The first byte counts most. */
  lemma {:induction false} MostSignificantFirst(b: bytes)
    requires b != []
    ensures FromBytes(b) == b[0] * Power256(|b| - 1) + FromBytes(b[1..])
  {
    if |b| > 1 {
      var (front, last) := (b[..|b| - 1], b[|b| - 1]);
      MostSignificantFirst(front);
      assert b[1..][..|b| - 2] == front[1..] && b[1..][|b| - 2] == last;
      ShiftUp(b[0], Power256(|b| - 2), FromBytes(front[1..]));
    } else {
      assert b[..0] == [] && b[1..] == [];
    }
  }

  lemma ShiftUp(x: nat, p: nat, y: nat)
    ensures 256 * (x * p + y) == x * (256 * p) + 256 * y
  {
  }
}
