/** Decimal printing (`Display` of unsigned integers) and parsing (`from_str_radix(_, 10)`). */
module Decimal {
  import opened Wrappers
  import BigEndian

  predicate IsDigit(c: char) { '0' <= c <= '9' }

  function Digit(d: nat): (c: char)
    requires d < 10
    ensures IsDigit(c) && c as int - '0' as int == d
  {
    ('0' as int + d) as char
  }

  function Print(n: nat): (s: string)
    ensures s != "" && forall c :: c in s ==> IsDigit(c)
  {
    if n < 10 then [Digit(n)] else Print(n / 10) + [Digit(n % 10)]
  }

  function Digits(s: string): Option<nat> {
    if s == "" then Some(0)
    else
      var last := s[|s| - 1];
      match Digits(s[..|s| - 1])
      case Some(v) => if IsDigit(last) then Some(10 * v + (last as int - '0' as int)) else None
      case None => None
  }

  /** An unsigned integer below `bound`: at least one digit, an optional leading plus sign. */
  function Parse(s: string, bound: nat): (r: Option<nat>)
    ensures r.Some? ==> r.value < bound
  {
    if s == "" || s == "+" || s == "-" then None
    else
      match Digits(if s[0] == '+' then s[1..] else s)
      case Some(v) => if v < bound then Some(v) else None
      case None => None
  }

  lemma {:induction false} DigitsOfPrint(n: nat)
    ensures Digits(Print(n)) == Some(n)
  {
    if n < 10 {
      assert Print(n)[..0] == "";
    } else {
      DigitsOfPrint(n / 10);
      assert Print(n)[..|Print(n)| - 1] == Print(n / 10);
    }
  }

  /** A printed number parses back, if it is in range. */
  lemma ParsePrint(n: nat, bound: nat)
    ensures Parse(Print(n), bound) == if n < bound then Some(n) else None
  {
    DigitsOfPrint(n);
    assert Print(n)[0] in Print(n);
  }

  function Power10(i: nat): (p: nat)
    ensures p >= 1
  {
    if i == 0 then 1 else 10 * Power10(i - 1)
  }

  /** The digits stand for powers of ten, the last one for the ones, and there is no zero in front. */
  lemma {:induction false} PrintedDigit(n: nat, i: nat)
    requires i < |Print(n)|
    ensures Print(n)[|Print(n)| - 1 - i] as int - '0' as int == n / Power10(i) % 10
    ensures Print(n)[0] == '0' ==> n == 0
    decreases n
  {
    if n >= 10 {
      var front := Print(n / 10);
      PrintedDigit(n / 10, if i > 0 then i - 1 else 0);
      if i > 0 {
        assert Print(n)[|Print(n)| - 1 - i] == front[|front| - 1 - (i - 1)];
        DivDiv(n, Power10(i - 1));
      }
    } else {
      assert Power10(0) == 1;
    }
  }

  lemma DivDiv(n: nat, p: nat)
    requires p > 0
    ensures n / 10 / p == n / (10 * p)
  {
    var (q, r) := (n / (10 * p), n % (10 * p));
    assert n == 10 * (p * q) + r;
    assert n / 10 == p * q + r / 10 && 0 <= r / 10 < p;
    BigEndian.QuotientIs(n / 10, p, q, r / 10);
  }

  /** Zero-padded to a minimum width, as in `{:0width$}`. */
  function PrintPadded(n: nat, width: nat): (s: string)
    ensures |s| >= width
  {
    Zeros(width - |Print(n)|) + Print(n)
  }

  function Zeros(k: int): (s: string)
    ensures |s| == if k < 0 then 0 else k
    ensures forall c :: c in s ==> c == '0'
    decreases if k < 0 then 0 else k
  {
    if k <= 0 then "" else "0" + Zeros(k - 1)
  }
}
