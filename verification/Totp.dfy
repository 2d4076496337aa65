/** One-time passwords (`src/totp.rs`, with the list item string of `src/actions.rs:1930-1941`; section
    5.3 of RFC 4226, section 4.2 of RFC 6238). HMAC is any function of key and message to at least 20
    bytes, base32 any function of text. */
module Totp {
  import opened Wrappers
  import opened Bytes
  import opened BigEndian
  import opened Bits
  import opened RecordText
  import opened Records
  import Decimal

  datatype Hashes = Hashes(
    sha1: (bytes, bytes) -> bytes, sha256: (bytes, bytes) -> bytes, sha512: (bytes, bytes) -> bytes)
  {
    ghost predicate LongEnough() {
      forall k, m :: |sha1(k, m)| >= 20 && |sha256(k, m)| >= 20 && |sha512(k, m)| >= 20
    }
  }

  datatype TotpEntry = TotpEntry(stepSeconds: nat, secret: bytes, digitCount: nat, algorithm: Algorithm)

  /** Where the original would panic: no algorithm, or a power of ten that has wrapped to zero. */
  datatype Panic = NoHmac | DivisionByZero

  // ----- the counter

  function Step(stepSeconds: nat): (s: nat)
    ensures s >= 1
  {
    if stepSeconds == 0 then 1 else stepSeconds
  }

  method UnpackU64(v: nat) returns (b: array<byte>)
    requires v < U64_LIMIT
    ensures fresh(b) && b[..] == ToBytes(v, 8)
  {
    b := new byte[8](_ => 0);
    for i := 0 to 8
      invariant forall j :: 8 - i <= j < 8 ==> b[j] == ToBytes(v, 8)[j]
    {
      ByteAt(v, 8, 7 - i);
      b[7 - i] := v / Power256(i) % 256;
    }
    assert b[..] == ToBytes(v, 8);
  }

  function Hmac(hashes: Hashes, entry: TotpEntry, time: nat): Result<bytes, Panic> {
    var message := ToBytes(time / Step(entry.stepSeconds), 8);
    match entry.algorithm
    case HmacSha1 => Ok(hashes.sha1(entry.secret, message))
    case HmacSha256 => Ok(hashes.sha256(entry.secret, message))
    case HmacSha512 => Ok(hashes.sha512(entry.secret, message))
    case NoAlgorithm => Err(NoHmac)
  }

  /** Eight bytes, big-endian, that count the whole steps up to this time; a step of zero counts as one. */
  ghost predicate CountsSteps(c: bytes, stepSeconds: nat, time: nat) {
    var step := if stepSeconds == 0 then 1 else stepSeconds;
    |c| == 8 && FromBytes(c) * step <= time < (FromBytes(c) + 1) * step
  }

  /** The hash that the algorithm names, of this message under this secret. */
  ghost predicate IsHash(hashes: Hashes, algorithm: Algorithm, secret: bytes, message: bytes, h: bytes) {
    match algorithm
    case HmacSha1 => h == hashes.sha1(secret, message)
    case HmacSha256 => h == hashes.sha256(secret, message)
    case HmacSha512 => h == hashes.sha512(secret, message)
    case NoAlgorithm => false
  }

  lemma CounterCounts(stepSeconds: nat, time: nat)
    requires time < U64_LIMIT
    ensures CountsSteps(ToBytes(time / Step(stepSeconds), 8), stepSeconds, time)
  {
    var step := Step(stepSeconds);
    CounterComesBack(time, step);
    WholeSteps(time, step);
  }

  lemma WholeSteps(time: nat, step: nat)
    requires step >= 1
    ensures time / step * step <= time < (time / step + 1) * step
  {
    assert time == step * (time / step) + time % step;
  }

  method GenerateHmacBytes(hashes: Hashes, entry: TotpEntry, time: nat)
    returns (r: Result<bytes, Panic>, ghost message: bytes)
    requires time < U64_LIMIT
    ensures r == Hmac(hashes, entry, time)
    ensures CountsSteps(message, entry.stepSeconds, time)
    ensures entry.algorithm.NoAlgorithm? ==> r == Err(NoHmac)
    ensures !entry.algorithm.NoAlgorithm? ==> r.Ok? && IsHash(hashes, entry.algorithm, entry.secret, message, r.value)
  {
    var step := if entry.stepSeconds == 0 then 1 else entry.stepSeconds;
    QuotientFits(time, step);
    var counter := UnpackU64(time / step);
    message := counter[..];
    CounterCounts(entry.stepSeconds, time);
    match entry.algorithm {
      case HmacSha1 => r := Ok(hashes.sha1(entry.secret, counter[..]));
      case HmacSha256 => r := Ok(hashes.sha256(entry.secret, counter[..]));
      case HmacSha512 => r := Ok(hashes.sha512(entry.secret, counter[..]));
      case NoAlgorithm => r := Err(NoHmac);
    }
  }

  lemma QuotientFits(time: nat, step: nat)
    requires step >= 1
    ensures time / step <= time
  {
    assert time == step * (time / step) + time % step;
    if time / step > 0 {
      MulAtLeast(time / step, step);
    }
  }

  // ----- truncation

  function Power10(n: nat): (p: nat)
    ensures p >= 1
  {
    if n == 0 then 1 else 10 * Power10(n - 1)
  }

  /** Four bytes from the offset that the low bits of the last byte name, without the top bit. */
  function Truncate(hash: bytes): nat
    requires |hash| >= 20
  {
    var offset := hash[|hash| - 1] % 16;
    Joined(hash[offset] % 128, hash[offset + 1], hash[offset + 2], hash[offset + 3])
  }

  /** Four bytes shifted into place and joined. */
  function Joined(a: nat, b: nat, c: nat, d: nat): nat {
    0x100_0000 * a + 0x1_0000 * b + 0x100 * c + d
  }

  /** A number modulo 2^64. */
  function Wrapping(n: nat): (w: nat)
    ensures w < U64_LIMIT && (n < U64_LIMIT ==> w == n)
  {
    if n < U64_LIMIT then n else Wrapping(n - U64_LIMIT)
  }

  /** `10_u64.pow(n)` of a release build, which does not check for overflow. */
  function Pow(n: nat): (p: nat)
    ensures p < U64_LIMIT
  {
    if n == 0 then 1 else Wrapping(10 * Pow(n - 1))
  }

  function Code(hash: bytes, digits: nat): Result<string, Panic>
    requires |hash| >= 20
  {
    if Pow(digits) == 0 then Err(DivisionByZero)
    else Ok(Decimal.PrintPadded(Truncate(hash) % Pow(digits), digits))
  }

  function TotpCode(hashes: Hashes, entry: TotpEntry, time: nat): Result<string, Panic>
    requires hashes.LongEnough()
  {
    var hash :- Hmac(hashes, entry, time);
    Code(hash, entry.digitCount)
  }

  /** Truncation is the 31 low bits of the big-endian number at the offset. */
  lemma TruncateIs31Bits(hash: bytes)
    requires |hash| >= 20
    ensures var offset := hash[|hash| - 1] % 16;
            && offset + 4 <= |hash| && Truncate(hash) < 0x8000_0000
            && Truncate(hash) == FromBytes(hash[offset..offset + 4]) % 0x8000_0000
  {
    var offset := hash[|hash| - 1] % 16;
    var (a, b, c, d) := (hash[offset], hash[offset + 1], hash[offset + 2], hash[offset + 3]);
    assert hash[offset..offset + 4] == [a, b, c, d];
    FromFour(a, b, c, d);
  }

  lemma FromFour(a: byte, b: byte, c: byte, d: byte)
    ensures FromBytes([a, b, c, d]) == Joined(a, b, c, d)
    ensures Joined(a % 128, b, c, d) == Joined(a, b, c, d) % 0x8000_0000
  {
    assert [a, b, c, d][..3] == [a, b, c] && [a, b, c][..2] == [a, b] && [a, b][..1] == [a] && [a][..0] == [];
    assert FromBytes([a]) == a;
    assert FromBytes([a, b]) == 256 * (a as nat) + b;
    assert FromBytes([a, b, c]) == 0x1_0000 * (a as nat) + 256 * (b as nat) + c;
  }

  // ----- what is printed

  lemma {:induction false} PrintLength(n: nat, w: nat)
    requires w >= 1 && n < Power10(w)
    ensures |Decimal.Print(n)| <= w
  {
    if n >= 10 {
      assert n / 10 < Power10(w - 1);
      PrintLength(n / 10, w - 1);
    }
  }

  lemma {:induction false} ZerosFirst(k: int, s: string)
    requires s != "" && Decimal.Digits(s).Some?
    ensures Decimal.Digits(Decimal.Zeros(k) + s) == Decimal.Digits(s)
    decreases |s|, if k < 0 then 0 else k
  {
    var z := Decimal.Zeros(k);
    var (t, last) := (s[..|s| - 1], s[|s| - 1]);
    assert (z + s)[..|z + s| - 1] == z + t;
    if t == "" {
      AllZeros(k);
      assert z + t == z;
    } else {
      ZerosFirst(k, t);
    }
  }

  lemma {:induction false} AllZeros(k: int)
    ensures Decimal.Digits(Decimal.Zeros(k)) == Some(0)
    decreases if k < 0 then 0 else k
  {
    if k > 0 {
      var z := Decimal.Zeros(k);
      var fewer := Decimal.Zeros(k - 1);
      forall i | 0 <= i < k - 1 ensures z[i] == fewer[i] {
        assert z[i] in z && fewer[i] in fewer;
      }
      assert z[..|z| - 1] == fewer && z[|z| - 1] in z;
      AllZeros(k - 1);
    }
  }

  // ----- the wrapped power

  lemma {:induction false} Power2Adds(m: nat, n: nat)
    ensures PowerOf2(m + n) == PowerOf2(m) * PowerOf2(n)
  {
    if m > 0 {
      Power2Adds(m - 1, n);
    }
  }

  lemma {:induction false} WrappingIs(n: nat, times: nat)
    requires 0 <= n - times * U64_LIMIT < U64_LIMIT
    ensures Wrapping(n) == n - times * U64_LIMIT
  {
    if times > 0 {
      WrappingIs(n - U64_LIMIT, times - 1);
    }
  }

  lemma Power2Of64()
    ensures PowerOf2(64) == U64_LIMIT && PowerOf2(63) == 0x8000_0000_0000_0000 && PowerOf2(31) == 0x8000_0000
  {
    var p4 := Doubled(2, 4);
    var p8 := Doubled(4, p4);
    var p16 := Doubled(8, p8);
    var p32 := Doubled(16, p16);
    var p64 := Doubled(32, p32);
  }

  lemma Doubled(n: nat, p: nat) returns (square: nat)
    requires PowerOf2(n) == p
    ensures square == p * p == PowerOf2(2 * n)
  {
    Power2Adds(n, n);
    square := p * p;
  }

  /** Below 64 the power of ten keeps exactly as many factors of two as it has factors of ten. */
  lemma {:induction false} PowIsOddMultiple(n: nat) returns (half: int)
    requires n < 64
    ensures Pow(n) == PowerOf2(n) * (2 * half + 1)
  {
    if n == 0 {
      half := 0;
    } else {
      var h := PowIsOddMultiple(n - 1);
      var q := WrapsOff(n);
      half := 5 * h + 2 - q * PowerOf2(63 - n);
      TakeOut(PowerOf2(n - 1), h, q, PowerOf2(63 - n));
    }
  }

  lemma WrapsOff(n: nat) returns (q: nat)
    requires 0 < n < 64
    ensures Pow(n) == 10 * Pow(n - 1) - q * (4 * PowerOf2(n - 1) * PowerOf2(63 - n))
  {
    q := 10 * Pow(n - 1) / U64_LIMIT;
    WrappingIs(10 * Pow(n - 1), q);
    Power2Of64();
    Power2Adds(n + 1, 63 - n);
    assert PowerOf2(n + 1) == 2 * PowerOf2(n);
  }

  lemma TakeOut(p: int, h: int, q: int, r: int)
    ensures 10 * (p * (2 * h + 1)) - q * (4 * p * r) == 2 * p * (2 * (5 * h + 2 - q * r) + 1)
  {
    var (x, y) := (p * h, p * (q * r));
    assert p * (2 * h + 1) == 2 * x + p;
    assert q * (4 * p * r) == 4 * y;
    assert 2 * p * (2 * (5 * h + 2 - q * r) + 1) == 20 * x + 10 * p - 4 * y;
  }

  /** The wrapped power is zero from 64 on. */
  lemma PowIsZeroIff(n: nat)
    ensures Pow(n) == 0 <==> n >= 64
  {
    if n < 64 {
      PowIsNotZero(n);
    } else {
      PowIsZero(n);
    }
  }

  lemma PowIsNotZero(n: nat)
    requires n < 64
    ensures Pow(n) != 0
  {
    var half := PowIsOddMultiple(n);
    NoZeroFactor(PowerOf2(n), 2 * half + 1);
  }

  lemma {:induction false} PowIsZero(n: nat)
    requires n >= 64
    ensures Pow(n) == 0
  {
    if n == 64 {
      PowOf63();
      WrappingIs(10 * 0x8000_0000_0000_0000, 5);
    } else {
      PowIsZero(n - 1);
    }
  }

  lemma PowOf63()
    ensures Pow(63) == 0x8000_0000_0000_0000
  {
    var half := PowIsOddMultiple(63);
    Power2Of64();
    OnlyMultiple(0x8000_0000_0000_0000, half, Pow(63));
  }

  lemma OnlyMultiple(a: nat, half: int, p: nat)
    requires p == a * (2 * half + 1) && p < 2 * a
    ensures p == a
  {
  }

  lemma NoZeroFactor(a: int, b: int)
    requires a != 0 && b != 0
    ensures a * b != 0
  {
  }

  lemma PowersOfTen()
    ensures Power10(10) == 10_000_000_000 && Power10(19) == 10_000_000_000_000_000_000
  {
    assert Power10(5) == 100_000;
    assert Power10(10) == 10_000_000_000;
    assert Power10(15) == 1_000_000_000_000_000;
  }

  lemma {:induction false} PowersGrow(m: nat, n: nat)
    requires m <= n
    ensures Power10(m) <= Power10(n)
    decreases n
  {
    if m < n {
      PowersGrow(m, n - 1);
    }
  }

  lemma {:induction false} PowIsExact(n: nat)
    requires n <= 19
    ensures Pow(n) == Power10(n)
  {
    if n > 0 {
      PowIsExact(n - 1);
      FitsIn64Bits(n);
    }
  }

  lemma FitsIn64Bits(n: nat)
    requires n <= 19
    ensures Power10(n) < U64_LIMIT
  {
    PowersOfTen();
    PowersGrow(n, 19);
  }

  lemma PowOf19() returns (m: nat, v: nat)
    ensures m == 19 && v == 10_000_000_000_000_000_000 && Pow(m) == v
  {
    m, v := 19, 10_000_000_000_000_000_000;
    PowersOfTen();
    PowIsExact(m);
  }

  /** One more factor of ten, and how often it wraps. */
  lemma NextPow(m: nat, v: nat, wrapped: nat) returns (n: nat, next: nat)
    requires Pow(m) == v && 0x8000_0000 <= 10 * v - wrapped * U64_LIMIT < U64_LIMIT
    ensures n == m + 1 && next == 10 * v - wrapped * U64_LIMIT && Pow(n) == next >= 0x8000_0000
  {
    WrappingIs(10 * v, wrapped);
    n, next := m + 1, 10 * v - wrapped * U64_LIMIT;
  }

  /** From 20 to 30 it takes the values to see that it stays above every truncated hash. */
  lemma FirstWraps(n: nat)
    requires 20 <= n < 31
    ensures Pow(n) >= 0x8000_0000
  {
    var m, v := PowOf19();
    m, v := NextPow(m, v, 5);
    if n == m { return; }
    m, v := NextPow(m, v, 4);
    if n == m { return; }
    m, v := NextPow(m, v, 2);
    if n == m { return; }
    m, v := NextPow(m, v, 1);
    if n == m { return; }
    m, v := NextPow(m, v, 0);
    if n == m { return; }
    LaterWraps(n, m);
  }

  lemma LaterWraps(n: nat, from: nat)
    requires from == 24 < n < 31 && Pow(from) == 2_003_764_205_206_896_640
    ensures Pow(n) >= 0x8000_0000
  {
    var m, v := from, Pow(from);
    m, v := NextPow(m, v, 1);
    if n == m { return; }
    m, v := NextPow(m, v, 0);
    if n == m { return; }
    m, v := NextPow(m, v, 8);
    if n == m { return; }
    m, v := NextPow(m, v, 6);
    if n == m { return; }
    m, v := NextPow(m, v, 2);
    if n == m { return; }
    m, v := NextPow(m, v, 4);
  }

  /** From 31 on the factors of two alone keep it there. */
  lemma OddMultipleIsLarge(n: nat)
    requires 31 <= n < 64
    ensures Pow(n) >= 0x8000_0000
  {
    var half := PowIsOddMultiple(n);
    Power2Adds(31, n - 31);
    Power2Of64();
    AtLeastFactor(PowerOf2(31), PowerOf2(n - 31));
    AtLeastFactor(PowerOf2(n), 2 * half + 1);
  }

  lemma AtLeastFactor(a: nat, b: int)
    requires a > 0 && b != 0 && a * b >= 0
    ensures a * b >= a
  {
  }

  lemma SmallMod(n: nat, m: nat)
    requires n < m
    ensures n % m == n
  {
  }

  /** Taking the remainder by the wrapped power comes to taking it by the power. */
  lemma WrappingIsHarmless(n: nat, digits: nat)
    requires n < 0x8000_0000 && digits < 64
    ensures Pow(digits) > 0 && n % Pow(digits) == n % Power10(digits)
  {
    PowIsZeroIff(digits);
    if digits <= 19 {
      PowIsExact(digits);
    } else {
      if digits < 31 {
        FirstWraps(digits);
      } else {
        OddMultipleIsLarge(digits);
      }
      PowersGrow(10, digits);
      PowersOfTen();
      SmallMod(n, Pow(digits));
      SmallMod(n, Power10(digits));
    }
  }

  /** A code can be made for up to 63 digits; for more the power of ten has wrapped to zero. It consists
      of digits that spell the truncated hash modulo the power of ten that was asked for, although that
      power does not fit 64 bits above 19 digits, and there are exactly as many as asked for unless none
      were, which prints one zero. */
  lemma CodeIsExactIff(hash: bytes, digits: nat)
    requires |hash| >= 20
    ensures Code(hash, digits).Ok? <==> digits < 64
    ensures digits < 64 ==> (|Code(hash, digits).value| == digits <==> digits >= 1)
    ensures digits < 64 ==>
              && (forall c :: c in Code(hash, digits).value ==> Decimal.IsDigit(c))
              && Decimal.Digits(Code(hash, digits).value) == Some(Truncate(hash) % Power10(digits))
  {
    PowIsZeroIff(digits);
    if digits < 64 {
      TruncateIs31Bits(hash);
      WrappingIsHarmless(Truncate(hash), digits);
      var n := Truncate(hash) % Power10(digits);
      if digits >= 1 {
        PrintLength(n, digits);
      }
      Decimal.DigitsOfPrint(n);
      ZerosFirst(digits - |Decimal.Print(n)|, Decimal.Print(n));
    }
  }

  lemma HmacIsOfCounter(hashes: Hashes, entry: TotpEntry, time: nat) returns (message: bytes)
    requires time < U64_LIMIT && !entry.algorithm.NoAlgorithm?
    ensures CountsSteps(message, entry.stepSeconds, time) && Hmac(hashes, entry, time).Ok?
    ensures IsHash(hashes, entry.algorithm, entry.secret, message, Hmac(hashes, entry, time).value)
  {
    message := ToBytes(time / Step(entry.stepSeconds), 8);
    CounterCounts(entry.stepSeconds, time);
  }

  /** From time to code: the whole steps are hashed under the secret with the algorithm that is named, four
      bytes of the hash are taken from where its last four bits point, without their top bit, and the code
      spells them modulo the power of ten. */
  lemma TotpCodeIs(hashes: Hashes, entry: TotpEntry, time: nat) returns (message: bytes, h: bytes)
    requires hashes.LongEnough() && time < U64_LIMIT && !entry.algorithm.NoAlgorithm? && entry.digitCount < 64
    ensures CountsSteps(message, entry.stepSeconds, time)
    ensures IsHash(hashes, entry.algorithm, entry.secret, message, h) && |h| >= 20
    ensures var (code, offset) := (TotpCode(hashes, entry, time), h[|h| - 1] % 16);
            && code.Ok? && (entry.digitCount > 0 ==> |code.value| == entry.digitCount)
            && (forall c :: c in code.value ==> Decimal.IsDigit(c))
            && Decimal.Digits(code.value)
            == Some(FromBytes(h[offset..offset + 4]) % 0x8000_0000 % Power10(entry.digitCount))
  {
    message := HmacIsOfCounter(hashes, entry, time);
    h := Hmac(hashes, entry, time).value;
    TruncateIs31Bits(h);
    CodeIsExactIff(h, entry.digitCount);
  }

  /** The counter that is hashed is the number of whole steps, so that codes change only with the step;
      a step of zero seconds counts as one. */
  lemma CodesFollowSteps(hashes: Hashes, entry: TotpEntry, t: nat, u: nat)
    requires hashes.LongEnough() && t < U64_LIMIT && u < U64_LIMIT
    ensures FromBytes(ToBytes(t / Step(entry.stepSeconds), 8)) == t / Step(entry.stepSeconds)
    ensures t / Step(entry.stepSeconds) == u / Step(entry.stepSeconds)
       <==> ToBytes(t / Step(entry.stepSeconds), 8) == ToBytes(u / Step(entry.stepSeconds), 8)
    ensures t / Step(entry.stepSeconds) == u / Step(entry.stepSeconds) ==>
              TotpCode(hashes, entry, t) == TotpCode(hashes, entry, u)
    ensures entry.stepSeconds == 0 ==> TotpCode(hashes, entry, t) == TotpCode(hashes, entry.(stepSeconds := 1), t)
  {
    CounterComesBack(t, Step(entry.stepSeconds));
    CounterComesBack(u, Step(entry.stepSeconds));
  }

  /** Different messages have different hashes under one secret. */
  ghost predicate Injective(hash: (bytes, bytes) -> bytes) {
    forall k, m, n :: hash(k, m) == hash(k, n) ==> m == n
  }

  /** With such hashes, two times have the same hash if and only if the same number of steps has passed. */
  lemma HashesTellSteps(hashes: Hashes, entry: TotpEntry, t: nat, u: nat)
    requires Injective(hashes.sha1) && Injective(hashes.sha256) && Injective(hashes.sha512)
    requires t < U64_LIMIT && u < U64_LIMIT && !entry.algorithm.NoAlgorithm?
    ensures var step := if entry.stepSeconds == 0 then 1 else entry.stepSeconds;
            Hmac(hashes, entry, t) == Hmac(hashes, entry, u) <==> t / step == u / step
  {
    CounterComesBack(t, Step(entry.stepSeconds));
    CounterComesBack(u, Step(entry.stepSeconds));
  }

  lemma CounterComesBack(t: nat, step: nat)
    requires step >= 1 && t < U64_LIMIT
    ensures FromBytes(ToBytes(t / step, 8)) == t / step
  {
    QuotientFits(t, step);
    EightBytes();
    FromToBytes(t / step, 8);
  }

  lemma EightBytes()
    ensures Power256(8) == U64_LIMIT
  {
    assert Power256(2) == 0x1_0000;
    assert Power256(4) == 0x1_0000_0000;
    assert Power256(6) == 0x1_0000_0000_0000;
  }

  // ----- the list item string

  /** `make_totp_item_from_record`: what a list item keeps of a record. */
  function ItemExtra(r: TotpRecord): string {
    Colons(r.secret, Decimal.Print(r.digits), Decimal.Print(r.timestep), r.algorithm.Print(),
           if r.isHotp then "HOTP" else "TOTP")
  }

  function Colons(a: string, b: string, c: string, d: string, e: string): string {
    a + [':'] + (b + [':'] + (c + [':'] + (d + [':'] + e)))
  }

  datatype Item = Item(entry: TotpEntry, isHotp: bool, counter: nat)

  function Upper(s: string): (u: string)
    ensures |u| == |s|
  {
    seq(|s|, i requires 0 <= i < |s| => if 'a' <= s[i] <= 'z' then (s[i] as int - 32) as char else s[i])
  }

  /** The fields `db_str_to_code` reads, or nothing from a string that does not have five. */
  function ReadItem(decode32: string -> Option<bytes>, s: string): Option<Item> {
    var fields := Split(s, ':');
    if |fields| != 5 then None
    else
      var step := Decimal.Parse(fields[2], U64_LIMIT).GetOr(30);
      var isHotp := Upper(fields[4]) == "HOTP";
      Some(Item(
        TotpEntry(if isHotp then 1 else step, decode32(fields[0]).GetOr([]),
                  Decimal.Parse(fields[1], U8_LIMIT).GetOr(6), ParseAlgorithm(fields[3]).GetOr(HmacSha1)),
        isHotp, step))
  }

  datatype TotpError = BadRecord | Panicked(why: Panic)

  /** `db_str_to_code`, for the time `now` */
  function DbStrToCode(
    hashes: Hashes, decode32: string -> Option<bytes>, now: nat, s: string): Result<string, TotpError>
    requires hashes.LongEnough()
  {
    match ReadItem(decode32, s)
    case None => Err(BadRecord)
    case Some(item) =>
      match TotpCode(hashes, item.entry, if item.isHotp then item.counter else now)
      case Ok(code) => Ok(code)
      case Err(why) => Err(Panicked(why))
  }

  lemma FiveFields(a: string, b: string, c: string, d: string, e: string)
    requires ':' !in b && ':' !in c && ':' !in d && ':' !in e
    ensures Split(Colons(a, b, c, d, e), ':') == Split(a, ':') + [b, c, d, e]
  {
    SplitLast(e, ':');
    SplitAt(d, ':', e);
    SplitAt(c, ':', d + [':'] + e);
    SplitAt(b, ':', c + [':'] + (d + [':'] + e));
    SplitBoth(a, ':', b + [':'] + (c + [':'] + (d + [':'] + e)));
    assert [b] + ([c] + ([d] + [e])) == [b, c, d, e];
  }

  lemma {:induction false} OnePieceIff(s: string)
    ensures |Split(s, ':')| == 1 <==> ':' !in s
  {
    if s != "" {
      OnePieceIff(s[1..]);
      assert s == [s[0]] + s[1..];
    }
  }

  /** The fields of a printed item are the record's own. */
  lemma ItemFields(r: TotpRecord)
    ensures Split(ItemExtra(r), ':') == Split(r.secret, ':') + [Decimal.Print(r.digits), Decimal.Print(r.timestep),
              r.algorithm.Print(), if r.isHotp then "HOTP" else "TOTP"]
  {
    FiveFields(r.secret, Decimal.Print(r.digits), Decimal.Print(r.timestep), r.algorithm.Print(),
      if r.isHotp then "HOTP" else "TOTP");
  }

  lemma ModeReads()
    ensures Upper("HOTP") == "HOTP" && Upper("TOTP") != "HOTP"
  {
    assert Upper("TOTP")[0] == 'T';
  }

  /** A list item is read exactly when its secret has no colon. It then gives back the secret, step and
      mode, the algorithm with none read as SHA1, and the digits if they fit a byte, else six; so that
      showing the code of a stored record never meets a missing algorithm. */
  lemma ItemRoundTripIff(decode32: string -> Option<bytes>, r: TotpRecord)
    requires r.InRange()
    ensures ReadItem(decode32, ItemExtra(r)).Some? <==> ':' !in r.secret
    ensures ':' !in r.secret ==> ReadItem(decode32, ItemExtra(r)) == Some(Item(
              TotpEntry(if r.isHotp then 1 else r.timestep, decode32(r.secret).GetOr([]),
                        if r.digits < U8_LIMIT then r.digits else 6, r.algorithm.Normal()),
              r.isHotp, r.timestep))
  {
    ItemFields(r);
    OnePieceIff(r.secret);
    if ':' !in r.secret {
      SplitLast(r.secret, ':');
      Decimal.ParsePrint(r.digits, U8_LIMIT);
      Decimal.ParsePrint(r.timestep, U64_LIMIT);
      ParsePrintAlgorithm(r.algorithm);
      ModeReads();
    }
  }

  /** Of five fields, those that cannot be read are taken for six digits, thirty seconds and SHA1; a secret
      that is not base32 is empty, and a mode that does not spell HOTP is time-based. */
  lemma UnreadableFields(decode32: string -> Option<bytes>, a: string, b: string, c: string, d: string, e: string)
    requires ':' !in a && ':' !in b && ':' !in c && ':' !in d && ':' !in e
    requires Decimal.Parse(b, U8_LIMIT) == None && Decimal.Parse(c, U64_LIMIT) == None && ParseAlgorithm(d) == None
    requires decode32(a) == None
    ensures var isHotp := Upper(e) == "HOTP";
            ReadItem(decode32, a + [':'] + (b + [':'] + (c + [':'] + (d + [':'] + e))))
            == Some(Item(TotpEntry(if isHotp then 1 else 30, [], 6, HmacSha1), isHotp, 30))
  {
    FiveFields(a, b, c, d, e);
    SplitLast(a, ':');
  }

  /** What is shown for a stored record without a colon in its secret is the code of that record: for a
      counter-based one of its counter, else of the time. */
  lemma StoredCodeIs(hashes: Hashes, decode32: string -> Option<bytes>, now: nat, r: TotpRecord)
    requires hashes.LongEnough() && r.InRange() && ':' !in r.secret && now < U64_LIMIT
    ensures var digits := if r.digits < 256 then r.digits else 6;
            var entry := TotpEntry(if r.isHotp then 1 else r.timestep, decode32(r.secret).GetOr([]), digits,
                                   if r.algorithm.NoAlgorithm? then HmacSha1 else r.algorithm);
            match TotpCode(hashes, entry, if r.isHotp then r.timestep else now)
            case Ok(code) => DbStrToCode(hashes, decode32, now, ItemExtra(r)) == Ok(code)
            case Err(why) => DbStrToCode(hashes, decode32, now, ItemExtra(r)) == Err(Panicked(why))
  {
    ItemRoundTripIff(decode32, r);
  }

  /** The code shown for a stored record fails only for a colon in the secret or 64 to 255 digits. */
  lemma StoredCodeFailsIff(hashes: Hashes, decode32: string -> Option<bytes>, now: nat, r: TotpRecord)
    requires hashes.LongEnough() && r.InRange()
    ensures DbStrToCode(hashes, decode32, now, ItemExtra(r)).Err? <==> ':' in r.secret || 64 <= r.digits < U8_LIMIT
  {
    ItemRoundTripIff(decode32, r);
    PowIsZeroIff(r.digits);
    PowIsZeroIff(6);
  }
}
