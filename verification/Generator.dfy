/** The password generator (`src/generator.rs:133-177`): draws until every pool is hit, which it notes in a
    bit mask. The draws are an input. */
module Generator {
  import opened Bits
  import opened Pools

  // ----- what a draw has to cover

  predicate Hits(pool: seq<char>, draw: seq<char>) {
    exists k :: 0 <= k < |draw| && draw[k] in pool
  }

  /** Every pool is hit, by a draw of at least one character. */
  predicate Covers(pools: Pools, draw: seq<char>) {
    draw != [] && forall i :: 0 <= i < |pools| ==> Hits(pools[i], draw)
  }

  function Flatten(pools: Pools): seq<char> {
    if pools == [] then [] else pools[0] + Flatten(pools[1..])
  }

  lemma {:induction false} InFlatten(pools: Pools, c: char)
    ensures c in Flatten(pools) <==> exists i :: 0 <= i < |pools| && c in pools[i]
  {
    if pools != [] {
      InFlatten(pools[1..], c);
      if i :| 0 <= i < |pools[1..]| && c in pools[1..][i] {
        assert c in pools[i + 1];
      }
      if i :| 0 <= i < |pools| && c in pools[i] && c !in pools[0] {
        assert c in pools[1..][i - 1];
      }
    }
  }

  /** What the random source gives: `length` characters of the pools, or nothing from an empty choice. */
  predicate Legal(pools: Pools, length: nat, draw: seq<char>) {
    if Flatten(pools) == [] then draw == []
    else |draw| == length && forall k :: 0 <= k < length ==> draw[k] in Flatten(pools)
  }

  // ----- the loop

  /** Every pool has its bit exactly when every pool is hit. */
  lemma MaskDecides(mask: nat, pools: Pools, draw: seq<char>)
    requires MaskOf(mask, pools, draw) && draw != []
    ensures mask == PowerOf2(|pools|) - 1 <==> Covers(pools, draw)
  {
    FullIff(mask, |pools|);
  }

  lemma StaysCovered(pools: Pools, draw: seq<char>, c: char)
    requires Covers(pools, draw)
    ensures Covers(pools, draw + [c])
  {
    forall i | 0 <= i < |pools| ensures Hits(pools[i], draw + [c]) {
      HitsMore(pools[i], draw, c);
    }
  }

  /** The mask says which of the first `n` pools the characters so far have hit. */
  ghost predicate MaskOf(mask: nat, pools: Pools, draw: seq<char>) {
    && mask < PowerOf2(|pools|)
    && forall i :: 0 <= i < |pools| ==> (HasBit(mask, i) <==> Hits(pools[i], draw))
  }

  lemma HitsMore(pool: seq<char>, draw: seq<char>, c: char)
    ensures Hits(pool, draw + [c]) <==> Hits(pool, draw) || c in pool
  {
    var more := draw + [c];
    if k :| 0 <= k < |draw| && draw[k] in pool {
      assert more[k] in pool;
    }
    if c in pool {
      assert more[|draw|] in pool;
    }
  }

  /** One character's pools are noted. */
  method Note(mask0: nat, pools: Pools, ghost draw: seq<char>, c: char) returns (mask: nat)
    requires MaskOf(mask0, pools, draw)
    ensures MaskOf(mask, pools, draw + [c])
  {
    mask := mask0;
    for i := 0 to |pools|
      invariant mask < PowerOf2(|pools|)
      invariant forall j :: 0 <= j < |pools| ==>
        (HasBit(mask, j) <==> Hits(pools[j], draw) || (j < i && c in pools[j]))
    {
      if c in pools[i] {
        SetBitFits(mask, i, |pools|);
        forall j | 0 <= j < |pools| ensures HasBit(SetBit(mask, i), j) <==> j == i || HasBit(mask, j) {
          SetBitSets(mask, i, j);
        }
        mask := SetBit(mask, i);
      }
    }
    forall j | 0 <= j < |pools| ensures Hits(pools[j], draw + [c]) <==> Hits(pools[j], draw) || c in pools[j] {
      HitsMore(pools[j], draw, c);
    }
  }

  /** The closure `handle`: copies a draw into the password and says whether it covers the pools. Masks
      are 32-bit integers, so that at most 30 pools have one. */
  method Handle(random: seq<char>, pools: Pools) returns (password: string, m: bool)
    requires |pools| <= 30
    ensures password == random && (m <==> Covers(pools, random))
  {
    var mask := 0;
    var targetMask := PowerOf2(|pools|) - 1;
    m := false;
    password := "";
    forall i | 0 <= i < |pools| ensures !HasBit(0, i) { NoBitsInZero(i); }
    for k := 0 to |random|
      invariant password == random[..k]
      invariant m <==> Covers(pools, random[..k])
      invariant !m ==> MaskOf(mask, pools, random[..k])
    {
      password := password + [random[k]];
      assert random[..k + 1] == random[..k] + [random[k]];
      if !m {
        mask := Note(mask, pools, random[..k], random[k]);
        MaskDecides(mask, pools, random[..k + 1]);
        m := mask == targetMask;
      } else {
        StaysCovered(pools, random[..k], random[k]);
      }
    }
    assert random[..|random|] == random;
  }

  /** The first draw that covers the pools. */
  ghost predicate FirstCovering(pools: Pools, draws: seq<seq<char>>, at: nat) {
    at < |draws| && Covers(pools, draws[at]) && forall j :: 0 <= j < at ==> !Covers(pools, draws[j])
  }

  /** Strict: exactly the first covering draw, for which there must be one in the stream. Otherwise: the
      first draw. */
  method Generate(pools: Pools, length: nat, strict: bool, draws: seq<seq<char>>)
    returns (password: string, ghost at: nat)
    requires |pools| <= 30 && draws != []
    requires forall d :: d in draws ==> Legal(pools, length, d)
    requires strict ==> exists k :: 0 <= k < |draws| && Covers(pools, draws[k])
    ensures at < |draws| && password == draws[at] && Legal(pools, length, password)
    ensures if strict then FirstCovering(pools, draws, at) else at == 0
  {
    at := 0;
    if !strict {
      return draws[0], 0;
    }
    var m;
    password, m := Handle(draws[0], pools);
    var next := 1;
    while !m
      invariant 1 <= next <= |draws| && at == next - 1 && password == draws[at]
      invariant m <==> Covers(pools, draws[at])
      invariant forall j :: 0 <= j < at ==> !Covers(pools, draws[j])
      decreases |draws| - next
    {
      password, m := Handle(draws[next], pools);
      next := next + 1;
      at := at + 1;
    }
  }

  // ----- when the loop can end

  /** The first characters of the pools, then more of the first pool: a draw that covers them. */
  function Witness(pools: Pools, length: nat): (d: seq<char>)
    requires pools != [] && NonEmpty(pools)
    ensures |d| == length
  {
    seq(length, i requires 0 <= i => if i < |pools| then pools[i][0] else pools[0][0])
  }

  lemma WitnessCovers(pools: Pools, length: nat)
    requires pools != [] && NonEmpty(pools) && length >= |pools|
    ensures Legal(pools, length, Witness(pools, length)) && Covers(pools, Witness(pools, length))
  {
    var d := Witness(pools, length);
    forall k | 0 <= k < length ensures d[k] in Flatten(pools) {
      InFlatten(pools, d[k]);
      assert d[k] in pools[if k < |pools| then k else 0];
    }
    assert d[0] in Flatten(pools);
    forall i | 0 <= i < |pools| ensures Hits(pools[i], d) {
      assert d[i] in pools[i];
    }
  }

  lemma {:induction false} Range(n: nat) returns (r: set<nat>)
    ensures |r| == n && forall k: nat :: k in r <==> k < n
  {
    if n == 0 {
      r := {};
    } else {
      var smaller := Range(n - 1);
      r := smaller + {n - 1};
    }
  }

  lemma {:induction false} SubsetSize<T>(a: set<T>, b: set<T>)
    requires a <= b
    ensures |a| <= |b|
    decreases a
  {
    if a != {} {
      var x :| x in a;
      SubsetSize(a - {x}, b - {x});
    }
  }

  /** Different pools are hit at different positions. */
  lemma Positions(pools: Pools, draw: seq<char>) returns (at: set<nat>)
    requires Disjoint(pools) && forall i :: 0 <= i < |pools| ==> Hits(pools[i], draw)
    ensures |at| == |pools| && forall k :: k in at ==> k < |draw|
  {
    at := {};
    for i := 0 to |pools|
      invariant |at| == i
      invariant forall k :: k in at ==> k < |draw| && exists j :: 0 <= j < i && draw[k] in pools[j]
    {
      var k: nat :| k < |draw| && draw[k] in pools[i];
      assert k !in at;
      at := at + {k};
    }
  }

  /** For disjoint, non-empty pools a covering draw exists, so that the retry loop can end, exactly when
      there is a pool and the length is at least the number of pools. */
  lemma CoveringDrawExistsIff(pools: Pools, length: nat)
    requires Disjoint(pools) && NonEmpty(pools)
    ensures (exists d :: Legal(pools, length, d) && Covers(pools, d)) <==> pools != [] && length >= |pools|
  {
    if pools != [] && length >= |pools| {
      WitnessCovers(pools, length);
    }
    if d :| Legal(pools, length, d) && Covers(pools, d) {
      assert pools != [];
      assert pools[0][0] in Flatten(pools);
      var at := Positions(pools, d);
      var range := Range(length);
      SubsetSize(at, range);
    }
  }

  /** For the settings of the device: a password exists exactly when some class has a character and the
      length is at least the number of such classes, and it then has that length and a character of each. */
  lemma SettingsCanGenerateIff(c: GeneratorConfig)
    ensures (exists d :: Legal(ToPools(c), c.length, d) && Covers(ToPools(c), d))
       <==> ToPools(c) != [] && c.length >= |ToPools(c)|
  {
    ToPoolsAreGood(c);
    CoveringDrawExistsIff(ToPools(c), c.length);
  }
}
