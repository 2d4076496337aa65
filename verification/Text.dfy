/** The order of strings (Rust's `str::cmp`, which for valid text is the order of its code points)
    and how a common prefix sits in that order. */
module Text {
  datatype Ordering = Less | Equal | Greater {
    /** `Ordering::then` */
    function Then(next: Ordering): Ordering {
      if Equal? then next else this
    }
  }

  function Compare(a: string, b: string): Ordering {
    if a == [] then
      if b == [] then Equal else Less
    else if b == [] then Greater
    else if a[0] < b[0] then Less
    else if b[0] < a[0] then Greater
    else Compare(a[1..], b[1..])
  }

  lemma {:induction false} CompareEqual(a: string, b: string)
    ensures Compare(a, b).Equal? <==> a == b
  {
    if a != [] && b != [] {
      CompareEqual(a[1..], b[1..]);
      if a[0] == b[0] {
        assert a == [a[0]] + a[1..] && b == [b[0]] + b[1..];
      }
    }
  }

  lemma {:induction false} CompareMirror(a: string, b: string)
    ensures Compare(a, b).Less? <==> Compare(b, a).Greater?
  {
    if a != [] && b != [] && a[0] == b[0] {
      CompareMirror(a[1..], b[1..]);
    }
  }

  lemma {:induction false} CompareTransitive(a: string, b: string, c: string)
    requires Compare(a, b).Less? && !Compare(b, c).Greater?
    ensures Compare(a, c).Less?
  {
    if a != [] && b != [] && c != [] && a[0] == b[0] == c[0] {
      CompareTransitive(a[1..], b[1..], c[1..]);
    }
  }

  /** Position `i` is where the strings first differ: one ends there, or the characters do. */
  ghost predicate FirstDifference(a: string, b: string, i: nat) {
    && i <= |a| && i <= |b| && a[..i] == b[..i]
    && (i < |a| || i < |b|) && (i < |a| && i < |b| ==> a[i] != b[i])
  }

  /** The dictionary order of code points: at the first difference the string that ends, or has the smaller
      character, comes first. */
  lemma {:induction false} CompareIsDictionary(a: string, b: string, i: nat)
    requires FirstDifference(a, b, i)
    ensures Compare(a, b).Less? <==> i == |a| || (i < |b| && a[i] < b[i])
    ensures Compare(a, b).Greater? <==> i == |b| || (i < |a| && b[i] < a[i])
  {
    if i > 0 {
      assert a[0] == a[..i][0] == b[..i][0] == b[0];
      assert a[1..][..i - 1] == a[..i][1..] && b[1..][..i - 1] == b[..i][1..];
      CompareIsDictionary(a[1..], b[1..], i - 1);
    }
  }

  /** A string never precedes its own prefix. */
  lemma {:induction false} PrefixNotAfter(p: string, s: string)
    requires p <= s
    ensures !Compare(p, s).Greater?
  {
    if p != [] {
      PrefixNotAfter(p[1..], s[1..]);
    }
  }

  /** What lies between a prefix and a string that has it, has it too: the matches of a prefix
      are one contiguous block of a sorted list, and it starts where the prefix itself would be. */
  lemma {:induction false} PrefixConvex(p: string, x: string, y: string)
    requires !Compare(p, x).Greater? && !Compare(x, y).Greater? && p <= y
    ensures p <= x
  {
    if p != [] {
      PrefixConvex(p[1..], x[1..], y[1..]);
      assert x == [x[0]] + x[1..];
    }
  }
}
