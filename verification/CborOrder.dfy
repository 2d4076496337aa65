/** The order of map keys, against the bytes: `Ord for Value` (`libraries/cbor/src/values.rs`) is the bytewise
    order of the encodings (section 4.2.1 of RFC 8949), and what the writer sorts is in that order. */
module CborOrder {
  import opened Wrappers
  import opened Bytes
  import opened BigEndian
  import opened Cbor
  import opened CborRoundTrip

  // ----- bytes

  /** At the first difference the shorter string, or the smaller byte, comes first. */
  lemma {:induction false} CompareBytesIs(a: bytes, b: bytes, i: nat)
    requires i <= |a| && i <= |b| && a[..i] == b[..i] && (i < |a| && i < |b| ==> a[i] != b[i])
    requires i < |a| || i < |b|
    ensures CompareBytes(a, b).Less? <==> i == |a| || (i < |b| && a[i] < b[i])
    ensures CompareBytes(a, b).Greater? <==> i == |b| || (i < |a| && b[i] < a[i])
  {
    if i > 0 {
      assert a[0] == a[..i][0] == b[..i][0] == b[0];
      assert a[1..][..i - 1] == a[..i][1..] && b[1..][..i - 1] == b[..i][1..];
      CompareBytesIs(a[1..], b[1..], i - 1);
    }
  }

  lemma {:induction false} SameBytesIff(a: bytes, b: bytes)
    ensures CompareBytes(a, b).Equal? <==> a == b
  {
    if a != [] && b != [] {
      SameBytesIff(a[1..], b[1..]);
      assert a == [a[0]] + a[1..] && b == [b[0]] + b[1..];
    }
  }

  /** Behind parts of one length, what follows decides only between equal parts. */
  lemma {:induction false} CompareParts(a: bytes, b: bytes, x: bytes, y: bytes)
    requires |a| == |b|
    ensures CompareBytes(a + x, b + y) == CompareBytes(a, b).Then(CompareBytes(x, y))
  {
    if a == [] {
      assert a + x == x && b + y == y;
    } else {
      assert (a + x)[1..] == a[1..] + x && (b + y)[1..] == b[1..] + y;
      CompareParts(a[1..], b[1..], x, y);
    }
  }

  /** Numbers of one width are ordered as their bytes. */
  lemma {:induction false} CompareWidth(n: nat, m: nat, w: nat)
    requires n < Power256(w) && m < Power256(w)
    ensures CompareBytes(ToBytes(n, w), ToBytes(m, w)) == CompareInts(n, m)
  {
    if w > 0 {
      CompareWidth(n / 256, m / 256, w - 1);
      CompareParts(ToBytes(n / 256, w - 1), ToBytes(m / 256, w - 1), [n % 256], [m % 256]);
      SingleBytes(n % 256, m % 256);
    }
  }

  lemma SingleBytes(x: byte, y: byte)
    ensures CompareBytes([x], [y]) == CompareInts(x, y)
  {
    assert [x][1..] == [] && [y][1..] == [];
  }

  // ----- heads

  /** Heads sort by major type and then by size, and no head is a prefix of another one. */
  lemma CompareHeads(major: nat, n: nat, other: nat, m: nat, x: bytes, y: bytes)
    requires major < 8 && other < 8 && n < U64_LIMIT && m < U64_LIMIT
    ensures CompareBytes(StartItem(major, n) + x, StartItem(other, m) + y)
         == CompareInts(major, other).Then(CompareInts(n, m)).Then(CompareBytes(x, y))
  {
    StartItemParts(major, n);
    StartItemParts(other, m);
    CompareFirst(major, Info(n), other, Info(m), ToBytes(n, Width(n)) + x, ToBytes(m, Width(m)) + y);
    Assoc([32 * major + Info(n)], ToBytes(n, Width(n)), x);
    Assoc([32 * other + Info(m)], ToBytes(m, Width(m)), y);
    if Info(n) == Info(m) {
      SameInfo(n, m);
      CompareParts(ToBytes(n, Width(n)), ToBytes(m, Width(m)), x, y);
    } else if Info(n) < Info(m) {
      InfoGrows(n, m);
    } else {
      InfoGrows(m, n);
    }
  }

  lemma CompareFirst(major: nat, info: nat, other: nat, more: nat, x: bytes, y: bytes)
    requires major < 8 && other < 8 && info < 32 && more < 32
    ensures CompareBytes([32 * major + info] + x, [32 * other + more] + y)
         == CompareInts(major, other).Then(CompareInts(info, more)).Then(CompareBytes(x, y))
  {
    CompareParts([32 * major + info], [32 * other + more], x, y);
    SingleBytes(32 * major + info, 32 * other + more);
  }

  lemma SameInfo(n: nat, m: nat)
    requires n < U64_LIMIT && m < U64_LIMIT && Info(n) == Info(m)
    ensures Width(n) == Width(m)
    ensures CompareBytes(ToBytes(n, Width(n)), ToBytes(m, Width(m))) == CompareInts(n, m)
  {
    if n < 24 {
      assert ToBytes(n, 0) == [] == ToBytes(m, 0);
    } else {
      WidthFits(n);
      WidthFits(m);
      CompareWidth(n, m, Width(n));
    }
  }

  lemma InfoGrows(n: nat, m: nat)
    requires Info(n) < Info(m)
    ensures n < m
  {
  }

  // ----- items

  /** The head of an item, and its content at a nesting limit. */
  function SizeOf(v: Value): nat
    requires Proper(v)
  {
    match v
    case Unsigned(n) => n
    case Negative(n) => -(n + 1)
    case ByteString(b) => |b|
    case TextString(b) => |b|
    case Array(vs) => |vs|
    case Map(es) => |es|
    case Tag(t, _) => t
    case Simple(code) => code
  }

  ghost predicate Encodable(v: Value, depth: int) {
    depth >= -1 && Proper(v) && InOrder(v) && WriteItem(v, depth).Ok?
  }

  ghost predicate EncodableItems(vs: seq<Value>, depth: int) {
    depth >= 0 && (forall i :: 0 <= i < |vs| ==> Proper(vs[i]) && InOrder(vs[i])) && WriteItems(vs, depth).Ok?
  }

  ghost predicate EncodableEntries(es: seq<Pair>, depth: int) {
    && depth >= 0 && ProperEntries(es) && (forall i :: 0 <= i < |es| ==> InOrder(es[i].key) && InOrder(es[i].val))
    && WriteEntries(es, depth).Ok?
  }

  function Content(v: Value, depth: int): bytes
    requires Encodable(v, depth)
  {
    match v
    case ByteString(b) => b
    case TextString(b) => b
    case Array(vs) => WriteItems(vs, depth).value
    case Map(es) => SortedAlready(es); WriteEntries(es, depth).value
    case Tag(_, inner) => WriteItem(inner, depth - 1).value
    case _ => []
  }

  lemma WrittenParts(v: Value, depth: int)
    requires Encodable(v, depth)
    ensures SizeOf(v) < U64_LIMIT
    ensures WriteItem(v, depth).value == StartItem(TypeLabel(v), SizeOf(v)) + Content(v, depth)
  {
    if v.Map? {
      SortedAlready(v.entries);
    }
  }

  /** The order of two values is that of their encodings, whatever follows the two. */
  lemma {:induction false} OrderIsBytewise(a: Value, b: Value, depth: int, x: bytes, y: bytes)
    requires Encodable(a, depth) && Encodable(b, depth)
    ensures CompareBytes(WriteItem(a, depth).value + x, WriteItem(b, depth).value + y)
         == Compare(a, b).Then(CompareBytes(x, y))
    decreases depth, 2, 0
  {
    WrittenParts(a, depth);
    WrittenParts(b, depth);
    Assoc(StartItem(TypeLabel(a), SizeOf(a)), Content(a, depth), x);
    Assoc(StartItem(TypeLabel(b), SizeOf(b)), Content(b, depth), y);
    CompareHeads(TypeLabel(a), SizeOf(a), TypeLabel(b), SizeOf(b), Content(a, depth) + x, Content(b, depth) + y);
    if TypeLabel(a) == TypeLabel(b) && SizeOf(a) == SizeOf(b) {
      ContentIsBytewise(a, b, depth, x, y);
    }
  }

  lemma {:induction false} ContentIsBytewise(a: Value, b: Value, depth: int, x: bytes, y: bytes)
    requires Encodable(a, depth) && Encodable(b, depth)
    requires TypeLabel(a) == TypeLabel(b) && SizeOf(a) == SizeOf(b)
    ensures CompareBytes(Content(a, depth) + x, Content(b, depth) + y) == Compare(a, b).Then(CompareBytes(x, y))
    decreases depth, 1, 0
  {
    match a
    case ByteString(s) => CompareParts(s, b.octets, x, y);
    case TextString(s) => CompareParts(s, b.utf8, x, y);
    case Array(vs) => ItemsAreBytewise(vs, b.items, depth, x, y);
    case Map(es) =>
      SortedAlready(es);
      SortedAlready(b.entries);
      EntriesAreBytewise(es, b.entries, depth, x, y);
    case Tag(_, inner) => OrderIsBytewise(inner, b.inner, depth - 1, x, y);
    case _ => assert [] + x == x && [] + y == y;
  }

  lemma {:induction false} ItemsAreBytewise(vs: seq<Value>, ws: seq<Value>, depth: int, x: bytes, y: bytes)
    requires EncodableItems(vs, depth) && EncodableItems(ws, depth) && |vs| == |ws|
    ensures CompareBytes(WriteItems(vs, depth).value + x, WriteItems(ws, depth).value + y)
         == CompareItems(vs, ws).Then(CompareBytes(x, y))
    decreases depth, 0, |vs|
  {
    if vs == [] {
      assert [] + x == x && [] + y == y;
    } else {
      var (v, more) := (WriteItem(vs[0], depth - 1).value, WriteItems(vs[1..], depth).value);
      var (w, others) := (WriteItem(ws[0], depth - 1).value, WriteItems(ws[1..], depth).value);
      Assoc(v, more, x);
      Assoc(w, others, y);
      OrderIsBytewise(vs[0], ws[0], depth - 1, more + x, others + y);
      ItemsAreBytewise(vs[1..], ws[1..], depth, x, y);
    }
  }

  lemma {:induction false} EntriesAreBytewise(es: seq<Pair>, fs: seq<Pair>, depth: int, x: bytes, y: bytes)
    requires EncodableEntries(es, depth) && EncodableEntries(fs, depth) && |es| == |fs|
    ensures CompareBytes(WriteEntries(es, depth).value + x, WriteEntries(fs, depth).value + y)
         == CompareEntries(es, fs).Then(CompareBytes(x, y))
    decreases depth, 0, |es|
  {
    if es == [] {
      assert [] + x == x && [] + y == y;
    } else {
      var (e, more) := (WriteEntry(es[0], depth).value, WriteEntries(es[1..], depth).value);
      var (f, others) := (WriteEntry(fs[0], depth).value, WriteEntries(fs[1..], depth).value);
      Assoc(e, more, x);
      Assoc(f, others, y);
      EntryIsBytewise(es[0], fs[0], depth, more + x, others + y);
      EntriesAreBytewise(es[1..], fs[1..], depth, x, y);
    }
  }

  lemma EntryIsBytewise(e: Pair, f: Pair, depth: int, x: bytes, y: bytes)
    requires depth >= 0 && FineEntry(e) && FineEntry(f) && WriteEntry(e, depth).Ok? && WriteEntry(f, depth).Ok?
    ensures CompareBytes(WriteEntry(e, depth).value + x, WriteEntry(f, depth).value + y)
         == ComparePair(e, f).Then(CompareBytes(x, y))
    decreases depth, 0, 0
  {
    var (key, val) := (WriteItem(e.key, depth - 1).value, WriteItem(e.val, depth - 1).value);
    var (other, otherVal) := (WriteItem(f.key, depth - 1).value, WriteItem(f.val, depth - 1).value);
    Assoc(key, val, x);
    Assoc(other, otherVal, y);
    OrderIsBytewise(e.key, f.key, depth - 1, val + x, otherVal + y);
    OrderIsBytewise(e.val, f.val, depth - 1, x, y);
  }

  /** Values in order compare as what the writer makes of them. */
  lemma CompareIsBytewise(a: Value, b: Value, depth: nat)
    requires Encodable(a, depth) && Encodable(b, depth)
    ensures Compare(a, b) == CompareBytes(WriteItem(a, depth).value, WriteItem(b, depth).value)
  {
    OrderIsBytewise(a, b, depth, [], []);
    var (x, y) := (WriteItem(a, depth).value, WriteItem(b, depth).value);
    assert x + [] == x && y + [] == y;
  }

  /** Only equal values are written alike. */
  lemma SameValueIff(a: Value, b: Value, depth: nat)
    requires Encodable(a, depth) && Encodable(b, depth)
    ensures Compare(a, b).Equal? <==> a == b
  {
    CompareIsBytewise(a, b, depth);
    var (x, y) := (WriteItem(a, depth).value, WriteItem(b, depth).value);
    SameBytesIff(x, y);
    if x == y {
      ReadsBack(a, depth, []);
      ReadsBack(b, depth, []);
    }
  }

  // ----- sorting

  lemma {:induction false} BytesMirror(a: bytes, b: bytes)
    ensures CompareBytes(a, b).Less? <==> CompareBytes(b, a).Greater?
  {
    if a != [] && b != [] {
      BytesMirror(a[1..], b[1..]);
    }
  }

  lemma {:induction false} BytesTransitive(a: bytes, b: bytes, c: bytes)
    requires !CompareBytes(a, b).Greater? && !CompareBytes(b, c).Greater?
    ensures !CompareBytes(a, c).Greater?
  {
    if a != [] && b != [] && c != [] && a[0] == b[0] == c[0] {
      BytesTransitive(a[1..], b[1..], c[1..]);
    }
  }

  /** Keys that the writer takes one level down. */
  ghost predicate GoodKeys(es: seq<Pair>, depth: int) {
    forall i :: 0 <= i < |es| ==> Encodable(es[i].key, depth)
  }

  ghost predicate NotAfter(a: Value, b: Value) { !Compare(a, b).Greater? }

  lemma KeysAreOrdered(a: Value, b: Value, depth: nat)
    requires Encodable(a, depth) && Encodable(b, depth)
    ensures NotAfter(a, b) || NotAfter(b, a)
    ensures NotAfter(a, b) && NotAfter(b, a) <==> a == b
    ensures Compare(a, b).Equal? <==> a == b
  {
    CompareIsBytewise(a, b, depth);
    CompareIsBytewise(b, a, depth);
    BytesMirror(WriteItem(a, depth).value, WriteItem(b, depth).value);
    BytesMirror(WriteItem(b, depth).value, WriteItem(a, depth).value);
    SameValueIff(a, b, depth);
  }

  lemma NotAfterTransitive(a: Value, b: Value, c: Value, depth: nat)
    requires Encodable(a, depth) && Encodable(b, depth) && Encodable(c, depth)
    requires NotAfter(a, b) && NotAfter(b, c)
    ensures NotAfter(a, c)
  {
    CompareIsBytewise(a, b, depth);
    CompareIsBytewise(b, c, depth);
    CompareIsBytewise(a, c, depth);
    BytesTransitive(WriteItem(a, depth).value, WriteItem(b, depth).value, WriteItem(c, depth).value);
  }

  ghost predicate Sorted(es: seq<Pair>) {
    forall i, j :: 0 <= i < j < |es| ==> NotAfter(es[i].key, es[j].key)
  }

  lemma {:induction false} InsertEntrySorts(e: Pair, es: seq<Pair>, depth: nat)
    requires GoodKeys([e] + es, depth) && Sorted(es)
    ensures Sorted(InsertEntry(e, es)) && multiset(InsertEntry(e, es)) == multiset(es) + multiset{e}
    ensures GoodKeys(InsertEntry(e, es), depth)
    decreases |es|, 1
  {
    assert ([e] + es)[0] == e && forall i :: 0 <= i < |es| ==> ([e] + es)[i + 1] == es[i];
    if es != [] {
      KeysAreOrdered(e.key, es[0].key, depth);
      if NotAfter(e.key, es[0].key) {
        forall j | 0 <= j < |es| ensures NotAfter(e.key, es[j].key) {
          if j > 0 {
            NotAfterTransitive(e.key, es[0].key, es[j].key, depth);
          }
        }
      } else {
        InsertLater(e, es, depth);
      }
    }
  }

  lemma InsertLater(e: Pair, es: seq<Pair>, depth: nat)
    requires es != [] && GoodKeys(es, depth) && Encodable(e.key, depth) && Sorted(es)
    requires NotAfter(es[0].key, e.key) && !NotAfter(e.key, es[0].key)
    ensures Sorted(InsertEntry(e, es)) && multiset(InsertEntry(e, es)) == multiset(es) + multiset{e}
    ensures GoodKeys(InsertEntry(e, es), depth)
    decreases |es|, 0
  {
    var others := es[1..];
    assert es == [es[0]] + others;
    assert forall i :: 0 <= i < |others| ==> others[i] == es[i + 1];
    InsertEntrySorts(e, others, depth);
    var r := InsertEntry(e, others);
    assert InsertEntry(e, es) == [es[0]] + r;
    ElementsAre(r, others, e);
    Prepend(es[0], r, depth);
  }

  lemma ElementsAre(r: seq<Pair>, es: seq<Pair>, e: Pair)
    requires multiset(r) == multiset(es) + multiset{e}
    ensures forall j :: 0 <= j < |r| ==> r[j] == e || r[j] in es
  {
    forall j | 0 <= j < |r| ensures r[j] == e || r[j] in es {
      assert r[j] in multiset(r);
    }
  }

  lemma Prepend(e: Pair, r: seq<Pair>, depth: nat)
    requires Sorted(r) && GoodKeys(r, depth) && Encodable(e.key, depth)
    requires forall j :: 0 <= j < |r| ==> NotAfter(e.key, r[j].key)
    ensures Sorted([e] + r) && GoodKeys([e] + r, depth)
  {
  }

  lemma {:induction false} SortEntriesSorts(es: seq<Pair>, depth: nat)
    requires GoodKeys(es, depth)
    ensures Sorted(SortEntries(es)) && multiset(SortEntries(es)) == multiset(es) && GoodKeys(SortEntries(es), depth)
  {
    if es != [] {
      assert es == [es[0]] + es[1..];
      SortEntriesSorts(es[1..], depth);
      var r := SortEntries(es[1..]);
      assert forall i :: 0 < i < |[es[0]] + r| ==> ([es[0]] + r)[i] == r[i - 1];
      InsertEntrySorts(es[0], r, depth);
    }
  }

  ghost predicate DistinctKeys(es: seq<Pair>) {
    forall i, j :: 0 <= i < j < |es| ==> es[i].key != es[j].key
  }

  lemma NoDuplicatesIff(es: seq<Pair>, depth: nat)
    requires GoodKeys(es, depth) && Sorted(es)
    ensures !HasDuplicates(es) <==> DistinctKeys(es)
    ensures DistinctKeys(es) ==> Increasing(es)
  {
    forall i | 0 < i < |es|
      ensures Compare(es[i - 1].key, es[i].key).Equal? <==> es[i - 1].key == es[i].key
      ensures !Compare(es[i - 1].key, es[i].key).Greater?
    {
      KeysAreOrdered(es[i - 1].key, es[i].key, depth);
      assert NotAfter(es[i - 1].key, es[i].key);
    }
    forall i, j | 0 <= i < j < |es| && es[i].key == es[j].key ensures HasDuplicates(es) {
      KeysAreOrdered(es[i].key, es[i + 1].key, depth);
      KeysAreOrdered(es[j].key, es[j].key, depth);
      assert NotAfter(es[i].key, es[i + 1].key) && NotAfter(es[i + 1].key, es[j].key);
      assert Compare(es[i + 1 - 1].key, es[i + 1].key).Equal?;
    }
  }

  lemma {:induction false} Twice(es: seq<Pair>, e: Pair) returns (i: nat, j: nat)
    requires multiset(es)[e] >= 2
    ensures i < j < |es| && es[i] == e == es[j]
  {
    assert es == [es[0]] + es[1..];
    if es[0] == e {
      assert e in es[1..];
      i, j :| i == 0 && 0 < j < |es| && es[j] == e;
    } else {
      i, j := Twice(es[1..], e);
      i, j := i + 1, j + 1;
    }
  }

  lemma TwiceCounts(es: seq<Pair>, i: nat, j: nat)
    requires i < j < |es| && es[i] == es[j]
    ensures multiset(es)[es[i]] >= 2
  {
    assert es == es[..j] + es[j..];
    assert es[i] == es[..j][i] && es[j] == es[j..][0];
    assert es[i] in es[..j] && es[i] in es[j..];
  }

  /** Distinct keys stay distinct in any order of the entries. */
  lemma DistinctEitherWay(es: seq<Pair>, fs: seq<Pair>)
    requires multiset(es) == multiset(fs) && DistinctKeys(es)
    ensures DistinctKeys(fs)
  {
    forall i, j | 0 <= i < j < |fs| ensures fs[i].key != fs[j].key {
      assert fs[i] in multiset(es) && fs[j] in multiset(es);
      assert fs[i] in es && fs[j] in es;
      if fs[i] == fs[j] {
        TwiceCounts(fs, i, j);
        var k, l := Twice(es, fs[i]);
      }
    }
  }

  /** Entries that the writer takes one level down, in any order. */
  ghost predicate GoodEntries(es: seq<Pair>, depth: int) {
    forall i :: 0 <= i < |es| ==> FineEntry(es[i]) && Shallow(es[i].key, depth) && Shallow(es[i].val, depth)
  }

  lemma GoodEitherWay(es: seq<Pair>, fs: seq<Pair>, depth: int)
    requires multiset(es) == multiset(fs) && GoodEntries(es, depth)
    ensures GoodEntries(fs, depth)
  {
    forall i | 0 <= i < |fs| ensures FineEntry(fs[i]) && Shallow(fs[i].key, depth) && Shallow(fs[i].val, depth) {
      assert fs[i] in multiset(es);
      assert fs[i] in es;
    }
  }

  lemma GoodEntriesHaveGoodKeys(es: seq<Pair>, depth: int)
    requires depth >= 0 && GoodEntries(es, depth)
    ensures GoodKeys(es, depth)
  {
    forall i | 0 <= i < |es| ensures Encodable(es[i].key, depth) {
      WritableIff(es[i].key, depth);
    }
  }

  lemma SortedEntries(es: seq<Pair>, depth: int) returns (sorted: seq<Pair>)
    requires depth >= -1 && GoodEntries(es, depth)
    ensures sorted == SortEntries(es) && multiset(sorted) == multiset(es) && |sorted| == |es|
    ensures GoodEntries(sorted, depth)
    ensures !HasDuplicates(sorted) <==> DistinctKeys(es)
    ensures DistinctKeys(es) ==> Increasing(sorted)
  {
    sorted := SortEntries(es);
    if es != [] {
      assert Shallow(es[0].key, depth);
      GoodEntriesHaveGoodKeys(es, depth);
      SortEntriesSorts(es, depth);
      NoDuplicatesIff(sorted, depth);
      if DistinctKeys(es) {
        DistinctEitherWay(es, sorted);
      } else if DistinctKeys(sorted) {
        DistinctEitherWay(sorted, es);
      }
      GoodEitherWay(es, sorted, depth);
      SortKeeps(es);
    }
  }

  /** Each key's encoding is smaller than the next one's, byte by byte. */
  ghost predicate BytesIncrease(es: seq<Pair>, depth: int) {
    && GoodKeys(es, depth)
    && forall i :: 0 < i < |es| ==>
         CompareBytes(WriteItem(es[i - 1].key, depth).value, WriteItem(es[i].key, depth).value).Less?
  }

  lemma IncreasingIsBytewise(es: seq<Pair>, depth: int)
    requires depth >= -1 && GoodEntries(es, depth) && Increasing(es)
    ensures BytesIncrease(es, depth)
  {
    if es != [] {
      assert Shallow(es[0].key, depth);
      GoodEntriesHaveGoodKeys(es, depth);
      forall i | 0 < i < |es|
        ensures CompareBytes(WriteItem(es[i - 1].key, depth).value, WriteItem(es[i].key, depth).value).Less?
      {
        CompareIsBytewise(es[i - 1].key, es[i].key, depth);
      }
    }
  }

  /** A map of entries in any order is written exactly if no key is there twice; it reads back as the same
      entries, in the order of their keys' encodings. */
  lemma MapComesBackSorted(es: seq<Pair>, depth: nat)
    requires |es| < U64_LIMIT && GoodEntries(es, depth - 1)
    ensures Write(Map(es), depth) == Err(DuplicateMapKey) || Write(Map(es), depth).Ok?
    ensures Write(Map(es), depth).Ok? <==> DistinctKeys(es)
    ensures DistinctKeys(es) ==> exists sorted ::
      && multiset(sorted) == multiset(es) && BytesIncrease(sorted, depth - 1)
      && Read(Write(Map(es), depth).value, depth) == Ok(Map(sorted))
  {
    var sorted := SortedEntries(es, depth - 1);
    if DistinctKeys(es) {
      IncreasingIsBytewise(sorted, depth - 1);
      SortedReadsBack(es, sorted, depth);
    } else {
      DuplicatesAreRefused(es, depth);
    }
  }

  lemma DuplicatesAreRefused(es: seq<Pair>, depth: nat)
    requires Proper(Map(es)) && HasDuplicates(SortEntries(es))
    ensures Write(Map(es), depth) == Err(DuplicateMapKey)
  {
  }

  lemma SortedReadsBack(es: seq<Pair>, sorted: seq<Pair>, depth: nat)
    requires |es| < U64_LIMIT && |sorted| == |es| && SortEntries(es) == sorted
    requires GoodEntries(es, depth - 1) && GoodEntries(sorted, depth - 1) && Increasing(sorted)
    ensures Write(Map(es), depth).Ok? && Read(Write(Map(es), depth).value, depth) == Ok(Map(sorted))
  {
    EntriesWritableIff(sorted, depth);
    SortedAlready(sorted);
    SameMapWritten(es, sorted, depth);
    WrittenReadsBack(Map(sorted), depth);
  }

  lemma SameMapWritten(es: seq<Pair>, sorted: seq<Pair>, depth: nat)
    requires |es| < U64_LIMIT && |sorted| == |es| && ProperEntries(es) && ProperEntries(sorted)
    requires SortEntries(es) == sorted == SortEntries(sorted) && !HasDuplicates(sorted)
    requires WriteEntries(sorted, depth).Ok?
    ensures Write(Map(es), depth) == Write(Map(sorted), depth) && Write(Map(es), depth).Ok?
  {
  }

  // ----- keys that the order must tell apart

  /** Of two texts the shorter one sorts first, and of two of one length the one with the smaller byte at
      the first difference. */
  lemma TextOrder(a: bytes, b: bytes, i: nat)
    requires i <= |a| && i <= |b| && a[..i] == b[..i] && (i < |a| && i < |b| ==> a[i] != b[i])
    requires i < |a| || i < |b|
    ensures Compare(TextString(a), TextString(b)).Less? <==> |a| < |b| || (|a| == |b| && a[i] < b[i])
    ensures Compare(ByteString(a), ByteString(b)).Less? <==> |a| < |b| || (|a| == |b| && a[i] < b[i])
  {
    CompareBytesIs(a, b, i);
  }

  /** The parameters of a credential: "alg" sorts before "type". */
  lemma AlgBeforeType()
    ensures Compare(TextString([0x61, 0x6C, 0x67]), TextString([0x74, 0x79, 0x70, 0x65])).Less?
    ensures Compare(TextString([0x74, 0x79, 0x70, 0x65]), TextString([0x61, 0x6C, 0x67])).Greater?
  {
    TextOrder([0x61, 0x6C, 0x67], [0x74, 0x79, 0x70, 0x65], 0);
  }

  // ----- the bytes themselves (section 3 of RFC 8949)

  /** The major type is in the top three bits and the size, most significant byte first, in the fewest of
      0, 1, 2, 4 and 8 bytes after them. */
  lemma ShortHead(major: nat, n: nat)
    requires major < 8 && n < 0x1_0000
    ensures n < 24 ==> StartItem(major, n) == [32 * major + n]
    ensures 24 <= n < 0x100 ==> StartItem(major, n) == [32 * major + 24, n]
    ensures 0x100 <= n ==> StartItem(major, n) == [32 * major + 25, n / 0x100, n % 0x100]
  {
    if n >= 0x100 {
      TwoBytes(n);
    } else if n >= 24 {
      OneByte(n);
    }
  }

  lemma LongHead(major: nat, n: nat, i: nat)
    requires major < 8 && 0x1_0000 <= n < U64_LIMIT
    ensures |StartItem(major, n)| == if n < 0x1_0000_0000 then 5 else 9
    ensures StartItem(major, n)[0] == 32 * major + if n < 0x1_0000_0000 then 26 else 27
    ensures 1 <= i < |StartItem(major, n)| ==>
      StartItem(major, n)[i] == n / Power256(|StartItem(major, n)| - 1 - i) % 0x100
  {
    var w: nat := if n < 0x1_0000_0000 then 4 else 8;
    StartItemParts(major, n);
    if 1 <= i <= w {
      ByteAt(n, w, i - 1);
    }
  }

  lemma OneByte(n: nat)
    requires n < 0x100
    ensures ToBytes(n, 1) == [n]
  {
    assert ToBytes(n / 256, 0) == [];
  }

  lemma TwoBytes(n: nat)
    requires n < 0x1_0000
    ensures ToBytes(n, 2) == [n / 0x100, n % 0x100]
  {
    OneByte(n / 256);
  }

  /** What stands in the top three bits of the first byte. */
  lemma FirstByteTellsKind(v: Value, depth: int)
    requires Encodable(v, depth)
    ensures var b := WriteItem(v, depth).value; b != [] && match v {
      case Unsigned(n) => b[0] < 0x20
      case Negative(n) => 0x20 <= b[0] < 0x40
      case ByteString(s) => 0x40 <= b[0] < 0x60
      case TextString(s) => 0x60 <= b[0] < 0x80
      case Array(vs) => 0x80 <= b[0] < 0xA0
      case Map(es) => 0xA0 <= b[0] < 0xC0
      case Tag(t, inner) => 0xC0 <= b[0] < 0xE0
      case Simple(code) => 0xE0 <= b[0]
    }
  {
    WrittenParts(v, depth);
    StartItemParts(TypeLabel(v), SizeOf(v));
  }

  /** Items with a head of one byte, as in appendix A of RFC 8949. */
  lemma ShortNumber(n: nat, depth: nat)
    requires n < 24
    ensures Write(Unsigned(n), depth) == Ok([n]) && Write(Negative(-1 - n), depth) == Ok([0x20 + n])
    ensures 20 <= n ==> Write(Simple(n), depth) == Ok([0xE0 + n])
  {
    ShortHead(0, n);
    ShortHead(1, n);
    ShortHead(7, n);
  }

  lemma ShortBytes(s: bytes, depth: nat)
    requires |s| < 24
    ensures Write(ByteString(s), depth) == Ok([0x40 + |s|] + s)
  {
    ShortHead(2, |s|);
  }

  lemma ShortText(s: bytes, depth: nat)
    requires |s| < 24 && Proper(TextString(s))
    ensures Write(TextString(s), depth) == Ok([0x60 + |s|] + s)
  {
    ShortHead(3, |s|);
  }

  lemma LongerNumbers(depth: nat)
    ensures Write(Unsigned(24), depth) == Ok([0x18, 0x18]) && Write(Unsigned(1000), depth) == Ok([0x19, 0x03, 0xE8])
    ensures Write(Negative(-100), depth) == Ok([0x38, 0x63])
  {
    ShortHead(0, 24);
    ShortHead(0, 1000);
    ShortHead(1, 99);
  }

  function Numbers(b: bytes): (vs: seq<Value>)
    ensures |vs| == |b| && forall i :: 0 <= i < |b| ==> vs[i] == Unsigned(b[i])
  {
    if b == [] then [] else [Unsigned(b[0])] + Numbers(b[1..])
  }

  /** An array is its head and its items, one after the other. */
  lemma ShortArray(b: bytes, depth: nat)
    requires depth >= 1 && |b| < 24 && forall i :: 0 <= i < |b| ==> b[i] < 24
    ensures Write(Array(Numbers(b)), depth) == Ok([0x80 + |b|] + b)
  {
    ItemsOfOneByte(b, depth);
    ArrayIsItsItems(Numbers(b), b, depth);
    ShortHead(4, |b|);
  }

  lemma ArrayIsItsItems(vs: seq<Value>, content: bytes, depth: nat)
    requires Proper(Array(vs)) && WriteItems(vs, depth) == Ok(content)
    ensures Write(Array(vs), depth) == Ok(StartItem(4, |vs|) + content)
  {
  }

  lemma {:induction false} ItemsOfOneByte(b: bytes, depth: nat)
    requires depth >= 1 && forall i :: 0 <= i < |b| ==> b[i] < 24
    ensures WriteItems(Numbers(b), depth) == Ok(b)
  {
    if b != [] {
      ItemsOfOneByte(b[1..], depth);
      ShortNumber(b[0], depth - 1);
      assert Numbers(b)[0] == Unsigned(b[0]) && Numbers(b)[1..] == Numbers(b[1..]);
      assert b == [b[0]] + b[1..];
    }
  }

  /** A map is its head, and its keys and values in turn. */
  lemma ShortMap(e: Pair, f: Pair, depth: nat)
    requires depth >= 1 && FineEntry(e) && FineEntry(f) && Compare(e.key, f.key).Less?
    requires Shallow(e.key, depth - 1) && Shallow(e.val, depth - 1)
    requires Shallow(f.key, depth - 1) && Shallow(f.val, depth - 1)
    ensures var (ek, ev) := (WriteItem(e.key, depth - 1), WriteItem(e.val, depth - 1));
            var (fk, fv) := (WriteItem(f.key, depth - 1), WriteItem(f.val, depth - 1));
            && ek.Ok? && ev.Ok? && fk.Ok? && fv.Ok?
            && Write(Map([e, f]), depth) == Ok([0xA2] + (ek.value + ev.value + (fk.value + fv.value)))
  {
    assert Increasing([e, f]);
    EntryIsWritten(e, depth);
    EntryIsWritten(f, depth);
    TwoEntries(e, f, depth);
    SortedAlready([e, f]);
    ShortHead(5, 2);
  }

  lemma EntryIsWritten(e: Pair, depth: nat)
    requires depth >= 1 && FineEntry(e) && Shallow(e.key, depth - 1) && Shallow(e.val, depth - 1)
    ensures WriteItem(e.key, depth - 1).Ok? && WriteItem(e.val, depth - 1).Ok?
    ensures WriteEntry(e, depth) == Ok(WriteItem(e.key, depth - 1).value + WriteItem(e.val, depth - 1).value)
  {
    WritableIff(e.key, depth - 1);
    WritableIff(e.val, depth - 1);
  }

  lemma TwoEntries(e: Pair, f: Pair, depth: nat)
    requires FineEntry(e) && FineEntry(f) && WriteEntry(e, depth).Ok? && WriteEntry(f, depth).Ok?
    ensures WriteEntries([e, f], depth) == Ok(WriteEntry(e, depth).value + WriteEntry(f, depth).value)
  {
    assert [e, f][1..] == [f] && [f][1..] == [];
    var last := WriteEntry(f, depth).value;
    assert WriteEntries([f], depth) == Ok(last) by {
      assert WriteEntries([], depth) == Ok([]) && last + [] == last;
    }
  }
}
