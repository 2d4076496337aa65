/** Reader and writer are inverse: the reader accepts exactly the byte strings the writer makes of values
    whose maps are in order, and gives those values back. */
module CborRoundTrip {
  import opened Wrappers
  import opened Bytes
  import opened BigEndian
  import opened Cbor

  // ----- heads

  function Info(size: nat): nat {
    if size < 24 then size else if size < 0x100 then 24 else if size < 0x1_0000 then 25
    else if size < 0x1_0000_0000 then 26 else 27
  }

  function Width(size: nat): nat {
    if size < 24 then 0 else if size < 0x100 then 1 else if size < 0x1_0000 then 2
    else if size < 0x1_0000_0000 then 4 else 8
  }

  lemma Powers()
    ensures Power256(1) == 0x100 && Power256(2) == 0x1_0000 && Power256(4) == 0x1_0000_0000
    ensures Power256(8) == U64_LIMIT
  {
    assert Power256(3) == 0x100_0000;
    assert Power256(5) == 0x100_0000_0000;
    assert Power256(6) == 0x1_0000_0000_0000;
    assert Power256(7) == 0x100_0000_0000_0000;
  }

  lemma StartItemParts(major: nat, size: nat)
    requires major < 8 && size < U64_LIMIT
    ensures StartItem(major, size) == [32 * major + Info(size)] + ToBytes(size, Width(size))
  {
  }

  /** A size of 24 and more is written in a width that it needs. */
  lemma WidthFits(size: nat)
    requires 24 <= size < U64_LIMIT
    ensures Extra(Info(size)) == Some(Width(size)) && Least(Width(size)) <= size < Power256(Width(size))
  {
    Powers();
  }

  function HeadSize(n: nat): nat {
    if n < 24 then 1 else if n < 0x100 then 2 else if n < 0x1_0000 then 3 else if n < 0x1_0000_0000 then 5 else 9
  }

  lemma HeadLength(major: nat, size: nat)
    requires major < 8 && size < U64_LIMIT
    ensures |StartItem(major, size)| == HeadSize(size)
  {
  }

  lemma HeadReadsBack(major: nat, size: nat, rest: bytes)
    requires major < 8 && size < U64_LIMIT
    ensures ReadHead(StartItem(major, size) + rest) == Ok(Head(major, Info(size), size, rest))
  {
    StartItemParts(major, size);
    var (first, more) := (32 * major + Info(size), ToBytes(size, Width(size)));
    FirstByte(major, Info(size));
    HeadPieces(first, more, rest);
    if size >= 24 {
      WidthFits(size);
      FromToBytes(size, Width(size));
    }
  }

  lemma FirstByte(major: nat, info: nat)
    requires major < 8 && info < 32
    ensures 32 * major + info < 256 && (32 * major + info) / 32 == major && (32 * major + info) % 32 == info
  {
  }

  lemma HeadPieces(first: byte, more: bytes, rest: bytes)
    ensures var b := [first] + more + rest;
            && b != [] && b[0] == first && |b| == 1 + |more| + |rest|
            && b[1..1 + |more|] == more && b[1 + |more|..] == rest && b[1..] == more + rest
  {
  }

  lemma HeadWritesBack(b: bytes)
    requires ReadHead(b).Ok?
    ensures var h := ReadHead(b).value;
            && h.major < 8 && h.size < U64_LIMIT && h.info == Info(h.size)
            && StartItem(h.major, h.size) + h.rest == b
  {
    var h := ReadHead(b).value;
    ByteParts(b[0]);
    if h.info < 24 {
      assert b == [b[0]] + b[1..];
    } else {
      LongHeadWritesBack(b, h.info, Extra(h.info).value);
    }
  }

  lemma ByteParts(x: byte)
    ensures x / 32 < 8 && x == 32 * (x / 32) + x % 32
  {
  }

  lemma LongHeadWritesBack(b: bytes, info: nat, w: nat)
    requires b != [] && b[0] % 32 == info && Extra(info) == Some(w) && w < |b|
    requires FromBytes(b[1..1 + w]) >= Least(w)
    ensures var size := FromBytes(b[1..1 + w]);
            && size < U64_LIMIT && info == Info(size) && b[0] / 32 < 8
            && StartItem(b[0] / 32, size) + b[1 + w..] == b
  {
    var more := b[1..1 + w];
    ByteParts(b[0]);
    assert |more| == w && b == [b[0]] + more + b[1 + w..];
    ToFromBytes(more);
    InfoOfWidth(info, FromBytes(more));
    StartItemParts(b[0] / 32, FromBytes(more));
  }

  lemma InfoOfWidth(info: nat, size: nat)
    requires Extra(info).Some? && Least(Extra(info).value) <= size < Power256(Extra(info).value)
    ensures size < U64_LIMIT && info == Info(size) && Width(size) == Extra(info).value
  {
    Powers();
  }

  // ----- sorting what is in order

  lemma {:induction false} SortedAlready(es: seq<Pair>)
    requires Increasing(es)
    ensures SortEntries(es) == es && !HasDuplicates(es)
  {
    if es != [] {
      assert forall i :: 0 < i < |es[1..]| ==> es[1..][i] == es[i + 1] && es[1..][i - 1] == es[i];
      SortedAlready(es[1..]);
      if |es| > 1 {
        assert Compare(es[1 - 1].key, es[1].key).Less?;
      }
      assert es == [es[0]] + es[1..];
    }
  }

  // ----- pieces of byte strings

  lemma Assoc(a: bytes, b: bytes, c: bytes)
    ensures a + b + c == a + (b + c)
  {
  }

  /** The bytes written are those read, or fewer if a string was cut. */
  ghost predicate Accounts(written: bytes, rest: bytes, b: bytes, wraps: bool) {
    if wraps then |written| + |rest| < |b| else written + rest == b
  }

  lemma Chain(w: bytes, ws: bytes, rest: bytes, mid: bytes, b: bytes, x: bool, y: bool)
    requires Accounts(w, mid, b, x) && Accounts(ws, rest, mid, y)
    ensures Accounts(w + ws, rest, b, x || y)
  {
    Assoc(w, ws, rest);
  }

  lemma SplitAt(b: bytes, rest: bytes)
    ensures (b + rest)[..|b|] == b && (b + rest)[|b|..] == rest
  {
  }

  // ----- what can be written

  /** Nested no deeper than the limit allows. */
  ghost predicate Shallow(v: Value, depth: int) {
    && depth >= 0
    && match v {
      case Array(vs) => forall i :: 0 <= i < |vs| ==> Shallow(vs[i], depth - 1)
      case Map(es) => forall i :: 0 <= i < |es| ==> Shallow(es[i].key, depth - 1) && Shallow(es[i].val, depth - 1)
      case Tag(_, inner) => Shallow(inner, depth - 1)
      case _ => true
    }
  }

  /** A value in order is written exactly if it is not nested too deeply. */
  lemma {:induction false} WritableIff(v: Value, depth: int)
    requires depth >= -1 && Proper(v) && InOrder(v)
    ensures WriteItem(v, depth).Ok? <==> Shallow(v, depth)
    decreases depth, 1, 0
  {
    if depth >= 0 {
      match v
      case Array(vs) => ItemsWritableIff(vs, depth);
      case Map(es) =>
        SortedAlready(es);
        EntriesWritableIff(es, depth);
      case Tag(_, inner) => WritableIff(inner, depth - 1);
      case _ =>
    }
  }

  lemma {:induction false} ItemsWritableIff(vs: seq<Value>, depth: int)
    requires depth >= 0 && forall i :: 0 <= i < |vs| ==> Proper(vs[i]) && InOrder(vs[i])
    ensures WriteItems(vs, depth).Ok? <==> forall i :: 0 <= i < |vs| ==> Shallow(vs[i], depth - 1)
    decreases depth, 0, |vs|
  {
    if vs != [] {
      WritableIff(vs[0], depth - 1);
      ItemsWritableIff(vs[1..], depth);
      assert forall i :: 0 < i < |vs| ==> vs[i] == vs[1..][i - 1];
    }
  }

  lemma {:induction false} EntriesWritableIff(es: seq<Pair>, depth: int)
    requires depth >= 0 && ProperEntries(es)
    requires forall i :: 0 <= i < |es| ==> InOrder(es[i].key) && InOrder(es[i].val)
    ensures WriteEntries(es, depth).Ok? <==>
      forall i :: 0 <= i < |es| ==> Shallow(es[i].key, depth - 1) && Shallow(es[i].val, depth - 1)
    decreases depth, 0, |es|
  {
    if es != [] {
      WritableIff(es[0].key, depth - 1);
      WritableIff(es[0].val, depth - 1);
      EntriesWritableIff(es[1..], depth);
      assert forall i :: 0 < i < |es| ==> es[i] == es[1..][i - 1];
    }
  }

  // ----- what is written reads back

  ghost predicate Leaf(v: Value) { !v.Array? && !v.Map? && !v.Tag? }

  lemma StringReadsBack(major: nat, b: bytes, rest: bytes)
    requires major < 8 && |b| < USIZE_LIMIT
    ensures ReadHead(StartItem(major, |b|) + b + rest) == Ok(Head(major, Info(|b|), |b|, b + rest))
    ensures (b + rest)[..|b|] == b && (b + rest)[|b|..] == rest
  {
    Assoc(StartItem(major, |b|), b, rest);
    HeadReadsBack(major, |b|, b + rest);
    SplitAt(b, rest);
  }

  lemma HeadOnlyReadsBack(v: Value, major: nat, size: nat, depth: int, rest: bytes)
    requires depth >= 0 && Proper(v) && size < U64_LIMIT
    requires match v {
      case Unsigned(n) => major == 0 && size == n
      case Negative(n) => major == 1 && size == -(n + 1)
      case Simple(code) => major == 7 && size == code
      case _ => false
    }
    ensures WriteItem(v, depth) == Ok(StartItem(major, size))
    ensures ReadItem(StartItem(major, size) + rest, depth) == Ok(Parsed(v, rest, false))
  {
    HeadReadsBack(major, size, rest);
  }

  lemma NumberReadsBack(v: Value, depth: int, rest: bytes)
    requires depth >= 0 && Proper(v) && (v.Unsigned? || v.Negative? || v.Simple?)
    ensures WriteItem(v, depth).Ok? && ReadItem(WriteItem(v, depth).value + rest, depth) == Ok(Parsed(v, rest, false))
  {
    match v
    case Unsigned(n) => HeadOnlyReadsBack(v, 0, n, depth, rest);
    case Negative(n) => HeadOnlyReadsBack(v, 1, -(n + 1), depth, rest);
    case Simple(code) => HeadOnlyReadsBack(v, 7, code, depth, rest);
    case _ =>
  }

  lemma BytesReadBack(b: bytes, depth: int, rest: bytes)
    requires depth >= 0 && |b| < USIZE_LIMIT
    ensures ReadItem(StartItem(2, |b|) + b + rest, depth) == Ok(Parsed(ByteString(b), rest, false))
  {
    StringReadsBack(2, b, rest);
  }

  lemma TextReadsBack(b: bytes, depth: int, rest: bytes)
    requires depth >= 0 && |b| < USIZE_LIMIT && ValidUtf8(b)
    ensures ReadItem(StartItem(3, |b|) + b + rest, depth) == Ok(Parsed(TextString(b), rest, false))
  {
    StringReadsBack(3, b, rest);
  }

  lemma LeafReadsBack(v: Value, depth: int, rest: bytes)
    requires depth >= 0 && Proper(v) && Leaf(v)
    ensures WriteItem(v, depth).Ok? && ReadItem(WriteItem(v, depth).value + rest, depth) == Ok(Parsed(v, rest, false))
  {
    if v.ByteString? {
      BytesReadBack(v.octets, depth, rest);
    } else if v.TextString? {
      TextReadsBack(v.utf8, depth, rest);
    } else {
      NumberReadsBack(v, depth, rest);
    }
  }

  lemma {:induction false} ReadsBack(v: Value, depth: int, rest: bytes)
    requires depth >= -1 && Proper(v) && InOrder(v) && WriteItem(v, depth).Ok?
    ensures ReadItem(WriteItem(v, depth).value + rest, depth) == Ok(Parsed(v, rest, false))
    decreases depth, 1, 0
  {
    if Leaf(v) {
      LeafReadsBack(v, depth, rest);
    } else if v.Array? {
      var content := WriteItems(v.items, depth).value;
      Assoc(StartItem(4, |v.items|), content, rest);
      HeadReadsBack(4, |v.items|, content + rest);
      ItemsReadBack(v.items, depth, rest);
    } else if v.Map? {
      SortedAlready(v.entries);
      var content := WriteEntries(v.entries, depth).value;
      Assoc(StartItem(5, |v.entries|), content, rest);
      HeadReadsBack(5, |v.entries|, content + rest);
      EntriesReadBack(v.entries, depth, None, rest);
    } else {
      var content := WriteItem(v.inner, depth - 1).value;
      Assoc(StartItem(6, v.tag), content, rest);
      HeadReadsBack(6, v.tag, content + rest);
      ReadsBack(v.inner, depth - 1, rest);
    }
  }

  lemma {:induction false} ItemsReadBack(vs: seq<Value>, depth: int, rest: bytes)
    requires depth >= 0 && forall i :: 0 <= i < |vs| ==> Proper(vs[i]) && InOrder(vs[i])
    requires WriteItems(vs, depth).Ok?
    ensures ReadItems(WriteItems(vs, depth).value + rest, |vs|, depth) == Ok(Parsed(vs, rest, false))
    decreases depth, 0, |vs|
  {
    if vs == [] {
      assert [] + rest == rest;
    } else {
      var first := WriteItem(vs[0], depth - 1).value;
      var others := WriteItems(vs[1..], depth).value;
      Assoc(first, others, rest);
      ReadsBack(vs[0], depth - 1, others + rest);
      ItemsReadBack(vs[1..], depth, rest);
      assert [vs[0]] + vs[1..] == vs;
    }
  }

  lemma {:induction false} EntriesReadBack(es: seq<Pair>, depth: int, last: Option<Value>, rest: bytes)
    requires depth >= 0 && ProperEntries(es) && Increasing(es)
    requires forall i :: 0 <= i < |es| ==> InOrder(es[i].key) && InOrder(es[i].val)
    requires es != [] ==> Follows(last, es[0].key)
    requires WriteEntries(es, depth).Ok?
    ensures ReadEntries(WriteEntries(es, depth).value + rest, |es|, depth, last) == Ok(Parsed(es, rest, false))
    decreases depth, 0, |es|
  {
    if es == [] {
      assert [] + rest == rest;
    } else {
      var first := WriteEntry(es[0], depth).value;
      var others := WriteEntries(es[1..], depth).value;
      Assoc(first, others, rest);
      EntryReadsBack(es[0], depth, last, others + rest);
      IncreasingTail(es);
      EntriesReadBack(es[1..], depth, Some(es[0].key), rest);
      assert [es[0]] + es[1..] == es;
    }
  }

  lemma EntryReadsBack(e: Pair, depth: int, last: Option<Value>, rest: bytes)
    requires depth >= 0 && Proper(e.key) && Proper(e.val) && InOrder(e.key) && InOrder(e.val)
    requires Follows(last, e.key) && WriteEntry(e, depth).Ok?
    ensures ReadEntry(WriteEntry(e, depth).value + rest, depth, last) == Ok(Parsed(e, rest, false))
    decreases depth, 0, 0
  {
    var key := WriteItem(e.key, depth - 1).value;
    var val := WriteItem(e.val, depth - 1).value;
    Assoc(key, val, rest);
    ReadsBack(e.key, depth - 1, val + rest);
    ReadsBack(e.val, depth - 1, rest);
  }

  lemma IncreasingTail(es: seq<Pair>)
    requires es != [] && Increasing(es)
    ensures Increasing(es[1..]) && (|es| > 1 ==> Follows(Some(es[0].key), es[1].key))
  {
    assert forall i :: 0 < i < |es[1..]| ==> es[1..][i] == es[i + 1] && es[1..][i - 1] == es[i];
    if |es| > 1 {
      assert Compare(es[1 - 1].key, es[1].key).Less?;
    }
  }

  // ----- what is read was written

  lemma LeafWritesBack(h: Head, b: bytes, depth: int)
    requires depth >= 0 && h.major < 8 && h.size < U64_LIMIT && h.info == Info(h.size)
    requires StartItem(h.major, h.size) + h.rest == b && !(4 <= h.major <= 6) && ReadLeaf(h).Ok?
    ensures Written(ReadLeaf(h).value, b, depth)
  {
    if h.major == 2 || h.major == 3 {
      var length := AsUsize(h.size);
      StringWritesBack(h, length, b);
    }
  }

  /** A string whose head claims too much is rewritten with a head of at most five bytes instead of nine. */
  lemma StringWritesBack(h: Head, length: nat, b: bytes)
    requires h.major < 8 && h.size < U64_LIMIT && length == AsUsize(h.size) <= |h.rest|
    requires StartItem(h.major, h.size) + h.rest == b
    ensures Accounts(StartItem(h.major, length) + h.rest[..length], h.rest[length..], b, h.size >= USIZE_LIMIT)
  {
    var head := StartItem(h.major, h.size);
    assert h.rest == h.rest[..length] + h.rest[length..];
    if h.size < USIZE_LIMIT {
      assert length == h.size;
      Assoc(head, h.rest[..length], h.rest[length..]);
    } else {
      assert |head| == 9 && |StartItem(h.major, length)| <= 5;
    }
  }

  ghost predicate Written(r: Parsed<Value>, b: bytes, depth: int)
    requires depth >= -1
  {
    && Proper(r.value) && InOrder(r.value)
    && WriteItem(r.value, depth).Ok? && Accounts(WriteItem(r.value, depth).value, r.rest, b, r.wraps)
  }

  lemma {:induction false} WritesBack(b: bytes, depth: int)
    requires depth >= -1 && ReadItem(b, depth).Ok?
    ensures Written(ReadItem(b, depth).value, b, depth)
    decreases depth, 2, 0
  {
    HeadWritesBack(b);
    var h := ReadHead(b).value;
    if 4 <= h.major <= 6 {
      NestedWritesBack(h, b, depth);
    } else {
      LeafWritesBack(h, b, depth);
    }
  }

  lemma NestedWritesBack(h: Head, b: bytes, depth: int)
    requires depth >= 0 && 4 <= h.major <= 6 && h.size < U64_LIMIT && StartItem(h.major, h.size) + h.rest == b
    requires ReadNested(h, depth).Ok?
    ensures Written(ReadNested(h, depth).value, b, depth)
    decreases depth, 1, 0
  {
    var (r, head) := (ReadNested(h, depth).value, StartItem(h.major, h.size));
    if h.major == 4 {
      ItemsWriteBack(h.rest, h.size, depth);
      Chain(head, WriteItems(r.value.items, depth).value, r.rest, h.rest, b, false, r.wraps);
    } else if h.major == 5 {
      MapWritesBack(h, b, depth);
    } else {
      WritesBack(h.rest, depth - 1);
      Chain(head, WriteItem(r.value.inner, depth - 1).value, r.rest, h.rest, b, false, r.wraps);
    }
  }

  lemma MapWritesBack(h: Head, b: bytes, depth: int)
    requires depth >= 0 && h.major == 5 && h.size < U64_LIMIT && StartItem(5, h.size) + h.rest == b
    requires ReadNested(h, depth).Ok?
    ensures Written(ReadNested(h, depth).value, b, depth)
    decreases depth, 0, h.size + 1
  {
    var r := ReadEntries(h.rest, h.size, depth, None).value;
    EntriesWriteBack(h.rest, h.size, depth, None);
    EntriesFollow(h.rest, h.size, depth, None);
    SortedAlready(r.value);
    Chain(StartItem(5, h.size), WriteEntries(r.value, depth).value, r.rest, h.rest, b, false, r.wraps);
  }

  lemma {:induction false} ItemsWriteBack(b: bytes, count: nat, depth: int)
    requires depth >= 0 && ReadItems(b, count, depth).Ok?
    ensures var r := ReadItems(b, count, depth).value;
            && |r.value| == count
            && (forall i :: 0 <= i < |r.value| ==> Proper(r.value[i]) && InOrder(r.value[i]))
            && WriteItems(r.value, depth).Ok? && Accounts(WriteItems(r.value, depth).value, r.rest, b, r.wraps)
    decreases depth, 0, count
  {
    if count == 0 {
      assert [] + b == b;
    } else {
      WritesBack(b, depth - 1);
      var first := ReadItem(b, depth - 1).value;
      ItemsWriteBack(first.rest, count - 1, depth);
      var others := ReadItems(first.rest, count - 1, depth).value;
      ItemsCons(first.value, others.value, depth);
      Chain(WriteItem(first.value, depth - 1).value, WriteItems(others.value, depth).value, others.rest, first.rest, b,
        first.wraps, others.wraps);
    }
  }

  lemma ItemsCons(v: Value, vs: seq<Value>, depth: int)
    requires depth >= 0 && Proper(v) && InOrder(v)
    requires forall i :: 0 <= i < |vs| ==> Proper(vs[i]) && InOrder(vs[i])
    requires WriteItem(v, depth - 1).Ok? && WriteItems(vs, depth).Ok?
    ensures forall i :: 0 <= i < |[v] + vs| ==> Proper(([v] + vs)[i]) && InOrder(([v] + vs)[i])
    ensures WriteItems([v] + vs, depth) == Ok(WriteItem(v, depth - 1).value + WriteItems(vs, depth).value)
  {
    assert ([v] + vs)[1..] == vs;
  }

  lemma {:induction false} EntriesFollow(b: bytes, count: nat, depth: int, last: Option<Value>)
    requires depth >= 0 && ReadEntries(b, count, depth, last).Ok?
    ensures |ReadEntries(b, count, depth, last).value.value| == count
    ensures count > 0 ==> Follows(last, ReadEntries(b, count, depth, last).value.value[0].key)
    decreases count
  {
    if count > 0 {
      var first := ReadEntry(b, depth, last).value;
      EntriesFollow(first.rest, count - 1, depth, Some(first.value.key));
      EntryFollows(b, depth, last);
    }
  }

  lemma EntryFollows(b: bytes, depth: int, last: Option<Value>)
    requires depth >= 0 && ReadEntry(b, depth, last).Ok?
    ensures Follows(last, ReadEntry(b, depth, last).value.value.key)
  {
  }

  lemma {:induction false} EntriesWriteBack(b: bytes, count: nat, depth: int, last: Option<Value>)
    requires depth >= 0 && ReadEntries(b, count, depth, last).Ok?
    ensures EntriesWritten(ReadEntries(b, count, depth, last).value, b, depth)
    decreases depth, 0, count
  {
    if count == 0 {
      assert [] + b == b;
    } else {
      var first, others := FirstAndOthers(b, count, depth, last);
      assert EntryWritten(first, b, depth) by {
        EntryWritesBack(b, depth, last);
      }
      assert EntriesWritten(others, first.rest, depth) by {
        EntriesWriteBack(first.rest, count - 1, depth, Some(first.value.key));
      }
      JoinEntries(first, others, b, depth);
    }
  }

  /** A list of entries is its first entry and the others, which follow it. */
  lemma FirstAndOthers(b: bytes, count: nat, depth: int, last: Option<Value>)
    returns (first: Parsed<Pair>, others: Parsed<seq<Pair>>)
    requires depth >= 0 && count > 0 && ReadEntries(b, count, depth, last).Ok?
    ensures ReadEntry(b, depth, last) == Ok(first)
    ensures ReadEntries(first.rest, count - 1, depth, Some(first.value.key)) == Ok(others)
    ensures ReadEntries(b, count, depth, last).value
         == Parsed([first.value] + others.value, others.rest, first.wraps || others.wraps)
    ensures others.value != [] ==> Follows(Some(first.value.key), others.value[0].key)
  {
    first := ReadEntry(b, depth, last).value;
    others := ReadEntries(first.rest, count - 1, depth, Some(first.value.key)).value;
    EntriesFollow(first.rest, count - 1, depth, Some(first.value.key));
  }

  ghost predicate EntryWritten(r: Parsed<Pair>, b: bytes, depth: int)
    requires depth >= 0
  {
    && FineEntry(r.value) && WriteEntry(r.value, depth).Ok?
    && Accounts(WriteEntry(r.value, depth).value, r.rest, b, r.wraps)
  }

  ghost predicate EntriesWritten(r: Parsed<seq<Pair>>, b: bytes, depth: int)
    requires depth >= 0
  {
    && Fine(r.value) && WriteEntries(r.value, depth).Ok?
    && Accounts(WriteEntries(r.value, depth).value, r.rest, b, r.wraps)
  }

  lemma JoinEntries(first: Parsed<Pair>, others: Parsed<seq<Pair>>, b: bytes, depth: int)
    requires depth >= 0 && EntryWritten(first, b, depth) && EntriesWritten(others, first.rest, depth)
    requires others.value != [] ==> Follows(Some(first.value.key), others.value[0].key)
    ensures EntriesWritten(Parsed([first.value] + others.value, others.rest, first.wraps || others.wraps), b, depth)
  {
    EntriesCons(first.value, others.value, depth);
    Chain(WriteEntry(first.value, depth).value, WriteEntries(others.value, depth).value, others.rest, first.rest, b,
      first.wraps, others.wraps);
  }

  /** Entries that are proper and in order, keys included. */
  ghost predicate Fine(es: seq<Pair>) {
    && ProperEntries(es) && Increasing(es)
    && forall i :: 0 <= i < |es| ==> InOrder(es[i].key) && InOrder(es[i].val)
  }

  ghost predicate FineEntry(e: Pair) {
    Proper(e.key) && Proper(e.val) && InOrder(e.key) && InOrder(e.val)
  }

  lemma EntryWritesBack(b: bytes, depth: int, last: Option<Value>)
    requires depth >= 0 && ReadEntry(b, depth, last).Ok?
    ensures EntryWritten(ReadEntry(b, depth, last).value, b, depth)
    decreases depth, 0, 0
  {
    WritesBack(b, depth - 1);
    var key := ReadItem(b, depth - 1).value;
    WritesBack(key.rest, depth - 1);
    var val := ReadItem(key.rest, depth - 1).value;
    Chain(WriteItem(key.value, depth - 1).value, WriteItem(val.value, depth - 1).value, val.rest, key.rest, b,
      key.wraps, val.wraps);
  }

  lemma EntriesCons(e: Pair, es: seq<Pair>, depth: int)
    requires depth >= 0 && FineEntry(e) && Fine(es) && (es != [] ==> Follows(Some(e.key), es[0].key))
    requires WriteEntry(e, depth).Ok? && WriteEntries(es, depth).Ok?
    ensures Fine([e] + es)
    ensures WriteEntries([e] + es, depth) == Ok(WriteEntry(e, depth).value + WriteEntries(es, depth).value)
  {
    assert ([e] + es)[1..] == es;
  }

  /** What is accepted is in order and can be written, and what the writer makes of it is the byte string
      itself if and only if no string head claims 2^32 bytes or more; else it is shorter. */
  lemma RewrittenIff(b: bytes, v: Value, depth: nat)
    requires Read(b, depth) == Ok(v)
    ensures Proper(v) && InOrder(v) && Write(v, depth).Ok?
    ensures Write(v, depth) == Ok(b) <==> !Wraps(b, depth)
    ensures Wraps(b, depth) ==> |Write(v, depth).value| < |b|
  {
    WritesBack(b, depth);
    assert WriteItem(v, depth).value + [] == WriteItem(v, depth).value;
  }

  /** The reader, kept from string heads that claim 2^32 bytes or more, accepts a byte string as a value
      exactly when the value is in order and the writer, at the same nesting limit, makes that byte string
      of it. In particular everything the writer makes of a value in order reads back. */
  lemma ReadsIffWritten(b: bytes, v: Value, depth: nat)
    ensures Read(b, depth) == Ok(v) && !Wraps(b, depth) <==> Proper(v) && InOrder(v) && Write(v, depth) == Ok(b)
  {
    if Read(b, depth) == Ok(v) {
      RewrittenIff(b, v, depth);
    }
    if Proper(v) && InOrder(v) && Write(v, depth) == Ok(b) {
      ReadsBack(v, depth, []);
      assert b + [] == b;
    }
  }

  /** Every value in order that is not nested too deeply can be written, and reads back. */
  lemma WrittenReadsBack(v: Value, depth: nat)
    requires Proper(v) && InOrder(v) && Shallow(v, depth)
    ensures Write(v, depth).Ok? && Read(Write(v, depth).value, depth) == Ok(v)
  {
    WritableIff(v, depth);
    ReadsIffWritten(Write(v, depth).value, v, depth);
  }

  /** Such a string head for any content: 2^32 is added to its length, and the reader accepts it as the
      content all the same. */
  lemma WrappedStringIsRead(content: bytes, depth: nat)
    requires |content| < USIZE_LIMIT
    ensures var b := StartItem(2, USIZE_LIMIT + |content|) + content;
            && Read(b, depth) == Ok(ByteString(content)) && Wraps(b, depth)
            && Write(ByteString(content), depth) != Ok(b)
  {
    var b := StartItem(2, USIZE_LIMIT + |content|) + content;
    HeadReadsBack(2, USIZE_LIMIT + |content|, content);
    assert AsUsize(USIZE_LIMIT + |content|) == |content|;
    assert content[..|content|] == content && content[|content|..] == [];
    RewrittenIff(b, ByteString(content), depth);
  }

  /** One of them, byte by byte: "ABCDE" behind a head that claims 2^32 + 5 bytes. */
  lemma WrappedExample(depth: nat)
    ensures Read([0x5B, 0, 0, 0, 1, 0, 0, 0, 5, 0x41, 0x42, 0x43, 0x44, 0x45], depth)
         == Ok(ByteString([0x41, 0x42, 0x43, 0x44, 0x45]))
  {
    var content := [0x41, 0x42, 0x43, 0x44, 0x45];
    WrappedHead();
    assert StartItem(2, USIZE_LIMIT + 5) + content == [0x5B, 0, 0, 0, 1, 0, 0, 0, 5, 0x41, 0x42, 0x43, 0x44, 0x45];
    WrappedStringIsRead(content, depth);
  }

  lemma WrappedHead()
    ensures StartItem(2, USIZE_LIMIT + 5) == [0x5B, 0, 0, 0, 1, 0, 0, 0, 5]
  {
    var size := [0, 0, 0, 1, 0, 0, 0, 5];
    ClaimsTooMuch();
    ToFromBytes(size);
    assert StartItem(2, USIZE_LIMIT + 5) == [0x5B] + size;
  }

  lemma ClaimsTooMuch()
    ensures FromBytes([0, 0, 0, 1, 0, 0, 0, 5]) == USIZE_LIMIT + 5
  {
    var b: bytes := [];
    b := OneMoreByte(b, 0);
    b := OneMoreByte(b, 0);
    b := OneMoreByte(b, 0);
    b := OneMoreByte(b, 1);
    assert FromBytes(b) == 1;
    b := OneMoreByte(b, 0);
    b := OneMoreByte(b, 0);
    b := OneMoreByte(b, 0);
    b := OneMoreByte(b, 5);
    assert b == [0, 0, 0, 1, 0, 0, 0, 5];
  }

  lemma OneMoreByte(b: bytes, x: byte) returns (more: bytes)
    ensures more == b + [x] && FromBytes(more) == 256 * FromBytes(b) + x
  {
    more := b + [x];
    assert more[..|b|] == b;
  }
}
