/** The CBOR of the authenticator (`libraries/cbor/src`; section 3 of RFC 8949): a reader that takes only
    minimal integers, strictly increasing map keys and bounded nesting, and a writer that sorts maps. */
module Cbor {
  import opened Wrappers
  import opened Bytes
  import opened BigEndian
  import opened Text

  datatype Value =
    | Unsigned(size: nat)
    | Negative(integer: int)
    | ByteString(octets: bytes)
    | TextString(utf8: bytes)
    | Array(items: seq<Value>)
    | Map(entries: seq<Pair>)
    | Tag(tag: nat, inner: Value)
    | Simple(code: nat)
  datatype Pair = Pair(key: Value, val: Value)

  const U64_LIMIT := 0x1_0000_0000_0000_0000
  const I64_LIMIT := 0x8000_0000_0000_0000

  datatype DecoderError =
    | UnsupportedMajorType | UnknownAdditionalInfo | IncompleteCborData | TooMuchNesting | InvalidUtf8
    | ExtraneousData | OutOfOrderKey | NonMinimalCborEncoding | UnsupportedSimpleValue
    | UnsupportedFloatingPointValue | OutOfRangeIntegerValue

  datatype EncoderError = NestedTooDeep | DuplicateMapKey

  // ----- values

  function TypeLabel(v: Value): (t: nat)
    ensures t < 8
  {
    match v
    case Unsigned(_) => 0
    case Negative(_) => 1
    case ByteString(_) => 2
    case TextString(_) => 3
    case Array(_) => 4
    case Map(_) => 5
    case Tag(_, _) => 6
    case Simple(_) => 7
  }

  /** What the Rust types hold: strings that fit the device's memory, 64-bit sizes, 63-bit negative
      integers, text in UTF-8, four simple values. */
  ghost predicate Proper(v: Value) {
    match v
    case Unsigned(n) => n < U64_LIMIT
    case Negative(n) => -I64_LIMIT <= n < 0
    case ByteString(b) => |b| < USIZE_LIMIT
    case TextString(b) => |b| < USIZE_LIMIT && ValidUtf8(b)
    case Array(vs) => |vs| < U64_LIMIT && forall i :: 0 <= i < |vs| ==> Proper(vs[i])
    case Map(es) => |es| < U64_LIMIT && forall i :: 0 <= i < |es| ==> Proper(es[i].key) && Proper(es[i].val)
    case Tag(t, inner) => t < U64_LIMIT && Proper(inner)
    case Simple(code) => 20 <= code <= 23
  }

  function CompareInts(a: int, b: int): Ordering {
    if a < b then Less else if a == b then Equal else Greater
  }

  function CompareBytes(a: bytes, b: bytes): Ordering {
    if a == [] then (if b == [] then Equal else Less)
    else if b == [] then Greater
    else CompareInts(a[0], b[0]).Then(CompareBytes(a[1..], b[1..]))
  }

  /** `Ord for Value`: by major type, then shorter first, then by content. */
  function Compare(a: Value, b: Value): Ordering
    decreases a
  {
    if TypeLabel(a) != TypeLabel(b) then CompareInts(TypeLabel(a), TypeLabel(b))
    else
      match a
      case Unsigned(n) => CompareInts(n, b.size)
      case Negative(n) => CompareInts(b.integer, n)
      case ByteString(s) => CompareInts(|s|, |b.octets|).Then(CompareBytes(s, b.octets))
      case TextString(s) => CompareInts(|s|, |b.utf8|).Then(CompareBytes(s, b.utf8))
      case Array(vs) => CompareInts(|vs|, |b.items|).Then(CompareItems(vs, b.items))
      case Map(es) => CompareInts(|es|, |b.entries|).Then(CompareEntries(es, b.entries))
      case Tag(t, inner) => CompareInts(t, b.tag).Then(Compare(inner, b.inner))
      case Simple(code) => CompareInts(code, b.code)
  }

  /** The first difference of two zipped lists. */
  function CompareItems(a: seq<Value>, b: seq<Value>): Ordering
    decreases a
  {
    if a == [] || b == [] then Equal else Compare(a[0], b[0]).Then(CompareItems(a[1..], b[1..]))
  }

  function CompareEntries(a: seq<Pair>, b: seq<Pair>): Ordering
    decreases a
  {
    if a == [] || b == [] then Equal
    else ComparePair(a[0], b[0]).Then(CompareEntries(a[1..], b[1..]))
  }

  function ComparePair(a: Pair, b: Pair): Ordering
    decreases a
  {
    Compare(a.key, b.key).Then(Compare(a.val, b.val))
  }

  /** Strictly increasing keys, as both sides check neighbours. */
  ghost predicate Increasing(es: seq<Pair>) {
    forall i :: 0 < i < |es| ==> Compare(es[i - 1].key, es[i].key).Less?
  }

  /** Every map, at any depth, has strictly increasing keys. */
  ghost predicate InOrder(v: Value) {
    match v
    case Array(vs) => forall i :: 0 <= i < |vs| ==> InOrder(vs[i])
    case Map(es) => Increasing(es) && forall i :: 0 <= i < |es| ==> InOrder(es[i].key) && InOrder(es[i].val)
    case Tag(_, inner) => InOrder(inner)
    case _ => true
  }

  // ----- heads

  /** `start_item`: the head of an item, its size in the fewest bytes. */
  function StartItem(major: nat, size: nat): bytes
    requires major < 8 && size < U64_LIMIT
  {
    if size < 24 then [32 * major + size]
    else if size < 0x100 then [32 * major + 24] + ToBytes(size, 1)
    else if size < 0x1_0000 then [32 * major + 25] + ToBytes(size, 2)
    else if size < 0x1_0000_0000 then [32 * major + 26] + ToBytes(size, 4)
    else [32 * major + 27] + ToBytes(size, 8)
  }

  datatype Head = Head(major: nat, info: nat, size: nat, rest: bytes)

  function Extra(info: nat): Option<nat> {
    if info == 24 then Some(1) else if info == 25 then Some(2) else if info == 26 then Some(4)
    else if info == 27 then Some(8) else None
  }

  function Least(width: nat): nat {
    if width == 1 then 24 else if width == 2 then 0x100 else if width == 4 then 0x1_0000 else 0x1_0000_0000
  }

  function ReadHead(b: bytes): Result<Head, DecoderError> {
    if b == [] then Err(IncompleteCborData)
    else
      var info := b[0] % 32;
      if info < 24 then Ok(Head(b[0] / 32, info, info, b[1..]))
      else
        match Extra(info)
        case None => Err(UnknownAdditionalInfo)
        case Some(width) =>
          if width > |b| - 1 then Err(IncompleteCborData)
          else if FromBytes(b[1..1 + width]) < Least(width) then Err(NonMinimalCborEncoding)
          else Ok(Head(b[0] / 32, info, FromBytes(b[1..1 + width]), b[1 + width..]))
  }

  // ----- reader

  /** What was read, what is left, and whether the head of a string claimed more than a `usize` holds. */
  datatype Parsed<+T> = Parsed(value: T, rest: bytes, wraps: bool)

  function ReadItem(b: bytes, depth: int): Result<Parsed<Value>, DecoderError>
    requires depth >= -1
    decreases depth, 2, 0
  {
    if depth < 0 then Err(TooMuchNesting)
    else
      match ReadHead(b)
      case Err(e) => Err(e)
      case Ok(h) => if 4 <= h.major <= 6 then ReadNested(h, depth) else ReadLeaf(h)
  }

  /** The cast `as usize`: the number modulo 2^32. */
  function AsUsize(n: nat): (length: nat)
    ensures length < USIZE_LIMIT && (n < USIZE_LIMIT ==> length == n)
  {
    if n < USIZE_LIMIT then n else AsUsize(n - USIZE_LIMIT)
  }

  /** The cast of a string's length drops its high bits. */
  function ReadLeaf(h: Head): Result<Parsed<Value>, DecoderError> {
    var length := AsUsize(h.size);
    if h.major == 0 then Ok(Parsed(Unsigned(h.size), h.rest, false))
    else if h.major == 1 then
      if h.size >= I64_LIMIT then Err(OutOfRangeIntegerValue) else Ok(Parsed(Negative(-1 - h.size), h.rest, false))
    else if h.major == 2 then
      if length > |h.rest| then Err(IncompleteCborData)
      else Ok(Parsed(ByteString(h.rest[..length]), h.rest[length..], h.size >= USIZE_LIMIT))
    else if h.major == 3 then
      if length > |h.rest| then Err(IncompleteCborData)
      else if !ValidUtf8(h.rest[..length]) then Err(InvalidUtf8)
      else Ok(Parsed(TextString(h.rest[..length]), h.rest[length..], h.size >= USIZE_LIMIT))
    else if h.info > 24 then Err(UnsupportedFloatingPointValue)
    else if 20 <= h.size <= 23 then Ok(Parsed(Simple(h.size), h.rest, false))
    else Err(UnsupportedSimpleValue)
  }

  function ReadNested(h: Head, depth: int): Result<Parsed<Value>, DecoderError>
    requires depth >= 0
    decreases depth, 1, 0
  {
    if h.major == 4 then
      match ReadItems(h.rest, h.size, depth)
      case Err(e) => Err(e)
      case Ok(items) => Ok(Parsed(Array(items.value), items.rest, items.wraps))
    else if h.major == 5 then
      match ReadEntries(h.rest, h.size, depth, None)
      case Err(e) => Err(e)
      case Ok(entries) => Ok(Parsed(Map(entries.value), entries.rest, entries.wraps))
    else
      match ReadItem(h.rest, depth - 1)
      case Err(e) => Err(e)
      case Ok(inner) => Ok(Parsed(Tag(h.size, inner.value), inner.rest, inner.wraps))
  }

  function ReadItems(b: bytes, count: nat, depth: int): Result<Parsed<seq<Value>>, DecoderError>
    requires depth >= 0
    decreases depth, 0, count
  {
    if count == 0 then Ok(Parsed([], b, false))
    else
      match ReadItem(b, depth - 1)
      case Err(e) => Err(e)
      case Ok(first) =>
        match ReadItems(first.rest, count - 1, depth)
        case Err(e) => Err(e)
        case Ok(others) => Ok(Parsed([first.value] + others.value, others.rest, first.wraps || others.wraps))
  }

  function ReadEntries(b: bytes, count: nat, depth: int, last: Option<Value>): Result<Parsed<seq<Pair>>, DecoderError>
    requires depth >= 0
    decreases depth, 0, count
  {
    if count == 0 then Ok(Parsed([], b, false))
    else
      match ReadEntry(b, depth, last)
      case Err(e) => Err(e)
      case Ok(first) =>
        match ReadEntries(first.rest, count - 1, depth, Some(first.value.key))
        case Err(e) => Err(e)
        case Ok(others) => Ok(Parsed([first.value] + others.value, others.rest, first.wraps || others.wraps))
  }

  /** A key, which must come after the last one, and its value. */
  function ReadEntry(b: bytes, depth: int, last: Option<Value>): Result<Parsed<Pair>, DecoderError>
    requires depth >= 0
    decreases depth, 0, 0
  {
    match ReadItem(b, depth - 1)
    case Err(e) => Err(e)
    case Ok(key) =>
      if !Follows(last, key.value) then Err(OutOfOrderKey)
      else
        match ReadItem(key.rest, depth - 1)
        case Err(e) => Err(e)
        case Ok(val) => Ok(Parsed(Pair(key.value, val.value), val.rest, key.wraps || val.wraps))
  }

  predicate Follows(last: Option<Value>, key: Value) {
    last.None? || Compare(last.value, key).Less?
  }

  /** `read_nested`: one value and nothing after it. */
  function Read(b: bytes, depth: nat): Result<Value, DecoderError> {
    var item :- ReadItem(b, depth);
    if item.rest != [] then Err(ExtraneousData) else Ok(item.value)
  }

  /** The guard under which the reader is not exact: the head of some string claims 2^32 bytes or more. */
  predicate Wraps(b: bytes, depth: nat) {
    var item := ReadItem(b, depth);
    item.Ok? && item.value.wraps
  }

  // ----- fields of a map

  /** `destructure_cbor_map_peek_value`: skips smaller keys, takes an equal one. */
  function Peek(es: seq<Pair>, needle: Value): (Option<Value>, seq<Pair>) {
    if es == [] then (None, es)
    else
      match Compare(es[0].key, needle)
      case Less => Peek(es[1..], needle)
      case Equal => (Some(es[0].val), es[1..])
      case Greater => (None, es)
  }

  lemma PeekFinds(es: seq<Pair>, n: nat)
    requires es != [] && es[0].key == Unsigned(n)
    ensures Peek(es, Unsigned(n)) == (Some(es[0].val), es[1..])
  {
  }

  lemma PeekMisses(es: seq<Pair>, n: nat)
    requires es != [] ==> es[0].key.Unsigned? && n < es[0].key.size
    ensures Peek(es, Unsigned(n)) == (None, es)
  {
  }

  // ----- writer

  function InsertEntry(e: Pair, es: seq<Pair>): seq<Pair> {
    if es == [] || !Compare(e.key, es[0].key).Greater? then [e] + es
    else [es[0]] + InsertEntry(e, es[1..])
  }

  function SortEntries(es: seq<Pair>): (r: seq<Pair>)
  {
    if es == [] then [] else InsertEntry(es[0], SortEntries(es[1..]))
  }

  predicate HasDuplicates(es: seq<Pair>) {
    exists i :: 0 < i < |es| && Compare(es[i - 1].key, es[i].key).Equal?
  }

  function WriteItem(v: Value, depth: int): Result<bytes, EncoderError>
    requires depth >= -1 && Proper(v)
    decreases depth, 1, 0
  {
    if depth < 0 then Err(NestedTooDeep)
    else
      match v
      case Unsigned(n) => Ok(StartItem(0, n))
      case Negative(n) => Ok(StartItem(1, -(n + 1)))
      case ByteString(b) => Ok(StartItem(2, |b|) + b)
      case TextString(b) => Ok(StartItem(3, |b|) + b)
      case Array(vs) =>
        var content :- WriteItems(vs, depth);
        Ok(StartItem(4, |vs|) + content)
      case Map(es) =>
        SortKeeps(es);
        var sorted := SortEntries(es);
        if HasDuplicates(sorted) then Err(DuplicateMapKey)
        else
          var content :- WriteEntries(sorted, depth);
          Ok(StartItem(5, |es|) + content)
      case Tag(t, inner) =>
        var content :- WriteItem(inner, depth - 1);
        Ok(StartItem(6, t) + content)
      case Simple(code) => Ok(StartItem(7, code))
  }

  function WriteItems(vs: seq<Value>, depth: int): Result<bytes, EncoderError>
    requires depth >= 0 && forall i :: 0 <= i < |vs| ==> Proper(vs[i])
    decreases depth, 0, |vs|
  {
    if vs == [] then Ok([])
    else
      var first :- WriteItem(vs[0], depth - 1);
      var others :- WriteItems(vs[1..], depth);
      Ok(first + others)
  }

  function WriteEntries(es: seq<Pair>, depth: int): Result<bytes, EncoderError>
    requires depth >= 0 && ProperEntries(es)
    decreases depth, 0, |es|
  {
    if es == [] then Ok([])
    else
      var first :- WriteEntry(es[0], depth);
      var others :- WriteEntries(es[1..], depth);
      Ok(first + others)
  }

  function WriteEntry(e: Pair, depth: int): Result<bytes, EncoderError>
    requires depth >= 0 && Proper(e.key) && Proper(e.val)
    decreases depth, 0, 0
  {
    var key :- WriteItem(e.key, depth - 1);
    var val :- WriteItem(e.val, depth - 1);
    Ok(key + val)
  }

  ghost predicate ProperEntries(es: seq<Pair>) {
    forall i :: 0 <= i < |es| ==> Proper(es[i].key) && Proper(es[i].val)
  }

  lemma {:induction false} SortKeeps(es: seq<Pair>)
    requires ProperEntries(es)
    ensures ProperEntries(SortEntries(es)) && |SortEntries(es)| == |es|
  {
    if es != [] {
      SortKeeps(es[1..]);
      InsertKeeps(es[0], SortEntries(es[1..]));
    }
  }

  lemma {:induction false} InsertKeeps(e: Pair, es: seq<Pair>)
    requires ProperEntries(es) && Proper(e.key) && Proper(e.val)
    ensures ProperEntries(InsertEntry(e, es)) && |InsertEntry(e, es)| == |es| + 1
  {
    if es != [] && Compare(e.key, es[0].key).Greater? {
      InsertKeeps(e, es[1..]);
    }
  }

  /** `write_nested` into an empty buffer. */
  function Write(v: Value, depth: nat): Result<bytes, EncoderError>
    requires Proper(v)
  {
    WriteItem(v, depth)
  }
}
