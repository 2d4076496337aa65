/** What a backup is sent as (`libraries/backup/src/lib.rs`): its entries become CBOR and, on restore,
    are read from it again. */
module BackupWire {
  import opened Wrappers
  import opened Bytes
  import opened Records
  import opened Backup
  import C = Cbor
  import CborRoundTrip
  import Coherence
  import RecordText
  import Storage

  /** UTF-8 between Rust's strings and their bytes. */
  datatype Utf8 = Utf8(encode: string -> bytes, decode: bytes -> string) {
    ghost predicate Lawful() {
      forall s :: ValidUtf8(encode(s)) && decode(encode(s)) == s
    }

    /** The string fits the memory of the device, whose lengths have 32 bits. */
    ghost predicate Holds(s: string) { |encode(s)| < USIZE_LIMIT }

    function Text(s: string): C.Value { C.TextString(encode(s)) }
  }

  datatype DataPacket = Passwords(passwords: seq<PasswordEntry>) | Totps(totps: seq<TotpEntry>)

  /** How reading can end badly; a panic is the outcome of `unwrap` on a missing key, or on an entry
      that is refused. */
  datatype WireError = NotCbor(error: C.DecoderError) | BadCbor | UnknownAlgorithm(code: nat) | Panicked

  const MAX_NESTING := 127

  // ----- writing

  /** `as i64`, then `Value::integer` */
  function Integer(n: nat): C.Value {
    if n < C.I64_LIMIT then C.Unsigned(n) else C.Negative(n - C.U64_LIMIT)
  }

  function AlgorithmCode(a: HashAlgorithm): nat {
    match a
    case SHA1 => 1
    case SHA256 => 2
    case SHA512 => 3
  }

  /** A map with the keys 1, 2, and so on. */
  function Numbered(vs: seq<C.Value>): (v: C.Value)
    ensures v.Map? && |v.entries| == |vs|
    ensures forall i :: 0 <= i < |vs| ==> v.entries[i] == C.Pair(C.Unsigned(i + 1), vs[i])
  {
    C.Map(seq(|vs|, i requires 0 <= i < |vs| => C.Pair(C.Unsigned(i + 1), vs[i])))
  }

  /** The flag for counter-based codes is not sent. */
  function TotpToCbor(u: Utf8, e: TotpEntry): C.Value {
    Numbered([Integer(e.stepSeconds), u.Text(e.sharedSecret), C.Unsigned(e.digitCount),
              C.Unsigned(AlgorithmCode(e.algorithm)), u.Text(e.name)])
  }

  function PasswordToCbor(u: Utf8, e: PasswordEntry): C.Value {
    Numbered([u.Text(e.description), u.Text(e.username), u.Text(e.password), u.Text(e.notes)])
  }

  function Converted<E>(convert: E -> C.Value, es: seq<E>): (vs: seq<C.Value>)
    ensures |vs| == |es| && forall i :: 0 <= i < |es| ==> vs[i] == convert(es[i])
  {
    seq(|es|, i requires 0 <= i < |es| => convert(es[i]))
  }

  function PacketToCbor(u: Utf8, p: DataPacket): C.Value {
    match p
    case Passwords(es) => Numbered([C.Unsigned(1), C.Array(Converted(e => PasswordToCbor(u, e), es))])
    case Totps(es) => Numbered([C.Unsigned(2), C.Array(Converted(e => TotpToCbor(u, e), es))])
  }

  ghost predicate TotpHolds(u: Utf8, e: TotpEntry) {
    e.stepSeconds < C.U64_LIMIT && e.digitCount < U32_LIMIT && u.Holds(e.sharedSecret) && u.Holds(e.name)
  }

  ghost predicate PasswordHolds(u: Utf8, e: PasswordEntry) {
    u.Holds(e.description) && u.Holds(e.username) && u.Holds(e.password) && u.Holds(e.notes)
  }

  /** What Rust's types and the memory hold. */
  ghost predicate PacketHolds(u: Utf8, p: DataPacket) {
    match p
    case Passwords(es) => |es| < USIZE_LIMIT && forall i :: 0 <= i < |es| ==> PasswordHolds(u, es[i])
    case Totps(es) => |es| < USIZE_LIMIT && forall i :: 0 <= i < |es| ==> TotpHolds(u, es[i])
  }

  /** The bytes of a packet. The original drops the result of the writer, which is always success. */
  function EncodePacket(u: Utf8, p: DataPacket): bytes
    requires u.Lawful() && PacketHolds(u, p)
  {
    PacketIsGood(u, p);
    CborRoundTrip.WrittenReadsBack(PacketToCbor(u, p), MAX_NESTING);
    C.Write(PacketToCbor(u, p), MAX_NESTING).value
  }

  // ----- reading

  function ToUnsigned(v: Option<C.Value>): Result<nat, WireError> {
    match v
    case None => Err(Panicked)
    case Some(Unsigned(n)) => Ok(n)
    case Some(_) => Err(BadCbor)
  }

  function ToText(u: Utf8, v: Option<C.Value>): Result<string, WireError> {
    match v
    case None => Err(Panicked)
    case Some(TextString(b)) => Ok(u.decode(b))
    case Some(_) => Err(BadCbor)
  }

  function ToAlgorithm(v: Option<C.Value>): Result<HashAlgorithm, WireError> {
    var code :- ToUnsigned(v);
    if code == 1 then Ok(SHA1)
    else if code == 2 then Ok(SHA256)
    else if code == 3 then Ok(SHA512)
    else Err(UnknownAlgorithm(code))
  }

  function TotpFromCbor(u: Utf8, v: C.Value): Result<TotpEntry, WireError> {
    if !v.Map? then Err(BadCbor)
    else
      var (step, es1) := C.Peek(v.entries, C.Unsigned(1));
      var (secret, es2) := C.Peek(es1, C.Unsigned(2));
      var (digits, es3) := C.Peek(es2, C.Unsigned(3));
      var (algorithm, es4) := C.Peek(es3, C.Unsigned(4));
      var (name, es5) := C.Peek(es4, C.Unsigned(5));
      var (hotp, _) := C.Peek(es5, C.Unsigned(6));
      TotpFromFields(u, step, secret, digits, algorithm, name, hotp == Some(C.Simple(21)))
  }

  function TotpFromFields(
    u: Utf8, step: Option<C.Value>, secret: Option<C.Value>, digits: Option<C.Value>, algorithm: Option<C.Value>,
    name: Option<C.Value>, hotp: bool): Result<TotpEntry, WireError>
  {
    var stepSeconds :- ToUnsigned(step);
    var sharedSecret :- ToText(u, secret);
    var digitCount :- ToUnsigned(digits);
    var hash :- ToAlgorithm(algorithm);
    var text :- ToText(u, name);
    Ok(TotpEntry(stepSeconds, sharedSecret, digitCount % U32_LIMIT, hash, text, hotp))
  }

  function PasswordFromCbor(u: Utf8, v: C.Value): Result<PasswordEntry, WireError> {
    if !v.Map? then Err(BadCbor)
    else
      var (description, es1) := C.Peek(v.entries, C.Unsigned(1));
      var (username, es2) := C.Peek(es1, C.Unsigned(2));
      var (password, es3) := C.Peek(es2, C.Unsigned(3));
      var (notes, _) := C.Peek(es3, C.Unsigned(4));
      var d :- ToText(u, description);
      var n :- ToText(u, username);
      var p :- ToText(u, password);
      var t :- ToText(u, notes);
      Ok(PasswordEntry(d, n, p, t))
  }

  /** The elements of an array, each converted and unwrapped. */
  function Elements<E>(convert: C.Value -> Result<E, WireError>, v: C.Value): Result<seq<E>, WireError> {
    if !v.Array? then Err(BadCbor) else Unwrapped(convert, v.items)
  }

  function Unwrapped<E>(convert: C.Value -> Result<E, WireError>, vs: seq<C.Value>): Result<seq<E>, WireError> {
    if vs == [] then Ok([])
    else
      match Unwrapped(convert, vs[..|vs| - 1])
      case Err(e) => Err(e)
      case Ok(es) =>
        match convert(vs[|vs| - 1])
        case Err(_) => Err(Panicked)
        case Ok(e) => Ok(es + [e])
  }

  /** `TotpEntries::try_from` and `PasswordEntries::try_from` */
  method ReadElements<E>(convert: C.Value -> Result<E, WireError>, v: C.Value) returns (r: Result<seq<E>, WireError>)
    ensures r == Elements(convert, v)
  {
    if !v.Array? {
      return Err(BadCbor);
    }
    var elements := [];
    for i := 0 to |v.items|
      invariant Unwrapped(convert, v.items[..i]) == Ok(elements)
    {
      assert v.items[..i + 1][..i] == v.items[..i];
      var element := convert(v.items[i]);
      if element.Err? {
        UnwrappedFails(convert, v.items, i + 1);
        return Err(Panicked);
      }
      elements := elements + [element.value];
    }
    assert v.items[..|v.items|] == v.items;
    r := Ok(elements);
  }

  lemma {:induction false} UnwrappedFails<E>(convert: C.Value -> Result<E, WireError>, vs: seq<C.Value>, n: nat)
    requires n <= |vs| && Unwrapped(convert, vs[..n]).Err?
    ensures Unwrapped(convert, vs) == Unwrapped(convert, vs[..n])
    decreases |vs|
  {
    if n == |vs| {
      assert vs[..n] == vs;
    } else {
      var front := vs[..|vs| - 1];
      assert front[..n] == vs[..n];
      UnwrappedFails(convert, front, n);
    }
  }

  function PacketFromCbor(u: Utf8, v: C.Value): Result<DataPacket, WireError> {
    if !v.Map? then Err(BadCbor)
    else
      var (code, es1) := C.Peek(v.entries, C.Unsigned(1));
      var (payload, _) := C.Peek(es1, C.Unsigned(2));
      var kind :- ToUnsigned(code);
      if payload.None? then Err(Panicked)
      else if kind == 1 then
        var es :- Elements(e => PasswordFromCbor(u, e), payload.value);
        Ok(Passwords(es))
      else if kind == 2 then
        var es :- Elements(e => TotpFromCbor(u, e), payload.value);
        Ok(Totps(es))
      else Err(Panicked)
  }

  /** The first lines of `handle_restore`. */
  function DecodePacket(u: Utf8, b: bytes): Result<DataPacket, WireError> {
    match C.Read(b, MAX_NESTING)
    case Err(e) => Err(NotCbor(e))
    case Ok(v) => PacketFromCbor(u, v)
  }

  // ----- what is written can be written, and is read as CBOR again

  ghost predicate Good(v: C.Value, depth: int) {
    C.Proper(v) && C.InOrder(v) && CborRoundTrip.Shallow(v, depth)
  }

  lemma NumberedIsGood(vs: seq<C.Value>, depth: int)
    requires depth >= 1 && |vs| < 24 && forall i :: 0 <= i < |vs| ==> Good(vs[i], depth - 1)
    ensures Good(Numbered(vs), depth)
  {
    var es := Numbered(vs).entries;
    forall i | 0 < i < |es| ensures C.Compare(es[i - 1].key, es[i].key).Less? {
      assert es[i - 1].key == C.Unsigned(i) && es[i].key == C.Unsigned(i + 1);
    }
  }

  lemma TotpIsGood(u: Utf8, e: TotpEntry, depth: int)
    requires u.Lawful() && TotpHolds(u, e) && depth >= 1
    ensures Good(TotpToCbor(u, e), depth)
  {
    NumberedIsGood([Integer(e.stepSeconds), u.Text(e.sharedSecret), C.Unsigned(e.digitCount),
      C.Unsigned(AlgorithmCode(e.algorithm)), u.Text(e.name)], depth);
  }

  lemma PasswordIsGood(u: Utf8, e: PasswordEntry, depth: int)
    requires u.Lawful() && PasswordHolds(u, e) && depth >= 1
    ensures Good(PasswordToCbor(u, e), depth)
  {
    NumberedIsGood([u.Text(e.description), u.Text(e.username), u.Text(e.password), u.Text(e.notes)], depth);
  }

  lemma PacketIsGood(u: Utf8, p: DataPacket)
    requires u.Lawful() && PacketHolds(u, p)
    ensures Good(PacketToCbor(u, p), MAX_NESTING)
  {
    var items := PacketToCbor(u, p).entries[1].val.items;
    forall i | 0 <= i < |items| ensures Good(items[i], MAX_NESTING - 2) {
      match p
      case Passwords(es) => PasswordIsGood(u, es[i], MAX_NESTING - 2);
      case Totps(es) => TotpIsGood(u, es[i], MAX_NESTING - 2);
    }
    assert Good(C.Array(items), MAX_NESTING - 1);
    NumberedIsGood([C.Unsigned(if p.Passwords? then 1 else 2), C.Array(items)], MAX_NESTING);
  }

  // ----- what comes back

  lemma NumberedPeek(vs: seq<C.Value>, n: nat)
    requires n < |vs|
    ensures C.Peek(Numbered(vs).entries[n..], C.Unsigned(n + 1)) == (Some(vs[n]), Numbered(vs).entries[n + 1..])
  {
    C.PeekFinds(Numbered(vs).entries[n..], n + 1);
  }

  lemma FiveFields(u: Utf8, vs: seq<C.Value>)
    requires |vs| == 5
    ensures TotpFromCbor(u, Numbered(vs))
         == TotpFromFields(u, Some(vs[0]), Some(vs[1]), Some(vs[2]), Some(vs[3]), Some(vs[4]), false)
  {
    NumberedPeek(vs, 0);
    NumberedPeek(vs, 1);
    NumberedPeek(vs, 2);
    NumberedPeek(vs, 3);
    NumberedPeek(vs, 4);
  }

  /** An entry comes back, but for the flag that is not sent, if its step fits a signed number; else it
      arrives as a negative number and is refused. */
  lemma TotpComesBack(u: Utf8, e: TotpEntry)
    requires u.Lawful() && TotpHolds(u, e)
    ensures TotpFromCbor(u, TotpToCbor(u, e)) ==
      if e.stepSeconds < C.I64_LIMIT then Ok(e.(hotp := false)) else Err(BadCbor)
  {
    FiveFields(u, [Integer(e.stepSeconds), u.Text(e.sharedSecret), C.Unsigned(e.digitCount),
      C.Unsigned(AlgorithmCode(e.algorithm)), u.Text(e.name)]);
    AlgorithmComesBack(e.algorithm);
  }

  lemma AlgorithmComesBack(a: HashAlgorithm)
    ensures ToAlgorithm(Some(C.Unsigned(AlgorithmCode(a)))) == Ok(a)
  {
  }

  lemma PasswordComesBack(u: Utf8, e: PasswordEntry)
    requires u.Lawful()
    ensures PasswordFromCbor(u, PasswordToCbor(u, e)) == Ok(e)
  {
    var vs := [u.Text(e.description), u.Text(e.username), u.Text(e.password), u.Text(e.notes)];
    NumberedPeek(vs, 0);
    NumberedPeek(vs, 1);
    NumberedPeek(vs, 2);
    NumberedPeek(vs, 3);
  }

  /** An array is read if all its elements are; one that is refused makes the whole panic. */
  lemma {:induction false} UnwrappedIff<E>(convert: C.Value -> Result<E, WireError>, vs: seq<C.Value>)
    ensures var r := Unwrapped(convert, vs);
            && (r.Ok? <==> forall i :: 0 <= i < |vs| ==> convert(vs[i]).Ok?)
            && (r.Ok? ==> |r.value| == |vs| && forall i :: 0 <= i < |vs| ==> convert(vs[i]) == Ok(r.value[i]))
            && (r.Err? ==> r == Err(Panicked))
  {
    if vs != [] {
      var front := vs[..|vs| - 1];
      UnwrappedIff(convert, front);
      assert forall i :: 0 <= i < |front| ==> front[i] == vs[i];
    }
  }

  /** The steps that survive `as i64`. */
  ghost predicate ShortSteps(es: seq<TotpEntry>) {
    forall i :: 0 <= i < |es| ==> es[i].stepSeconds < C.I64_LIMIT
  }

  /** What arrives of entries that all arrive. */
  function WithoutFlags(es: seq<TotpEntry>): (r: seq<TotpEntry>)
    ensures |r| == |es| && forall i :: 0 <= i < |r| ==> r[i] == es[i].(hotp := false)
  {
    seq(|es|, i requires 0 <= i < |es| => es[i].(hotp := false))
  }

  lemma TotpsComeBackIff(u: Utf8, es: seq<TotpEntry>)
    requires u.Lawful() && forall i :: 0 <= i < |es| ==> TotpHolds(u, es[i])
    ensures Unwrapped(v => TotpFromCbor(u, v), Converted(e => TotpToCbor(u, e), es))
         == if ShortSteps(es) then Ok(WithoutFlags(es)) else Err(Panicked)
  {
    var read := v => TotpFromCbor(u, v);
    var vs := Converted(e => TotpToCbor(u, e), es);
    forall i | 0 <= i < |es|
      ensures read(vs[i]) == if es[i].stepSeconds < C.I64_LIMIT then Ok(es[i].(hotp := false)) else Err(BadCbor)
    {
      TotpComesBack(u, es[i]);
    }
    UnwrappedIff(read, vs);
    if ShortSteps(es) {
      assert Unwrapped(read, vs).value == WithoutFlags(es);
    }
  }

  lemma PasswordsComeBack(u: Utf8, es: seq<PasswordEntry>)
    requires u.Lawful()
    ensures Unwrapped(v => PasswordFromCbor(u, v), Converted(e => PasswordToCbor(u, e), es)) == Ok(es)
  {
    var read := v => PasswordFromCbor(u, v);
    var vs := Converted(e => PasswordToCbor(u, e), es);
    forall i | 0 <= i < |es| ensures read(vs[i]) == Ok(es[i]) {
      PasswordComesBack(u, es[i]);
    }
    UnwrappedIff(read, vs);
    assert Unwrapped(read, vs).value == es;
  }

  lemma PacketRead(u: Utf8, p: DataPacket)
    requires u.Lawful() && PacketHolds(u, p)
    ensures DecodePacket(u, EncodePacket(u, p)) == PacketFromCbor(u, PacketToCbor(u, p))
  {
    PacketIsGood(u, p);
    CborRoundTrip.WrittenReadsBack(PacketToCbor(u, p), MAX_NESTING);
  }

  /** A packet of passwords comes back as it was. */
  lemma PasswordPacketComesBack(u: Utf8, es: seq<PasswordEntry>)
    requires u.Lawful() && PacketHolds(u, Passwords(es))
    ensures DecodePacket(u, EncodePacket(u, Passwords(es))) == Ok(Passwords(es))
  {
    PacketRead(u, Passwords(es));
    var vs := [C.Unsigned(1), C.Array(Converted(e => PasswordToCbor(u, e), es))];
    NumberedPeek(vs, 0);
    NumberedPeek(vs, 1);
    PasswordsComeBack(u, es);
  }

  /** A packet of one-time passwords comes back, but for the flags, if and only if every step is below
      2^63; else reading it panics. */
  lemma TotpPacketComesBackIff(u: Utf8, es: seq<TotpEntry>)
    requires u.Lawful() && PacketHolds(u, Totps(es))
    ensures DecodePacket(u, EncodePacket(u, Totps(es)))
         == if ShortSteps(es) then Ok(Totps(WithoutFlags(es))) else Err(Panicked)
  {
    PacketRead(u, Totps(es));
    var vs := [C.Unsigned(2), C.Array(Converted(e => TotpToCbor(u, e), es))];
    NumberedPeek(vs, 0);
    NumberedPeek(vs, 1);
    TotpsComeBackIff(u, es);
  }

  lemma PacketIs(u: Utf8, p: DataPacket)
    requires u.Lawful() && PacketHolds(u, p)
    ensures C.Read(EncodePacket(u, p), MAX_NESTING) == Ok(PacketToCbor(u, p))
  {
    PacketIsGood(u, p);
    CborRoundTrip.WrittenReadsBack(PacketToCbor(u, p), MAX_NESTING);
  }

  lemma PasswordFields(u: Utf8, e: PasswordEntry)
    ensures PasswordToCbor(u, e) == C.Map(
      [C.Pair(C.Unsigned(1), C.TextString(u.encode(e.description))),
       C.Pair(C.Unsigned(2), C.TextString(u.encode(e.username))),
       C.Pair(C.Unsigned(3), C.TextString(u.encode(e.password))),
       C.Pair(C.Unsigned(4), C.TextString(u.encode(e.notes)))])
  {
  }

  lemma TotpFields(u: Utf8, e: TotpEntry)
    ensures TotpToCbor(u, e) == C.Map(
      [C.Pair(C.Unsigned(1), Integer(e.stepSeconds)), C.Pair(C.Unsigned(2), C.TextString(u.encode(e.sharedSecret))),
       C.Pair(C.Unsigned(3), C.Unsigned(e.digitCount)), C.Pair(C.Unsigned(4), C.Unsigned(AlgorithmCode(e.algorithm))),
       C.Pair(C.Unsigned(5), C.TextString(u.encode(e.name)))])
  {
  }

  /** What is sent: the kind under key 1, and under key 2 an array of maps with the numbered fields. */
  lemma PasswordPacketIs(u: Utf8, es: seq<PasswordEntry>, i: nat)
    requires u.Lawful() && PacketHolds(u, Passwords(es)) && i < |es|
    ensures var v := C.Read(EncodePacket(u, Passwords(es)), MAX_NESTING);
            && v.Ok? && v.value.Map? && |v.value.entries| == 2
            && v.value.entries[0] == C.Pair(C.Unsigned(1), C.Unsigned(1))
            && v.value.entries[1].key == C.Unsigned(2)
            && v.value.entries[1].val.Array? && |v.value.entries[1].val.items| == |es|
            && v.value.entries[1].val.items[i] == C.Map(
                 [C.Pair(C.Unsigned(1), C.TextString(u.encode(es[i].description))),
                  C.Pair(C.Unsigned(2), C.TextString(u.encode(es[i].username))),
                  C.Pair(C.Unsigned(3), C.TextString(u.encode(es[i].password))),
                  C.Pair(C.Unsigned(4), C.TextString(u.encode(es[i].notes)))])
  {
    PacketIs(u, Passwords(es));
    PasswordFields(u, es[i]);
  }

  lemma TotpPacketIs(u: Utf8, es: seq<TotpEntry>, i: nat)
    requires u.Lawful() && PacketHolds(u, Totps(es)) && i < |es|
    ensures var v := C.Read(EncodePacket(u, Totps(es)), MAX_NESTING);
            && v.Ok? && v.value.Map? && |v.value.entries| == 2
            && v.value.entries[0] == C.Pair(C.Unsigned(1), C.Unsigned(2))
            && v.value.entries[1].key == C.Unsigned(2)
            && v.value.entries[1].val.Array? && |v.value.entries[1].val.items| == |es|
            && v.value.entries[1].val.items[i] == C.Map(
                 [C.Pair(C.Unsigned(1), if es[i].stepSeconds < C.I64_LIMIT then C.Unsigned(es[i].stepSeconds)
                                        else C.Negative(es[i].stepSeconds - C.U64_LIMIT)),
                  C.Pair(C.Unsigned(2), C.TextString(u.encode(es[i].sharedSecret))),
                  C.Pair(C.Unsigned(3), C.Unsigned(es[i].digitCount)),
                  C.Pair(C.Unsigned(4), C.Unsigned(if es[i].algorithm.SHA1? then 1
                                                   else if es[i].algorithm.SHA256? then 2 else 3)),
                  C.Pair(C.Unsigned(5), C.TextString(u.encode(es[i].name)))])
  {
    PacketIs(u, Totps(es));
    TotpFields(u, es[i]);
  }

  // ----- from vault to vault

  /** Every stored text reads as a record whose texts fit the memory. */
  ghost predicate VaultHolds(u: Utf8, dict: Storage.Dict) {
    forall k :: k in dict ==>
      match ParseTotp(DEFAULT_TOTP, Some(dict[k]))
      case Ok(r) => u.Holds(r.secret) && u.Holds(r.name)
      case Err(_) => true
  }

  ghost predicate HaveShortSteps(dict: Storage.Dict) {
    forall k :: k in dict ==>
      match ParseTotp(DEFAULT_TOTP, Some(dict[k]))
      case Ok(r) => r.timestep < C.I64_LIMIT
      case Err(_) => true
  }

  lemma EntriesHold(u: Utf8, hash: Coherence.Hasher, dict: Storage.Dict, keys: seq<string>, rs: seq<TotpRecord>)
    requires VaultHolds(u, dict) && Lists(keys, dict) && |keys| == |rs| < USIZE_LIMIT && TotpEntries(rs).Ok?
    requires forall i :: 0 <= i < |keys| ==> keys[i] in dict && TotpKind(hash).read(dict[keys[i]]) == Ok(rs[i])
    ensures PacketHolds(u, Totps(TotpEntries(rs).value))
    ensures ShortSteps(TotpEntries(rs).value) <==> HaveShortSteps(dict)
  {
    TotpEntriesIff(rs);
    var es := TotpEntries(rs).value;
    forall i | 0 <= i < |es| ensures TotpHolds(u, es[i]) {
      TotpLinesInRange(DEFAULT_TOTP, RecordText.Split(dict[keys[i]], '\n'));
      assert ParseTotp(DEFAULT_TOTP, Some(dict[keys[i]])) == Ok(rs[i]);
    }
    if ShortSteps(es) {
      forall k | k in dict ensures ParseTotp(DEFAULT_TOTP, Some(dict[k])).value.timestep < C.I64_LIMIT {
        var i :| 0 <= i < |keys| && keys[i] == k;
        assert es[i].stepSeconds < C.I64_LIMIT;
      }
    }
    if HaveShortSteps(dict) {
      forall i | 0 <= i < |es| ensures es[i].stepSeconds < C.I64_LIMIT {
        assert keys[i] in dict && ParseTotp(DEFAULT_TOTP, Some(dict[keys[i]])) == Ok(rs[i]);
      }
    }
  }

  /** What restoring these entries into an empty vault comes to: the vault they are from, or a panic. */
  ghost predicate RestoresIff(
    u: Utf8, hash: Coherence.Hasher, dict: Storage.Dict, es: seq<TotpEntry>, notes: string, clock: Clock,
    condition: bool)
    requires u.Lawful() && PacketHolds(u, Totps(es))
  {
    var r := DecodePacket(u, EncodePacket(u, Totps(es)));
    if condition then
      && r.Ok? && r.value.Totps? && |r.value.totps| == |clock|
      && Keeps(TotpKind(hash), CodeOf, dict, RestoredTotps(r.value.totps, notes, clock))
    else r == Err(Panicked)
  }

  /** The flag that is not sent is not restored either. */
  lemma FlagsDoNotMatter(es: seq<TotpEntry>, notes: string, clock: Clock)
    requires |clock| == |es|
    ensures RestoredTotps(WithoutFlags(es), notes, clock) == RestoredTotps(es, notes, clock)
  {
  }

  /** End to end: one-time passwords of a consistent vault, backed up, sent and restored into an empty
      one, keep the key set and every name, secret, algorithm, digits and step, if and only if every text
      names an algorithm, without which the backup panics, and every step is below 2^63, without which
      the restore does. */
  lemma TotpBackupRestoresIff(
    u: Utf8, hash: Coherence.Hasher, dict: Storage.Dict, keys: seq<string>, notes: string, clock: Clock)
    requires u.Lawful() && VaultHolds(u, dict) && |keys| < USIZE_LIMIT
    requires Consistent(TotpKind(hash), dict) && Lists(keys, dict) && |clock| == |keys| && '\n' !in notes
    ensures var backup := TotpBackup(hash, dict, keys);
            && (backup.Ok? <==> HaveAlgorithms(hash, dict))
            && (backup.Ok? ==>
                  && PacketHolds(u, Totps(backup.value))
                  && RestoresIff(u, hash, dict, backup.value, notes, clock, HaveShortSteps(dict)))
  {
    TotpsSurviveIff(hash, dict, keys, notes, clock);
    AllReads(TotpKind(hash), dict, keys);
    var backup := TotpBackup(hash, dict, keys);
    if backup.Ok? {
      EntriesHold(u, hash, dict, keys, All(TotpKind(hash), dict, keys).value);
      TotpPacketComesBackIff(u, backup.value);
      FlagsDoNotMatter(backup.value, notes, clock);
    }
  }

  /** The failing input: a step of 2^63 seconds, which the edit form accepts. */
  lemma LongStepPanics(u: Utf8, e: TotpEntry)
    requires u.Lawful() && TotpHolds(u, e) && e.stepSeconds == C.I64_LIMIT
    ensures DecodePacket(u, EncodePacket(u, Totps([e]))) == Err(Panicked)
  {
    TotpPacketComesBackIff(u, [e]);
    assert [e][0].stepSeconds == C.I64_LIMIT;
  }
}
