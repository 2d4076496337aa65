/** What a credential ID gives back, how long it is, and when one can be made. */
module CredentialSafety {
  import opened Wrappers
  import opened Bytes
  import opened CtapStatus
  import opened Cbc
  import opened CredentialId
  import C = Cbor
  import CborRoundTrip

  // ----- how long the payload is

  /** The bytes the fields take in CBOR: 73 for the map, key and hash, 2 for a policy, the blob and its heads. */
  function PayloadSize(s: Source): nat {
    73 + (if s.policy.Some? then 2 else 0)
    + (match s.blob case None => 0 case Some(b) => 1 + CborRoundTrip.HeadSize(|b|) + |b|)
  }

  lemma KeyIsWritten(k: PrivateKey, depth: int)
    requires depth >= 1
    ensures C.Proper(KeyToCbor(k))
    ensures C.WriteItem(KeyToCbor(k), depth).Ok? && |C.WriteItem(KeyToCbor(k), depth).value| == 36
  {
    var v := KeyToCbor(k);
    var (alg, seed) := (v.items[0], v.items[1]);
    assert v.items[1..] == [seed] && [seed][1..] == [];
    assert C.WriteItems([], depth) == Ok([]);
    assert C.WriteItems([seed], depth) == Ok(C.WriteItem(seed, depth - 1).value + []);
    assert |C.WriteItem(alg, depth - 1).value| == 1;
    assert |C.WriteItem(seed, depth - 1).value| == 34;
    assert C.WriteItems(v.items, depth).value == C.WriteItem(alg, depth - 1).value + C.WriteItems([seed], depth).value;
  }

  /** One more entry with a small key in front of entries that are written. */
  lemma EntryIsWritten(e: C.Pair, es: seq<C.Pair>, depth: int)
    requires depth >= 1 && C.ProperEntries(es) && C.Proper(e.val) && e.key.Unsigned? && e.key.size < 24
    requires C.WriteItem(e.val, depth - 1).Ok? && C.WriteEntries(es, depth).Ok?
    ensures C.ProperEntries([e] + es) && C.WriteEntries([e] + es, depth).Ok?
    ensures |C.WriteEntries([e] + es, depth).value|
         == 1 + |C.WriteItem(e.val, depth - 1).value| + |C.WriteEntries(es, depth).value|
  {
    assert ([e] + es)[1..] == es;
    assert |C.WriteItem(e.key, depth - 1).value| == 1;
    assert C.WriteEntry(e, depth) == Ok(C.WriteItem(e.key, depth - 1).value + C.WriteItem(e.val, depth - 1).value);
  }

  lemma OptionsAreWritten(s: Source)
    requires s.blob.Some? ==> |s.blob.value| < USIZE_LIMIT
    ensures var es := PolicyEntry(s.policy) + BlobEntry(s.blob);
            && C.ProperEntries(es) && C.WriteEntries(es, NESTING).Ok?
            && |C.WriteEntries(es, NESTING).value| == PayloadSize(s) - 73
  {
    var (p, b) := (PolicyEntry(s.policy), BlobEntry(s.blob));
    assert C.WriteEntries([], NESTING) == Ok([]);
    if s.blob.Some? {
      CborRoundTrip.HeadLength(2, |s.blob.value|);
      EntryIsWritten(b[0], [], NESTING);
      assert b == [b[0]] + [];
    }
    if s.policy.Some? {
      EntryIsWritten(p[0], b, NESTING);
      assert p + b == [p[0]] + b;
    } else {
      assert p + b == b;
    }
  }

  lemma EntriesAreWritten(s: Source)
    requires s.blob.Some? ==> |s.blob.value| < USIZE_LIMIT
    ensures var es := SourceEntries(s);
            && C.ProperEntries(es) && C.WriteEntries(es, NESTING).Ok?
            && |C.WriteEntries(es, NESTING).value| == PayloadSize(s) - 1
  {
    OptionsAreWritten(s);
    var others := PolicyEntry(s.policy) + BlobEntry(s.blob);
    var (key, hash) := (C.Pair(C.Unsigned(0), KeyToCbor(s.key)), C.Pair(C.Unsigned(1), C.ByteString(s.rpIdHash)));
    BytesAreWritten(s.rpIdHash, NESTING - 1);
    KeyIsWritten(s.key, NESTING - 1);
    TwoMoreEntries(key, hash, others);
    assert SourceEntries(s) == [key, hash] + others;
  }

  lemma BytesAreWritten(b: Bytes32, depth: int)
    requires depth >= 0
    ensures C.WriteItem(C.ByteString(b), depth).Ok? && |C.WriteItem(C.ByteString(b), depth).value| == 34
  {
    CborRoundTrip.HeadLength(2, 32);
  }

  lemma TwoMoreEntries(e: C.Pair, f: C.Pair, es: seq<C.Pair>)
    requires C.ProperEntries(es) && C.Proper(e.val) && C.Proper(f.val)
    requires e.key.Unsigned? && e.key.size < 24 && f.key.Unsigned? && f.key.size < 24
    requires C.WriteItem(e.val, NESTING - 1).Ok? && C.WriteItem(f.val, NESTING - 1).Ok?
    requires C.WriteEntries(es, NESTING).Ok?
    ensures C.ProperEntries([e, f] + es) && C.WriteEntries([e, f] + es, NESTING).Ok?
    ensures |C.WriteEntries([e, f] + es, NESTING).value| == 2 + |C.WriteItem(e.val, NESTING - 1).value|
         + |C.WriteItem(f.val, NESTING - 1).value| + |C.WriteEntries(es, NESTING).value|
  {
    EntryIsWritten(f, es, NESTING);
    EntryIsWritten(e, [f] + es, NESTING);
    assert [e, f] + es == [e] + ([f] + es);
  }

  lemma SourceIsWritten(s: Source)
    requires s.blob.Some? ==> |s.blob.value| < USIZE_LIMIT
    ensures EncodeSource(s).Ok? && |EncodeSource(s).value| == PayloadSize(s)
  {
    EntriesAreWritten(s);
    SourceIsProper(s);
    CborRoundTrip.SortedAlready(SourceEntries(s));
    CborRoundTrip.HeadLength(5, |SourceEntries(s)|);
  }

  // ----- the fields come back

  lemma FieldsComeBack(s: Source)
    ensures SourceFromEntries(SourceEntries(s)) == Ok(Some(s))
  {
    var es := SourceEntries(s);
    var (p, b) := (PolicyEntry(s.policy), BlobEntry(s.blob));
    C.PeekFinds(es, 0);
    C.PeekFinds(es[1..], 1);
    assert es[1..][1..] == p + b;
    if s.policy.Some? {
      C.PeekFinds(p + b, 2);
      assert (p + b)[1..] == b;
    } else {
      assert p + b == b;
      C.PeekMisses(b, 2);
    }
    if s.blob.Some? {
      C.PeekFinds(b, 3);
    } else {
      C.PeekMisses(b, 3);
    }
    KeyRoundTripIff(KeyToCbor(s.key), s.key);
  }

  lemma SourceRoundTrip(s: Source)
    requires s.blob.Some? ==> |s.blob.value| < USIZE_LIMIT
    ensures EncodeSource(s).Ok? && DecodeSource(EncodeSource(s).value) == Ok(Some(s))
  {
    SourceIsWritten(s);
    SourceIsProper(s);
    FieldsComeBack(s);
    CborRoundTrip.ReadsIffWritten(EncodeSource(s).value, C.Map(SourceEntries(s)), NESTING);
  }

  // ----- the credential ID

  lemma PayloadIsSealed(c: BlockCipher, random: Block, payload: bytes) returns (sealed: bytes)
    requires c.Permutes() && 1 <= |payload| <= 191
    ensures AddPadding(payload).Ok? && Sealed(c, random, AddPadding(payload).value, true) == Ok(sealed)
    ensures |sealed| == 208 && Opened(c, sealed, true) == AddPadding(payload)
    ensures RemovePadding(AddPadding(payload).value) == Ok(payload) && sealed[..16] == random
  {
    var padded := AddPadding(payload).value;
    PaddingInverse(payload, padded);
    OpenedUndoesSealed(c, random, padded, true);
    sealed := Sealed(c, random, padded, true).value;
  }

  lemma SealedIsMade(ks: KeyStore, random: Block, s: Source, payload: bytes) returns (sealed: bytes)
    requires ks.encryption.Ok? && ks.authentication.Ok? && ks.encryption.value.Permutes()
    requires s.blob.Some? ==> |s.blob.value| < USIZE_LIMIT
    requires EncodeSource(s) == Ok(payload) && 1 <= |payload| <= 191
    ensures |sealed| == 208 && SealedOpens(ks, random, payload, sealed)
    ensures EncryptToId(ks, random, s) == Ok([VERSION] + sealed + ks.authentication.value([VERSION] + sealed))
  {
    sealed := PayloadIsSealed(ks.encryption.value, random, payload);
  }

  /** The sealed bytes begin with the IV, open to the padded payload, and decode as the payload does. */
  ghost predicate SealedOpens(ks: KeyStore, random: Block, payload: bytes, sealed: bytes) {
    && ks.encryption.Ok? && random <= sealed
    && Opened(ks.encryption.value, sealed, true) == AddPadding(payload)
    && DecryptCbor(ks, sealed) == DecodeSource(payload)
  }

  lemma AuthenticOpens(ks: KeyStore, sealed: bytes, rpIdHash: bytes)
    requires ks.authentication.Ok? && |sealed| == 208
    ensures var id := [VERSION] + sealed + ks.authentication.value([VERSION] + sealed);
            && |id| == CBOR_SIZE
            && DecryptId(ks, id, rpIdHash) ==
               match DecryptCbor(ks, sealed)
               case Err(status) => Err(status)
               case Ok(source) => Ok(if source.Some? && rpIdHash == source.value.rpIdHash then source else None)
  {
    var (body, mac) := ([VERSION] + sealed, ks.authentication.value([VERSION] + sealed));
    var id := body + mac;
    assert id[..|id| - 32] == body && id[|id| - 32..] == mac;
    assert id[1..|id| - 32] == sealed;
  }

  /** A credential ID can be made exactly when the payload fits into 191 bytes; it then has 241 bytes, is
      never the length of a legacy one, and opens to the same fields for the same relying party and to
      nothing for any other. */
  lemma CredentialRoundTripIff(ks: KeyStore, random: Block, s: Source, rpIdHash: bytes)
    requires ks.encryption.Ok? && ks.authentication.Ok? && ks.encryption.value.Permutes()
    requires s.blob.Some? ==> |s.blob.value| < USIZE_LIMIT
    ensures var id := EncryptToId(ks, random, s);
            && (id.Ok? <==> PayloadSize(s) <= 191)
            && (id.Ok? ==> |id.value| == CBOR_SIZE != LEGACY_SIZE)
            && (id.Ok? ==> DecryptId(ks, id.value, rpIdHash) == Ok(if rpIdHash == s.rpIdHash then Some(s) else None))
  {
    SourceIsWritten(s);
    SourceRoundTrip(s);
    if PayloadSize(s) <= 191 {
      var sealed := SealedIsMade(ks, random, s, EncodeSource(s).value);
      AuthenticOpens(ks, sealed, rpIdHash);
    }
  }

  // ----- the bytes themselves

  /** The map inside: 0 is the key as an array of its algorithm and its seed, 1 the hash of the relying
      party, 2 the policy as a number and 3 the blob, the last two where there is one. */
  lemma SourceIsThisMap(s: Source)
    requires s.blob.Some? ==> |s.blob.value| < USIZE_LIMIT
    ensures EncodeSource(s).Ok? && C.Read(EncodeSource(s).value, NESTING).Ok?
    ensures
      var key := C.Array([C.Negative(if s.key.Ecdsa? then -7 else -8), C.ByteString(s.key.seed)]);
      C.Read(EncodeSource(s).value, NESTING).value == C.Map(
        [C.Pair(C.Unsigned(0), key), C.Pair(C.Unsigned(1), C.ByteString(s.rpIdHash))]
        + (match s.policy
           case None => []
           case Some(UvOptional) => [C.Pair(C.Unsigned(2), C.Unsigned(1))]
           case Some(UvOptionalWithList) => [C.Pair(C.Unsigned(2), C.Unsigned(2))]
           case Some(UvRequired) => [C.Pair(C.Unsigned(2), C.Unsigned(3))])
        + if s.blob.None? then [] else [C.Pair(C.Unsigned(3), C.ByteString(s.blob.value))])
  {
    SourceIsWritten(s);
    SourceIsProper(s);
    CborRoundTrip.ReadsIffWritten(EncodeSource(s).value, C.Map(SourceEntries(s)), NESTING);
  }

  /** A credential ID is the version, 208 encrypted bytes and the code of both; they decrypt to the payload
      and as many padding bytes as are missing to 192, each of them that number. */
  lemma CredentialIdIs(ks: KeyStore, random: Block, s: Source, payload: bytes) returns (id: bytes)
    requires ks.encryption.Ok? && ks.authentication.Ok? && ks.encryption.value.Permutes()
    requires s.blob.Some? ==> |s.blob.value| < USIZE_LIMIT
    requires EncodeSource(s) == Ok(payload) && PayloadSize(s) <= 191
    ensures EncryptToId(ks, random, s) == Ok(id) && |payload| == PayloadSize(s)
    ensures |id| == 241 && id[0] == 1 && id[1..17] == random
    ensures id[209..] == ks.authentication.value(id[..209])
    ensures Opened(ks.encryption.value, id[1..209], true) == Ok(payload + seq(192 - |payload|, i => 192 - |payload|))
  {
    PayloadFits(s, payload);
    var sealed := SealedIsMade(ks, random, s, payload);
    id := [VERSION] + sealed + ks.authentication.value([VERSION] + sealed);
    PiecesOfId(sealed, ks.authentication.value([VERSION] + sealed));
    PaddedIs(payload);
  }

  lemma PayloadFits(s: Source, payload: bytes)
    requires s.blob.Some? ==> |s.blob.value| < USIZE_LIMIT
    requires EncodeSource(s) == Ok(payload) && PayloadSize(s) <= 191
    ensures 1 <= |payload| == PayloadSize(s)
  {
    SourceIsWritten(s);
  }

  lemma PaddedIs(payload: bytes)
    requires 1 <= |payload| <= 191
    ensures AddPadding(payload) == Ok(payload + seq(192 - |payload|, i => 192 - |payload|))
  {
    var n := 192 - |payload|;
    assert Repeat(n, n) == seq(n, i => n);
  }

  lemma PiecesOfId(sealed: bytes, mac: Bytes32)
    requires |sealed| == 208
    ensures var id := [VERSION] + sealed + mac;
            && |id| == 241 && id[0] == 1 && id[1..17] == sealed[..16] && id[1..209] == sealed
            && id[..209] == [VERSION] + sealed && id[209..] == mac
  {
  }

  /** Every blob that a customization may allow (at most 64 bytes) fits, with room to spare. */
  lemma AllowedBlobsFit(s: Source)
    requires s.blob.Some? ==> |s.blob.value| <= 64
    ensures PayloadSize(s) <= 142
  {
  }

  /** The longest blob that fits is 113 bytes beside a policy and 115 bytes without one. */
  lemma LongestBlob(s: Source)
    requires s.blob.Some?
    ensures PayloadSize(s) <= 191 <==> |s.blob.value| <= (if s.policy.Some? then 113 else 115)
  {
  }

  /** A credential ID of the earlier form, 112 bytes, opens to an ECDSA key without policy and blob. */
  lemma LegacyOpens(ks: KeyStore, random: Block, seed: Bytes32, hash: Bytes32, rpIdHash: bytes)
    requires ks.encryption.Ok? && ks.authentication.Ok? && ks.encryption.value.Permutes()
    ensures var sealed := Sealed(ks.encryption.value, random, seed + hash, true);
            && sealed.Ok?
            && var id := sealed.value + ks.authentication.value(sealed.value);
            && |id| == LEGACY_SIZE
            && DecryptId(ks, id, rpIdHash)
            == Ok(if rpIdHash == hash then Some(Source(Ecdsa(seed), hash, None, None)) else None)
  {
    OpenedUndoesSealed(ks.encryption.value, random, seed + hash, true);
    var sealed := Sealed(ks.encryption.value, random, seed + hash, true).value;
    var id := sealed + ks.authentication.value(sealed);
    assert id[..|id| - 32] == sealed && id[|id| - 32..] == ks.authentication.value(sealed);
    assert (seed + hash)[..32] == seed && (seed + hash)[32..64] == hash;
  }

  /** Whatever opens carries the code of its own bytes, has one of the two lengths, and belongs to the
      relying party that asked. */
  lemma OnlyAuthenticOpens(ks: KeyStore, id: bytes, rpIdHash: bytes)
    requires ks.authentication.Ok?
    requires DecryptId(ks, id, rpIdHash).Ok? && DecryptId(ks, id, rpIdHash).value.Some?
    ensures |id| == LEGACY_SIZE || (|id| == CBOR_SIZE && id[0] == VERSION)
    ensures id[|id| - 32..] == ks.authentication.value(id[..|id| - 32])
    ensures DecryptId(ks, id, rpIdHash).value.value.rpIdHash == rpIdHash
  {
  }
}
