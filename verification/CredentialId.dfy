/** Credential IDs (`src/ctap/credential_id.rs`, `src/ctap/crypto_wrapper.rs:77-180`): a credential's
    secrets, packed in CBOR, padded to 192 bytes, encrypted and authenticated, so that the relying party
    can keep them. HMAC is any function to 32 bytes, AES any block permutation. */
module CredentialId {
  import opened Wrappers
  import opened Bytes
  import opened CtapStatus
  import opened Cbc
  import C = Cbor

  type Bytes32 = b: bytes | |b| == 32 witness seq(32, i => 0)

  datatype PrivateKey = Ecdsa(seed: Bytes32) | Ed25519(seed: Bytes32)

  datatype Policy = UvOptional | UvOptionalWithList | UvRequired

  datatype Source = Source(key: PrivateKey, rpIdHash: Bytes32, policy: Option<Policy>, blob: Option<bytes>)

  /** The key store's keys, each of which may be unavailable. */
  datatype KeyStore = KeyStore(
    encryption: Result<BlockCipher, Status>, authentication: Result<bytes -> Bytes32, Status>)

  const LEGACY_SIZE := 112
  const CBOR_SIZE := 241
  const VERSION: byte := 0x01
  const MAX_PADDING: byte := 0xBF
  const NESTING := 4

  // ----- private keys as CBOR

  function Algorithm(k: PrivateKey): int {
    if k.Ecdsa? then -7 else -8
  }

  function KeyToCbor(k: PrivateKey): C.Value {
    C.Array([C.Negative(Algorithm(k)), C.ByteString(k.seed)])
  }

  function ExtractInteger(v: C.Value): Result<int, Status> {
    match v
    case Unsigned(n) => if n < C.I64_LIMIT then Ok(n) else Err(UnexpectedType)
    case Negative(n) => Ok(n)
    case _ => Err(UnexpectedType)
  }

  function ExtractBytes(v: C.Value): Result<bytes, Status> {
    match v
    case ByteString(b) => Ok(b)
    case _ => Err(UnexpectedType)
  }

  function KeyFromCbor(v: C.Value): Result<PrivateKey, Status> {
    if !v.Array? then Err(UnexpectedType)
    else if |v.items| != 2 then Err(InvalidCbor)
    else
      var seed :- ExtractBytes(v.items[1]);
      var algorithm :- ExtractInteger(v.items[0]);
      if |seed| != 32 then Err(InvalidCbor)
      else if algorithm == -7 then Ok(Ecdsa(seed))
      else if algorithm == -8 then Ok(Ed25519(seed))
      else Err(InvalidCbor)
  }

  /** Exactly the values that the writer makes of a key are read as that key. */
  lemma KeyRoundTripIff(v: C.Value, k: PrivateKey)
    ensures KeyFromCbor(v) == Ok(k) <==> v == KeyToCbor(k)
  {
  }

  // ----- the fields as CBOR

  function PolicyCode(p: Policy): nat {
    match p
    case UvOptional => 1
    case UvOptionalWithList => 2
    case UvRequired => 3
  }

  function PolicyFromCbor(v: C.Value): Result<Policy, Status> {
    var code :- ExtractInteger(v);
    if code == 1 then Ok(UvOptional)
    else if code == 2 then Ok(UvOptionalWithList)
    else if code == 3 then Ok(UvRequired)
    else Err(UnexpectedType)
  }

  function PolicyEntry(p: Option<Policy>): seq<C.Pair> {
    match p
    case None => []
    case Some(policy) => [C.Pair(C.Unsigned(2), C.Unsigned(PolicyCode(policy)))]
  }

  function BlobEntry(b: Option<bytes>): seq<C.Pair> {
    match b
    case None => []
    case Some(blob) => [C.Pair(C.Unsigned(3), C.ByteString(blob))]
  }

  function SourceEntries(s: Source): seq<C.Pair> {
    [C.Pair(C.Unsigned(0), KeyToCbor(s.key)), C.Pair(C.Unsigned(1), C.ByteString(s.rpIdHash))]
    + PolicyEntry(s.policy) + BlobEntry(s.blob)
  }

  function OptionalPolicy(v: Option<C.Value>): Result<Option<Policy>, Status> {
    if v.None? then Ok(None)
    else
      var p :- PolicyFromCbor(v.value);
      Ok(Some(p))
  }

  function OptionalBlob(v: Option<C.Value>): Result<Option<bytes>, Status> {
    if v.None? then Ok(None)
    else
      var b :- ExtractBytes(v.value);
      Ok(Some(b))
  }

  function SourceFromEntries(es: seq<C.Pair>): Result<Option<Source>, Status> {
    var (key, es1) := C.Peek(es, C.Unsigned(0));
    var (hash, es2) := C.Peek(es1, C.Unsigned(1));
    var (policy, es3) := C.Peek(es2, C.Unsigned(2));
    var (blob, _) := C.Peek(es3, C.Unsigned(3));
    if key.None? || hash.None? then Ok(None)
    else
      var k :- KeyFromCbor(key.value);
      var h :- ExtractBytes(hash.value);
      if |h| != 32 then Err(VendorInternal)
      else
        var p :- OptionalPolicy(policy);
        var b :- OptionalBlob(blob);
        Ok(Some(Source(k, h, p, b)))
  }

  lemma SourceIsProper(s: Source)
    requires s.blob.Some? ==> |s.blob.value| < USIZE_LIMIT
    ensures C.Proper(C.Map(SourceEntries(s))) && C.InOrder(C.Map(SourceEntries(s)))
  {
    var es := SourceEntries(s);
    forall i | 0 <= i < |es|
      ensures C.Proper(es[i].key) && C.Proper(es[i].val) && C.InOrder(es[i].key) && C.InOrder(es[i].val)
    {
      assert i > 0 ==> es[i].val.ByteString? || (es[i].val.Unsigned? && es[i].val.size <= 3);
    }
    forall i | 0 < i < |es| ensures C.Compare(es[i - 1].key, es[i].key).Less? {
      assert es[i - 1].key.Unsigned? && es[i].key.Unsigned? && es[i - 1].key.size < es[i].key.size;
    }
  }

  /** `cbor_write` of the fields; a blob longer than any Rust vector is not written. */
  function EncodeSource(s: Source): Result<bytes, Status>
    requires s.blob.Some? ==> |s.blob.value| < USIZE_LIMIT
  {
    SourceIsProper(s);
    match C.Write(C.Map(SourceEntries(s)), NESTING)
    case Ok(b) => Ok(b)
    case Err(_) => Err(VendorInternal)
  }

  function DecodeSource(b: bytes): Result<Option<Source>, Status> {
    match C.Read(b, NESTING)
    case Err(_) => Err(InvalidCbor)
    case Ok(v) => if v.Map? then SourceFromEntries(v.entries) else Err(UnexpectedType)
  }

  // ----- padding

  function Repeat(b: byte, n: nat): (r: bytes)
    ensures |r| == n && forall i :: 0 <= i < n ==> r[i] == b
  {
    seq(n, i => b)
  }

  function AddPadding(data: bytes): Result<bytes, Status> {
    if data == [] || |data| > MAX_PADDING then Err(VendorInternal)
    else
      var n := MAX_PADDING - (|data| - 1);
      Ok(data + Repeat(n, n))
  }

  function RemovePadding(data: bytes): Result<bytes, Status> {
    if |data| != MAX_PADDING + 1 then Err(VendorInternal)
    else
      var n := data[|data| - 1];
      if n == 0 || n > MAX_PADDING then Err(VendorInternal)
      else if data[|data| - n..] != Repeat(n, n) then Err(VendorInternal)
      else Ok(data[..|data| - n])
  }

  /** Padding and unpadding are inverse: what unpads to `data` is what `data` pads to, and nothing else. */
  lemma PaddingInverse(data: bytes, padded: bytes)
    ensures RemovePadding(padded) == Ok(data) <==> AddPadding(data) == Ok(padded)
    ensures AddPadding(data).Ok? <==> 1 <= |data| <= 191
    ensures AddPadding(data) == Ok(padded) ==> |padded| == 192
  {
    if RemovePadding(padded) == Ok(data) {
      var n := padded[|padded| - 1];
      assert padded == padded[..|padded| - n] + padded[|padded| - n..];
    }
    if AddPadding(data) == Ok(padded) {
      var n := MAX_PADDING - (|data| - 1);
      assert padded[|padded| - n..] == Repeat(n, n) && padded[..|padded| - n] == data;
    }
  }

  // ----- credential IDs

  /** `encrypt_to_credential_id` */
  function EncryptToId(ks: KeyStore, random: Block, s: Source): Result<bytes, Status>
    requires s.blob.Some? ==> |s.blob.value| < USIZE_LIMIT
  {
    var payload :- EncodeSource(s);
    var padded :- AddPadding(payload);
    var cipher :- ks.encryption;
    var encrypted :- Sealed(cipher, random, padded, true);
    var mac :- ks.authentication;
    Ok([VERSION] + encrypted + mac([VERSION] + encrypted))
  }

  function DecryptLegacy(ks: KeyStore, data: bytes): Result<Option<Source>, Status> {
    var cipher :- ks.encryption;
    var plain :- Opened(cipher, data, true);
    if |plain| != 64 then Ok(None) else Ok(Some(Source(Ecdsa(plain[..32]), plain[32..64], None, None)))
  }

  function DecryptCbor(ks: KeyStore, data: bytes): Result<Option<Source>, Status> {
    var cipher :- ks.encryption;
    var padded :- Opened(cipher, data, true);
    var payload :- RemovePadding(padded);
    DecodeSource(payload)
  }

  /** `decrypt_credential_id`, which also drops what belongs to another relying party. */
  function DecryptId(ks: KeyStore, id: bytes, rpIdHash: bytes): Result<Option<Source>, Status> {
    if |id| < LEGACY_SIZE then Ok(None)
    else
      var mac :- ks.authentication;
      var n := |id| - 32;
      if mac(id[..n]) != id[n..] then Ok(None)
      else if |id| != LEGACY_SIZE && (id[0] != VERSION || |id| != CBOR_SIZE) then Ok(None)
      else
        var source :- if |id| == LEGACY_SIZE then DecryptLegacy(ks, id[..n]) else DecryptCbor(ks, id[1..n]);
        Ok(if source.Some? && rpIdHash == source.value.rpIdHash then source else None)
  }
}
