/** Credential IDs as the authenticator builds and opens them, in buffers that it changes in place. */
module CredentialCodec {
  import opened Wrappers
  import opened Bytes
  import opened CtapStatus
  import opened Cbc
  import opened CredentialId
  import C = Cbor

  /** A vector of bytes. */
  class Buffer {
    var data: bytes

    constructor (data: bytes)
      ensures this.data == data
    {
      this.data := data;
    }

    method AddPadding() returns (r: Result<(), Status>)
      modifies this
      ensures CredentialId.AddPadding(old(data)) == if r.Ok? then Ok(data) else Err(r.error)
      ensures r.Err? ==> data == old(data)
    {
      if data == [] || |data| > MAX_PADDING {
        return Err(VendorInternal);
      }
      var length: byte := MAX_PADDING - (|data| - 1);
      ghost var before := data;
      for i := 0 to length
        invariant data == before + Repeat(length, i)
      {
        data := data + [length];
      }
      r := Ok(());
    }

    /** The padding is drained before it is found wrong. */
    method RemovePadding() returns (r: Result<(), Status>)
      modifies this
      ensures CredentialId.RemovePadding(old(data)) == if r.Ok? then Ok(data) else Err(r.error)
    {
      if |data| != MAX_PADDING + 1 {
        return Err(VendorInternal);
      }
      var length := data[|data| - 1];
      if length == 0 || length > MAX_PADDING {
        return Err(VendorInternal);
      }
      var drained := data[|data| - length..];
      data := data[..|data| - length];
      for i := 0 to |drained|
        invariant drained[..i] == Repeat(length, i)
      {
        if drained[i] != length {
          assert drained[i] != Repeat(length, length)[i];
          return Err(VendorInternal);
        }
      }
      assert drained[..|drained|] == drained;
      r := Ok(());
    }
  }

  method EncryptToCredentialId(ks: KeyStore, random: Block, s: Source) returns (r: Result<bytes, Status>)
    requires s.blob.Some? ==> |s.blob.value| < USIZE_LIMIT
    ensures r == EncryptToId(ks, random, s)
  {
    var payload :- EncodeSource(s);
    var buffer := new Buffer(payload);
    var _ :- buffer.AddPadding();
    var cipher :- ks.encryption;
    var encrypted :- Aes256CbcEncrypt(random, cipher, buffer.data, true);
    var id := new Buffer(encrypted);
    id.data := [VERSION] + id.data;
    var mac :- ks.authentication;
    id.data := id.data + mac(id.data);
    r := Ok(id.data);
  }

  method DecryptCborId(ks: KeyStore, data: bytes) returns (r: Result<Option<Source>, Status>)
    ensures r == DecryptCbor(ks, data)
  {
    var cipher :- ks.encryption;
    var plaintext :- Aes256CbcDecrypt(cipher, data, true);
    var buffer := new Buffer(plaintext);
    var _ :- buffer.RemovePadding();
    r := DecodeSource(buffer.data);
  }

  method DecryptLegacyId(ks: KeyStore, data: bytes) returns (r: Result<Option<Source>, Status>)
    ensures r == DecryptLegacy(ks, data)
  {
    var cipher :- ks.encryption;
    var plaintext :- Aes256CbcDecrypt(cipher, data, true);
    if |plaintext| != 64 {
      return Ok(None);
    }
    r := Ok(Some(Source(Ecdsa(plaintext[..32]), plaintext[32..64], None, None)));
  }

  method DecryptCredentialId(ks: KeyStore, id: bytes, rpIdHash: bytes) returns (r: Result<Option<Source>, Status>)
    ensures r == DecryptId(ks, id, rpIdHash)
  {
    if |id| < LEGACY_SIZE {
      return Ok(None);
    }
    var size := |id| - 32;
    var mac :- ks.authentication;
    if mac(id[..size]) != id[size..] {
      return Ok(None);
    }
    var source;
    if |id| == LEGACY_SIZE {
      source :- DecryptLegacyId(ks, id[..size]);
    } else {
      if id[0] != VERSION || |id| != CBOR_SIZE {
        return Ok(None);
      }
      source :- DecryptCborId(ks, id[1..size]);
    }
    if source.None? || rpIdHash != source.value.rpIdHash {
      return Ok(None);
    }
    r := Ok(source);
  }
}
