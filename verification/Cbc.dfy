/** AES-CBC as the authenticator uses it (`libraries/crypto/src/cbc.rs`, `src/ctap/crypto_wrapper.rs`;
    section 6.2 of NIST SP 800-38A), over any pair of block functions. The loops that transform a buffer
    in place are proved against the recursive definition of chaining. */
module Cbc {
  import opened Wrappers
  import opened Bits
  import opened Bytes
  import opened CtapStatus

  type Block = b: bytes | |b| == 16 witness seq(16, i => 0)

  const ZERO_IV: Block := [0, 0, 0, 0, 0, 0, 0, 0, 0, 0, 0, 0, 0, 0, 0, 0]

  /** AES under one key: two functions on blocks, of which nothing else is assumed here. */
  datatype BlockCipher = BlockCipher(enc: Block -> Block, dec: Block -> Block) {
    ghost predicate Permutes() {
      forall b: Block :: dec(enc(b)) == b && enc(dec(b)) == b
    }
  }

  // ----- exclusive or

  function Xor(a: byte, b: byte): byte {
    Byte256();
    XorBits(a, b, 8)
  }

  lemma Byte256()
    ensures PowerOf2(8) == 256
  {
    assert PowerOf2(4) == 16;
    assert PowerOf2(6) == 64;
  }

  lemma XorTwice(a: byte, b: byte)
    ensures Xor(Xor(a, b), b) == a
  {
    Byte256();
    XorBitsTwice(a, b, 8);
  }

  function XorBlocks(a: Block, b: Block): Block {
    seq(16, i requires 0 <= i < 16 => Xor(a[i], b[i]))
  }

  lemma XorBlocksTwice(a: Block, b: Block)
    ensures XorBlocks(XorBlocks(a, b), b) == a
  {
    forall i | 0 <= i < 16 ensures XorBlocks(XorBlocks(a, b), b)[i] == a[i] {
      XorTwice(a[i], b[i]);
    }
  }

  lemma XorBlocksMove(a: Block, b: Block, c: Block)
    ensures XorBlocks(a, XorBlocks(b, c)) == XorBlocks(XorBlocks(a, b), c)
  {
    forall i | 0 <= i < 16 ensures XorBlocks(a, XorBlocks(b, c))[i] == XorBlocks(XorBlocks(a, b), c)[i] {
      XorBitsMove(a[i], b[i], c[i], 8);
    }
  }

  // ----- chaining

  function Encrypt(c: BlockCipher, iv: Block, plain: bytes): (r: bytes)
    requires |plain| % 16 == 0
    ensures |r| == |plain|
    decreases |plain|
  {
    if plain == [] then []
    else
      var block := c.enc(XorBlocks(plain[..16], iv));
      block + Encrypt(c, block, plain[16..])
  }

  function Decrypt(c: BlockCipher, iv: Block, cipher: bytes): (r: bytes)
    requires |cipher| % 16 == 0
    ensures |r| == |cipher|
    decreases |cipher|
  {
    if cipher == [] then []
    else XorBlocks(c.dec(cipher[..16]), iv) + Decrypt(c, cipher[..16], cipher[16..])
  }

  lemma {:induction false} DecryptUndoes(c: BlockCipher, iv: Block, plain: bytes)
    requires c.Permutes() && |plain| % 16 == 0
    ensures Decrypt(c, iv, Encrypt(c, iv, plain)) == plain
    decreases |plain|
  {
    if plain != [] {
      var block := c.enc(XorBlocks(plain[..16], iv));
      var r := Encrypt(c, iv, plain);
      assert r[..16] == block && r[16..] == Encrypt(c, block, plain[16..]);
      XorBlocksTwice(plain[..16], iv);
      DecryptUndoes(c, block, plain[16..]);
    }
  }

  lemma {:induction false} EncryptUndoes(c: BlockCipher, iv: Block, cipher: bytes)
    requires c.Permutes() && |cipher| % 16 == 0
    ensures Encrypt(c, iv, Decrypt(c, iv, cipher)) == cipher
    decreases |cipher|
  {
    if cipher != [] {
      var block := c.dec(cipher[..16]);
      var r := Decrypt(c, iv, cipher);
      assert r[..16] == XorBlocks(block, iv) && r[16..] == Decrypt(c, cipher[..16], cipher[16..]);
      XorBlocksTwice(block, iv);
      EncryptUndoes(c, cipher[..16], cipher[16..]);
    }
  }

  /** Block `i` of a byte string. */
  function BlockAt(b: bytes, i: nat): Block
    requires 16 * i + 16 <= |b|
  {
    b[16 * i..16 * i + 16]
  }

  /** Every block is the encryption of its plaintext XORed with the block before it, the first one with the IV. */
  lemma {:induction false} BlocksAreChained(c: BlockCipher, iv: Block, plain: bytes, i: nat)
    requires |plain| % 16 == 0 && 16 * i + 16 <= |plain|
    ensures var r := Encrypt(c, iv, plain);
            && (i == 0 ==> BlockAt(r, i) == c.enc(XorBlocks(BlockAt(plain, i), iv)))
            && (i > 0 ==> BlockAt(r, i) == c.enc(XorBlocks(BlockAt(plain, i), BlockAt(r, i - 1))))
    decreases i
  {
    var block := c.enc(XorBlocks(plain[..16], iv));
    var (r, others) := (Encrypt(c, iv, plain), Encrypt(c, block, plain[16..]));
    assert r == block + others && |block| == 16;
    if i > 0 {
      BlocksAreChained(c, block, plain[16..], i - 1);
      NextBlockAt(plain, plain[16..], i);
      NextBlockAt(r, others, i);
      if i > 1 {
        NextBlockAt(r, others, i - 1);
      }
    }
  }

  lemma NextBlockAt(b: bytes, others: bytes, i: nat)
    requires 1 <= i && 16 * i + 16 <= |b| && others == b[16..]
    ensures BlockAt(b, i) == BlockAt(others, i - 1)
  {
  }

  /** The bytes of an exclusive or, bit by bit. */
  lemma XorBlocksAt(a: Block, b: Block, i: nat, bit: nat)
    requires i < 16 && bit < 8
    ensures HasBit(XorBlocks(a, b)[i], bit) <==> HasBit(a[i], bit) != HasBit(b[i], bit)
  {
    XorBitAt(a[i], b[i], 8, bit);
  }

  // ----- the wrappers

  function Sealed(c: BlockCipher, random: Block, plain: bytes, embedsIv: bool): Result<bytes, Status> {
    if |plain| % 16 != 0 then Err(InvalidParameter)
    else Ok(if embedsIv then random + Encrypt(c, random, plain) else Encrypt(c, ZERO_IV, plain))
  }

  function Opened(c: BlockCipher, cipher: bytes, embedsIv: bool): Result<bytes, Status> {
    if |cipher| % 16 != 0 || (embedsIv && cipher == []) then Err(InvalidParameter)
    else Ok(if embedsIv then Decrypt(c, cipher[..16], cipher[16..]) else Decrypt(c, ZERO_IV, cipher))
  }

  /** Whatever is sealed opens, with or without an embedded IV, and sealing fails on part of a block only. */
  lemma OpenedUndoesSealed(c: BlockCipher, random: Block, plain: bytes, embedsIv: bool)
    requires c.Permutes()
    ensures Sealed(c, random, plain, embedsIv).Ok? <==> |plain| % 16 == 0
    ensures |plain| % 16 == 0 ==>
              var r := Sealed(c, random, plain, embedsIv).value;
              |r| == |plain| + (if embedsIv then 16 else 0) && Opened(c, r, embedsIv) == Ok(plain)
  {
    if |plain| % 16 == 0 {
      DecryptUndoes(c, if embedsIv then random else ZERO_IV, plain);
      var r := Sealed(c, random, plain, embedsIv).value;
      if embedsIv {
        assert r[..16] == random && r[16..] == Encrypt(c, random, plain);
      }
    }
  }

  /** What is sealed under an embedded IV begins with it, and each block after it is the encryption of a
      plaintext block XORed with the block before. */
  lemma SealedIsChained(c: BlockCipher, random: Block, plain: bytes, i: nat)
    requires |plain| % 16 == 0 && 16 * i + 16 <= |plain|
    ensures var r := Sealed(c, random, plain, true);
            && r.Ok? && |r.value| == |plain| + 16 && r.value[..16] == random
            && BlockAt(r.value, i + 1) == c.enc(XorBlocks(BlockAt(plain, i), BlockAt(r.value, i)))
  {
    BlocksAreChained(c, random, plain, i);
    var (r, sealed) := (Sealed(c, random, plain, true).value, Encrypt(c, random, plain));
    assert r[16..] == sealed;
    NextBlockAt(r, sealed, i + 1);
    if i > 0 {
      NextBlockAt(r, sealed, i);
    }
  }

  /** Without an IV in front, the first block is the encryption of the first plaintext block as it is. */
  lemma SealedWithoutIv(c: BlockCipher, random: Block, plain: bytes, i: nat)
    requires |plain| % 16 == 0 && 16 * i + 16 <= |plain|
    ensures var r := Sealed(c, random, plain, false);
            && r.Ok? && |r.value| == |plain|
            && (i == 0 ==> BlockAt(r.value, i) == c.enc(BlockAt(plain, i)))
            && (i > 0 ==> BlockAt(r.value, i) == c.enc(XorBlocks(BlockAt(plain, i), BlockAt(r.value, i - 1))))
  {
    BlocksAreChained(c, ZERO_IV, plain, i);
    XorZero(BlockAt(plain, i));
  }

  lemma XorZero(b: Block)
    ensures XorBlocks(b, ZERO_IV) == b
  {
    forall i | 0 <= i < 16 ensures XorBlocks(b, ZERO_IV)[i] == b[i] {
      Byte256();
      XorBitsZero(b[i], 8);
      assert ZERO_IV[i] == 0;
    }
  }

  /** Everything that opens was sealed: it is what sealing its plaintext under the embedded IV gives. */
  lemma SealedUndoesOpened(c: BlockCipher, cipher: bytes, embedsIv: bool)
    requires c.Permutes() && Opened(c, cipher, embedsIv).Ok?
    ensures var iv := if embedsIv then cipher[..16] else ZERO_IV;
            Sealed(c, iv, Opened(c, cipher, embedsIv).value, embedsIv) == Ok(cipher)
  {
    if embedsIv {
      EncryptUndoes(c, cipher[..16], cipher[16..]);
      assert cipher == cipher[..16] + cipher[16..];
    } else {
      EncryptUndoes(c, ZERO_IV, cipher);
    }
  }

  /** XORing a value into an embedded IV changes the first plaintext block, by that value, and no other. */
  lemma IvXorsFirstBlock(c: BlockCipher, iv: Block, delta: Block, rest: bytes)
    requires |rest| % 16 == 0 && rest != []
    ensures var (p, p') := (Opened(c, iv + rest, true), Opened(c, XorBlocks(iv, delta) + rest, true));
            && p.Ok? && p'.Ok? && |p.value| == |rest| == |p'.value|
            && p'.value[..16] == XorBlocks(p.value[..16], delta)
            && p'.value[16..] == p.value[16..]
  {
    var iv' := XorBlocks(iv, delta);
    assert (iv + rest)[..16] == iv && (iv + rest)[16..] == rest;
    assert (iv' + rest)[..16] == iv' && (iv' + rest)[16..] == rest;
    XorBlocksMove(c.dec(rest[..16]), iv, delta);
  }

  // ----- in place

  lemma EncryptStep(c: BlockCipher, iv: Block, done: bytes, left: bytes)
    requires |left| % 16 == 0 && left != []
    ensures var block := c.enc(XorBlocks(left[..16], iv));
            done + Encrypt(c, iv, left) == done + block + Encrypt(c, block, left[16..])
  {
    var block := c.enc(XorBlocks(left[..16], iv));
    Regroup(done, block, Encrypt(c, block, left[16..]));
  }

  lemma DecryptStep(c: BlockCipher, iv: Block, done: bytes, left: bytes)
    requires |left| % 16 == 0 && left != []
    ensures var block := XorBlocks(c.dec(left[..16]), iv);
            done + Decrypt(c, iv, left) == done + block + Decrypt(c, left[..16], left[16..])
  {
    Regroup(done, XorBlocks(c.dec(left[..16]), iv), Decrypt(c, left[..16], left[16..]));
  }

  /** A buffer at a block boundary: what comes before, what is done, and the blocks that are left. */
  ghost predicate At(a: bytes, before: bytes, done: bytes, left: bytes) {
    a == before + done + left
  }

  lemma NextBlock(a: bytes, before: bytes, done: bytes, left: bytes, i: nat)
    requires At(a, before, done, left) && i == |before| + |done| && |left| >= 16
    ensures i + 16 <= |a| && a[i..i + 16] == left[..16]
    ensures forall block: Block :: At(a[..i] + block + a[i + 16..], before, done + block, left[16..])
  {
    assert a[..i] == before + done && a[i..] == left;
    assert a[i + 16..] == left[16..];
    forall block: Block ensures At(a[..i] + block + a[i + 16..], before, done + block, left[16..]) {
      Regroup(before, done, block);
    }
  }

  /** `cbc_encrypt` on the part of a buffer from `start` on, block by block. */
  method CbcEncrypt(c: BlockCipher, iv0: Block, a: array<byte>, start: nat, blocks: nat)
    requires a.Length == start + 16 * blocks
    modifies a
    ensures a[..] == old(a[..start]) + Encrypt(c, iv0, old(a[start..]))
  {
    var iv := iv0;
    ghost var (before, done, left) := (a[..start], [], a[start..]);
    for k := 0 to blocks
      invariant At(a[..], before, done, left) && |done| == 16 * k && |left| == 16 * (blocks - k)
      invariant done + Encrypt(c, iv, left) == Encrypt(c, iv0, old(a[start..]))
    {
      var i := start + 16 * k;
      NextBlock(a[..], before, done, left, i);
      EncryptStep(c, iv, done, left);
      var chunk: Block := a[i..i + 16];
      iv := c.enc(XorBlocks(chunk, iv));
      PutBlock(a, i, iv);
      done, left := done + iv, left[16..];
    }
    assert before + done + [] == before + done;
  }

  /** `cbc_decrypt` on a whole buffer. */
  method CbcDecrypt(c: BlockCipher, iv0: Block, a: array<byte>, blocks: nat)
    requires a.Length == 16 * blocks
    modifies a
    ensures a[..] == Decrypt(c, iv0, old(a[..]))
  {
    var iv := iv0;
    ghost var (done, left) := ([], a[..]);
    for k := 0 to blocks
      invariant At(a[..], [], done, left) && |done| == 16 * k && |left| == 16 * (blocks - k)
      invariant done + Decrypt(c, iv, left) == Decrypt(c, iv0, old(a[..]))
    {
      var i := 16 * k;
      NextBlock(a[..], [], done, left, i);
      DecryptStep(c, iv, done, left);
      var tmp: Block := a[i..i + 16];
      var block := XorBlocks(c.dec(tmp), iv);
      PutBlock(a, i, block);
      done, left := done + block, left[16..];
      iv := tmp;
    }
    assert [] + done + [] == done;
  }

  lemma Regroup(a: bytes, b: bytes, c: bytes)
    ensures a + b + c == a + (b + c)
  {
  }

  method PutBlock(a: array<byte>, at: nat, block: Block)
    requires at + 16 <= a.Length
    modifies a
    ensures a[..] == old(a[..at]) + block + old(a[at + 16..])
  {
    for j := 0 to 16
      invariant a[..at] == old(a[..at]) && a[at..at + j] == block[..j] && a[at + j..] == old(a[at + j..])
    {
      a[at + j] := block[j];
    }
    assert a[..] == a[..at] + a[at..at + 16] + a[at + 16..];
  }

  method Aes256CbcEncrypt(random: Block, c: BlockCipher, plaintext: bytes, embedsIv: bool)
    returns (r: Result<bytes, Status>)
    ensures r == Sealed(c, random, plaintext, embedsIv)
  {
    if |plaintext| % 16 != 0 {
      return Err(InvalidParameter);
    }
    var head := if embedsIv then random else [];
    var iv := if embedsIv then random else ZERO_IV;
    var content := head + plaintext;
    var ciphertext := new byte[|content|](i requires 0 <= i < |content| => content[i]);
    assert ciphertext[..] == content;
    assert ciphertext[..|head|] == head && ciphertext[|head|..] == plaintext;
    CbcEncrypt(c, iv, ciphertext, |head|, |plaintext| / 16);
    assert head == [] ==> head + Encrypt(c, iv, plaintext) == Encrypt(c, iv, plaintext);
    r := Ok(ciphertext[..]);
  }

  method Aes256CbcDecrypt(c: BlockCipher, ciphertext: bytes, embedsIv: bool) returns (r: Result<bytes, Status>)
    ensures r == Opened(c, ciphertext, embedsIv)
  {
    if |ciphertext| % 16 != 0 || (embedsIv && ciphertext == []) {
      return Err(InvalidParameter);
    }
    var iv: Block := if embedsIv then ciphertext[..16] else ZERO_IV;
    var content := if embedsIv then ciphertext[16..] else ciphertext;
    var plaintext := new byte[|content|](i requires 0 <= i < |content| => content[i]);
    assert plaintext[..] == content;
    CbcDecrypt(c, iv, plaintext, |content| / 16);
    r := Ok(plaintext[..]);
  }
}
