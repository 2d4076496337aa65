/** The bitmap converter (`src/bitmaps/pngtorust.py:24-58`): a 128 by 128 image, mirrored and packed into
    32-bit words, whose order is reversed within each row. Dithering is not part of this model: an image
    is black and white here. */
module Bitmap {
  import opened Bits

  /** Rows of pixels, true for black. */
  type Image = i: seq<seq<bool>> | |i| == 128 && forall y :: 0 <= y < 128 ==> |i[y]| == 128
    witness seq(128, y => seq(128, x => false))

  /** `transpose(FLIP_LEFT_RIGHT)`, then `getdata`: pixels row by row. */
  function Pixels(img: Image): (p: seq<bool>)
    ensures |p| == 16384 && forall i :: 0 <= i < 16384 ==> p[i] == img[i / 128][127 - i % 128]
  {
    seq(16384, i requires 0 <= i < 16384 => img[i / 128][127 - i % 128])
  }

  /** The word holds a chunk of up to 32 pixels, the first in its top bit. */
  ghost predicate Holds(word: nat, chunk: seq<bool>) {
    && |chunk| <= 32 && word < PowerOf2(32)
    && forall b :: 0 <= b < 32 ==> (HasBit(word, b) <==> 31 - b < |chunk| && chunk[31 - b])
  }

  lemma EmptyWord()
    ensures Holds(0, [])
  {
    forall b | 0 <= b < 32 ensures !HasBit(0, b) { NoBitsInZero(b); }
  }

  lemma OneMorePixel(word: nat, chunk: seq<bool>, black: bool)
    requires |chunk| < 32 && Holds(word, chunk)
    ensures Holds(if black then SetBit(word, 31 - |chunk|) else word, chunk + [black])
  {
    SetBitFits(word, 31 - |chunk|, 32);
    var (more, next) := (chunk + [black], if black then SetBit(word, 31 - |chunk|) else word);
    forall b | 0 <= b < 32 ensures HasBit(next, b) <==> 31 - b < |more| && more[31 - b] {
      SetBitSets(word, 31 - |chunk|, b);
    }
  }

  /** The chunks of 32 that the words hold, in order. */
  function Chunk(pixels: seq<bool>, k: nat): (c: seq<bool>)
    requires 32 * k <= |pixels|
    ensures |c| <= 32
  {
    if 32 * k + 32 <= |pixels| then pixels[32 * k..32 * k + 32] else pixels[32 * k..]
  }

  ghost predicate HoldsAll(packed: seq<nat>, pixels: seq<bool>) {
    forall k :: 0 <= k < |packed| ==> 32 * k <= |pixels| && Holds(packed[k], Chunk(pixels, k))
  }

  lemma OneMoreWord(packed: seq<nat>, pixels: seq<bool>, word: nat, chunk: seq<bool>)
    requires HoldsAll(packed, pixels) && Holds(word, chunk) && chunk != []
    requires 32 * |packed| + |chunk| <= |pixels| && chunk == pixels[32 * |packed|..32 * |packed| + |chunk|]
    requires |chunk| == 32 || 32 * |packed| + |chunk| == |pixels|
    ensures HoldsAll(packed + [word], pixels)
  {
    assert chunk == Chunk(pixels, |packed|);
  }

  /** The packing loop, most significant bit first. */
  method Pack(pixels: seq<bool>) returns (packed: seq<nat>)
    ensures |pixels| <= 32 * |packed| < |pixels| + 32 && HoldsAll(packed, pixels)
  {
    packed := [];
    var (current, count) := (0, 0);
    ghost var chunk := [];
    EmptyWord();
    for i := 0 to |pixels|
      invariant count == |chunk| < 32 && i == 32 * |packed| + count
      invariant chunk == pixels[32 * |packed|..i] && Holds(current, chunk)
      invariant HoldsAll(packed, pixels)
    {
      OneMorePixel(current, chunk, pixels[i]);
      chunk := chunk + [pixels[i]];
      if pixels[i] {
        current := SetBit(current, 31 - count);
      }
      count := count + 1;
      if count == 32 {
        OneMoreWord(packed, pixels, current, chunk);
        packed := packed + [current];
        current, count, chunk := 0, 0, [];
        EmptyWord();
      }
    }
    if count > 0 {
      OneMoreWord(packed, pixels, current, chunk);
      packed := packed + [current];
    }
  }

  /** Output word `w` is the one opposite in its row of four. */
  function Opposite(w: nat): nat { w / 4 * 4 + 3 - w % 4 }

  lemma RowOf(index: nat)
    ensures Opposite(4 * index) == 4 * index + 3 && Opposite(4 * index + 1) == 4 * index + 2
    ensures Opposite(4 * index + 2) == 4 * index + 1 && Opposite(4 * index + 3) == 4 * index
  {
  }

  ghost predicate Reversed(bitmap: seq<nat>, packed: seq<nat>) {
    forall w :: 0 <= w < |bitmap| ==> Opposite(w) < |packed| && bitmap[w] == packed[Opposite(w)]
  }

  /** The output loop: four words a line, in reverse. */
  method Rows(packed: seq<nat>) returns (bitmap: seq<nat>)
    requires |packed| == 512
    ensures |bitmap| == 512 && Reversed(bitmap, packed)
  {
    bitmap := [];
    for index := 0 to 512 / 4
      invariant |bitmap| == 4 * index && Reversed(bitmap, packed)
    {
      RowOf(index);
      bitmap := bitmap + [packed[index * 4 + 3], packed[index * 4 + 2], packed[index * 4 + 1], packed[index * 4 + 0]];
    }
  }

  method Convert(img: Image) returns (bitmap: seq<nat>)
    ensures |bitmap| == 512 && forall w :: 0 <= w < 512 ==> bitmap[w] < PowerOf2(32)
    ensures forall x, y :: 0 <= x < 128 && 0 <= y < 128 ==> (HasBit(bitmap[4 * y + x / 32], x % 32) <==> img[y][x])
  {
    var packed := Pack(Pixels(img));
    bitmap := Rows(packed);
    forall x, y | 0 <= x < 128 && 0 <= y < 128 ensures HasBit(bitmap[4 * y + x / 32], x % 32) <==> img[y][x] {
      PixelPlace(img, packed, bitmap, x, y);
    }
    forall w | 0 <= w < 512 ensures bitmap[w] < PowerOf2(32) {
      assert Holds(packed[Opposite(w)], Chunk(Pixels(img), Opposite(w)));
    }
  }

  /** Mirror, packing and reversal together put pixel (x, y) at bit `x % 32` of word `4 * y + x / 32`. */
  lemma PixelPlace(img: Image, packed: seq<nat>, bitmap: seq<nat>, x: nat, y: nat)
    requires x < 128 && y < 128 && |packed| == |bitmap| == 512 && HoldsAll(packed, Pixels(img))
    requires Reversed(bitmap, packed)
    ensures HasBit(bitmap[4 * y + x / 32], x % 32) <==> img[y][x]
  {
    WordOf(x, y);
    var k := Opposite(4 * y + x / 32);
    BitOfWord(packed, Pixels(img), k, 31 - x % 32);
    assert Pixels(img)[128 * y + (127 - x)] == img[y][x];
  }

  lemma BitOfWord(packed: seq<nat>, pixels: seq<bool>, k: nat, j: nat)
    requires j < 32 && k < |packed| && 32 * k + 32 <= |pixels| && HoldsAll(packed, pixels)
    ensures HasBit(packed[k], 31 - j) <==> pixels[32 * k + j]
  {
    assert Holds(packed[k], Chunk(pixels, k));
    assert Chunk(pixels, k)[j] == pixels[32 * k + j];
  }

  lemma WordOf(x: nat, y: nat)
    requires x < 128 && y < 128
    ensures var k := Opposite(4 * y + x / 32);
            k == 4 * y + 3 - x / 32 && k < 512 && 32 * k + (31 - x % 32) == 128 * y + (127 - x)
    ensures (128 * y + (127 - x)) / 128 == y && (128 * y + (127 - x)) % 128 == 127 - x
  {
  }
}
