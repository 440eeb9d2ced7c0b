/** The packed binary image of a bit vector, as the filter's bit array writes
    and reads it: eight consecutive bits per byte, the first bit in the most
    significant position, and the last byte padded with zero bits when the
    vector's length is not a multiple of eight. */
module Packing {

  newtype byte = x: int | 0 <= x < 256

  function Pow2(n: nat): (r: nat)
    ensures r >= 1
  {
    if n == 0 then 1 else 2 * Pow2(n - 1)
  }

  /** n bits, all cleared. */
  function Zeros(n: nat): (z: seq<bool>)
    ensures |z| == n && forall j :: 0 <= j < n ==> !z[j]
  {
    seq(n, _ => false)
  }

  /** The number a bit string denotes when read most significant bit first. */
  function ValueOf(b: seq<bool>): (v: nat)
    ensures v < Pow2(|b|)
  {
    if b == [] then 0 else 2 * ValueOf(b[..|b| - 1]) + (if b[|b| - 1] then 1 else 0)
  }

  /** The w low-order bits of x, most significant first. */
  function BitsOf(x: nat, w: nat): (b: seq<bool>)
    ensures |b| == w
  {
    if w == 0 then [] else BitsOf(x / 2, w - 1) + [x % 2 == 1]
  }

  lemma {:induction false} BitsOfValueOf(b: seq<bool>)
    ensures BitsOf(ValueOf(b), |b|) == b
  {
    if b != [] {
      var init, last := b[..|b| - 1], b[|b| - 1];
      var v := 2 * ValueOf(init) + (if last then 1 else 0);
      assert v / 2 == ValueOf(init) && (v % 2 == 1) == last;
      BitsOfValueOf(init);
      assert b == init + [last];
    }
  }

  lemma {:induction false} ValueOfBitsOf(x: nat, w: nat)
    requires x < Pow2(w)
    ensures ValueOf(BitsOf(x, w)) == x
  {
    if w > 0 {
      var b := BitsOf(x, w);
      assert b[..w - 1] == BitsOf(x / 2, w - 1);
      ValueOfBitsOf(x / 2, w - 1);
    }
  }

  /** The byte that holds eight bits. */
  function PackByte(b: seq<bool>): (x: byte)
    requires |b| == 8
    ensures UnpackByte(x) == b
  {
    BitsOfValueOf(b);
    assert Pow2(8) == 256;
    ValueOf(b) as byte
  }

  /** The eight bits a byte holds. */
  function UnpackByte(x: byte): (b: seq<bool>)
    ensures |b| == 8
  {
    BitsOf(x as nat, 8)
  }

  lemma PackUnpackByte(x: byte)
    ensures PackByte(UnpackByte(x)) == x
  {
    assert Pow2(8) == 256;
    ValueOfBitsOf(x as nat, 8);
  }

  /** Width of the image of n bits: one byte per started group of eight. */
  function ImageLength(n: nat): nat
  {
    (n + 7) / 8
  }

  /** The image a bit vector is written as. */
  function Pack(bits: seq<bool>): (image: seq<byte>)
    ensures |image| == ImageLength(|bits|)
    decreases |bits|
  {
    if |bits| == 0 then []
    else if |bits| < 8 then [PackByte(bits + Zeros(8 - |bits|))]
    else [PackByte(bits[..8])] + Pack(bits[8..])
  }

  /** The bits an image is read back as: all eight bits of every byte. */
  function Unpack(image: seq<byte>): (bits: seq<bool>)
    ensures |bits| == 8 * |image|
  {
    if image == [] then [] else UnpackByte(image[0]) + Unpack(image[1..])
  }

  /** Reading back an image gives the bits that were written, followed by the
      zero padding of the last byte and nothing else. */
  lemma {:induction false} UnpackPack(bits: seq<bool>)
    ensures Unpack(Pack(bits)) == bits + Zeros(8 * ImageLength(|bits|) - |bits|)
    decreases |bits|
  {
    if |bits| == 0 {
    } else if |bits| < 8 {
      assert Pack(bits) == [PackByte(bits + Zeros(8 - |bits|))];
      assert Unpack(Pack(bits)) == UnpackByte(Pack(bits)[0]) + Unpack([]);
    } else {
      var rest := bits[8..];
      UnpackPack(rest);
      assert Pack(bits) == [PackByte(bits[..8])] + Pack(rest);
      assert Pack(bits)[1..] == Pack(rest);
      assert ImageLength(|bits|) == ImageLength(|rest|) + 1;
      calc {
        Unpack(Pack(bits));
        UnpackByte(PackByte(bits[..8])) + Unpack(Pack(rest));
        bits[..8] + (rest + Zeros(8 * ImageLength(|rest|) - |rest|));
        { assert bits == bits[..8] + rest; }
        bits + Zeros(8 * ImageLength(|bits|) - |bits|);
      }
    }
  }

  /** The round trip the other way: a read image written again is the same image. */
  lemma {:induction false} PackUnpack(image: seq<byte>)
    ensures Pack(Unpack(image)) == image
  {
    if image != [] {
      var bits := Unpack(image);
      PackUnpack(image[1..]);
      assert bits[..8] == UnpackByte(image[0]);
      assert bits[8..] == Unpack(image[1..]);
      PackUnpackByte(image[0]);
      assert image == [image[0]] + image[1..];
    }
  }

  /** A vector whose length is a multiple of eight is read back exactly. */
  lemma WholeBytesRoundTrip(bits: seq<bool>)
    requires |bits| % 8 == 0
    ensures Unpack(Pack(bits)) == bits
  {
    UnpackPack(bits);
    var q := |bits| / 8;
    assert |bits| == 8 * q;
    assert ImageLength(|bits|) == q;
    assert bits + Zeros(0) == bits;
  }
}
