/** The 2-bit to 1-bit dual-plane packer of the 4-gray display. A source
    byte holds four 2-bit pixels, least significant pair first; an output byte
    holds eight pixels, one bit each, the first pixel in the most significant
    bit. Plane A (RAM opcode 0x24) takes the high bit of each pixel, plane B
    (opcode 0x26) the low bit. The accumulator is an unbounded integer, as in
    the source: `x & 3` is `x % 4`, `x >>= 2` is `x / 4` and `x <<= 1` is
    `2 * x`, all exact for the non-negative values that occur here. */
module Epd3in7Gray {
  import opened Hal

  /** The two RAM planes: A is written after 0x24, B after 0x26. */
  datatype Plane = PlaneA | PlaneB

  /** The bit a pixel value contributes to a plane: white (3) sets it in both
      planes, black (0) in neither, gray1 (2) only in plane A and gray2 (1)
      only in plane B. */
  function PlaneBit(plane: Plane, p: int): (bit: int)
    ensures 0 <= bit <= 1
  {
    if p == 0x03 then 1
    else if p == 0x00 then 0
    else if p == 0x02 then (if plane == PlaneA then 1 else 0)
    else (if plane == PlaneA then 0 else 1)
  }

  /** Plane A takes the high bit of a 2-bit pixel and plane B the low bit. */
  lemma PlaneBitSelects(plane: Plane, p: int)
    requires 0 <= p < 4
    ensures PlaneBit(plane, p) == if plane == PlaneA then p / 2 else p % 2
  {
  }

  /** The eight 2-bit pixels of a pair of source bytes, in the order the
      packer takes them: the bit pairs of the first byte from the least
      significant up, then those of the second. */
  function Pixels(first: Byte, second: Byte): seq<int>
  {
    [first % 4, first / 4 % 4, first / 4 / 4 % 4, first / 4 / 4 / 4 % 4,
     second % 4, second / 4 % 4, second / 4 / 4 % 4, second / 4 / 4 / 4 % 4]
  }

  /** The plane bit of each pixel. */
  function PlaneBits(plane: Plane, pixels: seq<int>): (bits: seq<int>)
    ensures |bits| == |pixels|
    ensures forall i | 0 <= i < |bits| :: 0 <= bits[i] <= 1
  {
    seq(|pixels|, i requires 0 <= i < |pixels| => PlaneBit(plane, pixels[i]))
  }

  /** 2 to the n. */
  function Pow2(n: nat): nat
  {
    if n == 0 then 1 else 2 * Pow2(n - 1)
  }

  /** The low n bits of b, most significant first. */
  function LowBits(b: int, n: nat): seq<int>
    decreases n
  {
    if n == 0 then [] else LowBits(b / 2, n - 1) + [b % 2]
  }

  /** `x | bit` for a bit of 0 or 1. */
  function Or(x: int, bit: int): int
    requires 0 <= bit <= 1
  {
    if bit == 0 || x % 2 == 1 then x else x + 1
  }

  /** The first n of bits, shifted in one at a time: what temp3 holds after n
      pixels, before the shift that follows every pixel but the last. */
  function Shifted(bits: seq<int>, n: nat): int
    requires n <= |bits| && forall i | 0 <= i < |bits| :: 0 <= bits[i] <= 1
  {
    if n == 0 then 0 else Or(2 * Shifted(bits, n - 1), bits[n - 1])
  }

  /** n one-bit values shifted in fill at most n bits. */
  lemma {:induction false} ShiftedBound(bits: seq<int>, n: nat)
    requires n <= |bits| && forall i | 0 <= i < |bits| :: 0 <= bits[i] <= 1
    ensures 0 <= Shifted(bits, n) < Pow2(n)
  {
    if n > 0 {
      ShiftedBound(bits, n - 1);
    }
  }

  /** The value shifted in from the first n bits gives back those n bits,
      the first in the most significant place. */
  lemma {:induction false} ShiftedLowBits(bits: seq<int>, n: nat)
    requires n <= |bits| && forall i | 0 <= i < |bits| :: 0 <= bits[i] <= 1
    ensures LowBits(Shifted(bits, n), n) == bits[..n]
  {
    if n > 0 {
      ShiftedLowBits(bits, n - 1);
      ShiftedBound(bits, n - 1);
      assert Shifted(bits, n) == 2 * Shifted(bits, n - 1) + bits[n - 1];
      assert bits[..n] == bits[..n - 1] + [bits[n - 1]];
    }
  }

  /** Pixel n of the eight a pair of source bytes holds: bit pair n % 4 of
      the first byte for n < 4, of the second otherwise. */
  function PixelOf(first: Byte, second: Byte, n: nat): int
    requires n < 8
  {
    var src := if n < 4 then first else second;
    var pair := n % 4;
    if pair == 0 then src % 4
    else if pair == 1 then src / 4 % 4
    else if pair == 2 then src / 4 / 4 % 4
    else src / 4 / 4 / 4 % 4
  }

  lemma PixelOfPixels(first: Byte, second: Byte, n: nat)
    requires n < 8
    ensures PixelOf(first, second, n) == Pixels(first, second)[n]
  {
  }

  /** temp3 after its first n pixels have been shifted in. */
  function PackedUpTo(plane: Plane, first: Byte, second: Byte, n: nat): int
    requires n <= 8
  {
    if n == 0 then 0
    else Or(2 * PackedUpTo(plane, first, second, n - 1), PlaneBit(plane, PixelOf(first, second, n - 1)))
  }

  /** PackedUpTo is the shift of the first n plane bits. */
  lemma {:induction false} PackedUpToShifted(plane: Plane, first: Byte, second: Byte, n: nat)
    requires n <= 8
    ensures PackedUpTo(plane, first, second, n) == Shifted(PlaneBits(plane, Pixels(first, second)), n)
  {
    if n > 0 {
      PackedUpToShifted(plane, first, second, n - 1);
      PixelOfPixels(first, second, n - 1);
    }
  }

  /** What temp3 holds after n pixels: shifted once more except after the
      last. */
  ghost function Acc(plane: Plane, first: Byte, second: Byte, n: nat): int
    requires n <= 8
  {
    if n == 8 then PackedUpTo(plane, first, second, 8) else 2 * PackedUpTo(plane, first, second, n)
  }

  /** The output byte for a pair of source bytes; it fits in a byte. */
  function Packed(plane: Plane, first: Byte, second: Byte): (r: int)
    ensures 0 <= r < 256
  {
    PackedUpToShifted(plane, first, second, 8);
    ShiftedBound(PlaneBits(plane, Pixels(first, second)), 8);
    PackedUpTo(plane, first, second, 8)
  }

  /** The output byte holds pixel n of the eight at bit 7 - n, with the bit
      the plane takes from it. */
  lemma PackedBits(plane: Plane, first: Byte, second: Byte)
    ensures LowBits(Packed(plane, first, second), 8) == PlaneBits(plane, Pixels(first, second))
  {
    var bits := PlaneBits(plane, Pixels(first, second));
    PackedUpToShifted(plane, first, second, 8);
    ShiftedLowBits(bits, 8);
    assert bits[..8] == bits;
  }

  /** Where pixel pair k of source byte j sits, as the inner loop finds it
      with temp1 divided by 4 twice per earlier pass. */
  lemma PairAt(first: Byte, second: Byte, j: int, k: int, temp1: int)
    requires 0 <= j < 2 && 0 <= k < 2
    requires temp1 == var src := if j == 0 then first else second; if k == 0 then src else src / 4 / 4
    ensures PixelOf(first, second, 4 * j + 2 * k) == temp1 % 4
    ensures PixelOf(first, second, 4 * j + 2 * k + 1) == temp1 / 4 % 4
  {
  }

  /** One iteration of the outer loop of EPD_3IN7_4Gray_Display: packs source
      bytes first and second into temp3 for plane. */
  method PackByte(plane: Plane, first: Byte, second: Byte) returns (temp3: int)
    ensures temp3 == Packed(plane, first, second)
  {
    temp3 := 0;
    for j := 0 to 2
      invariant temp3 == Acc(plane, first, second, 4 * j)
    {
      var temp1: int := if j == 0 then first else second;
      for k := 0 to 2
        invariant temp3 == Acc(plane, first, second, 4 * j + 2 * k)
        invariant k < 2 ==> temp1 == var src := if j == 0 then first else second; if k == 0 then src else src / 4 / 4
      {
        ghost var n := 4 * j + 2 * k;
        PairAt(first, second, j, k, temp1);
        var temp2 := temp1 % 4;
        temp3 := Or(temp3, PlaneBit(plane, temp2));
        assert temp3 == PackedUpTo(plane, first, second, n + 1);
        temp3 := 2 * temp3;
        temp1 := temp1 / 4;
        temp2 := temp1 % 4;
        temp3 := Or(temp3, PlaneBit(plane, temp2));
        assert temp3 == PackedUpTo(plane, first, second, n + 2);
        if j != 1 || k != 1 {
          temp3 := 2 * temp3;
        }
        temp1 := temp1 / 4;
      }
    }
  }

  /** The first count bytes of a plane for a 2-bit image, one per pair of
      source bytes. */
  function PackPlane(plane: Plane, image: seq<Byte>, count: nat): (out: seq<Byte>)
    requires 2 * count <= |image|
    ensures |out| == count
  {
    if count == 0 then []
    else PackPlane(plane, image, count - 1) + [Packed(plane, image[2 * count - 2], image[2 * count - 1])]
  }

  /** Byte i of a plane is packed from source bytes 2i and 2i+1. */
  lemma {:induction false} PackPlaneAt(plane: Plane, image: seq<Byte>, count: nat, i: nat)
    requires 2 * count <= |image| && i < count
    ensures PackPlane(plane, image, count)[i] == Packed(plane, image[2 * i], image[2 * i + 1])
  {
    if i < count - 1 {
      PackPlaneAt(plane, image, count - 1, i);
    }
  }

  /** Source byte 0x63 holds the pixels 3, 0, 2, 1, least significant pair
      first, and they select plane A bits 1, 0, 1, 0 and plane B bits
      1, 0, 0, 1. */
  lemma FixedPixels(second: Byte)
    ensures PlaneBits(PlaneA, Pixels(0x63, second))[..4] == [1, 0, 1, 0]
    ensures PlaneBits(PlaneB, Pixels(0x63, second))[..4] == [1, 0, 0, 1]
  {
    assert Pixels(0x63, second)[..4] == [3, 0, 2, 1];
  }

  /** The fixed vector: pixels 3, 0, 2, 1 (source byte 0x63) give plane A bits
      1, 0, 1, 0 and plane B bits 1, 0, 0, 1 in the high half of the output. */
  lemma FixedVector(second: Byte)
    ensures LowBits(Packed(PlaneA, 0x63, second), 8)[..4] == [1, 0, 1, 0]
    ensures LowBits(Packed(PlaneB, 0x63, second), 8)[..4] == [1, 0, 0, 1]
  {
    PackedBits(PlaneA, 0x63, second);
    PackedBits(PlaneB, 0x63, second);
    FixedPixels(second);
  }
}
