/** Conversions between a byte and the integer 0..255 it stands for. */
module ByteConversions {

  lemma ByteRoundTrip(c: int)
    requires 0 <= c < 256
    ensures (c as bv8) as int == c
  {
  }

  lemma IntRoundTrip(x: bv8)
    ensures (x as int) as bv8 == x
  {
  }
}

/**
 * A java.awt BufferedImage of type TYPE_INT_ARGB: a fixed-size grid of packed
 * 32-bit ARGB words, indexed [y, x] (Length0 is the height, Length1 the width).
 * Bits 24-31 hold alpha, 16-23 red, 8-15 green and 0-7 blue.
 */
module Images {

  type Word = bv32

  /** The byte of `w` that starts at bit `shift`: `(w >> shift) & 0xFF`. */
  function Byte(w: Word, shift: bv5): bv8
  {
    ((w >> shift) & 0xFF) as bv8
  }

  /** `(a << 24) | (r << 16) | (g << 8) | b` for four bytes. */
  function Join(a: bv8, r: bv8, g: bv8, b: bv8): Word
  {
    ((a as bv32) << 24) | ((r as bv32) << 16) | ((g as bv32) << 8) | (b as bv32)
  }

  lemma ByteOfJoin(a: bv8, r: bv8, g: bv8, b: bv8)
    ensures Byte(Join(a, r, g, b), 24) == a && Byte(Join(a, r, g, b), 16) == r
    ensures Byte(Join(a, r, g, b), 8) == g && Byte(Join(a, r, g, b), 0) == b
  {
  }

  lemma JoinOfBytes(w: Word)
    ensures Join(Byte(w, 24), Byte(w, 16), Byte(w, 8), Byte(w, 0)) == w
  {
  }

  function Pow256(i: nat): (r: nat)
    ensures r > 0
  {
    if i == 0 then 1 else 256 * Pow256(i - 1)
  }

  /** Byte `i` (0 = lowest) of the non-negative number `u`. */
  function ByteAt(u: nat, i: nat): bv8
  {
    ((u / Pow256(i)) % 256) as bv8
  }

  /** The 32-bit two's-complement pattern of a Java `int` (the low 32 bits of `x`). */
  function IntBits(x: int): Word
  {
    var u := x % 0x1_0000_0000;
    Join(ByteAt(u, 3), ByteAt(u, 2), ByteAt(u, 1), ByteAt(u, 0))
  }

  /** A value that fits in a byte is that byte, zero-extended. */
  lemma IntBitsOfByte(c: int)
    requires 0 <= c < 256
    ensures IntBits(c) == (c as bv8) as bv32
  {
    assert c % 0x1_0000_0000 == c;
    BytesOfSmall(c);
    JoinLowByte(c as bv8);
  }

  lemma BytesOfSmall(c: nat)
    requires c < 256
    ensures ByteAt(c, 0) == c as bv8
    ensures ByteAt(c, 1) == 0 && ByteAt(c, 2) == 0 && ByteAt(c, 3) == 0
  {
    assert Pow256(1) == 256 && Pow256(2) == 65536 && Pow256(3) == 16777216;
  }

  lemma JoinLowByte(b: bv8)
    ensures Join(0, 0, 0, b) == b as bv32
  {
  }

  /** Java's `(a << 24) | (r << 16) | (g << 8) | b` on four `int`s. */
  function PackInts(a: int, r: int, g: int, b: int): Word
  {
    (IntBits(a) << 24) | (IntBits(r) << 16) | (IntBits(g) << 8) | IntBits(b)
  }

  /** On channels in 0..255 the packing is the byte-wise Join. */
  lemma PackIntsOfBytes(a: int, r: int, g: int, b: int)
    requires 0 <= a < 256 && 0 <= r < 256 && 0 <= g < 256 && 0 <= b < 256
    ensures PackInts(a, r, g, b) == Join(a as bv8, r as bv8, g as bv8, b as bv8)
  {
    IntBitsOfByte(a);
    IntBitsOfByte(r);
    IntBitsOfByte(g);
    IntBitsOfByte(b);
    PackBytes(a as bv8, r as bv8, g as bv8, b as bv8);
  }

  lemma PackBytes(a: bv8, r: bv8, g: bv8, b: bv8)
    ensures ((a as bv32) << 24) | ((r as bv32) << 16) | ((g as bv32) << 8) | (b as bv32) == Join(a, r, g, b)
  {
  }

  /** Positions of an image, and the row-major order in which every loop here visits them. */
  predicate Inside(img: array2<Word>, y: int, x: int)
  {
    0 <= y < img.Length0 && 0 <= x < img.Length1
  }

  /** (y1, x1) is visited strictly before (y2, x2) when rows are scanned top to bottom, each left to right. */
  predicate Before(y1: int, x1: int, y2: int, x2: int)
  {
    y1 < y2 || (y1 == y2 && x1 < x2)
  }

  /**
   * A fresh image of the same size whose every word is `f` of the source's word:
   * the nested `for y`/`for x` loop that reads `getRGB(x, y)` and calls `setRGB(x, y, ...)`.
   */
  method MapPixels(src: array2<Word>, f: Word -> Word) returns (dst: array2<Word>)
    ensures fresh(dst)
    ensures dst.Length0 == src.Length0 && dst.Length1 == src.Length1
    ensures forall y, x :: Inside(dst, y, x) ==> dst[y, x] == f(src[y, x])
  {
    dst := new Word[src.Length0, src.Length1];
    var y := 0;
    while y < src.Length0
      invariant 0 <= y <= src.Length0
      invariant forall y', x' :: 0 <= y' < y && 0 <= x' < src.Length1 ==> dst[y', x'] == f(src[y', x'])
    {
      var x := 0;
      while x < src.Length1
        invariant 0 <= x <= src.Length1
        invariant forall y', x' :: 0 <= y' < y && 0 <= x' < src.Length1 ==> dst[y', x'] == f(src[y', x'])
        invariant forall x' :: 0 <= x' < x ==> dst[y, x'] == f(src[y, x'])
      {
        dst[y, x] := f(src[y, x]);
        x := x + 1;
      }
      y := y + 1;
    }
  }
}
