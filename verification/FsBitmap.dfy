/** The free bitmap of kernel/fs.c as it lies on disk: blocks of bytes, one bit for each block
    of the file system, tested, set and cleared through a mask. */
module FsBitmap {
  import opened FsLayout

  const BPB := 8 * BSIZE   // bitmap bits per block

  type Bitmap = seq<seq<bv8>>

  // ---------- one byte ----------

  /** 1 << i */
  function Mask(i: nat): bv8
    requires i < 8
  {
    if i == 0 then 1 else if i == 1 then 2 else if i == 2 then 4 else if i == 3 then 8
    else if i == 4 then 16 else if i == 5 then 32 else if i == 6 then 64 else 128
  }

  predicate Test(x: bv8, i: nat)
    requires i < 8
  {
    x & Mask(i) != 0
  }

  function With(x: bv8, i: nat): bv8
    requires i < 8
  {
    x | Mask(i)
  }

  function Without(x: bv8, i: nat): bv8
    requires i < 8
  {
    x & !Mask(i)
  }

  lemma OneMask(x: bv8, m: bv8)
    requires m != 0
    ensures (x | m) & m != 0 && (x & !m) & m == 0
  {
  }

  lemma OtherMask(x: bv8, m: bv8, k: bv8)
    requires m & k == 0
    ensures (x | m) & k == x & k && (x & !m) & k == x & k
  {
  }

  lemma MasksApart(i: nat, j: nat)
    requires i < 8 && j < 8
    ensures Mask(i) != 0 && (i != j ==> Mask(i) & Mask(j) == 0)
  {
  }

  /** Setting or clearing one bit of a byte leaves the other seven. */
  lemma MaskedBits(x: bv8, i: nat, j: nat)
    requires i < 8 && j < 8
    ensures Test(With(x, i), j) <==> i == j || Test(x, j)
    ensures Test(Without(x, i), j) <==> i != j && Test(x, j)
  {
    hide Mask;
    MasksApart(i, j);
    if i == j { OneMask(x, Mask(i)); } else { OtherMask(x, Mask(i), Mask(j)); }
  }

  // ---------- the bitmap ----------

  /** The bitmap has a bit for each of n blocks. */
  predicate Reaches<T>(m: seq<seq<T>>, n: nat) {
    n <= |m| * BPB && forall i :: 0 <= i < |m| ==> |m[i]| == BSIZE
  }

  /** Byte bi / 8 of bitmap block b / BPB, for bi = b % BPB. */
  function ByteOf<T>(m: seq<seq<T>>, b: nat): T
    requires b < |m| * BPB && Reaches(m, b)
  {
    m[b / BPB][b % BPB / 8]
  }

  function WithByte<T>(m: seq<seq<T>>, b: nat, x: T): (r: seq<seq<T>>)
    requires b < |m| * BPB && Reaches(m, b)
  {
    m[b / BPB := m[b / BPB][b % BPB / 8 := x]]
  }

  predicate SameByte(b: nat, c: nat) {
    b / BPB == c / BPB && b % BPB / 8 == c % BPB / 8
  }

  function BitAt(b: nat): (i: nat)
    ensures i < 8
  {
    b % BPB % 8
  }

  /** What balloc and bfree test. */
  predicate Bit(m: Bitmap, b: nat)
    requires b < |m| * BPB && Reaches(m, b)
  {
    Test(ByteOf(m, b), BitAt(b))
  }

  function SetBit(m: Bitmap, b: nat): Bitmap
    requires b < |m| * BPB && Reaches(m, b)
  {
    WithByte(m, b, With(ByteOf(m, b), BitAt(b)))
  }

  function ClearBit(m: Bitmap, b: nat): Bitmap
    requires b < |m| * BPB && Reaches(m, b)
  {
    WithByte(m, b, Without(ByteOf(m, b), BitAt(b)))
  }

  /** The bits that the bytes stand for. */
  ghost predicate Mirrors(m: Bitmap, bits: seq<bool>) {
    Reaches(m, |bits|) && forall b :: 0 <= b < |bits| ==> (bits[b] <==> Bit(m, b))
  }

  /** Where the bit of block b lies: bit b % 8, counted from the low end, of a byte of its own
      block of the bitmap. */
  lemma BitPlace(m: Bitmap, b: nat)
    requires b < |m| * BPB && Reaches(m, b)
    ensures b / 0x2000 < |m| && b % 0x2000 / 8 < |m[b / 0x2000]|
    ensures Bit(m, b) <==> m[b / 0x2000][b % 0x2000 / 8] & ((1 as bv8) << (b % 8)) != 0
  {
    var i := b % 8;
    assert b % BPB % 8 == i by { assert b == b / BPB * BPB + b % BPB; }
    ShiftMask(i);
    hide Mask;
  }

  lemma ShiftMask(i: nat)
    requires i < 8
    ensures (1 as bv8) << i == Mask(i)
  {
    if i == 0 {} else if i == 1 {} else if i == 2 {} else if i == 3 {}
    else if i == 4 {} else if i == 5 {} else if i == 6 {} else {}
  }

  lemma StoredByte<T>(m: seq<seq<T>>, b: nat, x: T, c: nat)
    requires b < |m| * BPB && c < |m| * BPB && Reaches(m, b) && Reaches(m, c)
    ensures |WithByte(m, b, x)| == |m| && Reaches(WithByte(m, b, x), c)
    ensures ByteOf(WithByte(m, b, x), c) == if SameByte(b, c) then x else ByteOf(m, c)
    ensures SameByte(b, c) ==> ByteOf(m, b) == ByteOf(m, c)
  {
  }

  /** A block's bit is its own: no two blocks share both byte and mask. */
  lemma OwnBit(b: nat, c: nat)
    ensures SameByte(b, c) && BitAt(b) == BitAt(c) <==> b == c
  {
    assert b == b / BPB * BPB + b % BPB && c == c / BPB * BPB + c % BPB;
    assert b % BPB == b % BPB / 8 * 8 + b % BPB % 8 && c % BPB == c % BPB / 8 * 8 + c % BPB % 8;
  }

  /** Setting and clearing through the mask changes exactly the bit of that block. */
  lemma BitSet(m: Bitmap, b: nat, c: nat)
    requires b < |m| * BPB && c < |m| * BPB && Reaches(m, b) && Reaches(m, c)
    ensures |SetBit(m, b)| == |ClearBit(m, b)| == |m| && Reaches(SetBit(m, b), c) && Reaches(ClearBit(m, b), c)
    ensures Bit(SetBit(m, b), c) <==> b == c || Bit(m, c)
    ensures Bit(ClearBit(m, b), c) <==> b != c && Bit(m, c)
  {
    hide Test, With, Without, WithByte, ByteOf, Reaches, BitAt, SameByte;
    var x := ByteOf(m, b);
    StoredByte(m, b, With(x, BitAt(b)), c);
    StoredByte(m, b, Without(x, BitAt(b)), c);
    MaskedBits(x, BitAt(b), BitAt(c));
    OwnBit(b, c);
  }

  lemma Mirrored(m: Bitmap, bits: seq<bool>, b: nat)
    requires Mirrors(m, bits) && b < |bits|
    ensures Mirrors(SetBit(m, b), bits[b := true]) && Mirrors(ClearBit(m, b), bits[b := false])
  {
    hide Bit, SetBit, ClearBit;
    BitSet(m, b, b);
    forall c: nat | c < |bits|
      ensures Reaches(m, c) && Reaches(SetBit(m, b), c) && Reaches(ClearBit(m, b), c)
      ensures Bit(SetBit(m, b), c) <==> b == c || Bit(m, c)
      ensures Bit(ClearBit(m, b), c) <==> b != c && Bit(m, c)
    {
      BitSet(m, b, c);
    }
  }
}
