/** The file system of kernel/fs.c as data: the free bitmap, inodes with direct and indirect
    block addresses, and which slot of which inode owns each block. */
module FsLayout {

  const BSIZE := 1024
  const NDIRECT := 12
  const NINDIRECT := 256                 // BSIZE / sizeof(uint)
  const MAXFILE := NDIRECT + NINDIRECT

  type Bytes = b: seq<nat> | |b| == BSIZE witness seq(BSIZE, _ => 0)

  datatype Block = Block(b: Bytes)

  function ZeroBlock(): Block { Block(seq(BSIZE, _ => 0)) }

  // ---------- the words of an indirect block ----------

  /** ((uint*)bp->data)[j], little-endian. */
  function Word(x: Block, j: nat): nat
    requires j < NINDIRECT
  {
    x.b[4 * j] + 0x100 * x.b[4 * j + 1] + 0x1_0000 * x.b[4 * j + 2] + 0x100_0000 * x.b[4 * j + 3]
  }

  function SetWord(x: Block, j: nat, v: nat): Block
    requires j < NINDIRECT
  {
    Block(x.b[4 * j := v % 0x100][4 * j + 1 := v / 0x100 % 0x100]
             [4 * j + 2 := v / 0x1_0000 % 0x100][4 * j + 3 := v / 0x100_0000 % 0x100])
  }

  lemma WordRoundTrip(x: Block, j: nat, v: nat)
    requires j < NINDIRECT && v < 0x1_0000_0000
    ensures Word(SetWord(x, j, v), j) == v
    ensures forall k :: 0 <= k < NINDIRECT && k != j ==> Word(SetWord(x, j, v), k) == Word(x, k)
  {
    FourBytes(v);
    var y := SetWord(x, j, v);
    assert y.b[4 * j] == v % 0x100 && y.b[4 * j + 1] == v / 0x100 % 0x100;
    assert y.b[4 * j + 2] == v / 0x1_0000 % 0x100 && y.b[4 * j + 3] == v / 0x100_0000 % 0x100;
    forall k | 0 <= k < NINDIRECT && k != j ensures Word(y, k) == Word(x, k) {
      assert forall i :: 4 * k <= i < 4 * k + 4 ==> y.b[i] == x.b[i];
    }
  }

  /** The low byte of a block number comes first, and the bytes of the others stay. */
  lemma WordBytes(x: Block, j: nat, v: nat, i: nat)
    requires j < NINDIRECT && v < 0x1_0000_0000 && i < BSIZE
    ensures var y := SetWord(x, j, v).b;
      && y[4 * j] == v % 0x100 && y[4 * j] + 0x100 * y[4 * j + 1] == v % 0x1_0000
      && y[4 * j] + 0x100 * y[4 * j + 1] + 0x1_0000 * y[4 * j + 2] == v % 0x100_0000
      && (!(4 * j <= i < 4 * j + 4) ==> y[i] == x.b[i])
    ensures Word(SetWord(x, j, v), j) == v
  {
    WordRoundTrip(x, j, v);
    var y, a := SetWord(x, j, v).b, v / 0x100;
    assert y[4 * j + 1] == a % 0x100 && y[4 * j + 2] == a / 0x100 % 0x100;
    assert v / 0x1_0000 == a / 0x100 && v == 0x100 * a + v % 0x100;
  }

  lemma FourBytes(v: nat)
    requires v < 0x1_0000_0000
    ensures v == v % 0x100 + 0x100 * (v / 0x100 % 0x100) + 0x1_0000 * (v / 0x1_0000 % 0x100)
                   + 0x100_0000 * (v / 0x100_0000 % 0x100)
  {
    var a, b := v / 0x100, v / 0x1_0000;
    assert a / 0x100 == b && b / 0x100 == v / 0x100_0000;
    assert v == 0x100 * a + v % 0x100 && a == 0x100 * b + a % 0x100 && b == 0x100 * (b / 0x100) + b % 0x100;
  }

  lemma ZeroWords()
    ensures forall k :: 0 <= k < NINDIRECT ==> Word(ZeroBlock(), k) == 0
  {
  }

  // ---------- inodes and slots ----------

  datatype Inode = Inode(addrs: seq<nat>, size: nat)

  datatype Fs = Fs(nmeta: nat, bits: seq<bool>, blocks: seq<Block>, inodes: seq<Inode>)

  /** A place that can hold a block number: addrs[i], addrs[NDIRECT], or entry j of the
      indirect block. */
  datatype Slot = Direct(n: nat, i: nat) | Ind(n: nat) | Entry(n: nat, j: nat)

  ghost predicate Sized(fs: Fs) {
    && 0 < fs.nmeta <= |fs.blocks| == |fs.bits| < 0x1_0000_0000
    && forall n :: 0 <= n < |fs.inodes| ==> |fs.inodes[n].addrs| == NDIRECT + 1
  }

  ghost predicate IsSlot(fs: Fs, s: Slot) {
    s.n < |fs.inodes| && (s.Direct? ==> s.i < NDIRECT) && (s.Entry? ==> s.j < NINDIRECT)
  }

  /** The block number in slot s, 0 for none. */
  ghost function Addr(fs: Fs, s: Slot): nat
    requires Sized(fs) && IsSlot(fs, s)
  {
    match s
    case Direct(n, i) => fs.inodes[n].addrs[i]
    case Ind(n) => fs.inodes[n].addrs[NDIRECT]
    case Entry(n, j) =>
      var a := fs.inodes[n].addrs[NDIRECT];
      if a == 0 || a >= |fs.blocks| then 0 else Word(fs.blocks[a], j)
  }

  /** Which slot owns each data block in use. */
  type Owners = map<nat, Slot>

  /** Every used slot owns its block alone, and a bitmap bit is set exactly when its block
      is metadata or owned. */
  ghost predicate Owned(fs: Fs, own: Owners) {
    && Sized(fs)
    && (forall b :: b in own ==> fs.nmeta <= b < |fs.blocks| && IsSlot(fs, own[b]) && Addr(fs, own[b]) == b)
    && (forall s :: IsSlot(fs, s) && Addr(fs, s) != 0 ==> Addr(fs, s) in own && own[Addr(fs, s)] == s)
    && (forall b :: 0 <= b < |fs.bits| ==> (fs.bits[b] <==> b < fs.nmeta || b in own))
  }

  /** The slot of block bn of file n. */
  function SlotOf(n: nat, bn: nat): Slot {
    if bn < NDIRECT then Direct(n, bn) else Entry(n, bn - NDIRECT)
  }

  /** What the bitmap means, without naming the owners. */
  lemma BitmapIsOwnership(fs: Fs, own: Owners, b: nat)
    requires Owned(fs, own) && b < |fs.bits|
    ensures fs.bits[b] <==> b < fs.nmeta || exists s :: IsSlot(fs, s) && Addr(fs, s) == b
    ensures forall s, t :: IsSlot(fs, s) && IsSlot(fs, t) && Addr(fs, s) == b && Addr(fs, t) == b && b != 0 ==>
      s == t && b >= fs.nmeta
  {
    if b in own { assert IsSlot(fs, own[b]) && Addr(fs, own[b]) == b; }
    if s :| IsSlot(fs, s) && Addr(fs, s) == b {
      if b == 0 { assert b < fs.nmeta; } else { assert b in own; }
    }
  }

  // ---------- updates ----------

  /** balloc's effect: the bit set, the block zeroed. */
  ghost function Allocated(fs: Fs, b: nat): Fs
    requires Sized(fs) && b < |fs.blocks|
  {
    fs.(bits := fs.bits[b := true], blocks := fs.blocks[b := ZeroBlock()])
  }

  function SetAddr(fs: Fs, n: nat, i: nat, b: nat): Fs
    requires n < |fs.inodes| && i < |fs.inodes[n].addrs|
  {
    fs.(inodes := fs.inodes[n := fs.inodes[n].(addrs := fs.inodes[n].addrs[i := b])])
  }

  function SetBlock(fs: Fs, a: nat, x: Block): Fs
    requires a < |fs.blocks|
  {
    fs.(blocks := fs.blocks[a := x])
  }

  /** A newly allocated block filling one empty slot, all other slots as before. */
  lemma OwnedAdd(fs: Fs, own: Owners, fs': Fs, s: Slot, b: nat)
    requires Owned(fs, own) && Sized(fs') && IsSlot(fs, s) && b < |fs.blocks| && !fs.bits[b]
    requires |fs'.inodes| == |fs.inodes| && fs'.nmeta == fs.nmeta && fs'.bits == fs.bits[b := true]
    requires Addr(fs, s) == 0 && Addr(fs', s) == b
    requires forall t :: IsSlot(fs, t) && t != s ==> Addr(fs', t) == Addr(fs, t)
    ensures Owned(fs', own[b := s])
  {
    hide Addr;
  }

  /** Filling an empty entry of addrs with a newly allocated block. */
  lemma LinkAddr(fs: Fs, own: Owners, n: nat, i: nat, b: nat)
    requires Owned(fs, own) && n < |fs.inodes| && i <= NDIRECT && fs.inodes[n].addrs[i] == 0
    requires b < |fs.blocks| && !fs.bits[b]
    ensures var s := if i < NDIRECT then Direct(n, i) else Ind(n);
      var fs' := SetAddr(Allocated(fs, b), n, i, b);
      && Owned(fs', own[b := s])
      && (forall t :: IsSlot(fs, t) && t != s ==> Addr(fs', t) == Addr(fs, t))
      && Addr(fs', s) == b
  {
    hide Word, ZeroBlock;
    ZeroWords();
    var s := if i < NDIRECT then Direct(n, i) else Ind(n);
    var fs' := SetAddr(Allocated(fs, b), n, i, b);
    forall t | IsSlot(fs, t) && t != s ensures Addr(fs', t) == Addr(fs, t) {
      if t.Entry? {
        var c := Addr(fs, Ind(t.n));
        if c != 0 { assert c in own && own[c] == Ind(t.n); }
      }
    }
    OwnedAdd(fs, own, fs', s, b);
  }

  /** Filling an empty entry of the indirect block. */
  lemma LinkEntry(fs: Fs, own: Owners, n: nat, j: nat, b: nat)
    requires Owned(fs, own) && n < |fs.inodes| && j < NINDIRECT
    requires Addr(fs, Ind(n)) != 0 && Addr(fs, Entry(n, j)) == 0 && b < |fs.blocks| && !fs.bits[b]
    ensures var a := Addr(fs, Ind(n));
      && a < |fs.blocks| && a != b
      && var fs' := SetBlock(Allocated(fs, b), a, SetWord(fs.blocks[a], j, b));
      && Owned(fs', own[b := Entry(n, j)])
      && (forall t :: IsSlot(fs, t) && t != Entry(n, j) ==> Addr(fs', t) == Addr(fs, t))
      && Addr(fs', Entry(n, j)) == b
  {
    hide Word, SetWord, ZeroBlock;
    var a, s := Addr(fs, Ind(n)), Entry(n, j);
    assert a in own && own[a] == Ind(n) && a != b;
    var fs' := SetBlock(Allocated(fs, b), a, SetWord(fs.blocks[a], j, b));
    WordRoundTrip(fs.blocks[a], j, b);
    forall t | IsSlot(fs, t) && t != s ensures Addr(fs', t) == Addr(fs, t) {
      if t.Entry? {
        var c := Addr(fs, Ind(t.n));
        if c != 0 { assert c in own && own[c] == Ind(t.n); }
      }
    }
    OwnedAdd(fs, own, fs', s, b);
  }

  /** Storing into a data block moves no block number. */
  lemma StoreData(fs: Fs, own: Owners, n: nat, bn: nat, x: Block)
    requires Owned(fs, own) && n < |fs.inodes| && bn < MAXFILE && Addr(fs, SlotOf(n, bn)) != 0
    ensures var a := Addr(fs, SlotOf(n, bn));
      && a < |fs.blocks|
      && var fs' := SetBlock(fs, a, x);
      && Owned(fs', own) && (forall t :: IsSlot(fs, t) ==> Addr(fs', t) == Addr(fs, t))
  {
    hide Word;
    var a := Addr(fs, SlotOf(n, bn));
    assert IsSlot(fs, SlotOf(n, bn)) && a in own && own[a] == SlotOf(n, bn);
    var fs' := SetBlock(fs, a, x);
    forall t | IsSlot(fs, t) ensures Addr(fs', t) == Addr(fs, t) {
      if t.Entry? {
        var c := Addr(fs, Ind(t.n));
        if c != 0 { assert c in own && own[c] == Ind(t.n); }
      }
    }
  }

  // ---------- file content ----------

  ghost predicate Holds(fs: Fs, n: nat, bn: nat) {
    Sized(fs) && n < |fs.inodes| && bn < MAXFILE && 0 < Addr(fs, SlotOf(n, bn)) < |fs.blocks|
  }

  /** Block bn of file n. */
  ghost function DataOf(fs: Fs, n: nat, bn: nat): Block
    requires Holds(fs, n, bn)
  {
    fs.blocks[Addr(fs, SlotOf(n, bn))]
  }

  /** Byte k of file n. */
  ghost function ByteAt(fs: Fs, n: nat, k: nat): nat
    requires Holds(fs, n, k / BSIZE)
  {
    DataOf(fs, n, k / BSIZE).b[k % BSIZE]
  }

  /** Every block below a file's size is there. */
  ghost predicate NoHoles(fs: Fs) {
    && Sized(fs)
    && (forall n :: 0 <= n < |fs.inodes| ==> fs.inodes[n].size <= MAXFILE * BSIZE)
    && (forall n, bn :: 0 <= n < |fs.inodes| && 0 <= bn < MAXFILE && bn * BSIZE < fs.inodes[n].size ==>
          Holds(fs, n, bn))
  }

  lemma ByteHeld(fs: Fs, n: nat, k: nat)
    requires NoHoles(fs) && n < |fs.inodes| && k < fs.inodes[n].size
    ensures Holds(fs, n, k / BSIZE)
  {
  }

  /** A file as the flat byte sequence that read() shows. */
  ghost function Content(fs: Fs, n: nat): (c: seq<nat>)
    requires NoHoles(fs) && n < |fs.inodes|
    ensures |c| == fs.inodes[n].size
    ensures forall k :: 0 <= k < |c| ==> Holds(fs, n, k / BSIZE) && c[k] == ByteAt(fs, n, k)
  {
    seq(fs.inodes[n].size, k requires 0 <= k < fs.inodes[n].size => ByteHeld(fs, n, k); ByteAt(fs, n, k))
  }

  /** No block that was there moved or changed, in any file. */
  ghost predicate KeepsData(fs: Fs, fs': Fs) {
    && Sized(fs) && Sized(fs') && |fs'.inodes| == |fs.inodes| && fs'.nmeta == fs.nmeta && |fs'.blocks| == |fs.blocks|
    && (forall n :: 0 <= n < |fs.inodes| ==> fs'.inodes[n].size == fs.inodes[n].size)
    && forall n, bn :: Holds(fs, n, bn) ==> Holds(fs', n, bn) && DataOf(fs', n, bn) == DataOf(fs, n, bn)
  }

  lemma KeepsDataTrans(fs: Fs, fs1: Fs, fs2: Fs)
    requires KeepsData(fs, fs1) && KeepsData(fs1, fs2)
    ensures KeepsData(fs, fs2)
  {
    hide Holds, DataOf;
  }

  lemma LinkAddrKeeps(fs: Fs, own: Owners, n: nat, i: nat, b: nat)
    requires Owned(fs, own) && n < |fs.inodes| && i <= NDIRECT && fs.inodes[n].addrs[i] == 0
    requires b < |fs.blocks| && !fs.bits[b]
    ensures KeepsData(fs, SetAddr(Allocated(fs, b), n, i, b))
  {
    hide ZeroBlock;
    LinkAddr(fs, own, n, i, b);
    var fs' := SetAddr(Allocated(fs, b), n, i, b);
    hide Addr;
    forall m, bn | Holds(fs, m, bn) ensures Holds(fs', m, bn) && DataOf(fs', m, bn) == DataOf(fs, m, bn) {
      assert IsSlot(fs, SlotOf(m, bn)) && Addr(fs, SlotOf(m, bn)) in own;
      assert SlotOf(m, bn) != (if i < NDIRECT then Direct(n, i) else Ind(n)) by { ZeroSlot(fs, n, i); }
    }
  }

  lemma ZeroSlot(fs: Fs, n: nat, i: nat)
    requires Sized(fs) && n < |fs.inodes| && i <= NDIRECT && fs.inodes[n].addrs[i] == 0
    ensures Addr(fs, if i < NDIRECT then Direct(n, i) else Ind(n)) == 0
  {
  }

  lemma LinkEntryKeeps(fs: Fs, own: Owners, n: nat, j: nat, b: nat)
    requires Owned(fs, own) && n < |fs.inodes| && j < NINDIRECT
    requires Addr(fs, Ind(n)) != 0 && Addr(fs, Entry(n, j)) == 0 && b < |fs.blocks| && !fs.bits[b]
    ensures var a := Addr(fs, Ind(n));
      a < |fs.blocks| && KeepsData(fs, SetBlock(Allocated(fs, b), a, SetWord(fs.blocks[a], j, b)))
  {
    hide ZeroBlock, SetWord, Addr;
    LinkEntry(fs, own, n, j, b);
    var a := Addr(fs, Ind(n));
    var fs' := SetBlock(Allocated(fs, b), a, SetWord(fs.blocks[a], j, b));
    assert a in own && own[a] == Ind(n);
    forall m, bn | Holds(fs, m, bn) ensures Holds(fs', m, bn) && DataOf(fs', m, bn) == DataOf(fs, m, bn) {
      assert IsSlot(fs, SlotOf(m, bn)) && Addr(fs, SlotOf(m, bn)) in own;
    }
  }
}
