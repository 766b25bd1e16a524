/** kernel/fs.c as code: block allocation, the block map, truncation, and byte-level reading
    and writing of files. */
module FsOps {
  import opened Common
  import opened FsBitmap
  import opened FsLayout
  import opened Params

  const IPB := 16          // BSIZE / sizeof(struct dinode)
  const CHUNK := (MAXOPBLOCKS - 1 - 1 - 2) / 2 * BSIZE   // filewrite's limit for one operation

  function Min(a: nat, b: nat): nat { if a < b then a else b }

  /** c with the bytes from off on replaced by d, grown if d reaches further. */
  ghost function Overwrite(c: seq<nat>, off: nat, d: seq<nat>): seq<nat>
    requires off <= |c|
  {
    c[..off] + d + if off + |d| < |c| then c[off + |d|..] else []
  }

  /** What was written is read back, and every other byte reads as before. */
  lemma OverwriteReads(c: seq<nat>, off: nat, d: seq<nat>)
    requires off <= |c|
    ensures var r := Overwrite(c, off, d);
      && |r| == (if off + |d| > |c| then off + |d| else |c|) && r[off..off + |d|] == d
      && forall k :: 0 <= k < |c| && !(off <= k < off + |d|) ==> r[k] == c[k]
  {
  }

  function Blank(): Inode { Inode(seq(NDIRECT + 1, _ => 0), 0) }

  /** Every block number of inode n is gone, and the blocks it owned are free. */
  ghost predicate Truncated(fs: Fs, own: Owners, n: nat, fs': Fs, own': Owners) {
    && n < |fs.inodes| && |fs'.bits| == |fs.bits|
    && fs'.inodes == fs.inodes[n := Blank()]
    && fs'.nmeta == fs.nmeta && fs'.blocks == fs.blocks
    && (forall b :: b in own' <==> b in own && own[b].n != n)
    && (forall b :: b in own' ==> own'[b] == own[b])
    && forall b :: 0 <= b < |fs.bits| ==> (fs'.bits[b] <==> fs.bits[b] && !(b in own && own[b].n == n))
  }

  lemma TruncatedOwned(fs: Fs, own: Owners, n: nat, fs': Fs, own': Owners)
    requires Owned(fs, own) && Truncated(fs, own, n, fs', own')
    ensures Owned(fs', own')
  {
    hide Word;
    forall s | IsSlot(fs', s) && Addr(fs', s) != 0 ensures Addr(fs', s) in own' && own'[Addr(fs', s)] == s {
      assert s.n != n ==> Addr(fs', s) == Addr(fs, s);
    }
    forall b | b in own' ensures Addr(fs', own'[b]) == b {
      assert Addr(fs', own[b]) == Addr(fs, own[b]);
    }
  }

  // ---------- what an operation logs ----------

  /** Bitmap blocks for n bits. */
  function BitmapBlocks(n: nat): nat { (n + BPB - 1) / BPB }

  /** Blocks that the bytes off..off + len of a file lie in. */
  function Chunks(off: nat, len: nat): nat {
    if len == 0 then 0 else (off + len - 1) / BSIZE - off / BSIZE + 1
  }

  /** How many of the first `it` of them can have needed a block: when the write starts inside a
      block, that block is there. */
  function Allocs(off: nat, it: nat): nat {
    if it > 0 && off % BSIZE != 0 then it - 1 else it
  }

  /** The arithmetic behind filewrite()'s limit: data blocks, a bitmap block for each new one and
      for the indirect block, the indirect block and the inode's. */
  lemma ChunkFits(off: nat, len: nat, size: nat)
    requires len <= CHUNK
    ensures Allocs(off, Chunks(off, len)) + Chunks(off, len) + 2 * Extra(size, off, len) + 1 <= MAXOPBLOCKS
  {
  }

  lemma BitmapBlock(b: nat, n: nat)
    requires b < n
    ensures b / BPB < BitmapBlocks(n)
  {
  }

  /** Whatever differs lies in a block that was logged: in a bitmap block, a data or indirect
      block, or an inode block. */
  ghost predicate Logged(fs: Fs, bm: Bitmap, fs': Fs, bm': Bitmap, marked: set<nat>, written: set<nat>,
                         inodes: set<nat>) {
    && fs'.nmeta == fs.nmeta && |fs'.bits| == |fs.bits| && |fs'.blocks| == |fs.blocks|
    && |fs'.inodes| == |fs.inodes| && |bm'| == |bm|
    && (forall i :: 0 <= i < |bm| && i !in marked ==> bm'[i] == bm[i])
    && (forall b :: 0 <= b < |fs.blocks| && b !in written ==> fs'.blocks[b] == fs.blocks[b])
    && (forall n :: 0 <= n < |fs.inodes| && n / IPB !in inodes ==> fs'.inodes[n] == fs.inodes[n])
  }

  lemma LoggedMore(fs: Fs, bm: Bitmap, fs': Fs, bm': Bitmap, marked: set<nat>, written: set<nat>, inodes: set<nat>,
                   marked': set<nat>, written': set<nat>, inodes': set<nat>)
    requires Logged(fs, bm, fs', bm', marked, written, inodes)
    requires marked <= marked' && written <= written' && inodes <= inodes'
    ensures Logged(fs, bm, fs', bm', marked', written', inodes')
  {
  }

  lemma AllocLogged(fs0: Fs, bm0: Bitmap, fs: Fs, bm: Bitmap, marked: set<nat>, written: set<nat>, inodes: set<nat>,
                    r: nat)
    requires Logged(fs0, bm0, fs, bm, marked, written, inodes) && Sized(fs) && r < |fs.bits|
    requires r < |bm| * BPB && Reaches(bm, r)
    ensures Logged(fs0, bm0, Allocated(fs, r), SetBit(bm, r), marked + {r / BPB}, written + {r}, inodes)
  {
    hide ZeroBlock, With;
  }

  lemma FreeLogged(fs0: Fs, bm0: Bitmap, fs: Fs, bm: Bitmap, marked: set<nat>, written: set<nat>, inodes: set<nat>,
                   b: nat)
    requires Logged(fs0, bm0, fs, bm, marked, written, inodes) && b < |fs.bits|
    requires b < |bm| * BPB && Reaches(bm, b)
    ensures Logged(fs0, bm0, fs.(bits := fs.bits[b := false]), ClearBit(bm, b), marked + {b / BPB}, written, inodes)
  {
    hide Without;
  }

  lemma AddrLogged(fs0: Fs, bm0: Bitmap, fs: Fs, bm: Bitmap, marked: set<nat>, written: set<nat>, inodes: set<nat>,
                   n: nat, i: nat, b: nat)
    requires Logged(fs0, bm0, fs, bm, marked, written, inodes) && n / IPB in inodes
    requires n < |fs.inodes| && i < |fs.inodes[n].addrs|
    ensures Logged(fs0, bm0, SetAddr(fs, n, i, b), bm, marked, written, inodes)
  {
  }

  lemma BlockLogged(fs0: Fs, bm0: Bitmap, fs: Fs, bm: Bitmap, marked: set<nat>, written: set<nat>, inodes: set<nat>,
                    a: nat, x: Block)
    requires Logged(fs0, bm0, fs, bm, marked, written, inodes) && a < |fs.blocks|
    ensures Logged(fs0, bm0, SetBlock(fs, a, x), bm, marked, written + {a}, inodes)
  {
  }

  /** A block whose bit has changed is in a bitmap block that was logged. */
  lemma MarkedBlock(fs: Fs, bm: Bitmap, fs': Fs, bm': Bitmap, marked: set<nat>, written: set<nat>, inodes: set<nat>,
                    b: nat)
    requires Logged(fs, bm, fs', bm', marked, written, inodes) && Mirrors(bm, fs.bits) && Mirrors(bm', fs'.bits)
    requires b < |fs.bits| && fs'.bits[b] != fs.bits[b]
    ensures b / BPB in marked
  {
    hide Test;
    assert Bit(bm', b) != Bit(bm, b);
  }

  ghost function IndSet(fs: Fs, n: nat): set<nat>
    requires Sized(fs) && n < |fs.inodes|
  {
    if Addr(fs, Ind(n)) == 0 then {} else {Addr(fs, Ind(n))}
  }

  /** The indirect block, for a write that may have to change it. */
  ghost function Inds(fs: Fs, n: nat, far: bool): set<nat>
    requires Sized(fs) && n < |fs.inodes|
  {
    if far then IndSet(fs, n) else {}
  }

  /** A write that goes beyond the direct blocks and beyond the end of the file. */
  predicate Far(size: nat, off: nat, len: nat) { off + len > NDIRECT * BSIZE && off + len > size }

  /** What it may log besides: the indirect block, and a bitmap block for it. */
  function Extra(size: nat, off: nat, len: nat): nat { if Far(size, off, len) then 1 else 0 }

  /** No block number that was there has changed, and nothing of an inode other than n. */
  ghost predicate SameAddrs(fs: Fs, fs': Fs, n: nat) {
    && Sized(fs) && Sized(fs') && |fs'.bits| == |fs.bits| && |fs'.inodes| == |fs.inodes|
    && (forall m :: 0 <= m < |fs.inodes| && m != n ==> fs'.inodes[m] == fs.inodes[m])
    && forall s :: IsSlot(fs, s) && (Addr(fs, s) != 0 || s.n != n) ==> Addr(fs', s) == Addr(fs, s)
  }

  // ---------- how many blocks a write takes ----------

  ghost function FreeBlocks(fs: Fs): set<nat> { set b: nat | b < |fs.bits| && !fs.bits[b] }

  /** Those of the c blocks of file n from block b on that are not there yet. */
  ghost function Missing(fs: Fs, n: nat, b: nat, c: nat): set<nat> {
    set bn: nat | b <= bn < b + c && !Holds(fs, n, bn)
  }

  /** What it takes to have them all: a block for each, and one for the indirect block. */
  ghost function Need(fs: Fs, n: nat, b: nat, c: nat): nat
    requires Sized(fs) && n < |fs.inodes|
  {
    |Missing(fs, n, b, c)| + if c > 0 && b + c > NDIRECT && Addr(fs, Ind(n)) == 0 then 1 else 0
  }

  /** The disk has the blocks that len bytes of file n from off on need. */
  ghost predicate Room(fs: Fs, n: nat, off: nat, len: nat)
    requires Sized(fs) && n < |fs.inodes|
  {
    Need(fs, n, off / BSIZE, Chunks(off, len)) <= |FreeBlocks(fs)|
  }

  lemma NoneFree(fs: Fs)
    ensures |FreeBlocks(fs)| == 0 <==> forall b :: 0 <= b < |fs.bits| ==> fs.bits[b]
  {
    if |FreeBlocks(fs)| == 0 {
      forall b | 0 <= b < |fs.bits| ensures fs.bits[b] {
        assert b !in FreeBlocks(fs);
      }
    }
  }

  lemma OneTaken(fs: Fs, fs': Fs, b: nat)
    requires b < |fs.bits| && !fs.bits[b] && fs'.bits == fs.bits[b := true]
    ensures |FreeBlocks(fs)| == |FreeBlocks(fs')| + 1
  {
    assert FreeBlocks(fs) == FreeBlocks(fs') + {b};
  }

  lemma MissingNext(fs: Fs, n: nat, b: nat, c: nat)
    ensures |Missing(fs, n, b, c + 1)| == |Missing(fs, n, b, c)| + if Holds(fs, n, b + c) then 0 else 1
    ensures |Missing(fs, n, b, 0)| == 0
  {
    hide Holds;
    assert Missing(fs, n, b, 0) == {};
    assert Missing(fs, n, b, c + 1) == Missing(fs, n, b, c) + if Holds(fs, n, b + c) then {} else {b + c};
  }

  lemma {:induction false} NeedGrows(fs: Fs, n: nat, b: nat, c: nat, c': nat)
    requires Sized(fs) && n < |fs.inodes| && c <= c'
    ensures Need(fs, n, b, c) <= Need(fs, n, b, c')
  {
    hide Holds, Addr;
    SubsetSize(Missing(fs, n, b, c), Missing(fs, n, b, c'));
  }

  /** Of two lengths the longer needs no less room. */
  lemma RoomForLess(fs: Fs, n: nat, off: nat, k: nat, len: nat)
    requires Sized(fs) && n < |fs.inodes| && k <= len && Room(fs, n, off, len)
    ensures Room(fs, n, off, k)
  {
    hide Need, FreeBlocks;
    assert k > 0 ==> (off + k - 1) / BSIZE <= (off + len - 1) / BSIZE;
    NeedGrows(fs, n, off / BSIZE, Chunks(off, k), Chunks(off, len));
  }

  /** What a bmap of block bn has done that returned addr. */
  ghost predicate Mapped(fs: Fs, fs': Fs, n: nat, bn: nat, addr: nat) {
    && Sized(fs) && Sized(fs') && n < |fs.inodes| && n < |fs'.inodes|
    && (addr == 0 <==> |FreeBlocks(fs)| < Need(fs, n, bn, 1))
    && (addr != 0 ==> |FreeBlocks(fs')| + Need(fs, n, bn, 1) == |FreeBlocks(fs)|)
    && (addr != 0 ==> (Addr(fs', Ind(n)) == 0 <==> Addr(fs, Ind(n)) == 0 && bn < NDIRECT))
    && forall c: nat :: c < MAXFILE && c != bn ==> (Holds(fs', n, c) <==> Holds(fs, n, c))
  }

  lemma NeedOne(fs: Fs, own: Owners, n: nat, bn: nat)
    requires Owned(fs, own) && n < |fs.inodes| && bn < MAXFILE
    ensures Sized(fs) && IsSlot(fs, SlotOf(n, bn)) && IsSlot(fs, Ind(n))
    ensures Need(fs, n, bn, 1) ==
      (if Addr(fs, SlotOf(n, bn)) == 0 then 1 else 0) + if bn >= NDIRECT && Addr(fs, Ind(n)) == 0 then 1 else 0
    ensures forall c: nat :: c < MAXFILE ==>
      IsSlot(fs, SlotOf(n, c)) && (Holds(fs, n, c) <==> Addr(fs, SlotOf(n, c)) != 0)
  {
    MissingNext(fs, n, bn, 0);
    forall c: nat | c < MAXFILE
      ensures IsSlot(fs, SlotOf(n, c)) && (Holds(fs, n, c) <==> Addr(fs, SlotOf(n, c)) != 0)
    {
      Refl(fs, own, n, c);
    }
  }

  /** Only slot s of file n can have changed. */
  ghost predicate OnlySlot(fs: Fs, fs': Fs, s: Slot) {
    && Sized(fs) && Sized(fs') && |fs.inodes| == |fs'.inodes|
    && forall t :: IsSlot(fs, t) && t != s ==> Addr(fs', t) == Addr(fs, t)
  }

  /** No slot but that of block bn was empty and had to be filled. */
  lemma MappedOne(fs: Fs, own: Owners, fs': Fs, own': Owners, n: nat, bn: nat, addr: nat)
    requires Owned(fs, own) && Owned(fs', own') && n < |fs.inodes| && bn < MAXFILE
    requires OnlySlot(fs, fs', SlotOf(n, bn)) && (bn >= NDIRECT ==> Addr(fs, Ind(n)) != 0)
    requires addr == 0 <==> Addr(fs, SlotOf(n, bn)) == 0 && |FreeBlocks(fs)| == 0
    requires addr != 0 ==> |FreeBlocks(fs)| == |FreeBlocks(fs')| + if Addr(fs, SlotOf(n, bn)) == 0 then 1 else 0
    ensures Mapped(fs, fs', n, bn, addr)
  {
    hide Addr, Need, FreeBlocks, Holds, Owned;
    NeedOne(fs, own, n, bn);
    NeedOne(fs', own', n, bn);
  }

  /** The indirect block had to be made first. */
  lemma MappedTwo(fs: Fs, own: Owners, fs1: Fs, own1: Owners, fs': Fs, own': Owners, n: nat, bn: nat, addr: nat)
    requires Owned(fs, own) && Owned(fs1, own1) && Owned(fs', own') && n < |fs.inodes| && NDIRECT <= bn < MAXFILE
    requires Addr(fs, Ind(n)) == 0 && OnlySlot(fs, fs1, Ind(n)) && |FreeBlocks(fs)| == |FreeBlocks(fs1)| + 1
    requires Addr(fs1, Ind(n)) != 0 && Mapped(fs1, fs', n, bn, addr)
    ensures Mapped(fs, fs', n, bn, addr)
  {
    hide Addr, Need, FreeBlocks, Holds, Owned;
    NeedOne(fs, own, n, bn);
    NeedOne(fs1, own1, n, bn);
    EntryOfNone(fs, n, bn);
  }

  lemma EntryOfNone(fs: Fs, n: nat, bn: nat)
    requires Sized(fs) && n < |fs.inodes| && NDIRECT <= bn < MAXFILE && Addr(fs, Ind(n)) == 0
    ensures Addr(fs, SlotOf(n, bn)) == 0
  {
  }

  lemma MappedNone(fs: Fs, own: Owners, n: nat, bn: nat)
    requires Owned(fs, own) && n < |fs.inodes| && NDIRECT <= bn < MAXFILE
    requires Addr(fs, Ind(n)) == 0 && |FreeBlocks(fs)| == 0
    ensures Mapped(fs, fs, n, bn, 0)
  {
    NeedOne(fs, own, n, bn);
  }

  /** After the first `it` of the blocks from b on have been mapped. */
  ghost predicate Took(fs: Fs, fs': Fs, n: nat, b: nat, it: nat) {
    && Sized(fs) && Sized(fs') && n < |fs.inodes| && n < |fs'.inodes|
    && |FreeBlocks(fs')| + Need(fs, n, b, it) == |FreeBlocks(fs)|
    && (Addr(fs', Ind(n)) == 0 <==> Addr(fs, Ind(n)) == 0 && !(it > 0 && b + it > NDIRECT))
    && forall c: nat :: c < MAXFILE && !(b <= c < b + it) ==> (Holds(fs', n, c) <==> Holds(fs, n, c))
  }

  lemma TookNone(fs: Fs, n: nat, b: nat)
    requires Sized(fs) && n < |fs.inodes|
    ensures Took(fs, fs, n, b, 0)
  {
    MissingNext(fs, n, b, 0);
  }

  lemma TookNext(fs: Fs, fs1: Fs, fs2: Fs, n: nat, b: nat, it: nat, addr: nat)
    requires Took(fs, fs1, n, b, it) && Mapped(fs1, fs2, n, b + it, addr) && b + it < MAXFILE
    ensures addr != 0 ==> Took(fs, fs2, n, b, it + 1)
    ensures addr == 0 ==> Need(fs, n, b, it + 1) > |FreeBlocks(fs)|
  {
    hide Addr, Holds, FreeBlocks, Missing;
    MissingNext(fs, n, b, it);
    MissingNext(fs1, n, b + it, 0);
    assert Holds(fs1, n, b + it) <==> Holds(fs, n, b + it);
  }

  lemma TookSized(fs: Fs, fs': Fs, n: nat, b: nat, it: nat)
    requires Took(fs, fs', n, b, it)
    ensures Sized(fs) && n < |fs.inodes|
  {
  }

  /** Only the content of blocks can have changed, not which are whose. */
  ghost predicate SameSlots(fs: Fs, fs': Fs) {
    && Sized(fs) && Sized(fs') && |fs'.inodes| == |fs.inodes| && fs'.bits == fs.bits
    && forall t :: IsSlot(fs, t) ==> Addr(fs', t) == Addr(fs, t)
  }

  lemma TookStored(fs: Fs, fs1: Fs, fs2: Fs, n: nat, b: nat, it: nat)
    requires Took(fs, fs1, n, b, it) && SameSlots(fs1, fs2)
    ensures Took(fs, fs2, n, b, it)
  {
    hide Addr, Need;
    assert FreeBlocks(fs2) == FreeBlocks(fs1);
    assert IsSlot(fs1, Ind(n));
    forall c: nat | c < MAXFILE ensures Holds(fs2, n, c) <==> Holds(fs1, n, c) {
      assert IsSlot(fs1, SlotOf(n, c));
    }
  }

  /** How long a write came out: as long as the disk had room for it. */
  ghost predicate AsRoomAllows(fs: Fs, fs': Fs, n: nat, off: nat, len: nat, tot: nat)
    requires Sized(fs) && n < |fs.inodes|
  {
    && Room(fs, n, off, tot) && (tot < len ==> !Room(fs, n, off, tot + 1))
    && (tot == len ==> |FreeBlocks(fs')| + Need(fs, n, off / BSIZE, Chunks(off, len)) == |FreeBlocks(fs)|)
  }

  lemma NoChunks(off: nat)
    ensures Chunks(off, 0) == 0
  {
  }

  lemma RoomForAll(fs: Fs, fs': Fs, n: nat, off: nat, len: nat)
    requires Took(fs, fs', n, off / BSIZE, Chunks(off, len))
    ensures AsRoomAllows(fs, fs', n, off, len, len)
  {
  }

  lemma SameRoom(fs: Fs, fs1: Fs, fs2: Fs, n: nat, off: nat, len: nat, tot: nat)
    requires Sized(fs) && n < |fs.inodes| && AsRoomAllows(fs, fs1, n, off, len, tot) && fs2.bits == fs1.bits
    ensures AsRoomAllows(fs, fs2, n, off, len, tot)
  {
    assert FreeBlocks(fs2) == FreeBlocks(fs1);
  }

  lemma RoomRunsOut(fs: Fs, fs1: Fs, fs': Fs, n: nat, off: nat, len: nat, tot: nat, it: nat)
    requires Took(fs, fs1, n, off / BSIZE, it) && it == Chunks(off, tot) && tot < len
    requires Chunks(off, tot + 1) == it + 1 && Need(fs, n, off / BSIZE, it + 1) > |FreeBlocks(fs)|
    ensures AsRoomAllows(fs, fs', n, off, len, tot)
  {
  }

  const DIRENT := 16   // sizeof(struct dirent)

  /** Every file outside `s` is as it was. */
  ghost predicate SameFiles(fs: Fs, fs': Fs, s: set<nat>)
    requires NoHoles(fs) && NoHoles(fs')
  {
    && |fs'.inodes| == |fs.inodes|
    && forall m: nat :: m < |fs.inodes| && m !in s ==>
         Content(fs', m) == Content(fs, m) && fs'.inodes[m] == fs.inodes[m]
  }

  lemma SameFilesSelf(fs: Fs, s: set<nat>)
    requires NoHoles(fs)
    ensures SameFiles(fs, fs, s)
  {
  }

  lemma SameFilesThen(fs: Fs, fs1: Fs, fs2: Fs, s: set<nat>, t: set<nat>, u: set<nat>)
    requires NoHoles(fs) && NoHoles(fs1) && NoHoles(fs2) && s <= u && t <= u
    requires SameFiles(fs, fs1, s) && SameFiles(fs1, fs2, t)
    ensures SameFiles(fs, fs2, u)
  {
    hide Content, NoHoles;
  }

  lemma SameFileAt(fs: Fs, fs': Fs, s: set<nat>, m: nat)
    requires NoHoles(fs) && NoHoles(fs') && SameFiles(fs, fs', s) && m < |fs.inodes| && m !in s
    ensures |fs'.inodes| == |fs.inodes| && Content(fs', m) == Content(fs, m) && fs'.inodes[m] == fs.inodes[m]
  {
  }

  /** What sys_unlink writes over an entry. */
  function NoEntry(): (de: seq<nat>)
    ensures |de| == DIRENT
  {
    seq(DIRENT, _ => 0)
  }

  /** Byte off of directory d begins an entry, or is its end. */
  ghost predicate InDir(fs: Fs, d: nat, off: nat) {
    d < |fs.inodes| && off % DIRENT == 0 && off <= fs.inodes[d].size
  }

  /** An entry lies in one block. */
  lemma OneChunk(fs: Fs, d: nat, off: nat)
    requires NoHoles(fs) && InDir(fs, d, off)
    ensures Chunks(off, DIRENT) == 1 && off <= fs.inodes[d].size <= MAXFILE * BSIZE
  {
    assert off == off / BSIZE * BSIZE + off % BSIZE && off % BSIZE % DIRENT == 0;
  }

  /** A directory entry at byte off of d can be written, when `more` blocks are wanted besides:
      the file does not become too long, and the disk has the blocks. */
  ghost predicate CanGrow(fs: Fs, d: nat, off: nat, more: nat)
    requires Sized(fs) && d < |fs.inodes|
  {
    off + DIRENT <= MAXFILE * BSIZE && more + Need(fs, d, off / BSIZE, 1) <= |FreeBlocks(fs)|
  }

  lemma EntryRoom(fs: Fs, fs': Fs, d: nat, off: nat, r: int)
    requires NoHoles(fs) && InDir(fs, d, off)
    requires r == -1 <==> off > fs.inodes[d].size || off + DIRENT > MAXFILE * BSIZE
    requires r == -1 || r == 0 || r == DIRENT
    requires r != -1 ==> AsRoomAllows(fs, fs', d, off, DIRENT, r)
    ensures r == DIRENT <==> CanGrow(fs, d, off, 0)
    ensures r == DIRENT ==> |FreeBlocks(fs')| + Need(fs, d, off / BSIZE, 1) == |FreeBlocks(fs)|
  {
    hide Need, FreeBlocks;
    OneChunk(fs, d, off);
    assert Chunks(off, 1) == 1;
  }

  lemma OverwriteNone(c: seq<nat>, off: nat)
    requires off <= |c|
    ensures Overwrite(c, off, []) == c
  {
  }

  lemma UnionSize(a: set<nat>, b: set<nat>)
    ensures |a + b| <= |a| + |b|
  {
  }

  /** What a change of file n leaves of who owns what. */
  lemma KeepOwners(fs: Fs, own: Owners, fs': Fs, own': Owners, n: nat)
    requires Owned(fs, own) && Owned(fs', own') && SameAddrs(fs, fs', n)
    ensures forall b :: b in own ==> b in own' && own'[b] == own[b]
    ensures forall b :: b in own' && own'[b].n != n ==> b in own && own[b] == own'[b]
    ensures forall m: nat :: m != n ==> FileBitmap(own', m) == FileBitmap(own, m)
  {
    hide Addr;
    forall b | b in own ensures b in own' && own'[b] == own[b] {
      assert IsSlot(fs, own[b]) && Addr(fs', own[b]) == b;
    }
    forall b | b in own' && own'[b].n != n ensures b in own && own[b] == own'[b] {
      assert IsSlot(fs, own'[b]) && Addr(fs, own'[b]) == b;
    }
  }

  /** The first block of an empty file is missing, that of any other is there. */
  lemma BlankNeeds(fs: Fs, i: nat)
    requires NoHoles(fs) && i < |fs.inodes| && fs.inodes[i] == Blank()
    ensures Need(fs, i, 0, 1) == 1
  {
    MissingNext(fs, i, 0, 0);
    assert Addr(fs, SlotOf(i, 0)) == 0;
  }

  /** What another file needs does not change. */
  lemma SameNeed(fs: Fs, fs': Fs, i: nat, d: nat, b: nat)
    requires SameAddrs(fs, fs', i) && d < |fs.inodes| && d < |fs'.inodes| && i != d
    ensures Need(fs', d, b, 1) == Need(fs, d, b, 1)
  {
    hide Addr;
    MissingNext(fs, d, b, 0);
    MissingNext(fs', d, b, 0);
    assert IsSlot(fs, Ind(d));
    assert b < MAXFILE ==> IsSlot(fs, SlotOf(d, b)) && Addr(fs', SlotOf(d, b)) == Addr(fs, SlotOf(d, b));
  }

  lemma HeldNeeds(fs: Fs, i: nat)
    requires NoHoles(fs) && i < |fs.inodes| && fs.inodes[i].size > 0
    ensures Need(fs, i, 0, 1) == 0
  {
    MissingNext(fs, i, 0, 0);
    assert Holds(fs, i, 0);
  }

  lemma BlankIsEmpty(fs: Fs, i: nat)
    requires NoHoles(fs) && i < |fs.inodes| && fs.inodes[i] == Blank()
    ensures fs.inodes[i].size == 0 && Content(fs, i) == []
  {
  }

  /** The blocks that an empty inode has come to own since begin_op are in marked bitmap blocks. */
  lemma NewIsMarked(fs: Fs, bm: Bitmap, own: Owners, fs': Fs, bm': Bitmap, own': Owners, marked: set<nat>,
                    written: set<nat>, inodes: set<nat>, i: nat)
    requires Owned(fs, own) && Owned(fs', own') && Mirrors(bm, fs.bits) && Mirrors(bm', fs'.bits)
    requires Logged(fs, bm, fs', bm', marked, written, inodes) && i < |fs.inodes| && fs.inodes[i] == Blank()
    requires forall b :: b in own ==> b in own' && own'[b] == own[b]
    ensures FileBitmap(own', i) <= marked
  {
    hide Mirrors, Logged, Word;
    forall b | b in own' && own'[b].n == i ensures b / BPB in marked {
      assert b !in own by { BlankOwnsNone(fs, own, i, b); }
      LoggedSizes(fs, bm, fs', bm', marked, written, inodes);
      MarkedBlock(fs, bm, fs', bm', marked, written, inodes, b);
    }
  }

  lemma BlankOwnsNone(fs: Fs, own: Owners, i: nat, b: nat)
    requires Owned(fs, own) && i < |fs.inodes| && fs.inodes[i] == Blank()
    ensures !(b in own && own[b].n == i)
  {
    hide Word;
  }

  lemma LoggedSizes(fs: Fs, bm: Bitmap, fs': Fs, bm': Bitmap, marked: set<nat>, written: set<nat>, inodes: set<nat>)
    requires Logged(fs, bm, fs', bm', marked, written, inodes)
    ensures fs'.nmeta == fs.nmeta && |fs'.bits| == |fs.bits| && |fs'.inodes| == |fs.inodes|
  {
  }

  class FileSystem {
    var fs: Fs
    var bitmap: Bitmap            // its bytes; fs.bits is what they say
    ghost var own: Owners
    ghost var marked: set<nat>    // bitmap blocks passed to log_write
    ghost var written: set<nat>   // data and indirect blocks passed to log_write
    ghost var inodes: set<nat>    // inode blocks passed to log_write
    ghost var fs0: Fs             // the disk at begin_op
    ghost var bitmap0: Bitmap

    ghost predicate Marked()
      reads `fs, `bitmap
    {
      Mirrors(bitmap, fs.bits)
    }

    /** The marked bitmap blocks exist. */
    ghost predicate InBitmap()
      reads `fs, `marked
    {
      forall i :: i in marked ==> i < BitmapBlocks(|fs.bits|)
    }

    /** Since begin_op, only logged blocks have changed, and the inode blocks `late`, whose
        iupdate is still to come. */
    ghost predicate Journaled(late: set<nat>)
      reads `fs, `bitmap, `marked, `written, `inodes, `fs0, `bitmap0
    {
      InBitmap() && Logged(fs0, bitmap0, fs, bitmap, marked, written, inodes + late)
    }

    lemma StillJournaled(late: set<nat>, late': set<nat>)
      requires Journaled(late) && late <= inodes + late'
      ensures Journaled(late')
    {
      LoggedMore(fs0, bitmap0, fs, bitmap, marked, written, inodes + late, marked, written, inodes + late');
    }

    ghost predicate Valid()
      reads `fs, `bitmap, `own, `marked, `written, `inodes, `fs0, `bitmap0
    {
      Owned(fs, own) && NoHoles(fs) && Marked() && Journaled({})
    }

    /** A disk with `nmeta` blocks of metadata and nothing else: mkfs's before it adds the root
        directory and the files. */
    constructor (nmeta: nat, nblocks: nat, ninodes: nat)
      requires 0 < nmeta <= nblocks < 0x1_0000_0000
      ensures Valid() && fs.nmeta == nmeta && |fs.bits| == nblocks && |fs.inodes| == ninodes && own == map[]
      ensures forall n :: 0 <= n < ninodes ==> Content(fs, n) == []
      ensures fs == Empty(nmeta, nblocks, ninodes) && fs0 == fs && bitmap0 == bitmap
    {
      fs := Empty(nmeta, nblocks, ninodes);
      own, marked, written, inodes := map[], {}, {}, {};
      new;
      hide Mirrors, Owned, NoHoles;
      EmptyOwned(nmeta, nblocks, ninodes);
      bitmap := FirstBitmap(nmeta, nblocks);
      fs0, bitmap0 := fs, bitmap;
    }

    /** balloc(): the first free block, marked and zeroed, or 0 when there is none. */
    method Balloc() returns (r: nat)
      requires Sized(fs) && Marked() && InBitmap() && forall b :: 0 <= b < fs.nmeta ==> fs.bits[b]
      modifies `fs, `bitmap, `marked, `written
      ensures Marked() && InBitmap()
      ensures r == 0 ==> marked == old(marked) && written == old(written)
      ensures r != 0 ==> marked == old(marked) + {r / BPB} && written == old(written) + {r}
      ensures r == 0 ==> fs == old(fs) && forall b :: 0 <= b < |fs.bits| ==> fs.bits[b]
      ensures r != 0 ==> Sized(old(fs)) && r < |old(fs).bits| && !old(fs).bits[r] && fs == Allocated(old(fs), r)
      ensures r != 0 ==> forall b :: 0 <= b < r ==> old(fs).bits[b]
      ensures r == 0 ==> bitmap == old(bitmap)
      ensures r != 0 ==> r < |old(bitmap)| * BPB && Reaches(old(bitmap), r) && bitmap == SetBit(old(bitmap), r)
    {
      hide Mirrors, Bit, SetBit, BitmapBlocks, Reaches, ZeroBlock;
      var b := 0;
      var size := |fs.bits|;
      while b < size
        invariant fs == old(fs) && bitmap == old(bitmap) && marked == old(marked) && written == old(written)
        invariant forall c :: 0 <= c < b && c < size ==> fs.bits[c]
      {
        var bi := 0;
        while bi < BPB && b + bi < size
          invariant 0 <= bi <= BPB && fs == old(fs) && bitmap == old(bitmap) && marked == old(marked)
          invariant written == old(written)
          invariant forall c :: 0 <= c < b + bi && c < size ==> fs.bits[c]
        {
          BitIs(b + bi);
          if !Bit(bitmap, b + bi) {
            Mirrored(bitmap, fs.bits, b + bi);
            BitmapBlock(b + bi, size);
            bitmap := SetBit(bitmap, b + bi);
            marked := marked + {(b + bi) / BPB};
            fs := fs.(bits := fs.bits[b + bi := true]);
            fs := fs.(blocks := fs.blocks[b + bi := ZeroBlock()]);  // bzero
            written := written + {b + bi};
            return b + bi;
          }
          bi := bi + 1;
        }
        b := b + BPB;
      }
      r := 0;
    }

    lemma BitIs(b: nat)
      requires Marked() && b < |fs.bits|
      ensures Reaches(bitmap, b) && b < |bitmap| * BPB && (Bit(bitmap, b) <==> fs.bits[b])
    {
    }

    /** bfree(): callers never free a free block, which would panic. */
    method Bfree(b: nat)
      requires Marked() && InBitmap() && b < |fs.bits| && fs.bits[b]
      modifies `fs, `bitmap, `marked
      ensures Marked() && InBitmap() && marked == old(marked) + {b / BPB}
      ensures fs == old(fs).(bits := old(fs).bits[b := false])
      ensures b < |old(bitmap)| * BPB && Reaches(old(bitmap), b) && bitmap == ClearBit(old(bitmap), b)
    {
      BitIs(b);
      assert Bit(bitmap, b);
      Mirrored(bitmap, fs.bits, b);
      BitmapBlock(b, |fs.bits|);
      bitmap := ClearBit(bitmap, b);
      marked := marked + {b / BPB};
      fs := fs.(bits := fs.bits[b := false]);
    }

    /** bmap(): the block of file n that holds block bn, allocated if need be, 0 when the
        disk is full. Nothing already in a file moves or changes. */
    method Bmap(n: nat, bn: nat) returns (addr: nat)
      requires Owned(fs, own) && Marked() && Journaled({n / IPB}) && n < |fs.inodes| && bn < MAXFILE
      modifies `fs, `bitmap, `own, `marked, `written
      ensures Owned(fs, own) && Marked() && Journaled({n / IPB})
      ensures KeepsData(old(fs), fs) && SameAddrs(old(fs), fs, n)
      ensures old(marked) <= marked && old(written) <= written
      ensures |marked| - |old(marked)| <= NewBlocks(old(fs), fs, n, addr)
      ensures |fs.inodes| == |old(fs).inodes|
      ensures bn < NDIRECT ==> Addr(fs, Ind(n)) == Addr(old(fs), Ind(n))
      ensures written <= old(written) + Inds(fs, n, bn >= NDIRECT) + if addr == 0 then {} else {addr}
      ensures addr != 0 ==> Holds(fs, n, bn) && Addr(fs, SlotOf(n, bn)) == addr
      ensures Holds(old(fs), n, bn) ==> addr != 0 && fs == old(fs) && own == old(own)
      ensures Holds(old(fs), n, bn) ==> bitmap == old(bitmap) && marked == old(marked) && written == old(written)
      ensures addr == 0 ==> forall b :: 0 <= b < |fs.bits| ==> fs.bits[b]
      ensures addr == 0 && bn < NDIRECT ==> fs == old(fs)
      ensures Mapped(old(fs), fs, n, bn, addr)
    {
      hide Word, SetWord, ZeroBlock, Allocated, KeepsData, SameAddrs, Owned, Mirrors, BitmapBlocks, Logged, FreeBlocks,
        OnlySlot, Mapped, Need;
      Refl(fs, own, n, bn);
      if bn < NDIRECT {
        addr := fs.inodes[n].addrs[bn];
        if addr == 0 {
          addr := MapAddr(n, bn);
        }
        Refl(fs, own, n, bn);
        MappedOne(old(fs), old(own), fs, own, n, bn, addr);
        return;
      }
      var j := bn - NDIRECT;
      var ind := fs.inodes[n].addrs[NDIRECT];
      if ind == 0 {
        ind := MapAddr(n, NDIRECT);
        if ind == 0 {
          MappedNone(fs, own, n, bn);
          return 0;
        }
      }
      ghost var fs1, own1 := fs, own;
      addr := MapEntry(n, j, ind);
      SameTwice(old(fs), fs1, fs, n);
      MappedOne(fs1, own1, fs, own, n, bn, addr);
      if old(fs).inodes[n].addrs[NDIRECT] == 0 {
        MappedTwo(old(fs), old(own), fs1, own1, fs, own, n, bn, addr);
      }
    }

    /** bmap's allocation for an empty place of ip->addrs. */
    method MapAddr(n: nat, i: nat) returns (addr: nat)
      requires Owned(fs, own) && Marked() && Journaled({n / IPB}) && n < |fs.inodes|
      requires i <= NDIRECT && fs.inodes[n].addrs[i] == 0
      modifies `fs, `bitmap, `own, `marked, `written
      ensures Owned(fs, own) && Marked() && Journaled({n / IPB})
      ensures KeepsData(old(fs), fs) && SameAddrs(old(fs), fs, n)
      ensures old(marked) <= marked && |marked| <= |old(marked)| + if addr == 0 then 0 else 1
      ensures |fs.inodes| == |old(fs).inodes|
      ensures written == old(written) + if addr == 0 then {} else {addr}
      ensures i < NDIRECT ==> n < |fs.inodes| && fs.inodes[n].addrs[NDIRECT] == old(fs).inodes[n].addrs[NDIRECT]
      ensures addr == 0 ==> fs == old(fs) && own == old(own) && forall b :: 0 <= b < |fs.bits| ==> fs.bits[b]
      ensures addr != 0 ==> Addr(fs, if i < NDIRECT then Direct(n, i) else Ind(n)) == addr
      ensures OnlySlot(old(fs), fs, if i < NDIRECT then Direct(n, i) else Ind(n))
      ensures addr == 0 <==> |FreeBlocks(old(fs))| == 0
      ensures addr != 0 ==> |FreeBlocks(old(fs))| == |FreeBlocks(fs)| + 1
    {
      hide Word, SetWord, ZeroBlock, Logged, SetBit, FreeBlocks;
      Refl(fs, own, n, 0);
      NoneFree(fs);
      addr := Balloc();
      if addr != 0 {
        LinkAddr(old(fs), own, n, i, addr);
        LinkAddrKeeps(old(fs), own, n, i, addr);
        AllocLogged(fs0, bitmap0, old(fs), old(bitmap), old(marked), old(written), inodes + {n / IPB}, addr);
        AddrLogged(fs0, bitmap0, fs, bitmap, marked, written, inodes + {n / IPB}, n, i, addr);
        fs := SetAddr(fs, n, i, addr);
        own := own[addr := if i < NDIRECT then Direct(n, i) else Ind(n)];
        OneTaken(old(fs), fs, addr);
      }
    }

    /** bmap's last part: entry j of the indirect block. */
    method MapEntry(n: nat, j: nat, ind: nat) returns (addr: nat)
      requires Owned(fs, own) && Marked() && Journaled({n / IPB}) && n < |fs.inodes| && j < NINDIRECT
      requires ind == Addr(fs, Ind(n)) != 0
      modifies `fs, `bitmap, `own, `marked, `written
      ensures Owned(fs, own) && Marked() && Journaled({n / IPB})
      ensures KeepsData(old(fs), fs) && SameAddrs(old(fs), fs, n)
      ensures old(marked) <= marked && |marked| <= |old(marked)| + if addr == 0 then 0 else 1
      ensures |fs.inodes| == |old(fs).inodes|
      ensures old(written) <= written <= old(written) + {ind} + if addr == 0 then {} else {addr}
      ensures addr != 0 ==> Holds(fs, n, NDIRECT + j) && Addr(fs, Entry(n, j)) == addr
      ensures Addr(old(fs), Entry(n, j)) != 0 ==> addr != 0 && fs == old(fs) && own == old(own)
      ensures Addr(old(fs), Entry(n, j)) != 0 ==>
        && bitmap == old(bitmap) && marked == old(marked) && written == old(written)
      ensures addr == 0 ==> forall b :: 0 <= b < |fs.bits| ==> fs.bits[b]
      ensures OnlySlot(old(fs), fs, Entry(n, j))
      ensures addr == 0 <==> Addr(old(fs), Entry(n, j)) == 0 && |FreeBlocks(old(fs))| == 0
      ensures addr != 0 ==> |FreeBlocks(old(fs))| == |FreeBlocks(fs)| + if Addr(old(fs), Entry(n, j)) == 0 then 1 else 0
    {
      hide SetWord, ZeroBlock, Word, Allocated, Owned, Addr, KeepsData, SameAddrs, Mirrors, Holds, Logged, SetBit,
        FreeBlocks, OnlySlot;
      Refl(fs, own, n, NDIRECT + j);
      EntryAt(fs, own, n, j);
      NoneFree(fs);
      addr := Word(fs.blocks[ind], j);
      if addr == 0 {
        addr := Balloc();
        if addr != 0 {
          EntryAdded(old(fs), own, n, j, addr);
          AllocLogged(fs0, bitmap0, old(fs), old(bitmap), old(marked), old(written), inodes + {n / IPB}, addr);
          BlockLogged(fs0, bitmap0, fs, bitmap, marked, written, inodes + {n / IPB}, ind,
                      SetWord(fs.blocks[ind], j, addr));
          fs := SetBlock(fs, ind, SetWord(fs.blocks[ind], j, addr));
          written := written + {ind};
          own := own[addr := Entry(n, j)];
          Refl(fs, own, n, NDIRECT + j);
          OneTaken(old(fs), fs, addr);
        }
      }
    }

    /** readi(): the bytes of file n from off on, at most len of them. */
    method Readi(n: nat, off: nat, len: nat) returns (dst: seq<nat>)
      requires Valid() && n < |fs.inodes| && off < 0x1_0000_0000 && len < 0x1_0000_0000
      modifies `fs, `bitmap, `own, `marked, `written
      ensures Valid() && fs == old(fs) && own == old(own) && bitmap == old(bitmap)
      ensures marked == old(marked) && written == old(written)
      ensures off > fs.inodes[n].size || off + len >= 0x1_0000_0000 ==> dst == []
      ensures off <= fs.inodes[n].size && off + len < 0x1_0000_0000 ==>
        dst == Content(fs, n)[off..Min(off + len, fs.inodes[n].size)]
    {
      hide Owned, Addr, Content, Logged, Mapped;
      dst := [];
      if off > fs.inodes[n].size || off + len >= 0x1_0000_0000 {
        return;
      }
      StillJournaled({}, {n / IPB});
      var end := Min(off + len, fs.inodes[n].size);
      var o := off;
      while o < end
        invariant off <= o <= end && fs == old(fs) && own == old(own) && bitmap == old(bitmap)
        invariant marked == old(marked) && written == old(written) && Journaled({n / IPB})
        invariant |dst| == o - off
        invariant forall k :: off <= k < o ==> Holds(fs, n, k / BSIZE) && dst[k - off] == ByteAt(fs, n, k)
      {
        ByteHeld(fs, n, o);
        var addr := Bmap(n, o / BSIZE);
        var m := Min(end - o, BSIZE - o % BSIZE);
        ChunkBytes(fs, n, o, m);
        dst := dst + fs.blocks[addr].b[o % BSIZE..o % BSIZE + m];
        o := o + m;
      }
      ReadAll(fs, n, off, end, dst);
    }

    /** writei(): src written over file n at off. Returns -1 with nothing changed when the
        range is out of bounds, else how many bytes found room on the disk. What is there
        already takes no room. */
    method Writei(n: nat, src: seq<nat>, off: nat) returns (r: int)
      requires Valid() && n < |fs.inodes| && off < 0x1_0000_0000 && |src| < 0x1_0000_0000
      modifies `fs, `bitmap, `own, `marked, `written, `inodes
      ensures Valid() && |fs.inodes| == |old(fs).inodes| && SameAddrs(old(fs), fs, n)
      ensures inodes == if r == -1 then old(inodes) else old(inodes) + {n / IPB}
      ensures r == -1 ==> marked == old(marked) && written == old(written) && fs == old(fs) && own == old(own)
      ensures |marked| <= |old(marked)| + Allocs(off, Chunks(off, |src|)) + Extra(old(fs).inodes[n].size, off, |src|)
      ensures |written| <= |old(written)| + Chunks(off, |src|) + Extra(old(fs).inodes[n].size, off, |src|)
      ensures r == -1 <==> off > old(fs).inodes[n].size || off + |src| > MAXFILE * BSIZE
      ensures r != -1 ==> 0 <= r <= |src| && Content(fs, n) == Overwrite(Content(old(fs), n), off, src[..r])
      ensures 0 <= r < |src| ==> forall b :: 0 <= b < |fs.bits| ==> fs.bits[b]
      ensures 0 <= r < |src| && Chunks(off, |src|) == 1 ==> r == 0
      ensures r == 0 && off / BSIZE < NDIRECT ==> fs == old(fs)
      ensures r != -1 && off + |src| <= old(fs).inodes[n].size ==>
        r == |src| && marked == old(marked) && own == old(own)
      ensures SameFiles(old(fs), fs, {n})
      ensures r != -1 ==> Sized(old(fs)) && AsRoomAllows(old(fs), fs, n, off, |src|, r)
    {
      hide Owned, Addr, Content, Overwrite, Written, NoHoles, KeepsData, Mirrors, Chunks, BitmapBlocks, Sized, Logged,
        SameAddrs, AsRoomAllows;
      Same(fs, own, n);
      if off > fs.inodes[n].size || off + |src| >= 0x1_0000_0000 || off + |src| > MAXFILE * BSIZE {
        return -1;
      }
      ghost var fs1 := fs;
      var tot := WriteAll(n, src, off);
      ghost var fs2 := fs;
      WrittenSize(fs1, fs, n, off, src, tot);
      var o := off + tot;
      if o > fs.inodes[n].size {
        SizeLogged(fs0, bitmap0, fs, bitmap, marked, written, inodes + {n / IPB}, n, o);
        fs := fs.(inodes := fs.inodes[n := fs.inodes[n].(size := o)]);
      }
      assert inodes + {n / IPB} + {} == inodes + {n / IPB};
      inodes := inodes + {n / IPB};  // iupdate
      SameSized(fs1, fs2, fs, n, fs.inodes[n].size);
      SameRoom(fs1, fs2, fs, n, off, |src|, tot);
      WrittenDone(fs1, fs2, fs, own, n, off, src, tot);
      r := tot;
    }

    /** writei's loop. */
    method WriteAll(n: nat, src: seq<nat>, off: nat) returns (tot: nat)
      requires Valid() && n < |fs.inodes| && off <= fs.inodes[n].size && off + |src| <= MAXFILE * BSIZE
      modifies `fs, `bitmap, `own, `marked, `written
      ensures Owned(fs, own) && Marked() && Journaled({n / IPB}) && |fs.inodes| == |old(fs).inodes|
      ensures tot <= |src| && Written(old(fs), fs, n, off, src, tot) && SameAddrs(old(fs), fs, n)
      ensures tot < |src| ==> forall b :: 0 <= b < |fs.bits| ==> fs.bits[b]
      ensures tot < |src| && Chunks(off, |src|) == 1 ==> tot == 0
      ensures tot == 0 && off / BSIZE < NDIRECT ==> fs == old(fs)
      ensures |marked| <= |old(marked)| + Allocs(off, Chunks(off, |src|)) + Extra(old(fs).inodes[n].size, off, |src|)
      ensures |written| <= |old(written)| + Chunks(off, |src|) + Extra(old(fs).inodes[n].size, off, |src|)
      ensures off + |src| <= old(fs).inodes[n].size ==> tot == |src| && marked == old(marked) && own == old(own)
      ensures Sized(old(fs)) && AsRoomAllows(old(fs), fs, n, off, |src|, tot)
    {
      hide Owned, Addr, Content, Overwrite, Written, NoHoles, KeepsData, Mirrors, Logs, Chunks, BitmapBlocks, IndSet,
        Sized, Logged, SameAddrs, Took, FreeBlocks, Need, AsRoomAllows;
      Same(fs, own, n);
      ghost var fs1, far := fs, Far(fs.inodes[n].size, off, |src|);
      WrittenNone(fs1, own, n, off, src);
      LogsNone(fs, own, n, far, off, marked, written);
      StillJournaled({}, {n / IPB});
      ghost var it: nat := 0;
      SizedOf(fs, own);
      TookNone(fs, n, off / BSIZE);
      NoChunks(off);
      tot := 0;
      while tot < |src|
        invariant 0 <= tot <= |src| && n < |fs.inodes| == |fs1.inodes|
        invariant Owned(fs, own) && Written(fs1, fs, n, off, src, tot) && Marked() && Journaled({n / IPB})
        invariant SameAddrs(fs1, fs, n)
        invariant Logs(fs, n, far, old(marked), old(written), off, it, marked, written)
        invariant off + |src| <= fs1.inodes[n].size ==> marked == old(marked) && own == old(own)
        invariant it <= Chunks(off, |src|) && (it == 0 ==> tot == 0) && (tot == 0 ==> fs == fs1)
        invariant tot < |src| ==> off / BSIZE + it == (off + tot) / BSIZE
        invariant Took(fs1, fs, n, off / BSIZE, it) && it == Chunks(off, tot)
        decreases |src| - tot
      {
        ghost var it0, fs2 := it, fs;
        var m;
        m, it := WriteChunk(n, src, off, tot, fs1, far, old(marked), old(written), it0);
        SameThrough(fs1, fs2, fs, n);
        NextChunk(off, |src|, tot, it0);
        if m == 0 {
          RoomRunsOut(fs1, fs2, fs, n, off, |src|, tot, it0);
          break;
        }
        tot := tot + m;
      }
      if tot == |src| {
        RoomForAll(fs1, fs, n, off, |src|);
      }
      LogsAtMost(fs, n, far, old(marked), old(written), off, it, marked, written);
    }

    // ---------- operations, each in a transaction that has logged nothing yet ----------

    /** begin_op(). */
    method BeginOp()
      requires Valid()
      modifies `marked, `written, `inodes, `fs0, `bitmap0
      ensures Valid() && marked == {} && written == {} && inodes == {} && fs0 == fs && bitmap0 == bitmap
    {
      hide Mirrors, Owned, NoHoles;
      marked, written, inodes, fs0, bitmap0 := {}, {}, {}, fs, bitmap;
    }

    lemma AllLogged()
      requires Valid()
      ensures Logged(fs0, bitmap0, fs, bitmap, marked, written, inodes)
    {
      hide Logged;
      assert inodes + {} == inodes;
    }

    /** iupdate(). */
    method Iupdate(n: nat)
      requires Valid()
      modifies `inodes
      ensures Valid() && inodes == old(inodes) + {n / IPB}
    {
      hide Logged, Mirrors, Owned, NoHoles, BitmapBlocks;
      inodes := inodes + {n / IPB};
      LoggedMore(fs0, bitmap0, fs, bitmap, marked, written, old(inodes) + {}, marked, written, inodes + {});
    }

    /** One turn of filewrite()'s loop: it stays within what begin_op reserved. */
    method WriteOp(n: nat, src: seq<nat>, off: nat) returns (r: int)
      requires Valid() && n < |fs.inodes| && off < 0x1_0000_0000 && |src| <= CHUNK
      modifies this
      ensures Valid() && |fs.inodes| == |old(fs).inodes|
      ensures Logged(old(fs), old(bitmap), fs, bitmap, marked, written, inodes)
      ensures |marked| + |written| + |inodes| <= MAXOPBLOCKS
      ensures r == -1 <==> off > old(fs).inodes[n].size || off + |src| > MAXFILE * BSIZE
      ensures r == -1 ==> fs == old(fs)
      ensures r != -1 ==> 0 <= r <= |src| && Content(fs, n) == Overwrite(Content(old(fs), n), off, src[..r])
      ensures r != -1 ==> Sized(old(fs)) && AsRoomAllows(old(fs), fs, n, off, |src|, r)
      ensures SameFiles(old(fs), fs, {n})
    {
      hide Owned, NoHoles, Content, Overwrite, Mirrors, Chunks, Allocs, BitmapBlocks, Logged, SameAddrs, Extra,
        SameFiles, AsRoomAllows;
      BeginOp();
      r := Writei(n, src, off);
      AllLogged();
      SubsetSize(inodes, {n / IPB});
      ChunkFits(off, |src|, old(fs).inodes[n].size);
    }

    /** itrunc() by itself: exactly the bitmap blocks of the file and its inode's block. It
        stays within the reservation exactly when the file's blocks lie in at most nine
        bitmap blocks. */
    method TruncOp(n: nat)
      requires Valid() && n < |fs.inodes|
      modifies this
      ensures Valid() && Truncated(old(fs), old(own), n, fs, own)
      ensures Logged(old(fs), old(bitmap), fs, bitmap, marked, written, inodes)
      ensures marked == FileBitmap(old(own), n) && written == {} && inodes == {n / IPB}
      ensures |marked| + |written| + |inodes| <= MAXOPBLOCKS <==> |FileBitmap(old(own), n)| <= MAXOPBLOCKS - 1
      ensures |marked| <= BitmapBlocks(|fs.bits|)
      ensures SameFiles(old(fs), fs, {n})
    {
      hide Owned, NoHoles, Content, Mirrors, BitmapBlocks, Truncated, Logged, FileBitmap, SameFiles;
      BeginOp();
      Itrunc(n);
      AllLogged();
      BelowSize(marked, BitmapBlocks(|fs.bits|));
    }

    /** dirlink()'s writei of an entry, or sys_unlink's over one. */
    method PutEntry(d: nat, de: seq<nat>, off: nat) returns (ok: bool)
      requires Valid() && |de| == DIRENT && InDir(fs, d, off)
      modifies `fs, `bitmap, `own, `marked, `written, `inodes
      ensures Valid() && |fs.inodes| == |old(fs).inodes| && SameAddrs(old(fs), fs, d)
      ensures old(inodes) <= inodes <= old(inodes) + {d / IPB} && (ok ==> d / IPB in inodes)
      ensures |marked| <= |old(marked)| + Allocs(off, 1) + Extra(old(fs).inodes[d].size, off, DIRENT)
      ensures |written| <= |old(written)| + 1 + Extra(old(fs).inodes[d].size, off, DIRENT)
      ensures |marked| <= |old(marked)| + 2 && |written| <= |old(written)| + 2
      ensures off + DIRENT <= old(fs).inodes[d].size ==>
        ok && marked == old(marked) && own == old(own) && |written| <= |old(written)| + 1
      ensures ok <==> CanGrow(old(fs), d, off, 0)
      ensures ok ==> |FreeBlocks(fs)| + Need(old(fs), d, off / BSIZE, 1) == |FreeBlocks(old(fs))|
      ensures ok ==> off <= |Content(old(fs), d)| && Content(fs, d) == Overwrite(Content(old(fs), d), off, de)
      ensures !ok ==> Content(fs, d) == Content(old(fs), d)
      ensures SameFiles(old(fs), fs, {d})
    {
      hide Owned, NoHoles, Content, Overwrite, Mirrors, BitmapBlocks, Logged, SameAddrs, Chunks, SameFiles, FreeBlocks,
        Need, AsRoomAllows;
      OneChunk(fs, d, off);
      var r := Writei(d, de, off);
      ok := r == DIRENT;
      EntryRoom(old(fs), fs, d, off, r);
      if ok {
        assert de[..r] == de;
      } else if r != -1 {
        assert de[..r] == [];
        OverwriteNone(Content(old(fs), d), off);
      }
    }

    /** sys_link(): the count of inode i, then the entry for it in directory d. A failed
        dirlink takes the count back, and frees the file if it has been unlinked meanwhile. */
    method LinkOp(i: nat, d: nat, de: seq<nat>, off: nat, last: bool) returns (ok: bool)
      requires Valid() && |de| == DIRENT && InDir(fs, d, off) && i < |fs.inodes| && i != d
      modifies this
      ensures Valid() && |fs.inodes| == |old(fs).inodes|
      ensures Logged(old(fs), old(bitmap), fs, bitmap, marked, written, inodes) && i / IPB in inodes
      ensures ok || !last ==> |marked| + |written| + |inodes| <= 6
      ensures |marked| + |written| + |inodes| <= 6 + |FileBitmap(old(own), i)|
      ensures ok ==> off <= |Content(old(fs), d)| && Content(fs, d) == Overwrite(Content(old(fs), d), off, de)
      ensures !ok ==> Content(fs, d) == Content(old(fs), d)
      ensures if !ok && last then fs.inodes[i] == Blank() else Content(fs, i) == Content(old(fs), i)
      ensures SameFiles(old(fs), fs, {i, d})
      ensures ok <==> CanGrow(old(fs), d, off, 0)
    {
      hide Owned, NoHoles, Content, Overwrite, Mirrors, BitmapBlocks, Logged, SameAddrs, FileBitmap, Blank, SameFiles,
        Allocs, Extra, CanGrow;
      ghost var fs1, own1 := fs, own;
      BeginOp();
      Iupdate(i);
      ok := PutEntry(d, de, off);
      KeepOwners(fs1, own1, fs, own, d);
      ghost var fs2, marked2 := fs, marked;
      SameFileAt(fs1, fs2, {d}, i);
      SameFilesSelf(fs, {i});
      if !ok {
        Release(i, last);
        SameFileAt(fs2, fs, {i}, d);
        UnionSize(marked2, FileBitmap(own1, i));
      }
      SameFilesThen(fs1, fs2, fs, {d}, {i}, {i, d});
      AllLogged();
      SubsetSize(inodes, {i / IPB, d / IPB});
    }

    /** iupdate(), and the iput() that frees the blocks of an inode without links if nobody
        else refers to it. */
    method Release(i: nat, last: bool)
      requires Valid() && i < |fs.inodes|
      modifies `fs, `bitmap, `own, `marked, `inodes
      ensures Valid() && |fs.inodes| == |old(fs).inodes| && inodes == old(inodes) + {i / IPB}
      ensures marked == if last then old(marked) + FileBitmap(old(own), i) else old(marked)
      ensures if last then fs.inodes[i] == Blank() else fs == old(fs) && own == old(own)
      ensures SameFiles(old(fs), fs, {i})
    {
      hide Owned, NoHoles, Content, Mirrors, BitmapBlocks, Logged, FileBitmap, Blank, SameFiles;
      Iupdate(i);
      SameFilesSelf(fs, {i});
      if last {
        Itrunc(i);
        assert inodes + {i / IPB} == inodes;
      }
    }

    /** An operation that only counts: sys_link's when the name exists, or an iput(). */
    method RecountOp(i: nat, last: bool)
      requires Valid() && i < |fs.inodes|
      modifies this
      ensures Valid() && |fs.inodes| == |old(fs).inodes|
      ensures Logged(old(fs), old(bitmap), fs, bitmap, marked, written, inodes)
      ensures marked == (if last then FileBitmap(old(own), i) else {}) && written == {} && inodes == {i / IPB}
      ensures if last then fs.inodes[i] == Blank() else fs == old(fs) && own == old(own)
      ensures SameFiles(old(fs), fs, {i})
    {
      hide Owned, NoHoles, Content, Mirrors, BitmapBlocks, Logged, FileBitmap, Blank, SameFiles;
      BeginOp();
      Release(i, last);
      AllLogged();
    }

    /** sys_unlink(): zeros over an entry of directory d, the counts, and the file's blocks if
        this was its last link and nobody has it open. */
    method UnlinkOp(i: nat, d: nat, off: nat, last: bool)
      requires Valid() && InDir(fs, d, off) && off + DIRENT <= fs.inodes[d].size && i < |fs.inodes| && i != d
      modifies this
      ensures Valid() && |fs.inodes| == |old(fs).inodes| && i / IPB in inodes && d / IPB in inodes
      ensures Logged(old(fs), old(bitmap), fs, bitmap, marked, written, inodes)
      ensures marked == if last then FileBitmap(old(own), i) else {}
      ensures |marked| + |written| + |inodes| <= 3 + |marked|
      ensures off <= |Content(old(fs), d)|
      ensures Content(fs, d) == Overwrite(Content(old(fs), d), off, NoEntry())
      ensures if last then fs.inodes[i] == Blank() else Content(fs, i) == Content(old(fs), i)
      ensures SameFiles(old(fs), fs, {i, d})
    {
      hide Owned, NoHoles, Content, Overwrite, Mirrors, BitmapBlocks, Logged, SameAddrs, FileBitmap, Blank, Extra,
        Allocs, NoEntry, SameFiles;
      ClearEntry(d, off);
      ghost var fs1 := fs;
      SameFileAt(old(fs), fs1, {d}, i);
      Release(i, last);
      SameFileAt(fs1, fs, {i}, d);
      SameFilesThen(old(fs), fs1, fs, {d}, {i}, {i, d});
      assert last ==> marked == FileBitmap(old(own), i);
      AllLogged();
      SubsetSize(inodes, {i / IPB, d / IPB});
    }

    /** The start of it: nothing is allocated, so the write cannot fail. */
    method ClearEntry(d: nat, off: nat)
      requires Valid() && InDir(fs, d, off) && off + DIRENT <= fs.inodes[d].size
      modifies this
      ensures Valid() && |fs.inodes| == |old(fs).inodes| && own == old(own)
      ensures fs0 == old(fs) && bitmap0 == old(bitmap)
      ensures marked == {} && |written| <= 1 && inodes == {d / IPB} && off <= |Content(old(fs), d)|
      ensures Content(fs, d) == Overwrite(Content(old(fs), d), off, NoEntry()) && SameFiles(old(fs), fs, {d})
    {
      hide Owned, NoHoles, Content, Overwrite, Mirrors, BitmapBlocks, Logged, SameAddrs, FileBitmap, Blank, Extra,
        Allocs, NoEntry, SameFiles;
      BeginOp();
      var ok := PutEntry(d, NoEntry(), off);
      assert ok;  // otherwise panic
      Iupdate(d);
    }

    /** create() of inode i in directory d: its own two entries if it is a directory, then the
        entry for it. If an entry finds no room, everything is given back. */
    method CreateOp(i: nat, d: nat, dir: bool, dot: seq<nat>, dotdot: seq<nat>, de: seq<nat>, off: nat)
      returns (ok: bool)
      requires Valid() && i < |fs.inodes| && i != d && fs.inodes[i] == Blank()
      requires |dot| == |dotdot| == |de| == DIRENT && InDir(fs, d, off)
      modifies this
      ensures Valid() && |fs.inodes| == |old(fs).inodes| && i / IPB in inodes && (ok ==> d / IPB in inodes)
      ensures Logged(old(fs), old(bitmap), fs, bitmap, marked, written, inodes)
      ensures |marked| + |written| + |inodes| <= MAXOPBLOCKS
      ensures ok ==> off <= |Content(old(fs), d)| && Content(fs, d) == Overwrite(Content(old(fs), d), off, de)
      ensures ok ==> Content(fs, i) == if dir then dot + dotdot else []
      ensures !ok ==> fs.inodes[i] == Blank() && Content(fs, d) == Content(old(fs), d)
      ensures SameFiles(old(fs), fs, {i, d})
      ensures ok <==> CanGrow(old(fs), d, off, if dir then 1 else 0)
    {
      hide Owned, NoHoles, Content, Overwrite, Mirrors, BitmapBlocks, Logged, FileBitmap, Blank, SameFiles, CanGrow;
      BeginOp();
      Iupdate(i);  // ialloc
      ok := PutNew(i, d, dir, dot, dotdot, de, off);
      ghost var fs1 := fs;
      NewDone(i, d, ok, dir, old(own));
      SameFileAt(fs1, fs, {i}, d);
      SameFilesThen(old(fs), fs1, fs, {i, d}, {i}, {i, d});
      AllLogged();
      SubsetSize(inodes, {i / IPB, d / IPB});
    }

    /** The end of create(). */
    method NewDone(i: nat, d: nat, ok: bool, dir: bool, ghost own1: Owners)
      requires Valid() && i < |fs.inodes| && Owned(fs0, own1) && Mirrors(bitmap0, fs0.bits)
      requires i < |fs0.inodes| && fs0.inodes[i] == Blank() && forall b :: b in own1 ==> b in own && own[b] == own1[b]
      modifies `fs, `bitmap, `own, `marked, `inodes
      ensures Valid() && |fs.inodes| == |old(fs).inodes| && marked == old(marked)
      ensures old(inodes) <= inodes <= old(inodes) + {i / IPB, d / IPB} && SameFiles(old(fs), fs, {i})
      ensures if ok then fs == old(fs) else fs.inodes[i] == Blank()
    {
      hide Owned, NoHoles, Content, Mirrors, BitmapBlocks, Logged, Blank, SameFiles;
      SameFilesSelf(fs, {i});
      if !ok {
        GiveBack(i, own1);
      } else if dir {
        Iupdate(d);
      }
    }

    /** create()'s bad exit: what the new inode holds is in blocks marked already. */
    method GiveBack(i: nat, ghost own1: Owners)
      requires Valid() && i < |fs.inodes| && Owned(fs0, own1) && Mirrors(bitmap0, fs0.bits)
      requires i < |fs0.inodes| && fs0.inodes[i] == Blank() && forall b :: b in own1 ==> b in own && own[b] == own1[b]
      modifies `fs, `bitmap, `own, `marked, `inodes
      ensures Valid() && |fs.inodes| == |old(fs).inodes| && marked == old(marked)
      ensures inodes == old(inodes) + {i / IPB} && fs.inodes[i] == Blank() && SameFiles(old(fs), fs, {i})
    {
      hide Owned, NoHoles, Content, Mirrors, BitmapBlocks, Logged, FileBitmap, Blank, SameFiles;
      AllLogged();
      NewIsMarked(fs0, bitmap0, own1, fs, bitmap, own, marked, written, inodes, i);
      assert marked + FileBitmap(own, i) == marked;
      Release(i, true);
    }

    /** The entries that create() makes. */
    method PutNew(i: nat, d: nat, dir: bool, dot: seq<nat>, dotdot: seq<nat>, de: seq<nat>, off: nat)
      returns (ok: bool)
      requires Valid() && i < |fs.inodes| && i != d && fs.inodes[i] == Blank()
      requires |dot| == |dotdot| == |de| == DIRENT && InDir(fs, d, off)
      modifies `fs, `bitmap, `own, `marked, `written, `inodes
      ensures Valid() && |fs.inodes| == |old(fs).inodes| && (ok ==> d / IPB in inodes)
      ensures forall b :: b in old(own) ==> b in own && own[b] == old(own)[b]
      ensures inodes <= old(inodes) + {i / IPB, d / IPB} && old(inodes) <= inodes
      ensures |marked| <= |old(marked)| + 3 && |written| <= |old(written)| + 4
      ensures ok ==> off <= |Content(old(fs), d)| && Content(fs, d) == Overwrite(Content(old(fs), d), off, de)
      ensures ok ==> Content(fs, i) == if dir then dot + dotdot else []
      ensures !ok ==> Content(fs, d) == Content(old(fs), d)
      ensures SameFiles(old(fs), fs, {i, d})
      ensures ok <==> CanGrow(old(fs), d, off, if dir then 1 else 0)
    {
      hide Owned, NoHoles, Content, Overwrite, Mirrors, BitmapBlocks, Logged, SameAddrs, FileBitmap, Blank, Extra,
        Allocs, SameFiles, FreeBlocks, Need;
      BlankIsEmpty(fs, i);
      ghost var fs1, own1 := fs, own;
      ok := true;
      SameFilesSelf(fs, {i});
      if dir {
        ok := PutDots(i, dot, dotdot);
        KeepOwners(fs1, own1, fs, own, i);
        SameNeed(fs1, fs, i, d, off / BSIZE);
      }
      ghost var fs2, own2 := fs, own;
      SameFileAt(fs1, fs2, {i}, d);
      SameFilesSelf(fs, {d});
      if ok {
        ok := PutEntry(d, de, off);
        KeepOwners(fs2, own2, fs, own, d);
        SameFileAt(fs2, fs, {d}, i);
      }
      SameFilesThen(fs1, fs2, fs, {i}, {d}, {i, d});
    }

    /** The entries of a new directory. */
    method PutDots(i: nat, dot: seq<nat>, dotdot: seq<nat>) returns (ok: bool)
      requires Valid() && |dot| == |dotdot| == DIRENT && i < |fs.inodes| && fs.inodes[i] == Blank()
      modifies `fs, `bitmap, `own, `marked, `written, `inodes
      ensures Valid() && |fs.inodes| == |old(fs).inodes| && SameAddrs(old(fs), fs, i)
      ensures old(inodes) <= inodes <= old(inodes) + {i / IPB}
      ensures |marked| <= |old(marked)| + 1 && |written| <= |old(written)| + 2
      ensures ok ==> Content(fs, i) == dot + dotdot
      ensures SameFiles(old(fs), fs, {i})
      ensures ok <==> |FreeBlocks(old(fs))| >= 1
      ensures ok ==> |FreeBlocks(fs)| + 1 == |FreeBlocks(old(fs))|
    {
      hide Owned, NoHoles, Content, Mirrors, BitmapBlocks, Logged, SameAddrs, SameFiles, FreeBlocks, Need, Blank;
      BlankIsEmpty(fs, i);
      BlankNeeds(fs, i);
      ok := PutEntry(i, dot, 0);
      if ok {
        ghost var fs1 := fs;
        assert Content(fs, i) == dot;
        HeldNeeds(fs, i);
        ok := PutEntry(i, dotdot, DIRENT);
        SameThrough(old(fs), fs1, fs, i);
        SameFilesThen(old(fs), fs1, fs, {i}, {i}, {i});
      }
    }

    /** One turn of writei's loop, 0 when the disk is full. */
    method WriteChunk(n: nat, src: seq<nat>, off: nat, tot: nat, ghost fs1: Fs, ghost far: bool,
                      ghost marked1: set<nat>, ghost written1: set<nat>, ghost it: nat)
      returns (m: nat, ghost it': nat)
      requires Owned(fs, own) && Marked() && Journaled({n / IPB}) && n < |fs.inodes| == |fs1.inodes| && tot < |src|
      requires Written(fs1, fs, n, off, src, tot) && Logs(fs, n, far, marked1, written1, off, it, marked, written)
      requires (it == 0 ==> tot == 0) && (far <==> Far(fs1.inodes[n].size, off, |src|))
      requires Took(fs1, fs, n, off / BSIZE, it) && off / BSIZE + it == (off + tot) / BSIZE
      modifies `fs, `bitmap, `own, `marked, `written
      ensures Owned(fs, own) && Marked() && Journaled({n / IPB}) && |fs.inodes| == |old(fs).inodes|
      ensures SameAddrs(old(fs), fs, n)
      ensures m == 0 ==> it' == it && forall b :: 0 <= b < |fs.bits| ==> fs.bits[b]
      ensures m == 0 && (off + tot) / BSIZE < NDIRECT ==> fs == old(fs)
      ensures m > 0 ==> it' == it + 1 && m == Min(|src| - tot, BSIZE - (off + tot) % BSIZE)
      ensures tot + m <= |src| && Written(fs1, fs, n, off, src, tot + m)
      ensures Logs(fs, n, far, marked1, written1, off, it', marked, written)
      ensures off + |src| <= fs1.inodes[n].size ==> m > 0 && marked == old(marked) && own == old(own)
      ensures m > 0 ==> Took(fs1, fs, n, off / BSIZE, it')
      ensures m == 0 ==> Sized(fs1) && Need(fs1, n, off / BSIZE, it + 1) > |FreeBlocks(fs1)|
    {
      hide Owned, Addr, Content, Written, NoHoles, KeepsData, Logs, SameAddrs, Holds, Mirrors, IndSet, Logged, Took,
        Mapped, SameSlots, FreeBlocks, Need;
      WrittenRange(fs1, fs, n, off, src, tot);
      FirstIsThere(fs1, fs, n, off, src, tot);
      NearIsThere(fs1, fs, n, off, src, tot);
      var o := off + tot;
      ghost var fs2 := fs;
      var addr := Bmap(n, o / BSIZE);
      TookSized(fs1, fs2, n, off / BSIZE, it);
      TookNext(fs1, fs2, fs, n, off / BSIZE, it, addr);
      LogsMapped(fs2, fs, n, far, addr, marked1, written1, off, it, old(marked), old(written), marked,
                 written + if addr == 0 then {} else {addr});
      WrittenKept(fs1, fs2, fs, n, off, src, tot);
      m, it' := 0, it;
      if addr == 0 {
        assert written + {} == written;
        return;
      }
      m, it' := Min(|src| - tot, BSIZE - o % BSIZE), it + 1;
      ghost var fs3 := fs;
      StoreChunk(n, src, off, tot, m, addr, fs1, far, marked1, written1, it');
      SameThrough(fs2, fs3, fs, n);
      TookStored(fs1, fs3, fs, n, off / BSIZE, it');
    }

    /** memmove into the block, and log_write. */
    method StoreChunk(n: nat, src: seq<nat>, off: nat, tot: nat, m: nat, addr: nat, ghost fs1: Fs, ghost far: bool,
                      ghost marked1: set<nat>, ghost written1: set<nat>, ghost it: nat)
      requires Owned(fs, own) && Marked() && Journaled({n / IPB}) && n < |fs.inodes|
      requires 0 < m <= |src| - tot && m <= BSIZE - (off + tot) % BSIZE && Written(fs1, fs, n, off, src, tot)
      requires Holds(fs, n, (off + tot) / BSIZE) && Addr(fs, SlotOf(n, (off + tot) / BSIZE)) == addr
      requires Logs(fs, n, far, marked1, written1, off, it, marked, written + {addr})
      modifies `fs, `written
      ensures Owned(fs, own) && Marked() && Journaled({n / IPB}) && |fs.inodes| == |old(fs).inodes|
      ensures SameAddrs(old(fs), fs, n) && Written(fs1, fs, n, off, src, tot + m)
      ensures Logs(fs, n, far, marked1, written1, off, it, marked, written) && SameSlots(old(fs), fs)
    {
      hide Owned, Addr, Content, Written, NoHoles, Logs, SameAddrs, Holds, Mirrors, IndSet, Logged, Spliced;
      var o := off + tot;
      HeldAt(fs, n, o / BSIZE);
      var x := Spliced(fs.blocks[addr], o % BSIZE, src[tot..tot + m]);
      StoreData(fs, own, n, o / BSIZE, x);
      WrittenStep(fs1, fs, n, off, src, tot, m, own, x);
      BlockLogged(fs0, bitmap0, fs, bitmap, marked, written, inodes + {n / IPB}, addr, x);
      Same(fs, own, n);
      SizedOf(SetBlock(fs, addr, x), own);
      SameStored(fs, fs, own, n, addr, x);
      fs := SetBlock(fs, addr, x);
      written := written + {addr};
      LogsStored(old(fs), fs, n, far, addr, marked1, written1, off, it, marked, written);
    }

    /** itrunc(): frees exactly what inode n owned, and marks exactly the bitmap blocks of that. */
    method Itrunc(n: nat)
      requires Valid() && n < |fs.inodes|
      modifies `fs, `bitmap, `own, `marked, `inodes
      ensures marked == old(marked) + FileBitmap(old(own), n) && inodes == old(inodes) + {n / IPB}
      ensures Valid() && Truncated(old(fs), old(own), n, fs, own)
      ensures SameFiles(old(fs), fs, {n})
    {
      hide Word, NoHoles, Owned, Content, Mirrors, BitmapBlocks, Logged, Freeing;
      SizedOf(fs, own);
      StillJournaled({}, {n / IPB});
      FreeAll(n);
      SizeLogged(fs0, bitmap0, fs, bitmap, marked, written, inodes + {n / IPB}, n, 0);
      fs := fs.(inodes := fs.inodes[n := fs.inodes[n].(size := 0)]);
      assert inodes + {n / IPB} + {} == inodes + {n / IPB};
      inodes := inodes + {n / IPB};  // iupdate
      assert fs.inodes[n].addrs == seq(NDIRECT + 1, _ => 0);
      own := map b | b in own && own[b].n != n :: own[b];
      TruncatedOwned(old(fs), old(own), n, fs, own);
      TruncatedContent(old(fs), old(own), n, fs, own);
    }

    /** itrunc() up to the size: the direct blocks, then the indirect ones. */
    method FreeAll(n: nat)
      requires Owned(fs, own) && n < |fs.inodes| && Marked() && Journaled({n / IPB})
      modifies `fs, `bitmap, `marked
      ensures Marked() && Journaled({n / IPB}) && marked == old(marked) + FileBitmap(own, n)
      ensures |fs.inodes| == |old(fs).inodes| && |fs.bits| == |old(fs).bits|
      ensures fs == old(fs).(bits := fs.bits, inodes := old(fs).inodes[n := fs.inodes[n]])
      ensures |fs.inodes[n].addrs| == NDIRECT + 1 && fs.inodes[n].size == old(fs).inodes[n].size
      ensures forall k :: 0 <= k <= NDIRECT ==> fs.inodes[n].addrs[k] == 0
      ensures forall b :: 0 <= b < |fs.bits| ==> (fs.bits[b] <==> old(fs).bits[b] && !(b in own && own[b].n == n))
    {
      hide Word, Owned, Mirrors, BitmapBlocks, Logged, Freeing, GoneBlocks;
      SizedOf(fs, own);
      ghost var fs1 := fs;
      ghost var gone := FreeDirect(n);
      if fs.inodes[n].addrs[NDIRECT] != 0 {
        gone := FreeIndirect(n, fs.inodes[n].addrs[NDIRECT], fs1, gone, old(marked));
        AddrLogged(fs0, bitmap0, fs, bitmap, marked, written, inodes + {n / IPB}, n, NDIRECT, 0);
        fs := SetAddr(fs, n, NDIRECT, 0);
      }
      AllGone(fs1, own, n, fs.bits, gone);
    }

    /** The loop over the direct addresses. */
    method FreeDirect(n: nat) returns (ghost gone: set<Slot>)
      requires Owned(fs, own) && n < |fs.inodes| && Marked() && Journaled({n / IPB})
      modifies `fs, `bitmap, `marked
      ensures Marked() && Journaled({n / IPB}) && marked == old(marked) + GoneBlocks(own, gone)
      ensures Freeing(old(fs), own, n, fs.bits, gone)
      ensures |fs.inodes| == |old(fs).inodes| && |fs.bits| == |old(fs).bits|
      ensures fs == old(fs).(bits := fs.bits, inodes := old(fs).inodes[n := fs.inodes[n]])
      ensures |fs.inodes[n].addrs| == NDIRECT + 1 && fs.inodes[n].size == old(fs).inodes[n].size
      ensures forall k :: 0 <= k < NDIRECT ==> fs.inodes[n].addrs[k] == 0
      ensures fs.inodes[n].addrs[NDIRECT] == old(fs).inodes[n].addrs[NDIRECT]
      ensures forall s :: s in gone ==> s.Direct?
      ensures forall k: nat :: k < NDIRECT && old(fs).inodes[n].addrs[k] != 0 ==> Direct(n, k) in gone
    {
      hide Word, Owned, Freeing, GoneBlocks, Logged, Mirrors, BitmapBlocks;
      gone := {};
      FreeingNone(fs, own, n);
      var i := 0;
      while i < NDIRECT
        invariant 0 <= i <= NDIRECT && marked == old(marked) + GoneBlocks(own, gone)
        invariant Freeing(old(fs), own, n, fs.bits, gone) && Marked() && Journaled({n / IPB})
        invariant |fs.inodes| == |old(fs).inodes| && |fs.inodes[n].addrs| == NDIRECT + 1
        invariant fs.inodes[n].size == old(fs).inodes[n].size && |fs.bits| == |old(fs).bits|
        invariant fs == old(fs).(bits := fs.bits, inodes := old(fs).inodes[n := fs.inodes[n]])
        invariant forall k :: 0 <= k <= NDIRECT ==>
          fs.inodes[n].addrs[k] == if k < i then 0 else old(fs).inodes[n].addrs[k]
        invariant forall s :: s in gone ==> s.Direct? && s.n == n && s.i < i
        invariant forall k: nat :: k < i && old(fs).inodes[n].addrs[k] != 0 ==> Direct(n, k) in gone
      {
        if fs.inodes[n].addrs[i] != 0 {
          FreeOne(n, fs.inodes[n].addrs[i], Direct(n, i), old(fs), gone, old(marked));
          gone := gone + {Direct(n, i)};
          AddrLogged(fs0, bitmap0, fs, bitmap, marked, written, inodes + {n / IPB}, n, i, 0);
          fs := SetAddr(fs, n, i, 0);
        }
        i := i + 1;
      }
    }

    /** The loop over the indirect block, and the block itself. */
    method FreeIndirect(n: nat, ind: nat, ghost fs1: Fs, ghost gone0: set<Slot>, ghost marked1: set<nat>)
      returns (ghost gone: set<Slot>)
      requires Owned(fs1, own) && n < |fs1.inodes| && ind == Addr(fs1, Ind(n)) != 0
      requires Freeing(fs1, own, n, fs.bits, gone0) && fs.blocks == fs1.blocks && |fs.bits| == |fs1.bits|
      requires (forall s :: s in gone0 ==> s.Direct?) && Marked() && Journaled({n / IPB})
      requires marked == marked1 + GoneBlocks(own, gone0)
      modifies `fs, `bitmap, `marked
      ensures Marked() && Journaled({n / IPB}) && marked == marked1 + GoneBlocks(own, gone)
      ensures |fs.bits| == |fs1.bits|
      ensures fs == old(fs).(bits := fs.bits) && Freeing(fs1, own, n, fs.bits, gone)
      ensures gone0 <= gone && Ind(n) in gone
      ensures forall j: nat :: j < NINDIRECT && Addr(fs1, Entry(n, j)) != 0 ==> Entry(n, j) in gone
    {
      hide Word, Owned, Freeing, GoneBlocks, Logged, Mirrors, BitmapBlocks;
      gone := gone0;
      SizedOf(fs1, own);
      var j := 0;
      while j < NINDIRECT
        invariant 0 <= j <= NINDIRECT && marked == marked1 + GoneBlocks(own, gone) && |fs.bits| == |fs1.bits|
        invariant fs == old(fs).(bits := fs.bits) && Freeing(fs1, own, n, fs.bits, gone)
        invariant Marked() && Journaled({n / IPB})
        invariant gone0 <= gone && forall s :: s in gone ==> s.Direct? || (s.Entry? && s.j < j)
        invariant forall k: nat :: k < j && Addr(fs1, Entry(n, k)) != 0 ==> Entry(n, k) in gone
      {
        EntryAt(fs1, own, n, j);
        var a := Word(fs.blocks[ind], j);
        if a != 0 {
          FreeOne(n, a, Entry(n, j), fs1, gone, marked1);
          gone := gone + {Entry(n, j)};
        }
        j := j + 1;
      }
      FreeOne(n, ind, Ind(n), fs1, gone, marked1);
      gone := gone + {Ind(n)};
    }

    /** bfree() of the block in slot s. */
    method FreeOne(n: nat, b: nat, ghost s: Slot, ghost fs1: Fs, ghost gone: set<Slot>, ghost marked1: set<nat>)
      requires Owned(fs1, own) && Freeing(fs1, own, n, fs.bits, gone) && |fs.bits| == |fs1.bits|
      requires IsSlot(fs1, s) && s.n == n && s !in gone && b == Addr(fs1, s) != 0
      requires Marked() && Journaled({n / IPB}) && marked == marked1 + GoneBlocks(own, gone)
      modifies `fs, `bitmap, `marked
      ensures Marked() && Journaled({n / IPB}) && marked == marked1 + GoneBlocks(own, gone + {s})
      ensures fs == old(fs).(bits := fs.bits) && |fs.bits| == |fs1.bits|
      ensures Freeing(fs1, own, n, fs.bits, gone + {s})
    {
      hide Addr, Owned, Freeing, GoneBlocks, Logged, Mirrors, BitmapBlocks, ClearBit;
      FreeingStep(fs1, own, n, fs.bits, gone, s);
      GoneStep(fs1, own, gone, s);
      Bfree(b);
      FreeLogged(fs0, bitmap0, old(fs), old(bitmap), old(marked), written, inodes + {n / IPB}, b);
    }
  }

  /** The bitmap blocks that hold the bits of file n's blocks, the indirect one included. */
  ghost function FileBitmap(own: Owners, n: nat): set<nat> {
    set b | b in own && own[b].n == n :: b / BPB
  }

  /** Those of the slots `gone`. */
  ghost function GoneBlocks(own: Owners, gone: set<Slot>): set<nat> {
    set b | b in own && own[b] in gone :: b / BPB
  }

  lemma GoneStep(fs: Fs, own: Owners, gone: set<Slot>, s: Slot)
    requires Owned(fs, own) && IsSlot(fs, s) && Addr(fs, s) != 0
    ensures GoneBlocks(own, gone + {s}) == GoneBlocks(own, gone) + {Addr(fs, s) / BPB}
  {
    hide Addr;
    assert Addr(fs, s) in own && own[Addr(fs, s)] == s;
  }

  lemma FreeingNone(fs: Fs, own: Owners, n: nat)
    requires Owned(fs, own)
    ensures Sized(fs) && Freeing(fs, own, n, fs.bits, {}) && GoneBlocks(own, {}) == {}
  {
  }

  /** An indirect block that is there, and its entry j. */
  lemma EntryAt(fs: Fs, own: Owners, n: nat, j: nat)
    requires Owned(fs, own) && n < |fs.inodes| && j < NINDIRECT && Addr(fs, Ind(n)) != 0
    ensures Sized(fs) && Addr(fs, Ind(n)) < |fs.blocks| && Addr(fs, Entry(n, j)) == Word(fs.blocks[Addr(fs, Ind(n))], j)
  {
    hide Word;
    assert IsSlot(fs, Ind(n)) && Addr(fs, Ind(n)) in own;
  }

  /** What bmap does to an empty entry of the indirect block. */
  lemma EntryAdded(fs: Fs, own: Owners, n: nat, j: nat, b: nat)
    requires Owned(fs, own) && n < |fs.inodes| && j < NINDIRECT
    requires Addr(fs, Ind(n)) != 0 && Addr(fs, Entry(n, j)) == 0 && b < |fs.blocks| && !fs.bits[b]
    ensures var a := Addr(fs, Ind(n));
      && a < |fs.blocks| == |Allocated(fs, b).blocks|
      && var fs' := SetBlock(Allocated(fs, b), a, SetWord(Allocated(fs, b).blocks[a], j, b));
      && Owned(fs', own[b := Entry(n, j)]) && KeepsData(fs, fs') && SameAddrs(fs, fs', n)
      && fs'.bits == fs.bits[b := true] && |fs'.inodes| == |fs.inodes| && Addr(fs', Entry(n, j)) == b
      && OnlySlot(fs, fs', Entry(n, j))
  {
    hide SetWord, ZeroBlock, Addr;
    LinkEntry(fs, own, n, j, b);
    LinkEntryKeeps(fs, own, n, j, b);
  }

  lemma SameTwice(fs: Fs, fs1: Fs, fs2: Fs, n: nat)
    requires KeepsData(fs, fs1) && KeepsData(fs1, fs2) && SameAddrs(fs, fs1, n) && SameAddrs(fs1, fs2, n)
    requires n < |fs.inodes| && n < |fs1.inodes| && n < |fs2.inodes|
    ensures KeepsData(fs, fs2) && SameAddrs(fs, fs2, n)
    ensures IndSet(fs, n) <= IndSet(fs1, n) <= IndSet(fs2, n)
  {
    hide Addr;
    assert IsSlot(fs, Ind(n));
    KeepsDataTrans(fs, fs1, fs2);
  }

  /** How many blocks a bmap that returns addr can have allocated. */
  ghost function NewBlocks(fs: Fs, fs': Fs, n: nat, addr: nat): nat
    requires Sized(fs) && Sized(fs') && n < |fs.inodes| && n < |fs'.inodes|
  {
    (if addr == 0 then 0 else 1) + if Addr(fs, Ind(n)) == 0 && Addr(fs', Ind(n)) != 0 then 1 else 0
  }

  /** mkfs's balloc(): marks the first `used` blocks. */
  method FirstBitmap(used: nat, nblocks: nat) returns (m: Bitmap)
    requires used <= nblocks
    ensures Mirrors(m, seq(nblocks, b => b < used))
  {
    hide Mirrors, SetBit;
    m := seq(BitmapBlocks(nblocks), _ => seq(BSIZE, _ => 0));
    Unmarked(nblocks);
    assert seq(nblocks, c => c < 0) == seq(nblocks, _ => false);
    for b := 0 to used
      invariant Mirrors(m, seq(nblocks, c => c < b))
    {
      ghost var bits := seq(nblocks, c => c < b);
      Mirrored(m, bits, b);
      MirrorsReach(m, bits, b);
      m := SetBit(m, b);
      assert bits[b := true] == seq(nblocks, c => c < b + 1);
    }
  }

  // ---------- a file that cannot be truncated within the reservation ----------

  /** One file of MAXOPBLOCKS blocks, each in a bitmap block of its own. */
  function Scattered(): Fs {
    Fs(1, seq(MAXOPBLOCKS * BPB, b => b == 0 || b % BPB == 1), seq(MAXOPBLOCKS * BPB, _ => ZeroBlock()),
       [Inode(seq(NDIRECT + 1, i => if i < MAXOPBLOCKS then i * BPB + 1 else 0), MAXOPBLOCKS * BSIZE)])
  }

  ghost function ScatteredOwners(): Owners {
    map b: nat | b < MAXOPBLOCKS * BPB && b % BPB == 1 :: Direct(0, b / BPB)
  }

  lemma ScatteredSlot(s: Slot)
    requires IsSlot(Scattered(), s)
    ensures Sized(Scattered())
    ensures Addr(Scattered(), s) == if s.Direct? && s.i < MAXOPBLOCKS then s.i * BPB + 1 else 0
  {
    hide Word;
  }

  lemma SecondOf(i: nat, b: nat)
    ensures (i * BPB + 1) / BPB == i && (i * BPB + 1) % BPB == 1
    ensures b % BPB == 1 ==> b == b / BPB * BPB + 1
  {
  }

  lemma ScatteredOwned()
    ensures Owned(Scattered(), ScatteredOwners())
  {
    var fs, own := Scattered(), ScatteredOwners();
    ScatteredSlot(Direct(0, 0));
    hide Addr, Scattered, ScatteredOwners;
    forall s | IsSlot(fs, s) && Addr(fs, s) != 0 ensures Addr(fs, s) in own && own[Addr(fs, s)] == s {
      ScatteredSlot(s);
      OwnedSecond(s);
    }
    forall b | b in own ensures fs.nmeta <= b < |fs.blocks| && IsSlot(fs, own[b]) && Addr(fs, own[b]) == b {
      OwnerOfSecond(b);
      ScatteredSlot(own[b]);
    }
    forall b | 0 <= b < |fs.bits| ensures fs.bits[b] <==> b < fs.nmeta || b in own {
      ScatteredBit(b);
    }
  }

  lemma OwnedSecond(s: Slot)
    requires IsSlot(Scattered(), s) && s.Direct? && s.i < MAXOPBLOCKS
    ensures s.i * BPB + 1 in ScatteredOwners() && ScatteredOwners()[s.i * BPB + 1] == s
  {
    SecondOf(s.i, 0);
  }

  lemma OwnerOfSecond(b: nat)
    requires b in ScatteredOwners()
    ensures var s := ScatteredOwners()[b]; s.Direct? && s.n == 0 && s.i < MAXOPBLOCKS && b == s.i * BPB + 1
    ensures Scattered().nmeta <= b < |Scattered().blocks| && IsSlot(Scattered(), ScatteredOwners()[b])
  {
    SecondOf(0, b);
  }

  lemma ScatteredBit(b: nat)
    requires b < |Scattered().bits|
    ensures Scattered().bits[b] <==> b < Scattered().nmeta || b in ScatteredOwners()
  {
  }

  lemma ScatteredHeld()
    ensures NoHoles(Scattered())
  {
    var fs := Scattered();
    ScatteredSlot(Direct(0, 0));
    forall n, bn | 0 <= n < |fs.inodes| && 0 <= bn < MAXFILE && bn * BSIZE < fs.inodes[n].size
      ensures Holds(fs, n, bn)
    {
      ScatteredSlot(Direct(0, bn));
    }
  }

  /** It is a sound disk, and freeing the file changes more blocks than an operation may log. */
  lemma ScatteredFile()
    ensures Owned(Scattered(), ScatteredOwners()) && NoHoles(Scattered())
    ensures |FileBitmap(ScatteredOwners(), 0)| >= MAXOPBLOCKS
  {
    ScatteredOwned();
    ScatteredHeld();
    var own := ScatteredOwners();
    forall i: nat | i < MAXOPBLOCKS ensures i in FileBitmap(own, 0) {
      OwnedSecond(Direct(0, i));
      SecondOf(i, 0);
      assert own[i * BPB + 1].n == 0;
    }
    AllBelow(FileBitmap(own, 0), MAXOPBLOCKS);
  }

  lemma {:induction false} AllBelow(s: set<nat>, n: nat)
    requires forall i: nat :: i < n ==> i in s
    ensures |s| >= n
  {
    if n > 0 {
      AllBelow(s - {n - 1}, n - 1);
    }
  }

  lemma MirrorsReach(m: Bitmap, bits: seq<bool>, b: nat)
    requires Mirrors(m, bits) && b < |bits|
    ensures Reaches(m, b) && b < |m| * BPB
  {
  }

  function Empty(nmeta: nat, nblocks: nat, ninodes: nat): Fs
    requires nmeta <= nblocks
  {
    Fs(nmeta, seq(nblocks, b => b < nmeta), seq(nblocks, _ => ZeroBlock()),
       seq(ninodes, _ => Blank()))
  }

  lemma EmptyOwned(nmeta: nat, nblocks: nat, ninodes: nat)
    requires 0 < nmeta <= nblocks < 0x1_0000_0000
    ensures Owned(Empty(nmeta, nblocks, ninodes), map[]) && NoHoles(Empty(nmeta, nblocks, ninodes))
  {
  }

  lemma Unmarked(n: nat)
    ensures Mirrors(seq(BitmapBlocks(n), _ => seq(BSIZE, _ => 0)), seq(n, _ => false))
  {
    var m: Bitmap := seq(BitmapBlocks(n), _ => seq(BSIZE, _ => 0));
    forall b: nat | b < n ensures b < |m| * BPB && Reaches(m, b) && !Bit(m, b) {
      assert ByteOf(m, b) == 0;
    }
  }

  /** After `it` blocks of a file were mapped and stored into: what has been logged. */
  ghost predicate Logs(fs: Fs, n: nat, far: bool, marked0: set<nat>, written0: set<nat>, off: nat, it: nat,
                       marked: set<nat>, written: set<nat>) {
    && Sized(fs) && n < |fs.inodes| && |marked| <= |marked0| + Allocs(off, it) + |Inds(fs, n, far)|
    && FewWritten(written0, it, Inds(fs, n, far), written)
  }

  ghost predicate FewWritten(written0: set<nat>, it: nat, ind: set<nat>, written: set<nat>) {
    exists chunks: set<nat> :: |chunks| <= it && written <= written0 + chunks + ind
  }

  lemma LogsNone(fs: Fs, own: Owners, n: nat, far: bool, off: nat, marked: set<nat>, written: set<nat>)
    requires Owned(fs, own) && n < |fs.inodes|
    ensures Logs(fs, n, far, marked, written, off, 0, marked, written)
  {
    var none: set<nat> := {};
    assert |none| <= 0 && written <= written + none + Inds(fs, n, far);
  }

  lemma LogsMapped(fs: Fs, fs': Fs, n: nat, far: bool, addr: nat, marked0: set<nat>, written0: set<nat>, off: nat,
                   it: nat, marked: set<nat>, written: set<nat>, marked': set<nat>, written': set<nat>)
    requires Logs(fs, n, far, marked0, written0, off, it, marked, written) && SameAddrs(fs, fs', n) && n < |fs'.inodes|
    requires |marked'| - |marked| <= NewBlocks(fs, fs', n, addr)
    requires !far ==> Addr(fs', Ind(n)) == Addr(fs, Ind(n))
    requires it == 0 && off % BSIZE != 0 ==> marked' == marked && fs' == fs
    requires written' <= written + Inds(fs', n, far) + if addr == 0 then {} else {addr}
    ensures Logs(fs', n, far, marked0, written0, off, if addr == 0 then it else it + 1, marked', written')
  {
    IndStays(fs, fs', n, addr);
    hide Addr, IndSet, SameAddrs, Sized, FewWritten;
    WrittenMore(written0, it, Inds(fs, n, far), Inds(fs', n, far), written, written', addr);
  }

  lemma WrittenMore(written0: set<nat>, it: nat, i: set<nat>, i': set<nat>, written: set<nat>, written': set<nat>,
                    addr: nat)
    requires FewWritten(written0, it, i, written) && i <= i'
    requires written' <= written + i' + if addr == 0 then {} else {addr}
    ensures FewWritten(written0, if addr == 0 then it else it + 1, i', written')
  {
    var chunks: set<nat> :| |chunks| <= it && written <= written0 + chunks + i;
    if addr == 0 {
      assert written' <= written0 + chunks + i';
    } else {
      OneMore(written0, chunks, i, i', written, written', addr);
      assert |chunks + {addr}| <= it + 1;
    }
  }

  lemma OneMore(w0: set<nat>, chunks: set<nat>, i: set<nat>, i': set<nat>, w: set<nat>, w': set<nat>, addr: nat)
    requires w <= w0 + chunks + i && i <= i' && w' <= w + i' + {addr}
    ensures w' <= w0 + (chunks + {addr}) + i' && |chunks + {addr}| <= |chunks| + 1
  {
  }

  lemma IndStays(fs: Fs, fs': Fs, n: nat, addr: nat)
    requires SameAddrs(fs, fs', n) && n < |fs.inodes| && n < |fs'.inodes|
    ensures IndSet(fs, n) <= IndSet(fs', n)
    ensures |IndSet(fs, n)| + NewBlocks(fs, fs', n, addr) == |IndSet(fs', n)| + if addr == 0 then 0 else 1
  {
    hide Addr;
    assert IsSlot(fs, Ind(n));
  }

  lemma LogsStored(fs: Fs, fs': Fs, n: nat, far: bool, addr: nat, marked0: set<nat>, written0: set<nat>, off: nat,
                   it: nat, marked: set<nat>, written: set<nat>)
    requires Logs(fs, n, far, marked0, written0, off, it, marked, written) && addr in written
    requires Sized(fs') && n < |fs'.inodes| && IsSlot(fs, Ind(n)) && Addr(fs', Ind(n)) == Addr(fs, Ind(n))
    ensures Logs(fs', n, far, marked0, written0, off, it, marked, written)
  {
    hide Addr;
    assert IndSet(fs', n) == IndSet(fs, n);
  }

  lemma LogsAtMost(fs: Fs, n: nat, far: bool, marked0: set<nat>, written0: set<nat>, off: nat, it: nat,
                   marked: set<nat>, written: set<nat>)
    requires Logs(fs, n, far, marked0, written0, off, it, marked, written)
    ensures |marked| <= |marked0| + Allocs(off, it) + (if far then 1 else 0)
    ensures |written| <= |written0| + it + (if far then 1 else 0)
  {
    var chunks: set<nat> :| |chunks| <= it && written <= written0 + chunks + Inds(fs, n, far);
    SubsetSize(written, written0 + chunks + Inds(fs, n, far));
    assert |IndSet(fs, n)| <= 1;
  }

  /** Storing into a data block of file n. */
  lemma SameStored(fs: Fs, fs1: Fs, own: Owners, n: nat, a: nat, x: Block)
    requires SameAddrs(fs, fs1, n) && a < |fs1.blocks| && Sized(SetBlock(fs1, a, x))
    requires forall s :: IsSlot(fs1, s) ==> Addr(SetBlock(fs1, a, x), s) == Addr(fs1, s)
    ensures SameAddrs(fs, SetBlock(fs1, a, x), n)
  {
    hide Addr;
  }

  lemma Same(fs: Fs, own: Owners, n: nat)
    requires Owned(fs, own)
    ensures SameAddrs(fs, fs, n)
  {
  }

  lemma SameThrough(fs: Fs, fs1: Fs, fs2: Fs, n: nat)
    requires SameAddrs(fs, fs1, n) && SameAddrs(fs1, fs2, n)
    ensures SameAddrs(fs, fs2, n)
  {
    hide Addr;
  }

  lemma SameSized(fs: Fs, fs1: Fs, fs2: Fs, n: nat, size: nat)
    requires SameAddrs(fs, fs1, n) && n < |fs1.inodes|
    requires fs2 == fs1.(inodes := fs1.inodes[n := fs1.inodes[n].(size := size)])
    ensures SameAddrs(fs, fs2, n) && |fs2.inodes| == |fs.inodes|
    ensures forall m :: 0 <= m < |fs.inodes| && m != n ==> fs2.inodes[m] == fs.inodes[m]
  {
    hide Word;
    forall s | IsSlot(fs1, s) ensures Addr(fs2, s) == Addr(fs1, s) {
    }
  }

  lemma SizeLogged(fs0: Fs, bm0: Bitmap, fs: Fs, bm: Bitmap, marked: set<nat>, written: set<nat>, inodes: set<nat>,
                   n: nat, size: nat)
    requires Logged(fs0, bm0, fs, bm, marked, written, inodes) && n < |fs.inodes| && n / IPB in inodes
    ensures Logged(fs0, bm0, fs.(inodes := fs.inodes[n := fs.inodes[n].(size := size)]), bm, marked, written, inodes)
  {
  }

  /** Where the next turn of writei's loop starts. */
  lemma NextChunk(off: nat, len: nat, tot: nat, it: nat)
    requires tot < len && off / BSIZE + it == (off + tot) / BSIZE
    ensures it < Chunks(off, len)
    ensures var m := Min(len - tot, BSIZE - (off + tot) % BSIZE);
      m > 0 && (tot + m < len ==> off / BSIZE + it + 1 == (off + tot + m) / BSIZE) && Chunks(off, tot + m) == it + 1
    ensures Chunks(off, tot + 1) == it + 1
  {
  }

  lemma WrittenRange(fs0: Fs, fs: Fs, n: nat, off: nat, src: seq<nat>, tot: nat)
    requires Written(fs0, fs, n, off, src, tot) && tot < |src|
    ensures (off + tot) / BSIZE < MAXFILE
  {
  }

  /** A write that starts inside a block finds that block there. */
  lemma FirstIsThere(fs0: Fs, fs: Fs, n: nat, off: nat, src: seq<nat>, tot: nat)
    requires Written(fs0, fs, n, off, src, tot)
    ensures tot == 0 && off % BSIZE != 0 ==> Holds(fs, n, (off + tot) / BSIZE)
  {
    hide Holds, NoHoles;
    if tot == 0 && off % BSIZE != 0 {
      assert (off - 1) / BSIZE == off / BSIZE;
      assert 0 <= off - 1 < off + tot;
    }
  }

  /** A write that stays among the direct blocks or within the file needs no indirect block. */
  lemma NearIsThere(fs1: Fs, fs: Fs, n: nat, off: nat, src: seq<nat>, tot: nat)
    requires Written(fs1, fs, n, off, src, tot) && tot < |src|
    ensures off + |src| <= fs1.inodes[n].size ==> Holds(fs, n, (off + tot) / BSIZE)
    ensures Far(fs1.inodes[n].size, off, |src|) || (off + tot) / BSIZE < NDIRECT || Holds(fs, n, (off + tot) / BSIZE)
  {
    hide Holds, NoHoles;
    assert off + tot < NDIRECT * BSIZE ==> (off + tot) / BSIZE < NDIRECT;
  }

  lemma HeldAt(fs: Fs, n: nat, bn: nat)
    requires Holds(fs, n, bn)
    ensures Sized(fs) && n < |fs.inodes| && bn < MAXFILE && 0 < Addr(fs, SlotOf(n, bn)) < |fs.blocks|
    ensures IsSlot(fs, SlotOf(n, bn)) && IsSlot(fs, Ind(n))
  {
  }

  lemma SizedOf(fs: Fs, own: Owners)
    requires Owned(fs, own)
    ensures Sized(fs)
  {
  }

  /** The bitmap with the blocks of the slots `gone` freed. */
  ghost predicate Freeing(fs0: Fs, own: Owners, n: nat, bits: seq<bool>, gone: set<Slot>) {
    && |bits| == |fs0.bits|
    && (forall s :: s in gone ==> s.n == n)
    && forall b :: 0 <= b < |bits| ==> (bits[b] <==> fs0.bits[b] && !(b in own && own[b] in gone))
  }

  /** The block of a slot that is not freed yet is still marked, and freeing it is a step. */
  lemma FreeingStep(fs0: Fs, own: Owners, n: nat, bits: seq<bool>, gone: set<Slot>, s: Slot)
    requires Owned(fs0, own) && Freeing(fs0, own, n, bits, gone)
    requires IsSlot(fs0, s) && s.n == n && s !in gone && Addr(fs0, s) != 0
    ensures var b := Addr(fs0, s);
      b < |bits| && bits[b] && Freeing(fs0, own, n, bits[b := false], gone + {s})
  {
    hide Addr;
    assert Addr(fs0, s) in own && own[Addr(fs0, s)] == s;
  }

  lemma AllGone(fs: Fs, own: Owners, n: nat, bits: seq<bool>, gone: set<Slot>)
    requires Owned(fs, own) && n < |fs.inodes| && Freeing(fs, own, n, bits, gone)
    requires forall k: nat :: k < NDIRECT && fs.inodes[n].addrs[k] != 0 ==> Direct(n, k) in gone
    requires fs.inodes[n].addrs[NDIRECT] != 0 ==> Ind(n) in gone
    requires fs.inodes[n].addrs[NDIRECT] != 0 ==>
      forall j: nat :: j < NINDIRECT && Addr(fs, Entry(n, j)) != 0 ==> Entry(n, j) in gone
    ensures forall b :: 0 <= b < |bits| ==> (bits[b] <==> fs.bits[b] && !(b in own && own[b].n == n))
    ensures GoneBlocks(own, gone) == FileBitmap(own, n)
  {
    hide Word;
    forall b | b in own && own[b].n == n ensures own[b] in gone {
      assert Addr(fs, own[b]) == b;
    }
  }

  lemma TruncatedContent(fs: Fs, own: Owners, n: nat, fs': Fs, own': Owners)
    requires Owned(fs, own) && NoHoles(fs) && Owned(fs', own') && Truncated(fs, own, n, fs', own')
    ensures NoHoles(fs')
    ensures forall m :: 0 <= m < |fs.inodes| && m != n ==> Content(fs', m) == Content(fs, m)
  {
    hide Word;
    forall m, bn | 0 <= m < |fs.inodes| && m != n && Holds(fs, m, bn)
      ensures Holds(fs', m, bn) && DataOf(fs', m, bn) == DataOf(fs, m, bn)
    {
    }
    forall m | 0 <= m < |fs.inodes| && m != n ensures NoHoles(fs') && Content(fs', m) == Content(fs, m) {
      forall k | 0 <= k < fs.inodes[m].size ensures Content(fs', m)[k] == Content(fs, m)[k] { ByteHeld(fs, m, k); }
    }
  }

  /** The block x with `data` copied over it from byte `at` on. */
  function Spliced(x: Block, at: nat, data: seq<nat>): Block
    requires at + |data| <= BSIZE
  {
    Block(x.b[..at] + data + x.b[at + |data|..])
  }

  /** One chunk of a file lies in one block. */
  lemma ChunkBytes(fs: Fs, n: nat, o: nat, m: nat)
    requires Holds(fs, n, o / BSIZE) && m <= BSIZE - o % BSIZE
    ensures forall k :: o <= k < o + m ==> k / BSIZE == o / BSIZE && k % BSIZE == o % BSIZE + (k - o)
    ensures forall k :: o <= k < o + m ==>
      ByteAt(fs, n, k) == fs.blocks[Addr(fs, SlotOf(n, o / BSIZE))].b[o % BSIZE + (k - o)]
  {
    forall k | o <= k < o + m ensures k / BSIZE == o / BSIZE && k % BSIZE == o % BSIZE + (k - o) {
      assert k == o / BSIZE * BSIZE + (o % BSIZE + (k - o));
    }
  }

  lemma ReadAll(fs: Fs, n: nat, off: nat, end: nat, dst: seq<nat>)
    requires NoHoles(fs) && n < |fs.inodes| && off <= end <= fs.inodes[n].size && |dst| == end - off
    requires forall k :: off <= k < end ==> Holds(fs, n, k / BSIZE) && dst[k - off] == ByteAt(fs, n, k)
    ensures dst == Content(fs, n)[off..end]
  {
    var c := Content(fs, n);
    forall i | 0 <= i < |dst| ensures dst[i] == c[off..end][i] {
      assert c[off + i] == ByteAt(fs, n, off + i) == dst[off + i - off];
    }
  }

  /** After tot bytes: file n shows src over its old bytes, all else is as in fs0. */
  ghost predicate Written(fs0: Fs, fs: Fs, n: nat, off: nat, src: seq<nat>, tot: nat) {
    && NoHoles(fs0) && Sized(fs) && n < |fs.inodes| == |fs0.inodes| && tot <= |src| && off + |src| <= MAXFILE * BSIZE
    && off <= fs0.inodes[n].size
    && (forall m :: 0 <= m < |fs.inodes| ==> fs.inodes[m].size == fs0.inodes[m].size)
    && (forall m, bn :: m != n && Holds(fs0, m, bn) ==> Holds(fs, m, bn) && DataOf(fs, m, bn) == DataOf(fs0, m, bn))
    && (forall k :: 0 <= k < off + tot || 0 <= k < fs0.inodes[n].size ==>
          Holds(fs, n, k / BSIZE) && (off <= k < off + tot ==> ByteAt(fs, n, k) == src[k - off]))
    && (forall k :: 0 <= k < fs0.inodes[n].size && !(off <= k < off + tot) ==>
          Holds(fs0, n, k / BSIZE) && Holds(fs, n, k / BSIZE) && ByteAt(fs, n, k) == ByteAt(fs0, n, k))
  }

  lemma WrittenNone(fs: Fs, own: Owners, n: nat, off: nat, src: seq<nat>)
    requires Owned(fs, own) && NoHoles(fs) && n < |fs.inodes| && off <= fs.inodes[n].size
    requires off + |src| <= MAXFILE * BSIZE
    ensures Written(fs, fs, n, off, src, 0)
  {
    hide Addr;
    forall k | 0 <= k < fs.inodes[n].size ensures Holds(fs, n, k / BSIZE) { ByteHeld(fs, n, k); }
  }

  lemma WrittenKept(fs0: Fs, fs1: Fs, fs2: Fs, n: nat, off: nat, src: seq<nat>, tot: nat)
    requires Written(fs0, fs1, n, off, src, tot) && KeepsData(fs1, fs2)
    ensures Written(fs0, fs2, n, off, src, tot)
  {
    hide Holds, DataOf, NoHoles;
    forall k | 0 <= k < off + tot || 0 <= k < fs0.inodes[n].size
      ensures Holds(fs1, n, k / BSIZE) && Holds(fs2, n, k / BSIZE) && ByteAt(fs2, n, k) == ByteAt(fs1, n, k)
    {
    }
  }

  lemma WrittenSize(fs0: Fs, fs: Fs, n: nat, off: nat, src: seq<nat>, tot: nat)
    requires Written(fs0, fs, n, off, src, tot)
    ensures |fs.inodes| == |fs0.inodes| && n < |fs.inodes| && fs.inodes[n].size == fs0.inodes[n].size
  {
  }

  /** Copying m bytes into the block that holds byte off + tot. */
  lemma WrittenStep(fs0: Fs, fs: Fs, n: nat, off: nat, src: seq<nat>, tot: nat, m: nat, own: Owners, x: Block)
    requires Owned(fs, own) && Written(fs0, fs, n, off, src, tot) && Holds(fs, n, (off + tot) / BSIZE)
    requires 0 < m <= |src| - tot && m <= BSIZE - (off + tot) % BSIZE
    requires var o := off + tot; x == Spliced(fs.blocks[Addr(fs, SlotOf(n, o / BSIZE))], o % BSIZE, src[tot..tot + m])
    ensures Written(fs0, SetBlock(fs, Addr(fs, SlotOf(n, (off + tot) / BSIZE)), x), n, off, src, tot + m)
  {
    hide Owned, DataOf, Spliced;
    var o := off + tot;
    var fs' := SetBlock(fs, Addr(fs, SlotOf(n, o / BSIZE)), x);
    ChunkBytes(fs, n, o, m);
    StoredBlocks(fs, own, n, o / BSIZE, x);
    hide Addr, Holds;
    forall k | 0 <= k < off + tot + m || 0 <= k < fs0.inodes[n].size
      ensures Holds(fs', n, k / BSIZE)
      ensures o <= k < o + m ==> ByteAt(fs', n, k) == src[k - off]
      ensures !(o <= k < o + m) ==> Holds(fs, n, k / BSIZE) && ByteAt(fs', n, k) == ByteAt(fs, n, k)
    {
      StoredByte(fs, own, n, o, m, src[tot..tot + m], x, k);
    }
  }

  lemma StoredByte(fs: Fs, own: Owners, n: nat, o: nat, m: nat, data: seq<nat>, x: Block, k: nat)
    requires Owned(fs, own) && Holds(fs, n, o / BSIZE) && m == |data| <= BSIZE - o % BSIZE
    requires x == Spliced(fs.blocks[Addr(fs, SlotOf(n, o / BSIZE))], o % BSIZE, data)
    requires o <= k < o + m || Holds(fs, n, k / BSIZE)
    ensures var fs' := SetBlock(fs, Addr(fs, SlotOf(n, o / BSIZE)), x);
      && Holds(fs', n, k / BSIZE)
      && (o <= k < o + m ==> ByteAt(fs', n, k) == data[k - o])
      && (!(o <= k < o + m) ==> ByteAt(fs', n, k) == ByteAt(fs, n, k))
  {
    hide Addr;
    ChunkBytes(fs, n, o, m);
    StoredBlocks(fs, own, n, o / BSIZE, x);
    if !(o <= k < o + m) && k / BSIZE == o / BSIZE {
      assert k == o / BSIZE * BSIZE + k % BSIZE && o == o / BSIZE * BSIZE + o % BSIZE;
    }
  }

  /** Which data blocks a store into one of them changes: that one. */
  lemma StoredBlocks(fs: Fs, own: Owners, n: nat, bn: nat, x: Block)
    requires Owned(fs, own) && Holds(fs, n, bn)
    ensures var fs' := SetBlock(fs, Addr(fs, SlotOf(n, bn)), x);
      forall m, c :: Holds(fs, m, c) ==>
        Holds(fs', m, c) && DataOf(fs', m, c) == if m == n && c == bn then x else DataOf(fs, m, c)
  {
    StoreData(fs, own, n, bn, x);
    hide Addr;
    var fs' := SetBlock(fs, Addr(fs, SlotOf(n, bn)), x);
    forall m, c | Holds(fs, m, c)
      ensures Holds(fs', m, c) && DataOf(fs', m, c) == if m == n && c == bn then x else DataOf(fs, m, c)
    {
      assert IsSlot(fs, SlotOf(m, c)) && own[Addr(fs, SlotOf(m, c))] == SlotOf(m, c);
      assert IsSlot(fs, SlotOf(n, bn)) && own[Addr(fs, SlotOf(n, bn))] == SlotOf(n, bn);
    }
  }

  /** Changing a size moves and changes no block. */
  lemma Resized(fs: Fs, own: Owners, n: nat, sz: nat)
    requires Owned(fs, own) && n < |fs.inodes|
    ensures var fs' := fs.(inodes := fs.inodes[n := fs.inodes[n].(size := sz)]);
      && Owned(fs', own)
      && (forall m, c :: Holds(fs', m, c) <==> Holds(fs, m, c))
      && (forall m, c :: Holds(fs, m, c) ==> DataOf(fs', m, c) == DataOf(fs, m, c))
  {
    hide Word;
    var fs' := fs.(inodes := fs.inodes[n := fs.inodes[n].(size := sz)]);
    assert forall s :: IsSlot(fs', s) <==> IsSlot(fs, s);
    forall s | IsSlot(fs, s) ensures Addr(fs', s) == Addr(fs, s) {}
  }

  lemma WrittenDone(fs0: Fs, fs: Fs, fs': Fs, own: Owners, n: nat, off: nat, src: seq<nat>, tot: nat)
    requires Written(fs0, fs, n, off, src, tot) && Owned(fs, own) && n < |fs.inodes|
    requires var sz := if off + tot > fs.inodes[n].size then off + tot else fs.inodes[n].size;
      fs' == fs.(inodes := fs.inodes[n := fs.inodes[n].(size := sz)])
    ensures Owned(fs', own) && NoHoles(fs0) && NoHoles(fs') && |fs'.inodes| == |fs0.inodes| && off <= fs0.inodes[n].size
    ensures Content(fs', n) == Overwrite(Content(fs0, n), off, src[..tot])
    ensures forall m :: 0 <= m < |fs0.inodes| && m != n ==> Content(fs', m) == Content(fs0, m)
  {
    hide Owned, Holds, DataOf;
    Resized(fs, own, n, fs'.inodes[n].size);
    SizedOf(fs', own);
    forall m, bn | 0 <= m < |fs'.inodes| && 0 <= bn < MAXFILE && bn * BSIZE < fs'.inodes[m].size
      ensures Holds(fs', m, bn)
    {
      var k := bn * BSIZE;
      assert k / BSIZE == bn;
      if m == n { assert Holds(fs, n, k / BSIZE); } else { assert Holds(fs0, m, bn); }
    }
    WrittenContent(fs0, fs, fs', n, off, src, tot);
    forall m | 0 <= m < |fs0.inodes| && m != n ensures Content(fs', m) == Content(fs0, m) {
      forall k | 0 <= k < fs0.inodes[m].size ensures Content(fs', m)[k] == Content(fs0, m)[k] { ByteHeld(fs0, m, k); }
    }
  }

  lemma WrittenContent(fs0: Fs, fs: Fs, fs': Fs, n: nat, off: nat, src: seq<nat>, tot: nat)
    requires Written(fs0, fs, n, off, src, tot) && n < |fs'.inodes| && NoHoles(fs')
    requires fs'.inodes[n].size == if off + tot > fs0.inodes[n].size then off + tot else fs0.inodes[n].size
    requires forall c :: Holds(fs, n, c) ==> Holds(fs', n, c) && DataOf(fs', n, c) == DataOf(fs, n, c)
    ensures Content(fs', n) == Overwrite(Content(fs0, n), off, src[..tot])
  {
    hide Holds, DataOf;
    var c, c0 := Content(fs', n), Content(fs0, n);
    var o := Overwrite(c0, off, src[..tot]);
    assert |o| == |c|;
    forall k | 0 <= k < |c| ensures c[k] == o[k] {
      assert Holds(fs, n, k / BSIZE) && c[k] == ByteAt(fs', n, k) == ByteAt(fs, n, k);
      if off <= k < off + tot {
        assert o[k] == src[..tot][k - off];
      } else {
        assert o[k] == c0[k] == ByteAt(fs0, n, k);
      }
    }
  }

  lemma Refl(fs: Fs, own: Owners, n: nat, bn: nat)
    requires Owned(fs, own) && n < |fs.inodes| && bn < MAXFILE
    ensures KeepsData(fs, fs) && SameAddrs(fs, fs, n) && IsSlot(fs, Ind(n)) && OnlySlot(fs, fs, SlotOf(n, bn))
    ensures IsSlot(fs, SlotOf(n, bn)) && (Holds(fs, n, bn) <==> Addr(fs, SlotOf(n, bn)) != 0)
    ensures forall b :: 0 <= b < fs.nmeta ==> fs.bits[b]
  {
  }
}
