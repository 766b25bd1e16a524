/** The file system of `Volume` on the disk that `LogRuns` is about: which block holds what, and
    what every crash leaves of it. */
module FsCrash {
  import F = LogFormat
  import R = LogRuns
  import C = LogClients
  import L = Links
  import opened Common
  import opened Params
  import opened FsLayout
  import opened FsBitmap
  import opened FsOps
  import opened Volume

  /** struct dinode: what iupdate() writes. */
  datatype Dinode = Dinode(inode: Inode, kind: L.Kind, nlink: int)

  /** What one block of the disk holds. */
  datatype Cell = Fixed | OfInodes(ds: seq<Dinode>) | OfBitmap(bytes: seq<bv8>) | OfData(block: Block)

  /** mkfs's layout: the log, the inode blocks, the bitmap and, from nmeta on, the data. */
  datatype Shape = Shape(l: F.Layout, inodestart: nat, bmapstart: nat, nmeta: nat, ninodes: nat) {
    /** The regions follow each other. */
    predicate Valid() {
      l.start + LOGBLOCKS < inodestart && inodestart + ninodes / IPB < bmapstart <= nmeta <= l.size
    }

    ghost predicate Fits(v: Vol) {
      && v.fs.nmeta == nmeta && |v.fs.blocks| == l.size && bmapstart + |v.bitmap| == nmeta
      && |v.fs.inodes| == |v.kinds| == |v.nlinks| == ninodes
    }
  }

  /** The inodes of inode block k. */
  ghost function InodesOf(v: Vol, k: nat): seq<Dinode>
    requires |v.fs.inodes| == |v.kinds| == |v.nlinks| && k * IPB <= |v.kinds|
  {
    seq(Min(IPB, |v.kinds| - k * IPB), i requires 0 <= i && k * IPB + i < |v.kinds| =>
      Dinode(v.fs.inodes[k * IPB + i], v.kinds[k * IPB + i], v.nlinks[k * IPB + i]))
  }

  ghost function CellOf(sh: Shape, v: Vol, b: nat): Cell
    requires sh.Fits(v) && b < sh.l.size
  {
    if b >= sh.nmeta then OfData(v.fs.blocks[b])
    else if sh.bmapstart <= b then OfBitmap(v.bitmap[b - sh.bmapstart])
    else if sh.inodestart <= b && (b - sh.inodestart) * IPB <= sh.ninodes then OfInodes(InodesOf(v, b - sh.inodestart))
    else Fixed
  }

  /** The volume as the disk holds it, for any way of writing a cell into a block. */
  ghost function OnDisk(sh: Shape, code: Cell -> F.Block, v: Vol): (d: F.Disk)
    requires sh.Fits(v)
    ensures |d| == sh.l.size && forall b :: 0 <= b < |d| ==> d[b] == code(CellOf(sh, v, b))
  {
    seq(sh.l.size, b requires 0 <= b < sh.l.size => code(CellOf(sh, v, b)))
  }

  /** IBLOCK and BBLOCK: inode n is in place n % IPB of block inodestart + n / IPB, and the bitmap
      byte of block b in block bmapstart + b / BPB. */
  lemma WhereOnDisk(sh: Shape, v: Vol, n: nat, b: nat)
    requires sh.Valid() && sh.Fits(v) && n < sh.ninodes && b < |v.bitmap| * BPB
    ensures var x := CellOf(sh, v, sh.inodestart + n / 16);
      && x.OfInodes? && n % 16 < |x.ds| && x.ds[n % 16] == Dinode(v.fs.inodes[n], v.kinds[n], v.nlinks[n])
    ensures b / 0x2000 < |v.bitmap| && CellOf(sh, v, sh.bmapstart + b / 0x2000) == OfBitmap(v.bitmap[b / 0x2000])
  {
    var k := n / IPB;
    assert n == k * IPB + n % IPB;
    assert InodesOf(v, k)[n % IPB] == Dinode(v.fs.inodes[n], v.kinds[n], v.nlinks[n]);
  }

  /** If the way of writing cells loses nothing, the disk determines the volume. */
  lemma DiskDetermines(sh: Shape, code: Cell -> F.Block, v: Vol, w: Vol)
    requires sh.Valid() && sh.Fits(v) && sh.Fits(w) && F.SameHome(sh.l, OnDisk(sh, code, v), OnDisk(sh, code, w))
    requires forall x, y :: code(x) == code(y) ==> x == y
    requires Mirrors(v.bitmap, v.fs.bits) && Mirrors(w.bitmap, w.fs.bits) && |v.fs.bits| == |w.fs.bits|
    ensures w.bitmap == v.bitmap && w.fs.bits == v.fs.bits && w.fs.inodes == v.fs.inodes
    ensures w.kinds == v.kinds && w.nlinks == v.nlinks
    ensures forall b :: sh.nmeta <= b < sh.l.size ==> w.fs.blocks[b] == v.fs.blocks[b]
  {
    forall b: nat | b < sh.l.size && sh.l.Home(b) ensures CellOf(sh, w, b) == CellOf(sh, v, b) {
      assert OnDisk(sh, code, v)[b] == OnDisk(sh, code, w)[b];
    }
    forall i: nat | i < |v.bitmap| ensures w.bitmap[i] == v.bitmap[i] {
      assert CellOf(sh, w, sh.bmapstart + i) == CellOf(sh, v, sh.bmapstart + i);
    }
    forall b: nat | sh.nmeta <= b < sh.l.size ensures w.fs.blocks[b] == v.fs.blocks[b] {
      assert CellOf(sh, w, b) == CellOf(sh, v, b);
    }
    forall n: nat | n < sh.ninodes
      ensures w.fs.inodes[n] == v.fs.inodes[n] && w.kinds[n] == v.kinds[n] && w.nlinks[n] == v.nlinks[n]
    {
      SameDinode(sh, v, w, n);
    }
    SameBits(v.bitmap, v.fs.bits, w.fs.bits);
  }

  lemma SameBits(m: Bitmap, a: seq<bool>, b: seq<bool>)
    requires Mirrors(m, a) && Mirrors(m, b) && |a| == |b|
    ensures a == b
  {
    hide Bit;
  }

  lemma SameDinode(sh: Shape, v: Vol, w: Vol, n: nat)
    requires sh.Valid() && sh.Fits(v) && sh.Fits(w) && n < sh.ninodes
    requires var b := sh.inodestart + n / IPB; CellOf(sh, w, b) == CellOf(sh, v, b)
    ensures w.fs.inodes[n] == v.fs.inodes[n] && w.kinds[n] == v.kinds[n] && w.nlinks[n] == v.nlinks[n]
  {
    var k, i := n / IPB, n % IPB;
    assert n == k * IPB + i;
    assert InodesOf(w, k) == InodesOf(v, k);
    assert InodesOf(v, k)[i] == Dinode(v.fs.inodes[n], v.kinds[n], v.nlinks[n]);
    assert InodesOf(w, k)[i] == Dinode(w.fs.inodes[n], w.kinds[n], w.nlinks[n]);
  }

  /** What the system calls keep. */
  ghost predicate GoodVol(v: Vol) {
    && (exists own :: Owned(v.fs, own)) && Mirrors(v.bitmap, v.fs.bits) && NodesOk(v)
    && exists depth :: TreeOk(v, depth)
  }

  /** A volume that the methods of `Files` leave is one of these. */
  lemma FilesAreGood(files: Files)
    requires files.Valid()
    ensures GoodVol(files.Now())
  {
    hide Owned, Mirrors, NodesOk, TreeOk, Logged;
  }

  ghost predicate GoodDisk(sh: Shape, code: Cell -> F.Block, d: F.Disk) {
    exists v :: GoodVol(v) && sh.Fits(v) && F.SameHome(sh.l, d, OnDisk(sh, code, v))
  }

  ghost function Good(sh: Shape, code: Cell -> F.Block): F.Disk -> bool {
    d => GoodDisk(sh, code, d)
  }

  lemma GoodOfHome(sh: Shape, code: Cell -> F.Block)
    ensures C.OfHome(sh.l, Good(sh, code))
  {
    forall d: F.Disk, e: F.Disk | F.SameHome(sh.l, d, e) && Good(sh, code)(d) ensures Good(sh, code)(e) {
      var v :| GoodVol(v) && sh.Fits(v) && F.SameHome(sh.l, d, OnDisk(sh, code, v));
      assert F.SameHome(sh.l, e, OnDisk(sh, code, v));
    }
  }

  /** Crash safety of the file system: if the disk recovered at boot holds a sound volume, so
      does the disk recovered after any run of operations, commits, crashes and cut recoveries,
      as long as each operation turns a sound volume into a sound one. */
  lemma EveryCrashLeavesGood(sh: Shape, code: Cell -> F.Block, boot: R.State, moves: seq<C.Move>, s: R.State,
                             c: C.Client)
    requires R.Boot(boot) && boot.l == sh.l && GoodDisk(sh, code, F.Recovered(boot.l, boot.disk))
    requires C.ClientRun(boot, C.Idle, moves, s, c, Good(sh, code))
    ensures F.HeadOk(s.l, s.disk) && GoodDisk(sh, code, F.Recovered(s.l, s.disk))
    ensures c.Idle? && !s.phase.Recovering? ==> GoodDisk(sh, code, s.view)
  {
    GoodOfHome(sh, code);
    hide GoodDisk, C.ClientRun, C.OfHome, R.Boot;
    C.RecoveredIsGood(boot, moves, s, c, Good(sh, code));
  }

  // ---------- from a system call to its log_writes ----------

  ghost function Shifted(s: set<nat>, k: nat): set<nat> {
    set i | i in s :: k + i
  }

  lemma {:induction false} ShiftedSize(s: set<nat>, k: nat)
    ensures |Shifted(s, k)| <= |s|
  {
    if i :| i in s {
      ShiftedSize(s - {i}, k);
      forall b | b in Shifted(s, k) ensures b in Shifted(s - {i}, k) + {k + i} {
        var j :| j in s && k + j == b;
        assert j != i ==> j in s - {i};
      }
      SubsetSize(Shifted(s, k), Shifted(s - {i}, k) + {k + i});
    } else {
      assert Shifted(s, k) == {};
    }
  }

  /** The disk blocks of what an operation logged. */
  ghost function LoggedBlocks(sh: Shape, marked: set<nat>, written: set<nat>, inodes: set<nat>): set<nat> {
    set b | b in written + Shifted(marked, sh.bmapstart) + Shifted(inodes, sh.inodestart) && sh.l.Home(b)
  }

  lemma FewBlocks(sh: Shape, marked: set<nat>, written: set<nat>, inodes: set<nat>)
    ensures |LoggedBlocks(sh, marked, written, inodes)| <= |marked| + |written| + |inodes|
  {
    var all := written + Shifted(marked, sh.bmapstart) + Shifted(inodes, sh.inodestart);
    ShiftedSize(marked, sh.bmapstart);
    ShiftedSize(inodes, sh.inodestart);
    SubsetSize(LoggedBlocks(sh, marked, written, inodes), all);
  }

  /** A block of the disk that was not logged is as it was. */
  lemma OnlyLoggedDiffer(sh: Shape, code: Cell -> F.Block, v: Vol, v': Vol, marked: set<nat>, written: set<nat>,
                         inodes: set<nat>, b: nat)
    requires sh.Fits(v) && sh.Fits(v') && Recorded(v, v', marked, written, inodes) && b < sh.l.size
    requires OnDisk(sh, code, v)[b] != OnDisk(sh, code, v')[b]
    ensures b in written + Shifted(marked, sh.bmapstart) + Shifted(inodes, sh.inodestart)
  {
    if sh.inodestart <= b < sh.bmapstart && b < sh.nmeta {
      var k := b - sh.inodestart;
      if k !in inodes && k * IPB <= sh.ninodes {
        SameInodes(v, v', marked, written, inodes, k);
      }
    }
  }

  lemma SameInodes(v: Vol, v': Vol, marked: set<nat>, written: set<nat>, inodes: set<nat>, k: nat)
    requires Recorded(v, v', marked, written, inodes) && k !in inodes
    requires |v.fs.inodes| == |v.kinds| == |v.nlinks| && |v'.fs.inodes| == |v'.kinds| == |v'.nlinks|
    requires k * IPB <= |v.kinds|
    ensures InodesOf(v', k) == InodesOf(v, k)
  {
    forall i | 0 <= i < |InodesOf(v, k)| ensures InodesOf(v', k)[i] == InodesOf(v, k)[i] {
      assert (k * IPB + i) / IPB == k;
    }
  }

  /** A system call that ends within its reservation, run as a client of the log: whenever it is
      its turn it can log every block in which its volume differs, and bread then shows that
      volume. */
  lemma SystemCallRuns(sh: Shape, code: Cell -> F.Block, s: R.State, op: nat, v: Vol, v': Vol,
                       marked: set<nat>, written: set<nat>, inodes: set<nat>)
    returns (moves: seq<C.Move>, t: R.State)
    requires sh.Fits(v) && sh.Fits(v') && GoodVol(v') && Recorded(v, v', marked, written, inodes)
    requires |marked| + |written| + |inodes| <= MAXOPBLOCKS
    requires s.l == sh.l && C.ClientInv(s, C.Idle, Good(sh, code)) && s.phase.Running?
    requires op in s.open && s.open[op] == 0 && F.SameHome(sh.l, s.view, OnDisk(sh, code, v))
    requires R.InUse(s) + |marked| + |written| + |inodes| <= NBUF
    ensures C.ClientRun(s, C.Idle, moves, t, C.Idle, Good(sh, code)) && C.ClientInv(t, C.Idle, Good(sh, code))
    ensures t.l == sh.l && F.SameHome(sh.l, t.view, OnDisk(sh, code, v'))
  {
    var to := OnDisk(sh, code, v');
    var D := LoggedBlocks(sh, marked, written, inodes);
    FewBlocks(sh, marked, written, inodes);
    GoodOfHome(sh, code);
    assert F.SameHome(sh.l, to, OnDisk(sh, code, v'));
    assert Good(sh, code)(to);
    forall b: nat | C.Differ(sh.l, s.view, to, b) ensures b in D {
      OnlyLoggedDiffer(sh, code, v, v', marked, written, inodes, b);
    }
    hide GoodDisk, Good, C.ClientInv, C.OfHome, C.ClientRun, OnDisk, LoggedBlocks, Recorded, GoodVol;
    moves, t := C.OperationRuns(s, Good(sh, code), op, to, D);
  }
}
