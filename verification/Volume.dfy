/** The file system as one thing: the directories of `Links` as the content of files of `FsOps`,
    with type and link count in the inodes. The system calls on it keep both invariants and log
    what they change; so does every disk that a crash can leave. */
module Volume {
  import opened Common
  import opened Params
  import opened FsLayout
  import opened FsBitmap
  import opened FsOps
  import opened DirFormat
  import L = Links

  const MAXINODES := 0x1_0000   // dirent.inum is a ushort

  datatype Vol = Vol(fs: Fs, bitmap: Bitmap, kinds: seq<L.Kind>, nlinks: seq<int>)

  /** Directories are whole entries, and free inodes own nothing. */
  ghost predicate NodeOk(v: Vol, n: nat)
    requires NoHoles(v.fs) && n < |v.fs.inodes| && n < |v.kinds|
  {
    && (v.kinds[n] == L.Dir ==> |Content(v.fs, n)| % DIRENT == 0)
    && (v.kinds[n] == L.Free ==> v.fs.inodes[n] == Blank())
  }

  ghost predicate NodesOk(v: Vol) {
    && NoHoles(v.fs) && |v.kinds| == |v.nlinks| == |v.fs.inodes| <= MAXINODES
    && forall n :: 0 <= n < |v.kinds| ==> NodeOk(v, n)
  }

  /** Inode n as `Links` sees it. */
  ghost function NodeOf(v: Vol, n: nat): L.Inode
    requires NodesOk(v) && n < |v.kinds|
  {
    L.Inode(v.kinds[n], v.nlinks[n], if v.kinds[n] == L.Dir then Slots(Content(v.fs, n)) else [])
  }

  ghost function Ns(v: Vol): (ns: seq<L.Inode>)
    requires NodesOk(v)
    ensures |ns| == |v.kinds| && forall n :: 0 <= n < |ns| ==> ns[n] == NodeOf(v, n)
  {
    seq(|v.kinds|, n requires 0 <= n < |v.kinds| => NodeOf(v, n))
  }

  function Zeros(n: nat): seq<nat> { seq(n, _ => 0) }

  ghost predicate TreeOk(v: Vol, depth: seq<nat>)
    requires NodesOk(v)
  {
    L.Consistent(Ns(v), Zeros(|v.kinds|), depth) && L.Shorts(Ns(v))
  }

  // ---------- what an operation does to the nodes ----------

  /** Only inodes of `s` have changed. */
  ghost predicate SameBut(v: Vol, v': Vol, s: set<nat>)
    requires NoHoles(v.fs) && NoHoles(v'.fs)
  {
    && |v'.kinds| == |v.kinds| && |v'.nlinks| == |v.nlinks| && SameFiles(v.fs, v'.fs, s)
    && forall m: nat :: m < |v.kinds| && m < |v.nlinks| && m !in s ==>
         v'.kinds[m] == v.kinds[m] && v'.nlinks[m] == v.nlinks[m]
  }

  lemma NodesKept(v: Vol, v': Vol, s: set<nat>)
    requires NodesOk(v) && NoHoles(v'.fs) && SameBut(v, v', s)
    requires forall m: nat :: m in s && m < |v.kinds| ==> NodeOk(v', m)
    ensures NodesOk(v') && |Ns(v')| == |Ns(v)|
    ensures forall m: nat :: m < |v.kinds| && m !in s ==> Ns(v')[m] == Ns(v)[m]
  {
    hide Content, Slots;
    forall m: nat | m < |v'.kinds| ensures NodeOk(v', m) {
      if m !in s { assert NodeOk(v, m); }
    }
  }

  /** Directory d with an entry stored at slot k. */
  lemma EntryPut(v: Vol, v': Vol, d: nat, k: nat, de: seq<nat>)
    requires NodesOk(v) && NoHoles(v'.fs) && d < |v.kinds| == |v'.kinds| == |v'.fs.inodes| && |de| == DIRENT
    requires v.kinds[d] == v'.kinds[d] == L.Dir && k <= |NodeOf(v, d).entries|
    requires k * DIRENT <= |Content(v.fs, d)| && Content(v'.fs, d) == Overwrite(Content(v.fs, d), k * DIRENT, de)
    ensures NodeOk(v', d) && k <= |Slots(Content(v.fs, d))|
    ensures Slots(Content(v'.fs, d)) == L.Place(NodeOf(v, d).entries, k, Decode(de))
  {
    assert NodeOk(v, d);
    hide Content, Slots, Overwrite, Decode;
    SlotsPut(Content(v.fs, d), k, de);
  }

  lemma NodesTwo(v: Vol, v': Vol, i: nat, d: nat)
    requires NodesOk(v) && NoHoles(v'.fs) && SameBut(v, v', {i, d}) && i < |v.kinds| && d < |v.kinds| && i != d
    requires NodeOk(v', i) && NodeOk(v', d)
    ensures NodesOk(v') && Ns(v') == Ns(v)[i := NodeOf(v', i)][d := NodeOf(v', d)]
  {
    hide Content, Slots, NodeOk;
    NodesKept(v, v', {i, d});
    hide SameBut, NodeOf;
  }

  /** sys_link on the nodes. */
  lemma NodesLinked(v: Vol, v': Vol, i: nat, d: nat, k: nat, name: string, nlink: int)
    requires NodesOk(v) && NoHoles(v'.fs) && SameBut(v, v', {i, d}) && Legal(name)
    requires i < |v.kinds| && d < |v.kinds| && v.kinds[i] != L.Dir && v.kinds[i] != L.Free && v.kinds[d] == L.Dir
    requires v'.kinds == v.kinds && v'.nlinks == v.nlinks[i := nlink] && k <= |NodeOf(v, d).entries|
    requires k * DIRENT <= |Content(v.fs, d)|
    requires Content(v'.fs, d) == Overwrite(Content(v.fs, d), k * DIRENT, Encode(i, name))
    ensures NodesOk(v')
    ensures Ns(v') == L.LinkResult(Ns(v)[i := Ns(v)[i].(nlink := nlink)], d, k, i, name)
  {
    EntryPut(v, v', d, k, Encode(i, name));
    DirentRoundTrip(i, name);
    hide Content, Slots, Overwrite, Decode, Encode, L.Place;
    NodesTwo(v, v', i, d);
    hide SameBut, NoHoles;
    assert NodeOf(v', i) == NodeOf(v, i).(nlink := nlink);
    assert NodeOf(v', d) == L.Entered(NodeOf(v, d), k, i, name, v.nlinks[d]);
  }

  /** create() on the nodes. */
  lemma NodesCreated(v: Vol, v': Vol, i: nat, d: nat, k: nat, name: string, kind: L.Kind)
    requires NodesOk(v) && NoHoles(v'.fs) && SameBut(v, v', {i, d}) && Legal(name) && kind != L.Free
    requires i < |v.kinds| && d < |v.kinds| && v.kinds[i] == L.Free && v.kinds[d] == L.Dir
    requires k <= |NodeOf(v, d).entries| && k * DIRENT <= |Content(v.fs, d)|
    requires v'.kinds == v.kinds[i := kind]
    requires v'.nlinks == v.nlinks[i := 1][d := L.Raised(kind, v.nlinks[d])]
    requires Content(v'.fs, d) == Overwrite(Content(v.fs, d), k * DIRENT, Encode(i, name))
    requires Content(v'.fs, i) == if kind == L.Dir then Encode(i, ".") + Encode(d, "..") else []
    ensures NodesOk(v') && Ns(v') == L.CreateResult(Ns(v), kind, d, k, i, name)
  {
    EntryPut(v, v', d, k, Encode(i, name));
    DirentRoundTrip(i, name);
    NewNode(v, v', i, d, kind);
    hide Content, Slots, Overwrite, Decode, Encode, L.Place, L.Fresh, L.Raised;
    NodesTwo(v, v', i, d);
    hide SameBut, NoHoles;
    assert NodeOf(v', d) == L.Entered(NodeOf(v, d), k, i, name, L.Raised(kind, v.nlinks[d]));
  }

  lemma DotEntries(i: nat, d: nat)
    requires i < MAXINODES && d < MAXINODES
    ensures Legal(".") && Legal("..") && |Encode(i, ".") + Encode(d, "..")| % DIRENT == 0
    ensures Slots(Encode(i, ".") + Encode(d, "..")) == [L.Dirent(i, "."), L.Dirent(d, "..")]
  {
    DotsLegal();
    hide Legal, Encode, Decode, Slots;
    DirentRoundTrip(i, ".");
    DirentRoundTrip(d, "..");
    SlotsDots(Encode(i, "."), Encode(d, ".."));
  }

  lemma NewNode(v: Vol, v': Vol, i: nat, d: nat, kind: L.Kind)
    requires NodesOk(v) && NoHoles(v'.fs) && i < |v.kinds| && d < |v.kinds| && kind != L.Free
    requires i < |v'.kinds| && i < |v'.nlinks| && i < |v'.fs.inodes| && v'.kinds[i] == kind && v'.nlinks[i] == 1
    requires Content(v'.fs, i) == if kind == L.Dir then Encode(i, ".") + Encode(d, "..") else []
    ensures NodeOk(v', i)
    ensures L.Fresh(kind, i, d) ==
      L.Inode(v'.kinds[i], v'.nlinks[i], if v'.kinds[i] == L.Dir then Slots(Content(v'.fs, i)) else [])
  {
    DotEntries(i, d);
    hide Content, Slots, Encode, Legal;
  }

  lemma EntryErased(v: Vol, v': Vol, d: nat, k: nat)
    requires NodesOk(v) && NoHoles(v'.fs) && d < |v.kinds| == |v'.kinds| == |v'.nlinks| == |v'.fs.inodes|
    requires v.kinds[d] == v'.kinds[d] == L.Dir && k < |NodeOf(v, d).entries| && k * DIRENT <= |Content(v.fs, d)|
    requires Content(v'.fs, d) == Overwrite(Content(v.fs, d), k * DIRENT, NoEntry())
    ensures NodeOk(v', d)
    ensures L.Inode(L.Dir, v'.nlinks[d], Slots(Content(v'.fs, d))) == L.Erased(NodeOf(v, d), k, v'.nlinks[d])
  {
    hide NoEntry, Content, Slots, Overwrite, Decode;
    EntryPut(v, v', d, k, NoEntry());
    ZeroDirent();
  }

  lemma NodeCounted(v: Vol, v': Vol, i: nat, freed: bool)
    requires NodesOk(v) && NoHoles(v'.fs) && i < |v.kinds| == |v'.kinds| == |v'.nlinks| == |v'.fs.inodes|
    requires v'.kinds[i] == if freed then L.Free else v.kinds[i]
    requires if freed then v'.fs.inodes[i] == Blank() else Content(v'.fs, i) == Content(v.fs, i) && v.kinds[i] != L.Free
    ensures NodeOk(v', i)
    ensures L.Inode(v'.kinds[i], v'.nlinks[i], if v'.kinds[i] == L.Dir then Slots(Content(v'.fs, i)) else []) ==
      if freed then L.Inode(L.Free, v'.nlinks[i], []) else NodeOf(v, i).(nlink := v'.nlinks[i])
  {
    assert NodeOk(v, i);
    hide Content, Slots, Blank;
  }

  /** sys_unlink on the nodes; `freed` when the inode goes with its last link. */
  lemma NodesUnlinked(v: Vol, v': Vol, i: nat, d: nat, k: nat, freed: bool)
    requires NodesOk(v) && NoHoles(v'.fs) && SameBut(v, v', {i, d}) && i != d
    requires i < |v.kinds| && d < |v.kinds| && v.kinds[i] != L.Free && v.kinds[d] == v'.kinds[d] == L.Dir
    requires k < |NodeOf(v, d).entries| && k * DIRENT <= |Content(v.fs, d)|
    requires v'.nlinks[d] == if v.kinds[i] == L.Dir then L.Short(v.nlinks[d] - 1) else v.nlinks[d]
    requires v'.nlinks[i] == if freed then 0 else L.Short(v.nlinks[i] - 1)
    requires v'.kinds[i] == if freed then L.Free else v.kinds[i]
    requires Content(v'.fs, d) == Overwrite(Content(v.fs, d), k * DIRENT, NoEntry())
    requires if freed then v'.fs.inodes[i] == Blank() else Content(v'.fs, i) == Content(v.fs, i)
    ensures NodesOk(v') && Ns(v') == Unlinked(Ns(v), d, k, i, freed)
  {
    EntryErased(v, v', d, k);
    NodeCounted(v, v', i, freed);
    hide Content, Slots, Overwrite, Decode, NoEntry, Blank, NodeOk, L.Short, L.Erased, NoHoles, Unlinked;
    NodesTwo(v, v', i, d);
    hide SameBut;
    UnlinkedSeq(Ns(v), d, k, i, freed, NodeOf(v', i), NodeOf(v', d));
  }

  ghost function Unlinked(ns: seq<L.Inode>, d: nat, k: nat, i: nat, freed: bool): (r: seq<L.Inode>)
    requires d < |ns| && k < |ns[d].entries| && i < |ns| && i != d
  {
    if freed then L.UnlinkResult(ns, d, k, i)[i := L.UNUSED] else L.UnlinkResult(ns, d, k, i)
  }

  lemma UnlinkedSeq(ns: seq<L.Inode>, d: nat, k: nat, i: nat, freed: bool, x: L.Inode, y: L.Inode)
    requires d < |ns| && k < |ns[d].entries| && i < |ns| && i != d
    requires x == if freed then L.UNUSED else ns[i].(nlink := L.Short(ns[i].nlink - 1))
    requires y == L.Erased(ns[d], k, if ns[i].kind == L.Dir then L.Short(ns[d].nlink - 1) else ns[d].nlink)
    ensures ns[i := x][d := y] == Unlinked(ns, d, k, i, freed)
  {
    hide L.Short, L.Erased;
  }

  /** Writing or truncating a file leaves every node as it was. */
  lemma NodesSame(v: Vol, v': Vol, n: nat)
    requires NodesOk(v) && NoHoles(v'.fs) && SameBut(v, v', {n}) && n < |v.kinds|
    requires v'.kinds == v.kinds && v'.nlinks == v.nlinks && v.kinds[n] != L.Dir && v.kinds[n] != L.Free
    ensures NodesOk(v') && Ns(v') == Ns(v)
  {
    hide Content, Slots;
    NodesKept(v, v', {n});
  }

  /** iput() of the last reference to an inode without links. */
  lemma NodesFreed(v: Vol, v': Vol, i: nat)
    requires NodesOk(v) && NoHoles(v'.fs) && SameBut(v, v', {i}) && i < |v.kinds|
    requires v'.kinds == v.kinds[i := L.Free] && v'.nlinks == v.nlinks[i := 0] && v'.fs.inodes[i] == Blank()
    ensures NodesOk(v') && Ns(v') == Ns(v)[i := L.UNUSED]
  {
    hide Content, Slots, Blank;
    NodesKept(v, v', {i});
  }

  /** An operation that found no room leaves the nodes as they were, but for inode i if that went
      with it. */
  lemma NodesFailed(v: Vol, v': Vol, i: nat, d: nat, freed: bool)
    requires NodesOk(v) && NoHoles(v'.fs) && SameBut(v, v', {i, d}) && i != d
    requires i < |v.kinds| && d < |v.kinds| && v.kinds[d] == L.Dir && Content(v'.fs, d) == Content(v.fs, d)
    requires v'.kinds == (if freed then v.kinds[i := L.Free] else v.kinds)
    requires v'.nlinks == (if freed then v.nlinks[i := 0] else v.nlinks)
    requires if freed then v'.fs.inodes[i] == Blank() else Content(v'.fs, i) == Content(v.fs, i)
    requires !freed ==> v.kinds[i] != L.Free
    ensures NodesOk(v') && Ns(v') == if freed then Ns(v)[i := L.UNUSED] else Ns(v)
  {
    assert NodeOk(v, i) && NodeOk(v, d) && NodeOk(v', i) && NodeOk(v', d);
    hide Content, Slots, Blank, NodeOk;
    NodesTwo(v, v', i, d);
    hide SameBut, NoHoles;
  }

  // ---------- what it does to the tree ----------

  /** A whole sys_link keeps the tree exactly when the directory is still linked and the count
      has room. */
  lemma LinkedTree(v: Vol, depth: seq<nat>, i: nat, d: nat, k: nat, name: string, v': Vol)
    requires NodesOk(v) && NodesOk(v') && TreeOk(v, depth) && L.CanEnter(Ns(v), d, k, name) && i < |v.kinds|
    requires v.kinds[i] != L.Free && v.kinds[i] != L.Dir && |v'.kinds| == |v.kinds|
    requires Ns(v') == L.LinkResult(L.CountedUp(Ns(v), i), d, k, i, name)
    ensures TreeOk(v', depth) <==> L.Linked(Ns(v), d) && v.nlinks[i] < 0x7fff
  {
    var ns := Ns(v);
    assert ns[i].nlink == v.nlinks[i];
    hide L.Consistent, L.Linked, L.Place, NodeOf, Ns;
    LinkedShorts(ns, i, d, k, name);
    L.WholeLinkKeeps(ns, Zeros(|v.kinds|), depth, d, k, i, name);
  }

  lemma LinkedShorts(ns: seq<L.Inode>, i: nat, d: nat, k: nat, name: string)
    requires L.Shorts(ns) && i < |ns| && d < |ns| && k <= |ns[d].entries|
    ensures L.Shorts(L.LinkResult(L.CountedUp(ns, i), d, k, i, name))
    ensures ns[i].nlink < 0x8000
  {
    hide L.Place;
  }

  /** create(). */
  lemma CreatedTree(v: Vol, depth: seq<nat>, kind: L.Kind, d: nat, k: nat, i: nat, name: string, v': Vol)
    requires NodesOk(v) && NodesOk(v') && TreeOk(v, depth) && L.CanCreate(Ns(v), kind, d, k, i, name)
    requires Ns(v') == L.CreateResult(Ns(v), kind, d, k, i, name) && |v'.kinds| == |v.kinds|
    ensures |depth| == |v.kinds|
    ensures TreeOk(v', depth[i := depth[d] + 1]) <==> L.RoomToCount(Ns(v), kind, d)
  {
    var ns := Ns(v);
    L.At(ns, Zeros(|v.kinds|), depth, i);
    hide L.Consistent, L.Place, NodeOf, Ns, L.RoomToCount, L.Fresh;
    CreatedShorts(ns, kind, d, k, i, name);
    L.CreateKeeps(ns, Zeros(|v.kinds|), depth, kind, d, k, i, name);
  }

  lemma CreatedShorts(ns: seq<L.Inode>, kind: L.Kind, d: nat, k: nat, i: nat, name: string)
    requires L.Shorts(ns) && i < |ns| && d < |ns| && k <= |ns[d].entries|
    ensures L.Shorts(L.CreateResult(ns, kind, d, k, i, name)) && ns[d].nlink < 0x8000
  {
    hide L.Place;
  }

  /** sys_unlink. */
  lemma UnlinkedTree(v: Vol, depth: seq<nat>, d: nat, k: nat, i: nat, freed: bool, v': Vol)
    requires NodesOk(v) && NodesOk(v') && TreeOk(v, depth) && L.CanUnlink(Ns(v), d, k, i) && i != d
    requires Ns(v') == Unlinked(Ns(v), d, k, i, freed)
    requires |v'.kinds| == |v.kinds| && (freed ==> v.nlinks[i] == 1)
    ensures TreeOk(v', depth)
  {
    var ns := Ns(v);
    assert ns[i].nlink == v.nlinks[i];
    hide L.Consistent, L.Shorts, NodeOf, Ns;
    L.WholeUnlinkKeeps(ns, Zeros(|v.kinds|), depth, d, k, i, freed);
  }

  /** iput() of an inode without links. */
  lemma FreedTree(v: Vol, depth: seq<nat>, i: nat, v': Vol)
    requires NodesOk(v) && NodesOk(v') && TreeOk(v, depth) && i < |v.kinds| == |v'.kinds|
    requires v.kinds[i] != L.Free && v.nlinks[i] == 0 && Ns(v') == Ns(v)[i := L.UNUSED]
    ensures TreeOk(v', depth)
  {
    hide L.Consistent;
    L.ReclaimKeeps(Ns(v), Zeros(|v.kinds|), depth, i);
  }

  // ---------- the system calls ----------

  /** Whatever differs lies in a block that was logged, types and counts included. */
  ghost predicate Recorded(v: Vol, v': Vol, marked: set<nat>, written: set<nat>, inodes: set<nat>) {
    && Logged(v.fs, v.bitmap, v'.fs, v'.bitmap, marked, written, inodes)
    && |v'.kinds| == |v.kinds| && |v'.nlinks| == |v.nlinks|
    && forall n: nat :: n < |v.kinds| && n < |v.nlinks| && n / IPB !in inodes ==>
         v'.kinds[n] == v.kinds[n] && v'.nlinks[n] == v.nlinks[n]
  }

  ghost predicate SameContent(fs: Fs, fs': Fs, n: nat) {
    && NoHoles(fs) && NoHoles(fs') && n < |fs.inodes| && n < |fs'.inodes| && Content(fs', n) == Content(fs, n)
  }

  /** Files and directories on disk. Every method is a system call's operation, with nothing
      else between its begin_op and end_op. */
  class Files {
    const f: FileSystem
    var kinds: seq<L.Kind>
    var nlinks: seq<int>
    ghost var depth: seq<nat>

    ghost function Now(): Vol
      reads this, f
    {
      Vol(f.fs, f.bitmap, kinds, nlinks)
    }

    ghost predicate Sound()
      reads this, f
    {
      f.Valid() && NodesOk(Now())
    }

    ghost predicate Valid()
      reads this, f
    {
      Sound() && TreeOk(Now(), depth)
    }

    /** A disk that was sound when it was mounted. */
    constructor (f: FileSystem, kinds: seq<L.Kind>, nlinks: seq<int>, ghost depth: seq<nat>)
      requires f.Valid()
      requires var v := Vol(f.fs, f.bitmap, kinds, nlinks); NodesOk(v) && TreeOk(v, depth)
      ensures Valid() && this.f == f && Now() == Vol(f.fs, f.bitmap, kinds, nlinks)
    {
      this.f, this.kinds, this.nlinks, this.depth := f, kinds, nlinks, depth;
    }

    /** Entry k of directory d, read as dirlookup() and dirlink() do. */
    method ReadEntry(d: nat, k: nat) returns (e: L.Dirent)
      requires Sound() && d < |kinds| && kinds[d] == L.Dir && k < f.fs.inodes[d].size / DIRENT
      modifies f`fs, f`bitmap, f`own, f`marked, f`written
      ensures Sound() && Now() == old(Now()) && f.own == old(f.own)
      ensures f.marked == old(f.marked) && f.written == old(f.written)
      ensures |NodeOf(Now(), d).entries| == f.fs.inodes[d].size / DIRENT
      ensures e == NodeOf(Now(), d).entries[k]
    {
      hide FileSystem.Valid, Decode;
      EntryWithin(Now(), d, k);
      var b := f.Readi(d, k * DIRENT, DIRENT);
      assert b == Content(f.fs, d)[k * DIRENT..(k + 1) * DIRENT];
      e := Decode(b);
    }

    /** dirlookup(): the first entry in use with the name, or one past the end. */
    method Find(d: nat, name: string) returns (k: nat)
      requires Sound() && d < |kinds| && kinds[d] == L.Dir
      modifies f`fs, f`bitmap, f`own, f`marked, f`written
      ensures Sound() && Now() == old(Now()) && f.own == old(f.own)
      ensures f.marked == old(f.marked) && f.written == old(f.written)
      ensures var es := NodeOf(Now(), d).entries;
        && k <= |es| && (k < |es| ==> es[k].inum != 0 && es[k].name == name)
        && (k < |es| <==> L.Present(es, name)) && (k < |es| ==> L.Lookup(es, name) == Some(es[k].inum))
    {
      hide FileSystem.Valid, NodesOk, NodeOf;
      ghost var v := Now();
      DirSize(v, d);
      k := 0;
      while k < f.fs.inodes[d].size / DIRENT
        invariant Sound() && Now() == v && f.own == old(f.own)
        invariant f.marked == old(f.marked) && f.written == old(f.written)
        invariant k <= f.fs.inodes[d].size / DIRENT == |NodeOf(v, d).entries|
        invariant forall l :: 0 <= l < k ==> NodeOf(v, d).entries[l].inum == 0 || NodeOf(v, d).entries[l].name != name
      {
        var e := ReadEntry(d, k);
        if e.inum != 0 && e.name == name {
          L.LookupFirst(NodeOf(v, d).entries, name, k);
          return;
        }
        k := k + 1;
      }
    }

    /** dirlink()'s search for an empty entry, one past the end if there is none. */
    method FindFree(d: nat) returns (k: nat)
      requires Sound() && d < |kinds| && kinds[d] == L.Dir
      modifies f`fs, f`bitmap, f`own, f`marked, f`written
      ensures Sound() && Now() == old(Now()) && f.own == old(f.own)
      ensures f.marked == old(f.marked) && f.written == old(f.written)
      ensures k == L.SlotFor(NodeOf(Now(), d).entries)
    {
      hide FileSystem.Valid, NodesOk, NodeOf;
      ghost var v := Now();
      DirSize(v, d);
      k := 0;
      while k < f.fs.inodes[d].size / DIRENT
        invariant Sound() && Now() == v && f.own == old(f.own)
        invariant f.marked == old(f.marked) && f.written == old(f.written)
        invariant k <= f.fs.inodes[d].size / DIRENT == |NodeOf(v, d).entries|
        invariant forall l :: 0 <= l < k ==> NodeOf(v, d).entries[l].inum != 0
      {
        var e := ReadEntry(d, k);
        if e.inum == 0 {
          return;
        }
        k := k + 1;
      }
    }

    /** isdirempty(). */
    method IsDirEmpty(i: nat) returns (r: bool)
      requires Sound() && i < |kinds| && kinds[i] == L.Dir
      modifies f`fs, f`bitmap, f`own, f`marked, f`written
      ensures Sound() && Now() == old(Now()) && f.own == old(f.own)
      ensures f.marked == old(f.marked) && f.written == old(f.written)
      ensures r <==> L.OnlyDots(NodeOf(Now(), i).entries)
    {
      hide FileSystem.Valid, NodesOk, NodeOf;
      ghost var v := Now();
      DirSize(v, i);
      var k := 2;
      while k < f.fs.inodes[i].size / DIRENT
        invariant Sound() && Now() == v && f.own == old(f.own)
        invariant f.marked == old(f.marked) && f.written == old(f.written)
        invariant 2 <= k && f.fs.inodes[i].size / DIRENT == |NodeOf(v, i).entries|
        invariant forall l :: 2 <= l < k && l < |NodeOf(v, i).entries| ==> NodeOf(v, i).entries[l].inum == 0
      {
        var e := ReadEntry(i, k);
        if e.inum != 0 {
          return false;
        }
        k := k + 1;
      }
      r := true;
    }

    /** One of filewrite()'s operations. */
    method Write(n: nat, src: seq<nat>, off: nat) returns (r: int)
      requires Valid() && n < |kinds| && kinds[n] == L.File && off < 0x1_0000_0000 && |src| <= CHUNK
      modifies this, f
      ensures Valid() && Ns(Now()) == old(Ns(Now()))
      ensures Recorded(old(Now()), Now(), f.marked, f.written, f.inodes)
      ensures |f.marked| + |f.written| + |f.inodes| <= MAXOPBLOCKS
      ensures r == -1 <==> off > old(f.fs.inodes[n].size) || off + |src| > MAXFILE * BSIZE
      ensures r == -1 ==> f.fs == old(f.fs)
      ensures r != -1 ==> 0 <= r <= |src| && Content(f.fs, n) == Overwrite(old(Content(f.fs, n)), off, src[..r])
      ensures r != -1 ==> AsRoomAllows(old(f.fs), f.fs, n, off, |src|, r)
      ensures SameFiles(old(f.fs), f.fs, {n})
    {
      hide AsRoomAllows, SameFiles, Owned, NoHoles, Mirrors, BitmapBlocks, Content, Overwrite, Logged, NodeOk, NodeOf,
        L.Consistent, L.Shorts;
      ghost var v := Now();
      r := f.WriteOp(n, src, off);
      NodesSame(v, Now(), n);
    }

    /** open() with O_TRUNC: the operation stays within its reservation exactly when the file lies
        in at most nine bitmap blocks. */
    method Truncate(n: nat)
      requires Valid() && n < |kinds| && kinds[n] == L.File
      modifies this, f
      ensures Valid() && Ns(Now()) == old(Ns(Now())) && Content(f.fs, n) == []
      ensures SameFiles(old(f.fs), f.fs, {n}) && Truncated(old(f.fs), old(f.own), n, f.fs, f.own)
      ensures Recorded(old(Now()), Now(), f.marked, f.written, f.inodes)
      ensures |f.marked| + |f.written| + |f.inodes| <= MAXOPBLOCKS <==>
        |FileBitmap(old(f.own), n)| <= MAXOPBLOCKS - 1
    {
      hide SameFiles, Owned, NoHoles, Mirrors, BitmapBlocks, Content, Logged, NodeOk, NodeOf, L.Consistent, L.Shorts,
        FileBitmap, Blank;
      ghost var v := Now();
      f.TruncOp(n);
      BlankIsEmpty(f.fs, n);
      NodesSame(v, Now(), n);
    }

    /** iput() of the last reference to an inode without links, as at the last close or at boot. */
    method Reclaim(i: nat)
      requires Valid() && i < |kinds| && kinds[i] != L.Free && nlinks[i] == 0
      modifies this, f
      ensures Valid() && Ns(Now()) == old(Ns(Now()))[i := L.UNUSED] && SameFiles(old(f.fs), f.fs, {i})
      ensures Recorded(old(Now()), Now(), f.marked, f.written, f.inodes)
      ensures |f.marked| + |f.written| + |f.inodes| == |FileBitmap(old(f.own), i)| + 1
    {
      hide SameFiles, Owned, NoHoles, Mirrors, BitmapBlocks, Content, Logged, NodeOk, NodeOf, L.Consistent, L.Shorts,
        FileBitmap, Blank;
      ghost var v := Now();
      f.RecountOp(i, true);
      kinds := kinds[i := L.Free];
      NodesFreed(v, Now(), i);
      FreedTree(v, depth, i, Now());
    }

    /** sys_link() of inode i into directory d. It fails for a directory, for a name that exists,
        and when the entry finds no room; then an inode without links that nobody else refers to
        goes with it. */
    method Link(i: nat, d: nat, name: string, last: bool) returns (ok: bool)
      requires Valid() && i < |kinds| && kinds[i] != L.Free && d < |kinds| && kinds[d] == L.Dir && Legal(name)
      modifies this, f
      ensures Sound() && Recorded(old(Now()), Now(), f.marked, f.written, f.inodes)
      ensures ok <==> old(kinds)[i] != L.Dir && old(CanAdd(d, name, 0))
      ensures ok ==>
        && L.CanEnter(old(Ns(Now())), d, old(SlotAt(d)), name)
        && Ns(Now()) == L.LinkResult(L.CountedUp(old(Ns(Now())), i), d, old(SlotAt(d)), i, name)
      ensures ok ==> (Valid() <==> L.Linked(old(Ns(Now())), d) && old(nlinks)[i] < 0x7fff)
      ensures !ok ==> Valid()
      ensures !ok ==>
        Ns(Now()) == if old(Goes(i, last)) then old(Ns(Now()))[i := L.UNUSED] else old(Ns(Now()))
      ensures ok || !last ==> |f.marked| + |f.written| + |f.inodes| <= MAXOPBLOCKS
      ensures SameFiles(old(f.fs), f.fs, {i, d})
      ensures ok || !old(Goes(i, last)) ==> SameContent(old(f.fs), f.fs, i)
    {
      hide Owned, NoHoles, Mirrors, BitmapBlocks, Content, Logged, NodeOk, NodesOk, NodeOf, TreeOk, FileBitmap, Blank,
        L.CanEnter, L.LinkResult, SameFiles, CanGrow;
      ghost var v := Now();
      if kinds[i] == L.Dir {
        Abandon(i, last);
        SameFilesSelf(f.fs, {});
        SameFilesThen(v.fs, f.fs, f.fs, {i}, {}, {i, d});
        return false;
      }
      var k := Find(d, name);
      DirSize(v, d);
      if k < f.fs.inodes[d].size / DIRENT {
        LinkBad(i, d, last);
        return false;
      }
      k := FindFree(d);
      assert L.CanEnter(Ns(v), d, k, name) by { CanEnterNow(v, d, k, name); }
      ok := LinkAt(i, d, k, name, last);
    }

    /** With the last reference to it, inode i goes: it has no links. */
    ghost predicate Goes(i: nat, last: bool)
      reads this
    {
      last && i < |nlinks| && nlinks[i] == 0
    }

    /** The slot that a new entry of directory d goes to. */
    ghost function SlotAt(d: nat): (k: nat)
      requires Sound() && d < |kinds|
      reads this, f
      ensures k <= |NodeOf(Now(), d).entries|
    {
      L.SlotFor(NodeOf(Now(), d).entries)
    }

    /** Directory d can take an entry of that name, when `more` blocks are wanted besides. */
    ghost predicate CanAdd(d: nat, name: string, more: nat)
      requires Sound() && d < |kinds|
      reads this, f
    {
      !L.Present(NodeOf(Now(), d).entries, name) && CanGrow(f.fs, d, SlotAt(d) * DIRENT, more)
    }

    /** The reference to inode i is given back before anything was written. */
    method Abandon(i: nat, last: bool)
      requires Valid() && i < |kinds| && kinds[i] != L.Free
      modifies this, f
      ensures Valid() && Recorded(old(Now()), Now(), f.marked, f.written, f.inodes)
      ensures Ns(Now()) == if old(Goes(i, last)) then old(Ns(Now()))[i := L.UNUSED] else old(Ns(Now()))
      ensures SameFiles(old(f.fs), f.fs, {i})
      ensures !old(Goes(i, last)) ==>
        SameContent(old(f.fs), f.fs, i) && |f.marked| + |f.written| + |f.inodes| <= MAXOPBLOCKS
    {
      hide Owned, NoHoles, Mirrors, BitmapBlocks, Content, Logged, NodeOk, NodesOk, NodeOf, TreeOk, FileBitmap, Blank,
        SameFiles;
      NodesSizes(Now());
      if last && nlinks[i] == 0 {
        Reclaim(i);
      } else {
        f.BeginOp();
        SameFilesSelf(f.fs, {i});
        Unchanged();
      }
    }

    /** sys_link's bad exit when nothing was written to the directory. */
    method LinkBad(i: nat, d: nat, last: bool)
      requires Valid() && i < |kinds| && kinds[i] != L.Free && d < |kinds| && kinds[d] == L.Dir && i != d
      modifies this, f
      ensures Valid() && Recorded(old(Now()), Now(), f.marked, f.written, f.inodes)
      ensures Ns(Now()) == if old(Goes(i, last)) then old(Ns(Now()))[i := L.UNUSED] else old(Ns(Now()))
      ensures !last ==> |f.marked| + |f.written| + |f.inodes| <= MAXOPBLOCKS
      ensures SameFiles(old(f.fs), f.fs, {i, d})
      ensures !old(Goes(i, last)) ==> SameContent(old(f.fs), f.fs, i)
    {
      hide SameFiles, Owned, NoHoles, Mirrors, BitmapBlocks, Content, Logged, NodeOk, NodeOf, TreeOk, FileBitmap, Blank;
      ghost var v := Now();
      var drop := last && nlinks[i] == 0;
      f.RecountOp(i, drop);
      SameFileAt(v.fs, f.fs, {i}, d);
      SameFilesSelf(f.fs, {d});
      SameFilesThen(v.fs, f.fs, f.fs, {i}, {d}, {i, d});
      Dropped(i, d, drop, v);
    }

    /** The inode goes if the operation freed its blocks. */
    method Dropped(i: nat, ghost d: nat, drop: bool, ghost v: Vol)
      requires f.Valid() && NodesOk(v) && TreeOk(v, depth) && kinds == v.kinds && nlinks == v.nlinks
      requires i < |kinds| && (!drop ==> kinds[i] != L.Free) && d < |kinds| && kinds[d] == L.Dir && i != d
      requires SameFiles(v.fs, f.fs, {i, d}) && Content(f.fs, d) == Content(v.fs, d)
      requires if drop then f.fs.inodes[i] == Blank() else Content(f.fs, i) == Content(v.fs, i)
      requires Logged(v.fs, v.bitmap, f.fs, f.bitmap, f.marked, f.written, f.inodes) && i / IPB in f.inodes
      requires drop ==> nlinks[i] == 0
      modifies `kinds
      ensures Valid() && Ns(Now()) == if drop then Ns(v)[i := L.UNUSED] else Ns(v)
      ensures Recorded(v, Now(), f.marked, f.written, f.inodes)
    {
      hide SameFiles, Owned, NoHoles, Mirrors, BitmapBlocks, Content, Logged, NodeOk, NodeOf, TreeOk, FileBitmap, Blank;
      if drop {
        kinds := kinds[i := L.Free];
      }
      FailedTree(v, Now(), depth, i, d, drop);
    }

    /** sys_link's dirlink() at an empty entry, and what follows. */
    method LinkAt(i: nat, d: nat, k: nat, name: string, last: bool) returns (ok: bool)
      requires Valid() && i < |kinds| && kinds[i] != L.Free && kinds[i] != L.Dir && Legal(name)
      requires d < |kinds| && kinds[d] == L.Dir && L.CanEnter(Ns(Now()), d, k, name)
      modifies this, f
      ensures Sound() && Recorded(old(Now()), Now(), f.marked, f.written, f.inodes)
      ensures ok <==> old(CanGrow(f.fs, d, k * DIRENT, 0))
      ensures ok ==> Ns(Now()) == L.LinkResult(L.CountedUp(old(Ns(Now())), i), d, k, i, name)
      ensures ok ==> (Valid() <==> L.Linked(old(Ns(Now())), d) && old(nlinks)[i] < 0x7fff)
      ensures !ok ==> Valid()
      ensures !ok ==>
        Ns(Now()) == if old(Goes(i, last)) then old(Ns(Now()))[i := L.UNUSED] else old(Ns(Now()))
      ensures ok || !last ==> |f.marked| + |f.written| + |f.inodes| <= MAXOPBLOCKS
      ensures SameFiles(old(f.fs), f.fs, {i, d})
      ensures ok || !old(Goes(i, last)) ==> SameContent(old(f.fs), f.fs, i)
    {
      ghost var v := Now();
      CanEnterAt(v, d, k, name);
      hide SameFiles, Owned, NoHoles, Mirrors, BitmapBlocks, Content, Overwrite, Logged, NodeOk, NodeOf, TreeOk,
        FileBitmap, Blank, Encode, L.CanEnter, L.LinkResult, L.CountedUp, L.Linked, L.Short, InDir, Ns, CanGrow;
      var drop := last && nlinks[i] == 0;
      ok := f.LinkOp(i, d, Encode(i, name), k * DIRENT, drop);
      if ok {
        Entered(i, d, k, name, v);
      } else {
        Dropped(i, d, drop, v);
      }
    }

    /** The entry was made: the link counts. */
    method Entered(i: nat, ghost d: nat, ghost k: nat, ghost name: string, ghost v: Vol)
      requires f.Valid() && NodesOk(v) && TreeOk(v, depth) && kinds == v.kinds && nlinks == v.nlinks && Legal(name)
      requires i < |kinds| && kinds[i] != L.Free && kinds[i] != L.Dir && d < |kinds| && kinds[d] == L.Dir
      requires SameFiles(v.fs, f.fs, {i, d}) && L.CanEnter(Ns(v), d, k, name) && k * DIRENT <= |Content(v.fs, d)|
      requires Content(f.fs, d) == Overwrite(Content(v.fs, d), k * DIRENT, Encode(i, name))
      requires Logged(v.fs, v.bitmap, f.fs, f.bitmap, f.marked, f.written, f.inodes) && i / IPB in f.inodes
      modifies `nlinks
      ensures Sound() && Ns(Now()) == L.LinkResult(L.CountedUp(Ns(v), i), d, k, i, name)
      ensures Valid() <==> L.Linked(Ns(v), d) && v.nlinks[i] < 0x7fff
      ensures Recorded(v, Now(), f.marked, f.written, f.inodes)
    {
      hide SameFiles, Owned, NoHoles, Mirrors, BitmapBlocks, Content, Overwrite, Logged, NodeOk, NodeOf, TreeOk,
        FileBitmap, Blank, Encode, L.CanEnter, L.LinkResult, L.CountedUp, L.Linked, L.Short, InDir, Ns;
      nlinks := nlinks[i := L.Short(nlinks[i] + 1)];
      LinkDone(v, Now(), depth, i, d, k, name);
    }

    /** ialloc()'s search, 0 for none. */
    method FreeInode() returns (i: nat)
      ensures i == 0 <==> forall j :: 1 <= j < |kinds| ==> kinds[j] != L.Free
      ensures i != 0 ==> i < |kinds| && kinds[i] == L.Free && forall j :: 1 <= j < i ==> kinds[j] != L.Free
    {
      i := 1;
      while i < |kinds|
        invariant 1 <= i && forall j :: 1 <= j < i && j < |kinds| ==> kinds[j] != L.Free
      {
        if kinds[i] == L.Free {
          return;
        }
        i := i + 1;
      }
      i := 0;
    }

    /** create() in directory d: hands back a file that has the name already, if one is asked
        for; else makes the first free inode, unless there is none or its entries find no room. */
    method Create(d: nat, name: string, kind: L.Kind) returns (r: Option<nat>)
      requires Valid() && d < |kinds| && kinds[d] == L.Dir && Legal(name) && kind != L.Free
      modifies this, f
      ensures Sound() && Recorded(old(Now()), Now(), f.marked, f.written, f.inodes)
      ensures |f.marked| + |f.written| + |f.inodes| <= MAXOPBLOCKS
      ensures r == None || old(L.Present(NodeOf(Now(), d).entries, name)) ==> Valid() && Ns(Now()) == old(Ns(Now()))
      ensures old(L.Present(NodeOf(Now(), d).entries, name)) ==>
        var i := old(L.Lookup(NodeOf(Now(), d).entries, name)).value;
        && f.fs == old(f.fs)
        && r == if kind == L.File && i < |kinds| && (kinds[i] == L.File || kinds[i] == L.Device) then Some(i) else None
      ensures !old(L.Present(NodeOf(Now(), d).entries, name)) ==>
        (r.Some? <==>
          && (exists j :: 1 <= j < |old(kinds)| && old(kinds)[j] == L.Free)
          && old(CanAdd(d, name, if kind == L.Dir then 1 else 0)))
      ensures r.Some? && !old(L.Present(NodeOf(Now(), d).entries, name)) ==>
        && 1 <= r.value < |kinds| == |old(kinds)| && (forall j :: 1 <= j < r.value ==> old(kinds)[j] != L.Free)
        && L.CanCreate(old(Ns(Now())), kind, d, old(SlotAt(d)), r.value, name)
        && Ns(Now()) == L.CreateResult(old(Ns(Now())), kind, d, old(SlotAt(d)), r.value, name)
        && (Valid() <==> L.RoomToCount(old(Ns(Now())), kind, d)) && (kind != L.Dir ==> Content(f.fs, r.value) == [])
      ensures SameFiles(old(f.fs), f.fs, if r.Some? then {d, r.value} else {d})
    {
      hide SameFiles, Owned, NoHoles, Mirrors, BitmapBlocks, Content, Logged, NodeOk, NodesOk, NodeOf, TreeOk,
        FileBitmap, Blank, L.CanEnter, L.CreateResult, L.RoomToCount, CanGrow;
      ghost var v := Now();
      var k := Find(d, name);
      DirSize(v, d);
      SameFilesSelf(f.fs, {d});
      if k < f.fs.inodes[d].size / DIRENT {
        var e := ReadEntry(d, k);
        var isFile := e.inum < |kinds| && (kinds[e.inum] == L.File || kinds[e.inum] == L.Device);
        f.BeginOp();
        Unchanged();
        SameFilesSelf(f.fs, {d, e.inum});
        return if kind == L.File && isFile then Some(e.inum) else None;
      }
      var i := FreeInode();
      if i == 0 {
        f.BeginOp();
        Unchanged();
        return None;
      }
      k := FindFree(d);
      assert L.CanEnter(Ns(v), d, k, name) by { CanEnterNow(v, d, k, name); }
      DirKind(v, i);
      var ok := CreateAt(i, d, k, name, kind);
      r := if ok then Some(i) else None;
    }

    /** create() of inode i, with its entry at an empty place. */
    method CreateAt(i: nat, d: nat, k: nat, name: string, kind: L.Kind) returns (ok: bool)
      requires Valid() && i < |kinds| && kinds[i] == L.Free && Legal(name) && kind != L.Free && i != 0
      requires d < |kinds| && kinds[d] == L.Dir && L.CanEnter(Ns(Now()), d, k, name)
      modifies this, f
      ensures Sound() && Recorded(old(Now()), Now(), f.marked, f.written, f.inodes)
      ensures |f.marked| + |f.written| + |f.inodes| <= MAXOPBLOCKS
      ensures !ok ==> Valid() && Ns(Now()) == old(Ns(Now()))
      ensures ok ==> Ns(Now()) == L.CreateResult(old(Ns(Now())), kind, d, k, i, name)
      ensures ok ==> (Valid() <==> L.RoomToCount(old(Ns(Now())), kind, d))
      ensures ok <==> old(CanGrow(f.fs, d, k * DIRENT, if kind == L.Dir then 1 else 0))
      ensures ok && kind != L.Dir ==> Content(f.fs, i) == []
      ensures SameFiles(old(f.fs), f.fs, if ok then {d, i} else {d})
    {
      ghost var v := Now();
      CanEnterAt(v, d, k, name);
      FreeNode(v, depth, i);
      DotsLegal();
      hide SameFiles, Owned, NoHoles, Mirrors, BitmapBlocks, Content, Overwrite, Logged, NodeOk, NodeOf, TreeOk,
        FileBitmap, Blank, Encode, L.CanEnter, L.CreateResult, L.RoomToCount, L.Raised, InDir, Ns, Legal, CanGrow,
        Recorded;
      ok := f.CreateOp(i, d, kind == L.Dir, Encode(i, "."), Encode(d, ".."), Encode(i, name), k * DIRENT);
      CreateEnd(ok, i, d, k, name, kind, v);
    }

    /** create() after its dirlinks. */
    method CreateEnd(ok: bool, i: nat, d: nat, ghost k: nat, ghost name: string, kind: L.Kind, ghost v: Vol)
      requires f.Valid() && NodesOk(v) && TreeOk(v, depth) && kinds == v.kinds && nlinks == v.nlinks && Legal(name)
      requires i < |kinds| && kinds[i] == L.Free && d < |kinds| && kinds[d] == L.Dir && kind != L.Free && i != 0
      requires nlinks[i] == 0 && v.fs.inodes[i] == Blank() && i != d && Legal(".") && Legal("..")
      requires SameFiles(v.fs, f.fs, {i, d}) && L.CanEnter(Ns(v), d, k, name) && k * DIRENT <= |Content(v.fs, d)|
      requires ok ==> Content(f.fs, d) == Overwrite(Content(v.fs, d), k * DIRENT, Encode(i, name))
      requires ok ==> Content(f.fs, i) == if kind == L.Dir then Encode(i, ".") + Encode(d, "..") else []
      requires !ok ==> f.fs.inodes[i] == Blank() && Content(f.fs, d) == Content(v.fs, d)
      requires Logged(v.fs, v.bitmap, f.fs, f.bitmap, f.marked, f.written, f.inodes)
      requires i / IPB in f.inodes && (ok ==> d / IPB in f.inodes)
      modifies `kinds, `nlinks, `depth
      ensures Sound() && Recorded(v, Now(), f.marked, f.written, f.inodes)
      ensures !ok ==> Valid() && Ns(Now()) == Ns(v)
      ensures ok ==> Ns(Now()) == L.CreateResult(Ns(v), kind, d, k, i, name)
      ensures ok ==> (Valid() <==> L.RoomToCount(Ns(v), kind, d))
      ensures ok && kind != L.Dir ==> Content(f.fs, i) == []
      ensures SameFiles(v.fs, f.fs, if ok then {d, i} else {d})
    {
      hide SameFiles, Owned, NoHoles, Mirrors, BitmapBlocks, Content, Overwrite, Logged, NodeOk, NodeOf, TreeOk,
        FileBitmap, Blank, Encode, L.CanEnter, L.CreateResult, L.RoomToCount, L.Raised, InDir, Ns, Legal, Recorded;
      if ok {
        assert {i, d} == {d, i};
        Made(i, d, k, name, kind, v);
      } else {
        BothBlank(v.fs, f.fs, i, d);
        FreeNode(v, depth, i);
        Dropped(i, d, true, v);
      }
    }

    /** The entries were made: type and counts. */
    method Made(i: nat, d: nat, ghost k: nat, ghost name: string, kind: L.Kind, ghost v: Vol)
      requires f.Valid() && NodesOk(v) && TreeOk(v, depth) && kinds == v.kinds && nlinks == v.nlinks && Legal(name)
      requires i < |kinds| && kinds[i] == L.Free && d < |kinds| && kinds[d] == L.Dir && kind != L.Free && i != 0
      requires SameFiles(v.fs, f.fs, {i, d}) && L.CanEnter(Ns(v), d, k, name) && k * DIRENT <= |Content(v.fs, d)|
      requires Content(f.fs, d) == Overwrite(Content(v.fs, d), k * DIRENT, Encode(i, name))
      requires Legal(".") && Legal("..")
      requires Content(f.fs, i) == if kind == L.Dir then Encode(i, ".") + Encode(d, "..") else []
      requires Logged(v.fs, v.bitmap, f.fs, f.bitmap, f.marked, f.written, f.inodes)
      requires i / IPB in f.inodes && d / IPB in f.inodes
      modifies `kinds, `nlinks, `depth
      ensures Sound() && Ns(Now()) == L.CreateResult(Ns(v), kind, d, k, i, name)
      ensures Valid() <==> L.RoomToCount(Ns(v), kind, d)
      ensures Recorded(v, Now(), f.marked, f.written, f.inodes)
    {
      hide SameFiles, Owned, NoHoles, Mirrors, BitmapBlocks, Content, Overwrite, Logged, NodeOk, NodeOf, TreeOk,
        FileBitmap, Blank, Encode, L.CanEnter, L.CreateResult, L.RoomToCount, L.Short, InDir, Ns, Legal, Recorded,
        SameBut;
      kinds := kinds[i := kind];
      nlinks := nlinks[i := 1];
      if kind == L.Dir {
        nlinks := nlinks[d := L.Short(nlinks[d] + 1)];
      }
      ghost var depth1 := depth;
      NodesSizes(v);
      TwoChanged(v, Now(), f.marked, f.written, f.inodes, i, d, kind);
      hide L.Raised;
      CreateDone(v, Now(), depth1, i, d, k, name, kind);
      depth := depth1[i := depth1[d] + 1];
    }

    /** sys_unlink(). */
    method Unlink(d: nat, name: string, last: bool) returns (ok: bool, i: nat)
      requires Valid() && d < |kinds| && kinds[d] == L.Dir
      modifies this, f
      ensures Valid() && Recorded(old(Now()), Now(), f.marked, f.written, f.inodes)
      ensures !ok <==>
        || name == "." || name == ".." || !old(L.Present(NodeOf(Now(), d).entries, name))
        || L.NamesFullDir(old(Ns(Now())), d, name)
      ensures !ok ==> Ns(Now()) == old(Ns(Now())) && f.fs == old(f.fs)
      ensures ok ==> exists k: nat ::
        && L.CanUnlink(old(Ns(Now())), d, k, i)
        && L.UnlinkEnd(old(Ns(Now())), d, k, i, name, last, Ns(Now()))
      ensures SameFiles(old(f.fs), f.fs, if ok then {i, d} else {})
      ensures ok && !(last && i < |old(nlinks)| && old(nlinks)[i] == 1) ==> SameContent(old(f.fs), f.fs, i)
      ensures |f.marked| + |f.written| + |f.inodes| <= 3 + |f.marked|
      ensures f.marked == {} || (ok && f.marked == FileBitmap(old(f.own), i))
    {
      hide SameFiles, Owned, NoHoles, Mirrors, BitmapBlocks, Content, Logged, NodeOk, NodesOk, NodeOf, TreeOk,
        FileBitmap, Blank, L.CanUnlink, L.UnlinkEnd, Unlinked, Recorded, L.NamesFullDir;
      ghost var v := Now();
      ok, i := false, 0;
      SameFilesSelf(f.fs, {});
      var k := Find(d, name);
      DirSize(v, d);
      if name == "." || name == ".." || k == f.fs.inodes[d].size / DIRENT {
        f.BeginOp();
        Unchanged();
        return;
      }
      var e := ReadEntry(d, k);
      i := e.inum;
      UsedEntry(v, depth, d, k);
      assert nlinks[i] >= 1;  // otherwise panic
      var empty := true;
      if kinds[i] == L.Dir {
        empty := IsDirEmpty(i);
      }
      if !empty {
        FullDir(v, d, k, i);
        f.BeginOp();
        Unchanged();
        return;
      }
      UnlinkReady(v, depth, d, k, i, last);
      UnlinkAt(i, d, k, last && nlinks[i] == 1);
      ok := true;
    }

    /** The part of sys_unlink that writes. */
    method UnlinkAt(i: nat, d: nat, k: nat, freed: bool)
      requires Valid() && i < |kinds| && d < |kinds| && kinds[d] == L.Dir && L.CanUnlink(Ns(Now()), d, k, i)
      requires i != d && k < |Ns(Now())[d].entries| && (freed ==> nlinks[i] == 1)
      modifies this, f
      ensures Valid() && Recorded(old(Now()), Now(), f.marked, f.written, f.inodes)
      ensures Ns(Now()) == Unlinked(old(Ns(Now())), d, k, i, freed)
      ensures SameFiles(old(f.fs), f.fs, {i, d}) && (!freed ==> SameContent(old(f.fs), f.fs, i))
      ensures |f.marked| + |f.written| + |f.inodes| <= 3 + |f.marked|
      ensures f.marked == {} || f.marked == FileBitmap(old(f.own), i)
    {
      ghost var v := Now();
      UnlinkTarget(v, depth, d, k, i);
      hide SameFiles, Owned, NoHoles, Mirrors, BitmapBlocks, Content, Overwrite, Logged, NodeOk, NodeOf, TreeOk,
        FileBitmap, Blank, NoEntry, L.CanUnlink, Unlinked, InDir, Ns, Recorded;
      f.UnlinkOp(i, d, k * DIRENT, freed);
      CountDown(i, d, k, freed, v);
    }

    /** The entry is gone: counts, and the type of an inode that went with it. */
    method CountDown(i: nat, d: nat, ghost k: nat, freed: bool, ghost v: Vol)
      requires f.Valid() && NodesOk(v) && TreeOk(v, depth) && kinds == v.kinds && nlinks == v.nlinks && i != d
      requires i < |kinds| && kinds[i] != L.Free && d < |kinds| && kinds[d] == L.Dir && L.CanUnlink(Ns(v), d, k, i)
      requires SameFiles(v.fs, f.fs, {i, d}) && k * DIRENT <= |Content(v.fs, d)| && k < |Ns(v)[d].entries|
      requires Content(f.fs, d) == Overwrite(Content(v.fs, d), k * DIRENT, NoEntry())
      requires if freed then f.fs.inodes[i] == Blank() && nlinks[i] == 1 else Content(f.fs, i) == Content(v.fs, i)
      requires Logged(v.fs, v.bitmap, f.fs, f.bitmap, f.marked, f.written, f.inodes)
      requires i / IPB in f.inodes && d / IPB in f.inodes
      modifies `kinds, `nlinks
      ensures Valid() && Ns(Now()) == Unlinked(Ns(v), d, k, i, freed)
      ensures Recorded(v, Now(), f.marked, f.written, f.inodes)
    {
      hide SameFiles, Owned, NoHoles, Mirrors, BitmapBlocks, Content, Overwrite, Logged, NodeOk, NodeOf, TreeOk,
        FileBitmap, Blank, NoEntry, L.CanUnlink, Unlinked, InDir, Ns, L.Short, Recorded;
      if kinds[i] == L.Dir {
        nlinks := nlinks[d := L.Short(nlinks[d] - 1)];
      }
      nlinks := nlinks[i := L.Short(nlinks[i] - 1)];
      if freed {
        kinds := kinds[i := L.Free];
      }
      assert nlinks == LessLinks(v.kinds, v.nlinks, d, i);
      hide LessLinks;
      UnlinkDone(v, Now(), depth, i, d, k, freed);
      RecordedCounts(v, Now(), f.marked, f.written, f.inodes, i, d);
    }

    lemma Unchanged()
      requires Valid() && f.fs0 == f.fs && f.bitmap0 == f.bitmap
      ensures Recorded(Now(), Now(), f.marked, f.written, f.inodes)
    {
      hide NodesOk, Owned, NoHoles, Mirrors;
    }
  }

  lemma SlotWithin(v: Vol, d: nat, k: nat)
    requires NodesOk(v) && d < |v.kinds| && v.kinds[d] == L.Dir && k <= |NodeOf(v, d).entries|
    ensures d < |v.fs.inodes| && k * DIRENT <= v.fs.inodes[d].size == |Content(v.fs, d)|
    ensures InDir(v.fs, d, k * DIRENT)
    ensures k < |NodeOf(v, d).entries| ==> k * DIRENT + DIRENT <= v.fs.inodes[d].size
  {
    DirSize(v, d);
  }

  lemma CanEnterNow(v: Vol, d: nat, k: nat, name: string)
    requires NodesOk(v) && d < |v.kinds| && v.kinds[d] == L.Dir
    requires L.Vacant(NodeOf(v, d).entries, k) && !L.Present(NodeOf(v, d).entries, name)
    ensures L.CanEnter(Ns(v), d, k, name)
  {
    hide NodeOf;
    assert Ns(v)[d].kind == L.Dir by { DirKind(v, d); }
  }

  lemma DirKind(v: Vol, d: nat)
    requires NodesOk(v) && d < |v.kinds|
    ensures NodeOf(v, d).kind == v.kinds[d] && NodeOf(v, d).nlink == v.nlinks[d]
  {
  }

  lemma CanEnterAt(v: Vol, d: nat, k: nat, name: string)
    requires NodesOk(v) && d < |v.kinds| && v.kinds[d] == L.Dir && L.CanEnter(Ns(v), d, k, name)
    ensures d < |v.fs.inodes| && InDir(v.fs, d, k * DIRENT)
    ensures k <= |NodeOf(v, d).entries| && k * DIRENT <= |Content(v.fs, d)|
  {
    SlotWithin(v, d, k);
  }

  lemma LinkDone(v: Vol, v': Vol, depth: seq<nat>, i: nat, d: nat, k: nat, name: string)
    requires NodesOk(v) && NoHoles(v'.fs) && SameBut(v, v', {i, d}) && Legal(name) && TreeOk(v, depth)
    requires i < |v.kinds| && d < |v.kinds| && v.kinds[i] != L.Dir && v.kinds[i] != L.Free && v.kinds[d] == L.Dir
    requires v'.kinds == v.kinds && v'.nlinks == v.nlinks[i := L.Short(v.nlinks[i] + 1)]
    requires L.CanEnter(Ns(v), d, k, name) && k * DIRENT <= |Content(v.fs, d)|
    requires Content(v'.fs, d) == Overwrite(Content(v.fs, d), k * DIRENT, Encode(i, name))
    ensures NodesOk(v') && Ns(v') == L.LinkResult(L.CountedUp(Ns(v), i), d, k, i, name)
    ensures TreeOk(v', depth) <==> L.Linked(Ns(v), d) && v.nlinks[i] < 0x7fff
  {
    CanEnterAt(v, d, k, name);
    NodesSizes(v);
    DirKind(v, i);
    hide Content, Overwrite, NodeOk, NodesOk, NodeOf, Ns, SameBut, SameFiles, NoHoles, L.CanEnter, TreeOk, Encode,
      L.Short, L.LinkResult;
    NodesLinked(v, v', i, d, k, name, L.Short(v.nlinks[i] + 1));
    LinkedTree(v, depth, i, d, k, name, v');
  }

  lemma DotsLegal()
    ensures Legal(".") && Legal("..")
  {
  }

  /** Whatever a create() that failed did to inode i, it is empty again. */
  lemma BothBlank(fs: Fs, fs': Fs, i: nat, d: nat)
    requires NoHoles(fs) && NoHoles(fs') && SameFiles(fs, fs', {i, d}) && i < |fs.inodes|
    requires fs.inodes[i] == Blank() && fs'.inodes[i] == Blank()
    ensures SameFiles(fs, fs', {d})
  {
    BlankIsEmpty(fs, i);
    BlankIsEmpty(fs', i);
    hide Content, Blank, NoHoles;
  }

  lemma FullDir(v: Vol, d: nat, k: nat, i: nat)
    requires NodesOk(v) && d < |v.kinds| && v.kinds[d] == L.Dir && L.IsEntry(Ns(v), d, k, i) && i < |v.kinds|
    requires v.kinds[i] == L.Dir && !L.OnlyDots(NodeOf(v, i).entries)
    ensures L.NamesFullDir(Ns(v), d, Ns(v)[d].entries[k].name)
  {
    DirKind(v, i);
    hide NodeOf, NodesOk, L.OnlyDots;
  }


  lemma FreeNode(v: Vol, depth: seq<nat>, i: nat)
    requires NodesOk(v) && TreeOk(v, depth) && i < |v.kinds| && v.kinds[i] == L.Free
    ensures v.fs.inodes[i] == Blank() && v.nlinks[i] == 0 && Ns(v)[i] == L.UNUSED && Ns(v)[i := L.UNUSED] == Ns(v)
  {
    assert NodeOk(v, i);
    hide NodeOk, Content, Blank;
    L.At(Ns(v), Zeros(|v.kinds|), depth, i);
    L.FreeIsUnused(Ns(v)[i], i);
  }

  /** What create() has changed of types and counts. */
  lemma TwoChanged(v: Vol, v': Vol, marked: set<nat>, written: set<nat>, inodes: set<nat>, i: nat, d: nat,
                   kind: L.Kind)
    requires NoHoles(v.fs) && NoHoles(v'.fs) && SameFiles(v.fs, v'.fs, {i, d})
    requires Logged(v.fs, v.bitmap, v'.fs, v'.bitmap, marked, written, inodes) && |v.kinds| == |v.nlinks|
    requires i < |v.kinds| && d < |v.kinds| && i != d && i / IPB in inodes && d / IPB in inodes
    requires v'.kinds == v.kinds[i := kind]
    requires v'.nlinks == if kind == L.Dir then v.nlinks[i := 1][d := L.Short(v.nlinks[d] + 1)] else v.nlinks[i := 1]
    ensures Recorded(v, v', marked, written, inodes) && SameBut(v, v', {i, d})
    ensures v'.nlinks == v.nlinks[i := 1][d := L.Raised(kind, v.nlinks[d])]
  {
    hide Logged, L.Short, SameFiles, NoHoles;
  }

  lemma CreateDone(v: Vol, v': Vol, depth: seq<nat>, i: nat, d: nat, k: nat, name: string, kind: L.Kind)
    requires NodesOk(v) && NoHoles(v'.fs) && SameBut(v, v', {i, d}) && Legal(name) && TreeOk(v, depth)
    requires i < |v.kinds| && d < |v.kinds| && v.kinds[i] == L.Free && v.kinds[d] == L.Dir && kind != L.Free && i != 0
    requires v'.kinds == v.kinds[i := kind] && v'.nlinks == v.nlinks[i := 1][d := L.Raised(kind, v.nlinks[d])]
    requires L.CanEnter(Ns(v), d, k, name) && k * DIRENT <= |Content(v.fs, d)|
    requires Content(v'.fs, d) == Overwrite(Content(v.fs, d), k * DIRENT, Encode(i, name))
    requires Legal(".") && Legal("..")
    requires Content(v'.fs, i) == if kind == L.Dir then Encode(i, ".") + Encode(d, "..") else []
    ensures NodesOk(v') && Ns(v') == L.CreateResult(Ns(v), kind, d, k, i, name) && |depth| == |v.kinds|
    ensures TreeOk(v', depth[i := depth[d] + 1]) <==> L.RoomToCount(Ns(v), kind, d)
  {
    CanEnterAt(v, d, k, name);
    DirKind(v, i);
    hide Content, Overwrite, NodeOk, NodeOf, SameBut, SameFiles, NoHoles, L.CanEnter, TreeOk, Encode, L.Short,
      L.Raised, Legal;
    NodesCreated(v, v', i, d, k, name, kind);
    CreatedTree(v, depth, kind, d, k, i, name, v');
  }

  lemma UsedEntry(v: Vol, depth: seq<nat>, d: nat, k: nat)
    requires NodesOk(v) && TreeOk(v, depth) && d < |v.kinds| && v.kinds[d] == L.Dir && k < |NodeOf(v, d).entries|
    requires var e := NodeOf(v, d).entries[k]; e.inum != 0 && e.name != "." && e.name != ".."
    ensures L.IsEntry(Ns(v), d, k, NodeOf(v, d).entries[k].inum)
    ensures NodeOf(v, d).entries[k].inum < |v.kinds| == |v.nlinks| && v.nlinks[NodeOf(v, d).entries[k].inum] >= 1
  {
    DirKind(v, d);
    var i := NodeOf(v, d).entries[k].inum;
    if i < |v.kinds| { DirKind(v, i); }
    hide NodeOf, L.Ups, L.Local;
    L.UsedSlot(Ns(v), d, k);
    L.Counted(Ns(v), Zeros(|v.kinds|), d, k);
    assert L.EntryOk(Ns(v), d, k);
  }

  lemma CanUnlinkNow(v: Vol, depth: seq<nat>, d: nat, k: nat, i: nat)
    requires NodesOk(v) && TreeOk(v, depth) && i < |v.kinds| && d < |v.kinds| && L.IsEntry(Ns(v), d, k, i)
    requires v.kinds[i] == L.Dir ==> L.OnlyDots(NodeOf(v, i).entries)
    ensures L.CanUnlink(Ns(v), d, k, i)
  {
    DirKind(v, i);
    hide NodeOf, NodesOk, L.Consistent;
    assert Ns(v)[i].nlink < 0x8000 && Ns(v)[d].nlink < 0x8000;
  }

  lemma UnlinkTarget(v: Vol, depth: seq<nat>, d: nat, k: nat, i: nat)
    requires NodesOk(v) && TreeOk(v, depth) && i < |v.kinds| && d < |v.kinds| && v.kinds[d] == L.Dir
    requires L.CanUnlink(Ns(v), d, k, i)
    ensures i != d && v.kinds[i] != L.Free && |v.nlinks| == |v.kinds| && 1 <= v.nlinks[i] < 0x8000
    ensures k < |NodeOf(v, d).entries| && |Ns(v)| == |v.kinds| && Ns(v)[d] == NodeOf(v, d) && k < |Ns(v)[d].entries|
    ensures d < |v.fs.inodes| && InDir(v.fs, d, k * DIRENT) && k * DIRENT + DIRENT <= v.fs.inodes[d].size
    ensures k * DIRENT <= |Content(v.fs, d)|
  {
    DirKind(v, i);
    DirKind(v, d);
    L.UnlinkKeeps(Ns(v), Zeros(|v.kinds|), depth, d, k, i);
    SlotWithin(v, d, k);
  }

  /** The counts after sys_unlink: a directory's parent loses the link of its "..". */
  function LessLinks(kinds: seq<L.Kind>, nlinks: seq<int>, d: nat, i: nat): seq<int>
    requires d < |nlinks| && i < |nlinks| == |kinds|
  {
    nlinks[d := if kinds[i] == L.Dir then L.Short(nlinks[d] - 1) else nlinks[d]][i := L.Short(nlinks[i] - 1)]
  }

  lemma UnlinkDone(v: Vol, v': Vol, depth: seq<nat>, i: nat, d: nat, k: nat, freed: bool)
    requires NodesOk(v) && NoHoles(v'.fs) && i != d && TreeOk(v, depth) && SameFiles(v.fs, v'.fs, {i, d})
    requires i < |v.kinds| && d < |v.kinds| && v.kinds[i] != L.Free && v.kinds[d] == L.Dir
    requires L.CanUnlink(Ns(v), d, k, i) && k * DIRENT <= |Content(v.fs, d)| && k < |Ns(v)[d].entries|
    requires freed ==> v.nlinks[i] == 1
    requires v'.nlinks == LessLinks(v.kinds, v.nlinks, d, i)
    requires v'.kinds == if freed then v.kinds[i := L.Free] else v.kinds
    requires Content(v'.fs, d) == Overwrite(Content(v.fs, d), k * DIRENT, NoEntry())
    requires if freed then v'.fs.inodes[i] == Blank() else Content(v'.fs, i) == Content(v.fs, i)
    ensures NodesOk(v') && TreeOk(v', depth) && Ns(v') == Unlinked(Ns(v), d, k, i, freed)
  {
    NodesSizes(v);
    LessLinksAt(v, v', d, i, freed);
    hide Content, Overwrite, NodeOk, NodesOk, NodeOf, Ns, SameFiles, SameBut, NoHoles, L.CanUnlink, TreeOk, NoEntry,
      Blank, L.Short, Unlinked, LessLinks;
    NodesUnlinked(v, v', i, d, k, freed);
    UnlinkedTree(v, depth, d, k, i, freed, v');
  }

  lemma NodesSizes(v: Vol)
    requires NodesOk(v)
    ensures NoHoles(v.fs) && |v.kinds| == |v.nlinks| == |v.fs.inodes| == |Ns(v)|
    ensures forall n: nat :: n < |v.kinds| ==> Ns(v)[n] == NodeOf(v, n)
  {
  }

  lemma LessLinksAt(v: Vol, v': Vol, d: nat, i: nat, freed: bool)
    requires NoHoles(v.fs) && NoHoles(v'.fs) && SameFiles(v.fs, v'.fs, {i, d})
    requires d < |v.nlinks| && i < |v.nlinks| == |v.kinds| && i != d && (freed ==> v.nlinks[i] == 1)
    requires v'.nlinks == LessLinks(v.kinds, v.nlinks, d, i)
    requires v'.kinds == if freed then v.kinds[i := L.Free] else v.kinds
    ensures SameBut(v, v', {i, d}) && |v'.kinds| == |v'.nlinks| == |v.kinds|
    ensures v'.kinds[i] == (if freed then L.Free else v.kinds[i]) && v'.kinds[d] == v.kinds[d]
    ensures v'.nlinks[i] == if freed then 0 else L.Short(v.nlinks[i] - 1)
    ensures v'.nlinks[d] == if v.kinds[i] == L.Dir then L.Short(v.nlinks[d] - 1) else v.nlinks[d]
  {
    L.ShortFits(0);
    hide SameFiles, NoHoles, L.Short;
  }

  lemma RecordedCounts(v: Vol, v': Vol, marked: set<nat>, written: set<nat>, inodes: set<nat>, i: nat, d: nat)
    requires Logged(v.fs, v.bitmap, v'.fs, v'.bitmap, marked, written, inodes) && |v.kinds| == |v.nlinks|
    requires i < |v.kinds| && d < |v.kinds| && i / IPB in inodes && d / IPB in inodes
    requires v'.nlinks == LessLinks(v.kinds, v.nlinks, d, i)
    requires v'.kinds == v.kinds || v'.kinds == v.kinds[i := L.Free]
    ensures Recorded(v, v', marked, written, inodes)
  {
    hide Logged, L.Short;
  }

  lemma UnlinkEnds(v: Vol, depth: seq<nat>, d: nat, k: nat, i: nat, last: bool)
    requires NodesOk(v) && TreeOk(v, depth) && i < |v.kinds| && d < |v.kinds| && v.kinds[d] == L.Dir
    requires L.CanUnlink(Ns(v), d, k, i) && i != d && k < |NodeOf(v, d).entries| && k < |Ns(v)[d].entries|
    ensures L.UnlinkEnd(Ns(v), d, k, i, NodeOf(v, d).entries[k].name, last,
                        Unlinked(Ns(v), d, k, i, last && v.nlinks[i] == 1))
  {
    UnlinkTarget(v, depth, d, k, i);
    DirKind(v, i);
    hide L.UnlinkResult, L.CanUnlink, L.Consistent, L.Shorts;
  }

  lemma UnlinkReady(v: Vol, depth: seq<nat>, d: nat, k: nat, i: nat, last: bool)
    requires NodesOk(v) && TreeOk(v, depth) && i < |v.kinds| && d < |v.kinds| && v.kinds[d] == L.Dir
    requires k < |NodeOf(v, d).entries| && L.IsEntry(Ns(v), d, k, i)
    requires v.kinds[i] == L.Dir ==> L.OnlyDots(NodeOf(v, i).entries)
    ensures L.CanUnlink(Ns(v), d, k, i) && i != d && i < |v.nlinks| && k < |Ns(v)[d].entries|
    ensures L.UnlinkEnd(Ns(v), d, k, i, NodeOf(v, d).entries[k].name, last,
                        Unlinked(Ns(v), d, k, i, last && v.nlinks[i] == 1))
    ensures !L.NamesFullDir(Ns(v), d, NodeOf(v, d).entries[k].name)
  {
    CanUnlinkNow(v, depth, d, k, i);
    UnlinkTarget(v, depth, d, k, i);
    UnlinkEnds(v, depth, d, k, i, last);
    hide NodeOf, NodesOk, L.CanUnlink, L.NamesFullDir, L.UnlinkEnd, Unlinked, L.Consistent;
    assert L.Locals(Ns(v)) by { L.AllLocal(Ns(v), Zeros(|v.kinds|), depth); }
    L.NotFull(Ns(v), d, k, i);
  }

  lemma FailedTree(v: Vol, v': Vol, depth: seq<nat>, i: nat, d: nat, freed: bool)
    requires NodesOk(v) && NoHoles(v'.fs) && SameBut(v, v', {i, d}) && i != d && TreeOk(v, depth)
    requires i < |v.kinds| && d < |v.kinds| && v.kinds[d] == L.Dir && Content(v'.fs, d) == Content(v.fs, d)
    requires freed ==> v.nlinks[i] == 0
    requires !freed ==> v.kinds[i] != L.Free
    requires v'.kinds == (if freed then v.kinds[i := L.Free] else v.kinds) && v'.nlinks == v.nlinks
    requires if freed then v'.fs.inodes[i] == Blank() else Content(v'.fs, i) == Content(v.fs, i)
    ensures NodesOk(v') && TreeOk(v', depth)
    ensures Ns(v') == if freed then Ns(v)[i := L.UNUSED] else Ns(v)
  {
    hide Content, NodeOk, SameBut, Blank;
    NodesFailed(v, v', i, d, freed);
    if freed && v.kinds[i] == L.Free {
      FreeNode(v, depth, i);
    } else if freed {
      FreedTree(v, depth, i, v');
    }
  }

  lemma DirSize(v: Vol, d: nat)
    requires NodesOk(v) && d < |v.kinds| && v.kinds[d] == L.Dir
    ensures d < |v.fs.inodes| && |NodeOf(v, d).entries| == v.fs.inodes[d].size / DIRENT
    ensures |Content(v.fs, d)| == v.fs.inodes[d].size == |NodeOf(v, d).entries| * DIRENT
    ensures InDir(v.fs, d, |NodeOf(v, d).entries| * DIRENT)
  {
    assert NodeOk(v, d);
  }

  lemma EntryWithin(v: Vol, d: nat, k: nat)
    requires NodesOk(v) && d < |v.kinds| && v.kinds[d] == L.Dir && k < v.fs.inodes[d].size / DIRENT
    ensures (k + 1) * DIRENT == k * DIRENT + DIRENT <= v.fs.inodes[d].size < 0x1_0000_0000 - DIRENT
    ensures |NodeOf(v, d).entries| == v.fs.inodes[d].size / DIRENT
    ensures v.fs.inodes[d].size == v.fs.inodes[d].size / DIRENT * DIRENT
  {
    assert NodeOk(v, d);
  }

  // ---------- the first volume ----------

  /** The root directory as mkfs writes it: its own two entries in one block. */
  function RootBytes(): (c: seq<nat>)
    ensures |c| == BSIZE
  {
    DotsLegal();
    Encode(L.ROOT, ".") + Encode(L.ROOT, "..") + seq(BSIZE - 2 * DIRENT, _ => 0)
  }

  lemma RootSlot(k: nat)
    requires k < L.SLOTS
    ensures (k + 1) * DIRENT <= BSIZE
    ensures Decode(RootBytes()[k * DIRENT..(k + 1) * DIRENT]) == L.Root().entries[k]
  {
    DotsLegal();
    DirentRoundTrip(L.ROOT, ".");
    DirentRoundTrip(L.ROOT, "..");
    ZeroDirent();
    hide Decode, Encode, Legal;
    var b, lo := RootBytes()[k * DIRENT..(k + 1) * DIRENT], k * DIRENT;
    var want := if k == 0 then Encode(L.ROOT, ".") else if k == 1 then Encode(L.ROOT, "..") else NoEntry();
    forall i | 0 <= i < DIRENT ensures b[i] == want[i] {
      assert b[i] == RootBytes()[lo + i];
    }
    assert b == want;
  }

  lemma RootSlots()
    ensures Slots(RootBytes()) == L.Root().entries
  {
    hide Decode, RootBytes;
    forall k: nat | k < L.SLOTS ensures Slots(RootBytes())[k] == L.Root().entries[k] {
      RootSlot(k);
    }
  }

  lemma FirstVolume(v: Vol, fs0: Fs)
    requires NoHoles(fs0) && NoHoles(v.fs) && SameFiles(fs0, v.fs, {L.ROOT})
    requires 2 <= |fs0.inodes| <= MAXINODES && forall n :: 0 <= n < |fs0.inodes| ==> fs0.inodes[n] == Blank()
    requires v.kinds == seq(|fs0.inodes|, n => if n == L.ROOT then L.Dir else L.Free)
    requires v.nlinks == seq(|fs0.inodes|, n => if n == L.ROOT then 1 else 0)
    requires L.ROOT < |v.fs.inodes| && Content(v.fs, L.ROOT) == RootBytes()
    ensures NodesOk(v) && Ns(v) == L.Made(|fs0.inodes|) && TreeOk(v, Zeros(|fs0.inodes|))
  {
    RootSlots();
    L.MadeConsistent(|fs0.inodes|);
    hide Content, Slots, RootBytes, L.Consistent, L.Shorts, L.Root, Blank;
    assert L.Root() == L.Inode(L.Dir, 1, L.Root().entries) by { RootNode(); }
    forall n | 0 <= n < |v.kinds| ensures NodeOk(v, n) {
    }
    assert Ns(v) == L.Made(|fs0.inodes|);
  }

  lemma RootNode()
    ensures L.Root() == L.Inode(L.Dir, 1, L.Root().entries)
  {
  }

  /** mkfs, without files: the root directory in the first data block. */
  method Mkfs(nmeta: nat, nblocks: nat, ninodes: nat) returns (files: Files)
    requires 0 < nmeta < nblocks < 0x1_0000_0000 && 2 <= ninodes <= MAXINODES
    ensures fresh(files) && fresh(files.f) && files.Valid() && Ns(files.Now()) == L.Made(ninodes)
    ensures files.f.fs.nmeta == nmeta && |files.f.fs.bits| == nblocks
  {
    var f := new FileSystem(nmeta, nblocks, ninodes);
    ghost var fs0 := f.fs;
    hide Owned, NoHoles, Mirrors, BitmapBlocks, Content, Overwrite, Logged, SameFiles, RootBytes, NodesOk, TreeOk, Ns;
    FirstWrite();
    var r := f.Writei(L.ROOT, RootBytes(), 0);
    assert !fs0.bits[nmeta];
    assert r == BSIZE;
    f.AllLogged();
    LoggedSizes(f.fs0, f.bitmap0, f.fs, f.bitmap, f.marked, f.written, f.inodes);
    assert RootBytes()[..r] == RootBytes();
    OverwriteAll(RootBytes());
    var kinds := seq(ninodes, n => if n == L.ROOT then L.Dir else L.Free);
    var nlinks := seq(ninodes, n => if n == L.ROOT then 1 else 0);
    FirstVolume(Vol(f.fs, f.bitmap, kinds, nlinks), fs0);
    files := new Files(f, kinds, nlinks, Zeros(ninodes));
  }

  lemma FirstWrite()
    ensures Chunks(0, BSIZE) == 1
  {
  }

  lemma OverwriteAll(c: seq<nat>)
    ensures Overwrite([], 0, c) == c
  {
  }
}
