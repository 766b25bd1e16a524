/** kernel/log.c as code, over the buffer cache: the log object, its loops over cached blocks,
    the buffers they reference and the disk writes they issue. */
module Log {
  import opened BufferCache
  import opened Common
  import opened LogFormat
  import opened Params

  const DEV: nat := 1   // ROOTDEV

  /** The key of the log device's block b. */
  function At(b: nat): Key { Key(DEV, b) }

  lemma {:induction false} ApplyConcat(d: Disk, a: seq<Write>, b: seq<Write>)
    requires Fits(d, a) && Fits(d, b)
    ensures Fits(d, a + b) && Apply(d, a + b) == Apply(Apply(d, a), b)
    decreases |b|
  {
    if b == [] {
      assert a + b == a;
    } else {
      var n := |b| - 1;
      assert (a + b)[..|a| + n] == a + b[..n];
      ApplyConcat(d, a, b[..n]);
    }
  }

  /** `v` is what the first `k` of the writes `ws` make of `d`. */
  ghost predicate Laid(d: Disk, ws: seq<Write>, k: nat, v: Disk)
    requires k <= |ws|
  {
    |v| == |d| && forall b :: 0 <= b < |d| ==> v[b] == Final(d, ws, k, b)
  }

  lemma LaidNone(d: Disk, ws: seq<Write>)
    ensures Laid(d, ws, 0, d)
  {
  }

  lemma LaidStep(d: Disk, ws: seq<Write>, k: nat, v: Disk)
    requires k < |ws| && ws[k].block < |d| && Laid(d, ws, k, v)
    ensures Laid(d, ws, k + 1, v[ws[k].block := ws[k].data])
  {
  }

  /** `v` is the cache after the first k logged blocks of `view` were copied to the log. */
  ghost predicate LogCopied(l: Layout, view: Disk, lh: seq<nat>, k: nat, v: Disk) {
    && l.Valid() && |view| == |v| == l.size && k <= |lh| <= LOGBLOCKS && (forall i :: 0 <= i < |lh| ==> l.Home(lh[i]))
    && (forall b :: l.Home(b) ==> v[b] == view[b])
    && forall i :: 0 <= i < k ==> v[l.start + 1 + i] == view[lh[i]]
  }

  lemma CopiedNone(l: Layout, view: Disk, lh: seq<nat>)
    requires l.Valid() && |view| == l.size && |lh| <= LOGBLOCKS && forall i :: 0 <= i < |lh| ==> l.Home(lh[i])
    ensures LogCopied(l, view, lh, 0, view)
  {
  }

  lemma CopiedStep(l: Layout, view: Disk, lh: seq<nat>, k: nat, v: Disk)
    requires LogCopied(l, view, lh, k, v) && k < |lh|
    ensures v[lh[k]] == view[lh[k]] && LogCopied(l, view, lh, k + 1, v[l.start + 1 + k := view[lh[k]]])
  {
  }

  lemma CopiedHead(l: Layout, view: Disk, lh: seq<nat>, k: nat, v: Disk, head: Block)
    requires LogCopied(l, view, lh, k, v)
    ensures LogCopied(l, view, lh, k, v[l.start := head])
  {
  }

  /** The blocks that log_write has pinned. */
  ghost function Pins(lh: seq<nat>): set<nat> {
    set b | b in lh
  }

  lemma PinsStep(lh: seq<nat>, k: nat)
    requires k < |lh|
    ensures Pins(lh[..k + 1]) == Pins(lh[..k]) + {lh[k]}
  {
    assert lh[..k + 1] == lh[..k] + [lh[k]];
  }

  lemma InPins(lh: seq<nat>, k: nat)
    requires k < |lh|
    ensures lh[k] in Pins(lh)
  {
  }

  lemma PinsEnds(lh: seq<nat>)
    ensures Pins(lh[..0]) == {} && Pins(lh[..|lh|]) == Pins(lh)
  {
    assert lh[..|lh|] == lh;
  }

  lemma TakeSnoc<T>(s: seq<T>, k: nat)
    requires k < |s|
    ensures s[..k + 1] == s[..k] + [s[k]]
  {
  }

  lemma JoinStages<T>(t: seq<T>, a: seq<T>, b: seq<T>, c: seq<T>, e: seq<T>)
    ensures t + a + b + c + e == t + (a + b + c + e)
  {
  }

  /** The four stages of a commit compose to CommitWrites. */
  lemma CommitStages(l: Layout, d: Disk, view: Disk, lh: seq<nat>, logged: Disk)
    requires l.Valid() && |d| == |view| == |logged| == l.size && LoggedOk(l, lh) && lh != []
    requires forall i :: 0 <= i < |lh| ==> logged[l.start + 1 + i] == view[lh[i]]
    ensures var hd := EncodeHead(d[l.start], lh);
      CommitWrites(l, d, view, lh) == LogWrites(l, view, lh) + [Write(l.start, hd)]
        + Installs(l, logged, lh) + [Write(l.start, EncodeHead(hd, []))]
  {
    hide EncodeHead;
    assert Installs(l, logged, lh) == HomeWrites(l, view, lh);
  }

  /** The stages, once all written, make the complete commit. */
  lemma CommitEnds(l: Layout, boot: Disk, d: Disk, view: Disk, lh: seq<nat>, logged: Disk, tr: seq<Write>,
                   trace: seq<Write>, e: Disk)
    requires ReadyToCommit(l, d, view, lh) && |logged| == |e| == l.size && lh != []
    requires LogCopied(l, view, lh, |lh|, logged)
    requires var hd := EncodeHead(d[l.start], lh);
      trace == tr + LogWrites(l, view, lh) + [Write(l.start, hd)]
        + Installs(l, logged, lh) + [Write(l.start, EncodeHead(hd, []))]
    requires Made(boot, tr, d) && Made(boot, trace, e)
    ensures trace == tr + CommitWrites(l, d, view, lh) && e == Apply(d, CommitWrites(l, d, view, lh))
    ensures HeadOk(l, e) && Head(l, e) == [] && AllNew(l, d, view, lh, e)
  {
    hide EncodeHead, DecodeHead, Installs, LogWrites, CommitWrites, Made, Head, AllNew, ImageAllNew;
    var hd := EncodeHead(d[l.start], lh);
    CommitStages(l, d, view, lh, logged);
    JoinStages(tr, LogWrites(l, view, lh), [Write(l.start, hd)], Installs(l, logged, lh),
               [Write(l.start, EncodeHead(hd, []))]);
    MadeAfter(boot, tr, d, CommitWrites(l, d, view, lh), e);
    CommitComplete(l, d, view, lh, e);
  }

  /** `d` is what the writes `tr` made of `boot`. */
  ghost predicate Made(boot: Disk, tr: seq<Write>, d: Disk) {
    Fits(boot, tr) && d == Apply(boot, tr)
  }

  lemma MadeStep(boot: Disk, tr: seq<Write>, d: Disk, w: Write)
    requires Made(boot, tr, d) && w.block < |d|
    ensures Made(boot, tr + [w], d[w.block := w.data])
  {
    assert (tr + [w])[..|tr|] == tr;
  }

  lemma MadeAfter(boot: Disk, tr: seq<Write>, d: Disk, ws: seq<Write>, e: Disk)
    requires Made(boot, tr, d) && Made(boot, tr + ws, e)
    ensures Fits(d, ws) && e == Apply(d, ws)
  {
    assert forall i :: 0 <= i < |ws| ==> (tr + ws)[|tr| + i] == ws[i];
    ApplyConcat(boot, tr, ws);
  }

  /** Installing at boot: cache and disk still agree, and the header has not moved. */
  lemma InstalledAtBoot(l: Layout, d: Disk, v: Disk, e: Disk)
    requires HeadOk(l, d)
    requires Laid(d, Installs(l, d, Head(l, d)), |Head(l, d)|, v) && Made(d, Installs(l, d, Head(l, d)), e)
    ensures v == e && v[l.start] == d[l.start]
  {
    hide Installs, DecodeHead;
    var ins := Installs(l, d, Head(l, d));
    FinalMiss(d, ins, |ins|, l.start);
    assert ins[..|ins|] == ins;
    forall b | 0 <= b < l.size ensures v[b] == e[b] { ApplyAt(d, ins, |ins|, b); }
  }

  // ---------- the log over the cache ----------

  /** The cache shows `view` in front of `disk`. */
  ghost predicate Shows(buf: seq<Buf<Block>>, stored: map<Key, Block>, view: Disk, disk: Disk) {
    && |view| == |disk|
    && forall b: nat :: b < |disk| ==>
         At(b) in stored && stored[At(b)] == disk[b] && Content(buf, stored, At(b)) == view[b]
  }

  ghost predicate IsPinned(x: Buf<Block>, pinned: set<nat>) {
    x.valid && x.key.dev == DEV && x.key.blockno in pinned
  }

  /** Reference counts are the references held plus one for a pinned block, and pinned
      blocks are cached. */
  ghost predicate Counted(buf: seq<Buf<Block>>, held: seq<nat>, pinned: set<nat>) {
    && |held| == |buf|
    && (forall c :: 0 <= c < |buf| ==> buf[c].refcnt == held[c] + if IsPinned(buf[c], pinned) then 1 else 0)
    && (forall b :: b in pinned ==> exists c: nat :: Caches(buf, c, At(b)))
  }

  /** Some buffer is unreferenced. */
  ghost predicate Spare<D>(buf: seq<Buf<D>>) {
    exists c :: 0 <= c < |buf| && buf[c].refcnt == 0
  }

  /** Only home blocks are pinned or held. */
  ghost predicate HomeOnly(l: Layout, buf: seq<Buf<Block>>, held: seq<nat>, pinned: set<nat>) {
    && |held| == |buf|
    && (forall c :: 0 <= c < |buf| && held[c] > 0 ==>
          buf[c].valid && buf[c].key.dev == DEV && l.Home(buf[c].key.blockno))
    && (forall b :: b in pinned ==> l.Home(b))
  }

  ghost predicate NoneHeld(held: seq<nat>) {
    forall c :: 0 <= c < |held| ==> held[c] == 0
  }

  lemma SameShown(buf: seq<Buf<Block>>, stored: map<Key, Block>, view: Disk, disk: Disk, buf': seq<Buf<Block>>)
    requires Shows(buf, stored, view, disk) && SameView(buf, stored, buf', stored)
    ensures Shows(buf', stored, view, disk)
  {
    hide Content;
  }

  lemma StoredShown(buf: seq<Buf<Block>>, stored: map<Key, Block>, view: Disk, disk: Disk,
                    buf': seq<Buf<Block>>, b: nat, data: Block)
    requires Shows(buf, stored, view, disk) && b < |disk| && ViewBut(buf, stored, buf', stored, At(b), data)
    ensures Shows(buf', stored, view[b := data], disk)
  {
    hide Content;
  }

  lemma WrittenShown(buf: seq<Buf<Block>>, stored: map<Key, Block>, view: Disk, disk: Disk,
                     stored': map<Key, Block>, b: nat, data: Block)
    requires Shows(buf, stored, view, disk) && b < |disk|
    requires stored' == stored[At(b) := data] && SameView(buf, stored, buf, stored')
    ensures Shows(buf, stored', view, disk[b := data])
  {
    hide Content;
  }

  lemma GotCounted(buf: seq<Buf<Block>>, held: seq<nat>, pinned: set<nat>, buf': seq<Buf<Block>>, c: nat, b: nat)
    requires Counted(buf, held, pinned) && |buf'| == |buf| && c < |buf| && Unique(buf) && Unique(buf')
    requires forall d :: 0 <= d < |buf| && d != c ==> buf'[d] == buf[d]
    requires Caches(buf', c, At(b))
    requires buf'[c].refcnt == if buf[c].key == At(b) then buf[c].refcnt + 1 else 1
    requires buf[c].key != At(b) ==> buf[c].refcnt == 0 && forall d :: 0 <= d < |buf| ==> buf[d].key != At(b)
    ensures |held| == |buf| && Counted(buf', held[c := held[c] + 1], pinned)
  {
    forall p | p in pinned ensures exists d: nat :: Caches(buf', d, At(p)) {
      var d: nat :| Caches(buf, d, At(p));
      if d == c { assert IsPinned(buf[c], pinned); } else { assert Caches(buf', d, At(p)); }
    }
    if b in pinned {
      var d: nat :| Caches(buf, d, At(b));
      assert d == c;
    }
  }

  lemma RecountCounted(buf: seq<Buf<Block>>, held: seq<nat>, pinned: set<nat>, c: nat, r: nat, h: nat)
    requires Counted(buf, held, pinned) && c < |buf| && r + held[c] == buf[c].refcnt + h
    ensures Counted(buf[c := buf[c].(refcnt := r)], held[c := h], pinned)
  {
    var buf' := buf[c := buf[c].(refcnt := r)];
    forall p | p in pinned ensures exists d: nat :: Caches(buf', d, At(p)) {
      var d: nat :| Caches(buf, d, At(p));
      assert Caches(buf', d, At(p));
    }
  }

  lemma DataCounted(buf: seq<Buf<Block>>, held: seq<nat>, pinned: set<nat>, c: nat, data: Block)
    requires Counted(buf, held, pinned) && c < |buf|
    ensures Counted(buf[c := buf[c].(data := data)], held, pinned)
  {
    var buf' := buf[c := buf[c].(data := data)];
    forall p | p in pinned ensures exists d: nat :: Caches(buf', d, At(p)) {
      var d: nat :| Caches(buf, d, At(p));
      assert Caches(buf', d, At(p));
    }
  }

  /** Pinning block b, or unpinning it, changes one reference count. */
  lemma PinCounted(buf: seq<Buf<Block>>, held: seq<nat>, pinned: set<nat>, c: nat, b: nat)
    requires Counted(buf, held, pinned) && Unique(buf) && Caches(buf, c, At(b))
    ensures b !in pinned ==> Counted(buf[c := buf[c].(refcnt := buf[c].refcnt + 1)], held, pinned + {b})
    ensures b in pinned ==> buf[c].refcnt == held[c] + 1
    ensures b in pinned ==> Counted(buf[c := buf[c].(refcnt := held[c])], held, pinned - {b})
  {
    RecountCached(buf, pinned, c, buf[c].refcnt + 1);
    RecountCached(buf, pinned, c, held[c]);
  }

  lemma RecountCached(buf: seq<Buf<Block>>, pinned: set<nat>, c: nat, r: nat)
    requires c < |buf| && forall p :: p in pinned ==> exists d: nat :: Caches(buf, d, At(p))
    ensures var buf' := buf[c := buf[c].(refcnt := r)];
      forall p :: p in pinned ==> exists d: nat :: Caches(buf', d, At(p))
    ensures forall d: nat, k :: Caches(buf, d, k) ==> Caches(buf[c := buf[c].(refcnt := r)], d, k)
  {
    var buf' := buf[c := buf[c].(refcnt := r)];
    forall p | p in pinned ensures exists d: nat :: Caches(buf', d, At(p)) {
      var d: nat :| Caches(buf, d, At(p));
      assert Caches(buf', d, At(p));
    }
  }

  /** A reference to a home block that no log record covers is clean. */
  lemma ShownData(buf: seq<Buf<Block>>, stored: map<Key, Block>, view: Disk, disk: Disk, c: nat, b: nat)
    requires Shows(buf, stored, view, disk) && Unique(buf) && b < |disk| && Caches(buf, c, At(b))
    ensures buf[c].data == view[b] && At(b) in stored && stored[At(b)] == disk[b]
  {
    ContentCached(buf, stored, At(b), c);
  }

  lemma HomeOnlyKept(l: Layout, buf: seq<Buf<Block>>, held: seq<nat>, pinned: set<nat>,
                     buf': seq<Buf<Block>>, pinned': set<nat>)
    requires HomeOnly(l, buf, held, pinned) && |buf'| == |buf| && pinned' <= pinned
    requires forall c :: 0 <= c < |buf| && held[c] > 0 ==> buf'[c].key == buf[c].key && (buf[c].valid ==> buf'[c].valid)
    ensures HomeOnly(l, buf', held, pinned')
  {
  }

  /** Held buffers still hold their blocks. */
  ghost predicate SameHolders(buf: seq<Buf<Block>>, held: seq<nat>, buf': seq<Buf<Block>>) {
    && |buf'| == |buf| == |held|
    && forall c :: 0 <= c < |buf| && held[c] > 0 ==> buf'[c].key == buf[c].key && (buf[c].valid ==> buf'[c].valid)
  }

  /** Giving both buffers of a turn back: the log block's is unreferenced again. */
  lemma HoldersBack(l: Layout, buf: seq<Buf<Block>>, held: seq<nat>, pinned: set<nat>,
                    buf1: seq<Buf<Block>>, buf2: seq<Buf<Block>>, x: nat, pinned': set<nat>)
    requires HomeOnly(l, buf, held, pinned) && pinned' <= pinned && |buf2| == |buf1| == |buf| && x < |buf|
    requires SameHolders(buf, held, buf1) && buf2[x].refcnt == 0
    requires forall c :: 0 <= c < |buf| ==> buf2[c].key == buf1[c].key && buf2[c].valid == buf1[c].valid
    ensures HomeOnly(l, buf2, held, pinned') && Spare(buf2)
  {
  }

  /** Reading a log block needs an unreferenced buffer, since no log block is referenced. */
  lemma LogBlockNeedsSpare(l: Layout, buf: seq<Buf<Block>>, held: seq<nat>, pinned: set<nat>, b: nat)
    requires Counted(buf, held, pinned) && HomeOnly(l, buf, held, pinned) && l.InLog(b)
    ensures Spare(buf) <==> !(forall c :: 0 <= c < |buf| ==> buf[c].key != At(b) && buf[c].refcnt != 0)
    ensures forall c :: 0 <= c < |buf| && buf[c].key == At(b) ==> buf[c].refcnt == 0
  {
  }

  class Log {
    const l: Layout
    const cache: BCache<Block>
    var lh: seq<nat>              // lh.block[0..lh.n]
    var outstanding: nat
    var committing: bool
    ghost var view: Disk          // what bread returns for each block
    ghost var disk: Disk          // what bwrite has stored
    ghost var pinned: set<nat>    // blocks that bpin holds in the cache
    ghost var held: seq<nat>      // references to each buffer by bread
    ghost const boot: Disk        // the disk before the first write
    ghost var trace: seq<Write>   // every disk write so far, in order

    /** The disk is what the recorded writes made of the boot disk, the cache shows `view` in
        front of it, and every reference is accounted for. */
    ghost predicate Sized()
      reads `view, `disk, `pinned, `held, `trace, cache
    {
      && l.Valid() && |disk| == |view| == l.size && Made(boot, trace, disk)
      && cache.Valid() && cache.n == NBUF && Shows(cache.buf, cache.disk, view, disk)
      && Counted(cache.buf, held, pinned)
    }

    ghost predicate Quiet()
      reads `view, `disk, `pinned, `held, `trace, cache
    {
      Sized() && HomeOnly(l, cache.buf, held, pinned)
    }

    /** Between transactions and inside one, when no commit is running: the on-disk header
        is empty, and the cache differs from the disk only in logged, pinned blocks. */
    ghost predicate Valid()
      reads `lh, `view, `disk, `pinned, `held, `trace, cache
    {
      && Quiet() && LoggedOk(l, lh) && pinned == Pins(lh)
      && HeadOk(l, disk) && Head(l, disk) == []
      && view[l.start] == disk[l.start]
      && (forall b :: l.Home(b) && b !in lh ==> view[b] == disk[b])
    }

    /** Boot: an empty cache in front of the disk, then recovery. */
    constructor (l: Layout, cache: BCache<Block>, ghost disk: Disk)
      requires HeadOk(l, disk) && cache.Valid() && cache.n == NBUF && Shows(cache.buf, cache.disk, disk, disk)
      requires forall c :: 0 <= c < NBUF ==> !cache.buf[c].valid && cache.buf[c].refcnt == 0
      modifies cache
      ensures this.l == l && this.cache == cache && this.boot == disk
      ensures Valid() && lh == [] && outstanding == 0 && !committing && NoneHeld(held)
      ensures this.disk == this.view == Recovered(l, disk) && trace == RecoverWrites(l, disk)
    {
      this.l, this.cache, this.disk, this.view, this.boot := l, cache, disk, disk, disk;
      lh, outstanding, committing, pinned, trace := [], 0, false, {}, [];
      held := seq(NBUF, _ => 0);
      new;
      RecoverFromLog();
    }

    // ---------- the cache's operations, as the log sees them ----------

    /** bread() */
    method Get(b: nat) returns (c: nat)
      requires Sized() && b < l.size
      modifies `held, cache`buf
      ensures Sized() && c <= NBUF && |cache.buf| == |old(cache.buf)| == NBUF
      ensures c == NBUF <==> forall d :: 0 <= d < NBUF ==>
        && old(cache.buf)[d].key != At(b) && old(cache.buf)[d].refcnt != 0
      ensures c == NBUF ==> cache.buf == old(cache.buf) && held == old(held)
      ensures c < NBUF ==> Caches(cache.buf, c, At(b)) && cache.buf[c].data == view[b]
      ensures c < NBUF ==> |old(held)| == NBUF && held == old(held)[c := old(held)[c] + 1]
      ensures forall d :: 0 <= d < NBUF && d != c ==> cache.buf[d] == old(cache.buf)[d]
      ensures c < NBUF ==>
        cache.buf[c].refcnt == if old(cache.buf)[c].key == At(b) then old(cache.buf)[c].refcnt + 1 else 1
      ensures c < NBUF && old(cache.buf)[c].key != At(b) ==> old(cache.buf)[c].refcnt == 0
    {
      hide Made, Counted, SameView, Clean, Content, Ring, Sorted;
      c := cache.Bread(At(b));
      SameShown(old(cache.buf), cache.disk, view, disk, cache.buf);
      if c < NBUF {
        GotCounted(old(cache.buf), held, pinned, cache.buf, c, b);
        ShownData(cache.buf, cache.disk, view, disk, c, b);
        held := held[c := held[c] + 1];
      } else {
        assert cache.buf == old(cache.buf);
      }
    }

    /** brelse() of a buffer that is written, pinned or held by another. */
    method Put(c: nat, b: nat)
      requires Sized() && b < l.size && Caches(cache.buf, c, At(b)) && held[c] > 0
      requires held[c] == 1 && b !in pinned ==> view[b] == disk[b]
      modifies `held, cache`buf, cache`next, cache`prev, cache`order, cache`stamp, cache`clock
      ensures Sized() && held == old(held)[c := old(held)[c] - 1]
      ensures cache.buf == old(cache.buf)[c := old(cache.buf)[c].(refcnt := old(cache.buf)[c].refcnt - 1)]
    {
      hide Made, SameView, Clean, Content, Ring, Sorted, Shows;
      ShownData(cache.buf, cache.disk, view, disk, c, b);
      RecountCounted(cache.buf, held, pinned, c, cache.buf[c].refcnt - 1, held[c] - 1);
      cache.Brelse(c);
      SameShown(old(cache.buf), cache.disk, view, disk, cache.buf);
      held := held[c := held[c] - 1];
    }

    /** A store into a buffer by its holder. */
    method Store(c: nat, b: nat, data: Block)
      requires Sized() && b < l.size && Caches(cache.buf, c, At(b)) && held[c] > 0
      modifies `view, cache`buf
      ensures Sized() && view == old(view)[b := data]
      ensures cache.buf == old(cache.buf)[c := old(cache.buf)[c].(data := data)]
    {
      hide Made, ViewBut, Clean, Content, Ring, Sorted, Shows;
      ShownData(cache.buf, cache.disk, view, disk, c, b);
      DataCounted(cache.buf, held, pinned, c, data);
      cache.Modify(c, data);
      StoredShown(old(cache.buf), cache.disk, view, disk, cache.buf, b, data);
      view := view[b := data];
    }

    /** bwrite() */
    method Bwrite(c: nat, b: nat)
      requires Sized() && b < l.size && Caches(cache.buf, c, At(b)) && held[c] > 0
      modifies `disk, `trace, cache`disk
      ensures Sized()
      ensures disk == old(disk)[b := view[b]] && trace == old(trace) + [Write(b, view[b])]
    {
      hide Made, SameView, Clean, Content, Ring, Sorted, Shows;
      ShownData(cache.buf, cache.disk, view, disk, c, b);
      MadeStep(boot, trace, disk, Write(b, view[b]));
      cache.Bwrite(c);
      WrittenShown(cache.buf, old(cache.disk), view, disk, cache.disk, b, view[b]);
      disk := disk[b := view[b]];
      trace := trace + [Write(b, view[b])];
    }

    /** bpin() */
    method Pin(c: nat, b: nat)
      requires Sized() && b < l.size && Caches(cache.buf, c, At(b)) && b !in pinned
      modifies `pinned, cache`buf
      ensures Sized() && pinned == old(pinned) + {b}
      ensures cache.buf == old(cache.buf)[c := old(cache.buf)[c].(refcnt := old(cache.buf)[c].refcnt + 1)]
    {
      hide Made, SameView, Clean, Content, Ring, Sorted, Shows, Counted;
      PinCounted(cache.buf, held, pinned, c, b);
      cache.Bpin(c);
      SameShown(old(cache.buf), cache.disk, view, disk, cache.buf);
      pinned := pinned + {b};
    }

    /** bunpin() by a holder of the buffer. */
    method Unpin(c: nat, b: nat)
      requires Sized() && b < l.size && Caches(cache.buf, c, At(b)) && b in pinned && held[c] > 0
      modifies `pinned, cache`buf
      ensures Sized() && pinned == old(pinned) - {b}
      ensures cache.buf == old(cache.buf)[c := old(cache.buf)[c].(refcnt := held[c])]
    {
      hide Made, SameView, Clean, Content, Ring, Sorted, Shows, Counted;
      PinCounted(cache.buf, held, pinned, c, b);
      cache.Bunpin(c);
      SameShown(old(cache.buf), cache.disk, view, disk, cache.buf);
      pinned := pinned - {b};
    }

    lemma QuietFacts()
      requires Quiet()
      ensures l.Valid() && |view| == |disk| == l.size && Made(boot, trace, disk)
      ensures |cache.buf| == |held| == NBUF && Counted(cache.buf, held, pinned)
      ensures HomeOnly(l, cache.buf, held, pinned) && (forall b :: b in pinned ==> l.Home(b))
    {
    }

    lemma NeedsSpare(b: nat)
      requires Quiet() && l.InLog(b)
      ensures |cache.buf| == NBUF && view[b] == disk[b]
      ensures Spare(cache.buf) <==>
        !(forall c :: 0 <= c < NBUF ==> cache.buf[c].key != At(b) && cache.buf[c].refcnt != 0)
      ensures forall c :: 0 <= c < NBUF && cache.buf[c].key == At(b) ==> cache.buf[c].refcnt == 0
    {
      LogBlockNeedsSpare(l, cache.buf, held, pinned, b);
      if c: nat :| Caches(cache.buf, c, At(b)) {
        ContentCached(cache.buf, cache.disk, At(b), c);
      }
    }

    lemma PinnedIsCached(b: nat)
      requires Sized() && b in pinned
      ensures |cache.buf| == NBUF && exists d :: 0 <= d < NBUF && cache.buf[d].key == At(b)
    {
      var d: nat :| Caches(cache.buf, d, At(b));
      assert cache.buf[d].key == At(b);
    }

    // ---------- one block at a time ----------

    /** bread() of a log block, which only the log itself ever refers to. */
    method GetLog(b: nat) returns (ok: bool, x: nat)
      requires Quiet() && l.InLog(b)
      modifies `held, cache`buf
      ensures Sized() && |cache.buf| == |old(cache.buf)| == NBUF && (ok <==> old(Spare(cache.buf)))
      ensures !ok ==> cache.buf == old(cache.buf) && held == old(held)
      ensures ok ==> x < NBUF && Caches(cache.buf, x, At(b)) && cache.buf[x].data == view[b] && cache.buf[x].refcnt == 1
      ensures ok ==> |old(held)| == NBUF && old(held)[x] == 0 && held == old(held)[x := 1]
      ensures forall d :: 0 <= d < NBUF && d != x ==> cache.buf[d] == old(cache.buf)[d]
      ensures ok ==> SameHolders(old(cache.buf), old(held), cache.buf)
    {
      hide Sized, HomeOnly, Made, Spare;
      QuietFacts();
      NeedsSpare(b);
      x := Get(b);
      ok := x < NBUF;
    }

    /** bread() of a log block and of a home block that is pinned or needs no care. */
    method GetBoth(b: nat, h: nat) returns (ok: bool, x: nat, y: nat)
      requires Quiet() && l.InLog(b) && l.Home(h)
      requires h in pinned || forall c :: 0 <= c < NBUF ==> cache.buf[c].refcnt == 0
      modifies `held, cache`buf
      ensures Sized() && |cache.buf| == |old(cache.buf)| == NBUF && (ok <==> old(Spare(cache.buf)))
      ensures !ok ==> cache.buf == old(cache.buf) && held == old(held)
      ensures ok ==> x < NBUF && y < NBUF && x != y && Caches(cache.buf, x, At(b)) && Caches(cache.buf, y, At(h))
      ensures ok ==> cache.buf[x].data == view[b] && cache.buf[y].data == view[h] && cache.buf[x].refcnt == 1
      ensures ok ==> |old(held)| == NBUF && old(held)[x] == 0 && held == old(held)[x := 1][y := old(held)[y] + 1]
      ensures ok ==> SameHolders(old(cache.buf), old(held), cache.buf)
    {
      hide Sized, HomeOnly, Made, Spare;
      QuietFacts();
      ok, x := GetLog(b);
      y := 0;
      if ok {
        if h in pinned {
          PinnedIsCached(h);
        } else {
          var other := if x == 0 then 1 else 0;
          assert cache.buf[other].refcnt == 0;
        }
        y := Get(h);
      }
    }

    /** One turn of write_log's loop; bread panics exactly when no buffer is unreferenced. */
    method LogBlock(tail: nat) returns (ok: bool)
      requires Quiet() && tail < |lh| <= LOGBLOCKS && lh[tail] in pinned
      modifies `view, `disk, `trace, `held, cache
      ensures Quiet() && held == old(held)
      ensures ok <==> old(Spare(cache.buf))
      ensures ok ==> Spare(cache.buf) && trace == old(trace) + [Write(l.start + 1 + tail, old(view)[lh[tail]])]
      ensures ok ==> view == old(view)[l.start + 1 + tail := old(view)[lh[tail]]]
      ensures ok ==> disk == old(disk)[l.start + 1 + tail := old(view)[lh[tail]]]
      ensures !ok ==> trace == old(trace) && view == old(view) && disk == old(disk)
    {
      hide Sized, HomeOnly, Made, SameHolders, Spare;
      QuietFacts();
      ghost var buf0, held0 := cache.buf, held;
      var b := l.start + 1 + tail;
      var to, from;
      ok, to, from := GetBoth(b, lh[tail]);
      if ok {
        ghost var buf1 := cache.buf;
        Store(to, b, cache.buf[from].data);
        Bwrite(to, b);
        Put(from, lh[tail]);
        Put(to, b);
        assert held == held0;
        HoldersBack(l, buf0, held, pinned, buf1, cache.buf, to, pinned);
      }
    }

    /** The middle of a turn of install_trans's loop: the home block gets its data, and its pin
        is dropped. */
    method StoreHome(to: nat, h: nat, data: Block, recovering: bool)
      requires Sized() && h < l.size && Caches(cache.buf, to, At(h)) && held[to] > 0
      requires if recovering then pinned == {} else h in pinned
      modifies `view, `disk, `trace, `pinned, cache`buf, cache`disk
      ensures Sized() && view == old(view)[h := data] && disk == old(disk)[h := data]
      ensures trace == old(trace) + [Write(h, data)] && pinned == if recovering then {} else old(pinned) - {h}
      ensures |cache.buf| == |old(cache.buf)| == NBUF && cache.buf[to].refcnt == held[to]
      ensures cache.buf == old(cache.buf)[to := old(cache.buf)[to].(data := data, refcnt := held[to])]
    {
      hide Made, Shows, Ring, Sorted;
      Store(to, h, data);
      Bwrite(to, h);
      if !recovering {
        Unpin(to, h);
      }
      assert |cache.buf| == NBUF;
    }

    /** One turn of install_trans's loop. */
    method InstallBlock(tail: nat, recovering: bool) returns (ok: bool)
      requires Quiet() && tail < |lh| <= LOGBLOCKS && l.Home(lh[tail])
      requires if recovering then NoneHeld(held) && pinned == {} else lh[tail] in pinned
      modifies `view, `disk, `trace, `pinned, `held, cache
      ensures Quiet() && held == old(held)
      ensures ok <==> old(Spare(cache.buf))
      ensures ok ==> Spare(cache.buf) && trace == old(trace) + [Write(lh[tail], old(view)[l.start + 1 + tail])]
      ensures ok ==> view == old(view)[lh[tail] := old(view)[l.start + 1 + tail]]
      ensures ok ==> disk == old(disk)[lh[tail] := old(view)[l.start + 1 + tail]]
      ensures ok ==> pinned == if recovering then {} else old(pinned) - {lh[tail]}
    {
      hide Sized, HomeOnly, Made, SameHolders, Spare, NoneHeld;
      QuietFacts();
      ghost var buf0, held0, pinned0 := cache.buf, held, pinned;
      var b, h := l.start + 1 + tail, lh[tail];
      NeedsSpare(b);
      if recovering {
        NothingReferenced(cache.buf, held, pinned);
      }
      var from, to;
      ok, from, to := GetBoth(b, h);
      if ok {
        ghost var buf1 := cache.buf;
        StoreHome(to, h, cache.buf[from].data, recovering);
        Put(from, b);
        Put(to, h);
        assert held == held0;
        HoldersBack(l, buf0, held, pinned0, buf1, cache.buf, from, pinned);
      }
    }

    // ---------- the loops ----------

    /** read_head, at boot */
    method ReadHead()
      requires Quiet() && HeadOk(l, disk) && NoneHeld(held) && pinned == {}
      modifies `lh, `held, cache
      ensures Quiet() && held == old(held) && lh == Head(l, disk)
    {
      hide Sized, HomeOnly, Made, HeadOk, NoneHeld;
      QuietFacts();
      ghost var buf0, held0 := cache.buf, held;
      NothingReferenced(cache.buf, held, pinned);
      assert buf0[0].refcnt == 0;
      NeedsSpare(l.start);
      HeadFacts(l, disk);
      var c := Get(l.start);
      var hb, blocks := cache.buf[c].data.w, [];
      for i := 0 to hb[0]
        invariant blocks == hb[1..1 + i]
      {
        blocks := blocks + [hb[1 + i]];
      }
      lh := blocks;
      Put(c, l.start);
      assert held == held0;
      HomeOnlyKept(l, buf0, held, pinned, cache.buf, pinned);
    }

    /** write_head's copy loop */
    method FillHead(buf: Block) returns (hb: Block)
      requires |lh| <= LOGBLOCKS
      ensures hb == EncodeHead(buf, lh)
    {
      var w := buf.w[0 := |lh|];
      assert w == [|lh|] + lh[..0] + buf.w[1..];
      for i := 0 to |lh|
        invariant |w| == WORDS
        invariant w == [|lh|] + lh[..i] + buf.w[i + 1..]
      {
        w := w[1 + i := lh[i]];
      }
      assert lh[..|lh|] == lh;
      hb := Block(w);
    }

    /** write_head */
    method WriteHead() returns (ok: bool)
      requires Quiet() && |lh| <= LOGBLOCKS
      modifies `view, `disk, `trace, `held, cache
      ensures Quiet() && held == old(held)
      ensures ok <==> old(Spare(cache.buf))
      ensures ok ==> Spare(cache.buf) && view == old(view)[l.start := EncodeHead(old(view)[l.start], lh)]
      ensures ok ==> disk == old(disk)[l.start := view[l.start]]
      ensures ok ==> trace == old(trace) + [Write(l.start, view[l.start])]
    {
      hide Sized, HomeOnly, Made, SameHolders, Spare, EncodeHead;
      QuietFacts();
      ghost var buf0, held0 := cache.buf, held;
      NeedsSpare(l.start);
      var c;
      ok, c := GetLog(l.start);
      if ok {
        ghost var buf1 := cache.buf;
        var hb := FillHead(cache.buf[c].data);
        Store(c, l.start, hb);
        Bwrite(c, l.start);
        Put(c, l.start);
        assert held == held0;
        HoldersBack(l, buf0, held, pinned, buf1, cache.buf, c, pinned);
      }
    }

    /** write_log */
    method WriteLog() returns (ok: bool)
      requires Quiet() && LoggedOk(l, lh) && pinned == Pins(lh) && lh != []
      modifies `view, `disk, `trace, `held, cache
      ensures Quiet() && held == old(held)
      ensures ok <==> old(Spare(cache.buf))
      ensures !ok ==> trace == old(trace)
      ensures ok ==> Spare(cache.buf) && trace == old(trace) + LogWrites(l, old(view), lh)
      ensures ok ==> LogCopied(l, old(view), lh, |lh|, view)
      ensures ok ==> view[l.start] == old(view)[l.start] && disk[l.start] == old(disk)[l.start]
    {
      hide Sized, HomeOnly, Spare, LogCopied, Pins, Counted, Made;
      QuietFacts();
      CopiedNone(l, view, lh);
      ghost var ws := LogWrites(l, view, lh);
      assert ws[..0] == [];
      ok := true;
      for tail := 0 to |lh|
        invariant Quiet() && |view| == |disk| == l.size
        invariant held == old(held) && ok && (tail > 0 ==> old(Spare(cache.buf)))
        invariant Spare(cache.buf) <==> old(Spare(cache.buf))
        invariant trace == old(trace) + ws[..tail]
        invariant LogCopied(l, old(view), lh, tail, view)
        invariant view[l.start] == old(view)[l.start] && disk[l.start] == old(disk)[l.start]
      {
        CopiedStep(l, old(view), lh, tail, view);
        InPins(lh, tail);
        ok := LogBlock(tail);
        if !ok {
          return;
        }
        QuietFacts();
        TakeSnoc(ws, tail);
      }
      assert ws[..|lh|] == ws;
    }

    /** install_trans */
    method InstallTrans(recovering: bool) returns (ok: bool)
      requires Quiet() && |lh| <= LOGBLOCKS && (forall i :: 0 <= i < |lh| ==> l.Home(lh[i])) && Spare(cache.buf)
      requires if recovering then NoneHeld(held) && pinned == {} else LoggedOk(l, lh) && pinned == Pins(lh)
      modifies `view, `disk, `trace, `pinned, `held, cache
      ensures Quiet() && held == old(held) && ok && Spare(cache.buf)
      ensures trace == old(trace) + Installs(l, old(view), lh)
      ensures Laid(old(view), Installs(l, old(view), lh), |lh|, view)
      ensures disk[l.start] == old(disk)[l.start] && pinned == {}
    {
      hide Installs, Laid, Pins, Sized, HomeOnly, Spare;
      QuietFacts();
      LaidNone(view, Installs(l, view, lh));
      ghost var ws := Installs(l, view, lh);
      assert ws[..0] == [];
      PinsEnds(lh);
      ok := true;
      for tail := 0 to |lh|
        invariant Quiet() && |view| == |disk| == l.size && ok && held == old(held) && Spare(cache.buf)
        invariant trace == old(trace) + ws[..tail]
        invariant Laid(old(view), ws, tail, view)
        invariant forall b :: l.InLog(b) ==> view[b] == old(view)[b]
        invariant disk[l.start] == old(disk)[l.start]
        invariant pinned == if recovering then {} else Pins(lh) - Pins(lh[..tail])
      {
        if !recovering { PinsNext(lh, tail); }
        LaidStep(old(view), ws, tail, view);
        ok := InstallBlock(tail, recovering);
        QuietFacts();
        TakeSnoc(ws, tail);
        PinsStep(lh, tail);
      }
      assert ws[..|lh|] == ws;
    }

    /** recover_from_log */
    method RecoverFromLog()
      requires Quiet() && HeadOk(l, disk) && view == disk && boot == disk && trace == []
      requires pinned == {} && NoneHeld(held)
      modifies `lh, `view, `disk, `trace, `pinned, `held, cache
      ensures Valid() && lh == [] && view == disk && held == old(held)
      ensures trace == RecoverWrites(l, old(disk))
      ensures disk == Recovered(l, old(disk))
    {
      hide EncodeHead, DecodeHead, Installs, Laid, Head, Image, Sized, HomeOnly, Spare;
      QuietFacts();
      ghost var d := disk;
      ReadHead();
      SpareAtBoot();
      var ok := InstallTrans(true);
      QuietFacts();
      ghost var ins := Installs(l, d, Head(l, d));
      assert trace == ins;
      InstalledAtBoot(l, d, view, disk);
      lh := [];
      ok := WriteHead();
      QuietFacts();
      assert trace == RecoverWrites(l, d);
      assert disk == Recovered(l, d);
      RecoveredIsImage(l, d);
    }

    lemma SpareAtBoot()
      requires Quiet() && NoneHeld(held) && pinned == {}
      ensures Spare(cache.buf)
    {
      NothingReferenced(cache.buf, held, pinned);
      assert cache.buf[0].refcnt == 0;
    }

    /** commit. Every bread in it succeeds as soon as one buffer is unreferenced; otherwise the
        first one panics, before anything is written. */
    method Commit() returns (ok: bool)
      requires Valid()
      modifies `lh, `view, `disk, `trace, `pinned, `held, cache
      ensures ok <==> old(lh) == [] || old(Spare(cache.buf))
      ensures !ok ==> trace == old(trace)
      ensures ok ==> Valid() && lh == [] && held == old(held)
      ensures ok ==> trace == old(trace) + CommitWrites(l, old(disk), old(view), old(lh))
      ensures ok ==> disk == Apply(old(disk), CommitWrites(l, old(disk), old(view), old(lh)))
      ensures ok ==> forall b :: l.Home(b) ==> view[b] == old(view)[b]
    {
      hide EncodeHead, DecodeHead, Installs, LogWrites, HomeWrites, CommitWrite, CommitWrites, Laid, Made, Head,
        HeadOk, Image, Sized, HomeOnly, Spare, LogCopied;
      QuietFacts();
      ok := true;
      if |lh| > 0 {
        ghost var d, v, h, tr := disk, view, lh, trace;
        ok := WriteLog();
        if !ok {
          return;
        }
        QuietFacts();
        CopiedHead(l, v, h, |h|, view, EncodeHead(view[l.start], lh));
        ok := WriteHead();
        QuietFacts();
        ghost var logged := view;
        ok := InstallTrans(false);
        QuietFacts();
        InstallView(l, v, h, logged, view);
        lh := [];
        ok := WriteHead();
        QuietFacts();
        CommitEnds(l, boot, d, v, h, logged, tr, trace, disk);
      }
    }

    /** What installing does to the cache: nothing, except that it re-copies logged data. */
    static lemma InstallView(l: Layout, v: Disk, h: seq<nat>, logged: Disk, e: Disk)
      requires l.Valid() && |v| == |logged| == l.size && LoggedOk(l, h)
      requires LogCopied(l, v, h, |h|, logged)
      requires Laid(logged, Installs(l, logged, h), |h|, e)
      ensures e[l.start] == logged[l.start] && forall b :: l.Home(b) ==> e[b] == v[b]
    {
      var ins := Installs(l, logged, h);
      forall b | b == l.start || l.Home(b) ensures e[b] == logged[b] {
        if b in h {
          var i :| 0 <= i < |h| && h[i] == b;
          FinalHit(logged, ins, |ins|, b, i);
        } else {
          FinalMiss(logged, ins, |ins|, b);
        }
      }
    }

    // ---------- clients ----------

    /** One round of begin_op's loop: admit the operation, or report that it must sleep. */
    method BeginOp() returns (admitted: bool)
      requires Valid()
      modifies `outstanding
      ensures admitted <==> !committing && |lh| + (old(outstanding) + 1) * MAXOPBLOCKS <= LOGBLOCKS
      ensures outstanding == old(outstanding) + if admitted then 1 else 0
    {
      if committing || |lh| + (outstanding + 1) * MAXOPBLOCKS > LOGBLOCKS {
        admitted := false;
      } else {
        outstanding := outstanding + 1;
        admitted := true;
      }
    }

    /** A client reads home block b; NBUF stands for the panic. */
    method Read(b: nat) returns (c: nat)
      requires Valid() && l.Home(b)
      modifies `held, cache`buf
      ensures Valid() && c <= NBUF
      ensures c == NBUF <==> forall d :: 0 <= d < NBUF ==>
        && old(cache.buf)[d].key != At(b) && old(cache.buf)[d].refcnt != 0
      ensures c < NBUF ==> Caches(cache.buf, c, At(b)) && cache.buf[c].data == view[b]
      ensures |old(held)| == NBUF && held == if c < NBUF then old(held)[c := old(held)[c] + 1] else old(held)
    {
      hide Made, Shows, BCache.Valid, HeadOk, Counted, LoggedOk, Pins;
      c := Get(b);
    }

    /** A client stores `data` in the buffer of block b that it holds and calls log_write. */
    method LogWrite(c: nat, b: nat, data: Block)
      requires Valid() && l.Home(b) && Caches(cache.buf, c, At(b)) && held[c] > 0
      requires |lh| < LOGBLOCKS && outstanding >= 1
      modifies `view, `lh, `pinned, cache`buf
      ensures Valid() && view == old(view)[b := data] && lh == Absorb(old(lh), b)
      ensures c < |cache.buf| == |old(cache.buf)| && Caches(cache.buf, c, At(b)) && cache.buf[c].data == data
    {
      hide Made, Shows, BCache.Valid, HeadOk, Counted;
      Store(c, b, data);
      var i := 0;
      while i < |lh| && lh[i] != b
        invariant 0 <= i <= |lh| && b !in lh[..i]
      {
        i := i + 1;
      }
      if i == |lh| {
        assert lh[..i] == lh;
        Pin(c, b);
        lh := lh + [b];
      } else {
        assert lh[i := b] == lh && b in lh;
        lh := lh[i := b];
      }
    }

    /** A client releases a buffer. It is the last reference only if the block is not logged,
        so what brelse asks holds: nothing unwritten is given up. */
    method Release(c: nat, b: nat)
      requires Valid() && Caches(cache.buf, c, At(b)) && held[c] > 0
      modifies `held, cache`buf, cache`next, cache`prev, cache`order, cache`stamp, cache`clock
      ensures Valid() && held == old(held)[c := old(held)[c] - 1]
      ensures cache.buf == old(cache.buf)[c := old(cache.buf)[c].(refcnt := old(cache.buf)[c].refcnt - 1)]
    {
      hide Made, Shows, BCache.Valid, HeadOk, Counted;
      Put(c, b);
    }

    /** end_op's first half: the last operation out must commit. */
    method EndOp() returns (last: bool)
      requires Valid() && outstanding >= 1 && !committing
      modifies `outstanding, `committing
      ensures Valid() && outstanding == old(outstanding) - 1
      ensures last <==> outstanding == 0
      ensures committing <==> last
    {
      outstanding := outstanding - 1;
      last := outstanding == 0;
      committing := last;
    }

    /** end_op's second half, with committing set and begin_op refusing throughout. */
    method FinishOp() returns (ok: bool)
      requires Valid() && committing
      modifies `lh, `view, `disk, `trace, `pinned, `held, `committing, cache
      ensures ok <==> old(lh) == [] || old(Spare(cache.buf))
      ensures ok ==> Valid() && !committing && lh == [] && held == old(held)
      ensures ok ==> trace == old(trace) + CommitWrites(l, old(disk), old(view), old(lh))
      ensures ok ==> forall b :: l.Home(b) ==> view[b] == disk[b] == old(view)[b]
      ensures !ok ==> committing && trace == old(trace)
    {
      ok := Commit();
      if ok {
        committing := false;
      }
    }
  }

  lemma PinsNext(lh: seq<nat>, k: nat)
    requires k < |lh| && forall i, j :: 0 <= i < j < |lh| ==> lh[i] != lh[j]
    ensures lh[k] in Pins(lh) - Pins(lh[..k])
  {
  }

  lemma HeadFacts(l: Layout, d: Disk)
    requires HeadOk(l, d)
    ensures l.start < |d| && d[l.start].w[0] <= LOGBLOCKS && Head(l, d) == d[l.start].w[1..1 + d[l.start].w[0]]
  {
  }

  lemma NothingReferenced(buf: seq<Buf<Block>>, held: seq<nat>, pinned: set<nat>)
    requires Counted(buf, held, pinned) && NoneHeld(held) && pinned == {}
    ensures forall c :: 0 <= c < |buf| ==> buf[c].refcnt == 0
  {
  }

  // ---------- counting buffers ----------

  /** The blocks somebody refers to: pinned by the log or held. */
  ghost function Referenced(buf: seq<Buf<Block>>, held: seq<nat>, pinned: set<nat>): set<nat>
    requires |held| == |buf|
  {
    pinned + set c | 0 <= c < |buf| && held[c] > 0 :: buf[c].key.blockno
  }

  /** A buffer is unreferenced exactly when fewer blocks are referenced than there are
      buffers. */
  lemma SpareIffFewer(l: Layout, buf: seq<Buf<Block>>, held: seq<nat>, pinned: set<nat>)
    requires Counted(buf, held, pinned) && HomeOnly(l, buf, held, pinned) && Unique(buf)
    ensures Spare(buf) <==> |Referenced(buf, held, pinned)| < |buf|
  {
    var used := Used(buf);
    UsedBlocks(l, buf, held, pinned);
    hide Counted, HomeOnly, Referenced;
    ImageSize(buf, used, Referenced(buf, held, pinned));
    if c: nat :| c < |buf| && buf[c].refcnt == 0 {
      assert used <= Indices(|buf|) - {c};
      SubsetSize(used, Indices(|buf|) - {c});
    } else {
      assert used == Indices(|buf|);
    }
  }

  ghost function Used(buf: seq<Buf<Block>>): set<nat> {
    set c: nat | 0 <= c < |buf| && buf[c].refcnt > 0
  }

  lemma UsedBlocks(l: Layout, buf: seq<Buf<Block>>, held: seq<nat>, pinned: set<nat>)
    requires Counted(buf, held, pinned) && HomeOnly(l, buf, held, pinned)
    ensures forall c :: c in Used(buf) ==> buf[c].key.dev == DEV
    ensures Referenced(buf, held, pinned) == set c | c in Used(buf) :: buf[c].key.blockno
  {
    var blocks := set c | c in Used(buf) :: buf[c].key.blockno;
    forall b | b in pinned ensures b in blocks {
      var c: nat :| Caches(buf, c, At(b));
      assert c in Used(buf) && buf[c].key.blockno == b;
    }
  }

  lemma {:induction false} ImageSize(buf: seq<Buf<Block>>, used: set<nat>, blocks: set<nat>)
    requires Unique(buf) && forall c :: c in used ==> c < |buf| && buf[c].key.dev == DEV
    requires blocks == set c | c in used :: buf[c].key.blockno
    ensures |blocks| == |used|
  {
    if used != {} {
      var c :| c in used;
      var rest := set d | d in used - {c} :: buf[d].key.blockno;
      ImageSize(buf, used - {c}, rest);
      assert buf[c].key.blockno !in rest;
      assert blocks == rest + {buf[c].key.blockno};
    }
  }

  ghost function Indices(n: nat): (r: set<nat>)
    ensures |r| == n && forall c: nat :: c in r <==> 0 <= c < n
  {
    if n == 0 then {} else Indices(n - 1) + {n - 1}
  }

  // ---------- a transaction that cannot commit ----------

  lemma {:induction false} PinsSize(lh: seq<nat>)
    requires forall i, j :: 0 <= i < j < |lh| ==> lh[i] != lh[j]
    ensures |Pins(lh)| == |lh|
  {
    if lh != [] {
      var n := |lh| - 1;
      assert Pins(lh) == Pins(lh[..n]) + {lh[n]};
      PinsSize(lh[..n]);
    }
  }

  /** With nothing held, a buffer is unreferenced exactly while the log has room. */
  lemma SpareWhileRoom(log: Log)
    requires log.Valid() && NoneHeld(log.held)
    ensures |log.cache.buf| == NBUF && (Spare(log.cache.buf) <==> |log.lh| < NBUF)
  {
    SpareIffFewer(log.l, log.cache.buf, log.held, log.pinned);
    PinsSize(log.lh);
    assert Referenced(log.cache.buf, log.held, log.pinned) == Pins(log.lh);
  }

  /** Three operations that log ten blocks each, as they are allowed to, fill the log and pin
      every buffer: the commit that the last end_op starts panics at its first bread. */
  method FullLogPanics(log: Log, bs: seq<nat>, data: Block) returns (ok: bool)
    requires log.Valid() && log.lh == [] && log.outstanding == 0 && !log.committing && NoneHeld(log.held)
    requires |bs| == 3 * MAXOPBLOCKS && forall i :: 0 <= i < |bs| ==> log.l.Home(bs[i])
    requires forall i, j :: 0 <= i < j < |bs| ==> bs[i] != bs[j]
    modifies log, log.cache
    ensures !ok && log.committing && log.trace == old(log.trace)
  {
    hide Log.Valid, Spare, NoneHeld;
    var admitted := log.BeginOp();
    admitted := log.BeginOp();
    admitted := log.BeginOp();
    for i := 0 to |bs|
      invariant log.Valid() && NoneHeld(log.held) && log.outstanding == 3 && !log.committing
      invariant log.lh == bs[..i] && log.trace == old(log.trace)
    {
      SpareWhileRoom(log);
      LogOne(log, bs[i], data);
      TakeSnoc(bs, i);
    }
    assert bs[..|bs|] == bs;
    var last := log.EndOp();
    last := log.EndOp();
    last := log.EndOp();
    SpareWhileRoom(log);
    ok := log.FinishOp();
  }

  /** bread, store, log_write, brelse */
  method LogOne(log: Log, b: nat, data: Block)
    requires log.Valid() && log.l.Home(b) && Spare(log.cache.buf) && |log.lh| < LOGBLOCKS && log.outstanding >= 1
    requires NoneHeld(log.held)
    modifies log`view, log`lh, log`pinned, log`held, log.cache
    ensures log.Valid() && log.lh == Absorb(old(log.lh), b) && log.view == old(log.view)[b := data]
    ensures NoneHeld(log.held)
  {
    hide LoggedOk, HeadOk, Log.Quiet, Head;
    log.QuietFacts();
    var c := log.Read(b);
    log.LogWrite(c, b, data);
    log.Release(c, b);
  }
}
