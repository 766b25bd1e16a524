/** The on-disk redo log of kernel/log.c: the header block, the ordered single-block
    writes that a commit and a recovery perform, and what survives when either is cut. */
module LogFormat {
  import opened Params

  const WORDS := 256  // BSIZE / sizeof(uint)

  /** A disk block, seen as its 256 words. */
  type Words = w: seq<nat> | |w| == WORDS witness seq(WORDS, _ => 0)

  datatype Block = Block(w: Words)

  type Disk = seq<Block>

  /** Where the log lies: the header at `start`, then LOGBLOCKS log blocks. */
  datatype Layout = Layout(start: nat, size: nat) {
    ghost predicate Valid() { start + LOGBLOCKS < size }
    predicate InLog(b: int) { start <= b <= start + LOGBLOCKS }
    predicate Home(b: int) { 0 <= b < size && !InLog(b) }
  }

  /** Two disks agree on every block outside the log. */
  ghost predicate SameHome(l: Layout, d: Disk, e: Disk) {
    |d| == |e| == l.size && forall b :: l.Home(b) ==> d[b] == e[b]
  }

  // ---------- the header block ----------

  /** The header buffer after copying `n` and the first `n` block numbers over it. */
  function EncodeHead(buf: Block, lh: seq<nat>): Block
    requires |lh| <= LOGBLOCKS
  {
    Block([|lh|] + lh + buf.w[|lh| + 1..])
  }

  function DecodeHead(b: Block): seq<nat>
    requires b.w[0] <= LOGBLOCKS
  {
    b.w[1..1 + b.w[0]]
  }

  ghost predicate HeadOk(l: Layout, d: Disk) {
    && l.Valid() && |d| == l.size
    && d[l.start].w[0] <= LOGBLOCKS
    && forall b :: b in DecodeHead(d[l.start]) ==> l.Home(b)
  }

  /** The block numbers of the transaction recorded on disk. */
  ghost function Head(l: Layout, d: Disk): (h: seq<nat>)
    requires HeadOk(l, d)
    ensures |h| <= LOGBLOCKS
    ensures forall i :: 0 <= i < |h| ==> l.Home(h[i])
  {
    DecodeHead(d[l.start])
  }

  lemma HeadRoundTrip(buf: Block, lh: seq<nat>)
    requires |lh| <= LOGBLOCKS
    ensures EncodeHead(buf, lh).w[0] == |lh|
    ensures DecodeHead(EncodeHead(buf, lh)) == lh
    ensures forall i :: 0 < i < WORDS ==>
      EncodeHead(buf, lh).w[i] == if i <= |lh| then lh[i - 1] else buf.w[i]
  {
    var e := EncodeHead(buf, lh);
    assert forall i :: 0 <= i < |lh| ==> e.w[1 + i] == lh[i];
  }

  // ---------- ordered disk writes ----------

  datatype Write = Write(block: nat, data: Block)

  ghost predicate Fits(d: Disk, ws: seq<Write>) {
    forall i :: 0 <= i < |ws| ==> ws[i].block < |d|
  }

  /** The disk after the writes `ws`, in order. */
  ghost function Apply(d: Disk, ws: seq<Write>): (r: Disk)
    requires Fits(d, ws)
    ensures |r| == |d|
    decreases |ws|
  {
    if ws == [] then d
    else
      var n := |ws| - 1;
      Apply(d, ws[..n])[ws[n].block := ws[n].data]
  }

  /** The data the first `k` writes of `ws` leave in block `b`. */
  ghost function Final(d: Disk, ws: seq<Write>, k: nat, b: nat): Block
    requires k <= |ws| && b < |d|
  {
    if k == 0 then d[b]
    else if ws[k - 1].block == b then ws[k - 1].data
    else Final(d, ws, k - 1, b)
  }

  lemma {:induction false} ApplyAt(d: Disk, ws: seq<Write>, k: nat, b: nat)
    requires Fits(d, ws) && k <= |ws| && b < |d|
    ensures Apply(d, ws[..k])[b] == Final(d, ws, k, b)
  {
    if k > 0 {
      ApplyAt(d, ws, k - 1, b);
      assert ws[..k][..k - 1] == ws[..k - 1];
    }
  }

  lemma ApplyStep(d: Disk, ws: seq<Write>, k: nat)
    requires Fits(d, ws) && k < |ws|
    ensures Apply(d, ws[..k + 1]) == Apply(d, ws[..k])[ws[k].block := ws[k].data]
  {
    assert ws[..k + 1][..k] == ws[..k];
  }

  /** Writes that all miss `b` leave it alone. */
  lemma {:induction false} FinalMiss(d: Disk, ws: seq<Write>, k: nat, b: nat)
    requires k <= |ws| && b < |d|
    requires forall i :: 0 <= i < k ==> ws[i].block != b
    ensures Final(d, ws, k, b) == d[b]
  {
    if k > 0 { FinalMiss(d, ws, k - 1, b); }
  }

  /** The last write that hits `b` decides its content. */
  lemma {:induction false} FinalHit(d: Disk, ws: seq<Write>, k: nat, b: nat, i: nat)
    requires i < k <= |ws| && b < |d|
    requires ws[i].block == b
    requires forall j :: i < j < k ==> ws[j].block != b
    ensures Final(d, ws, k, b) == ws[i].data
  {
    if i < k - 1 { FinalHit(d, ws, k - 1, b, i); }
  }

  /** `Final` only looks at the writes and at the starting content of `b`. */
  lemma {:induction false} FinalAgree(d: Disk, e: Disk, ws: seq<Write>, k: nat, b: nat)
    requires k <= |ws| && b < |d| == |e|
    requires d[b] == e[b] || exists i :: 0 <= i < k && ws[i].block == b
    ensures Final(d, ws, k, b) == Final(e, ws, k, b)
  {
    if k > 0 && ws[k - 1].block != b { FinalAgree(d, e, ws, k - 1, b); }
  }

  // ---------- recovery ----------

  ghost function Installs(l: Layout, d: Disk, h: seq<nat>): (ws: seq<Write>)
    requires l.Valid() && |d| == l.size && |h| <= LOGBLOCKS
    ensures |ws| == |h|
    ensures forall i :: 0 <= i < |ws| ==> ws[i] == Write(h[i], d[l.start + 1 + i])
  {
    seq(|h|, i requires 0 <= i < |h| => Write(h[i], d[l.start + 1 + i]))
  }

  /** What recover_from_log writes, in order, when it starts from disk `d`. */
  ghost function RecoverWrites(l: Layout, d: Disk): (ws: seq<Write>)
    requires HeadOk(l, d)
    ensures Fits(d, ws)
  {
    Installs(l, d, Head(l, d)) + [Write(l.start, EncodeHead(d[l.start], []))]
  }

  /** The disk a recovery that is not cut leaves behind. */
  ghost function Recovered(l: Layout, d: Disk): Disk
    requires HeadOk(l, d)
  {
    Apply(d, RecoverWrites(l, d))
  }

  /** The content of home block `b` once the recorded transaction has been installed. */
  ghost function Image(l: Layout, d: Disk, b: nat): Block
    requires HeadOk(l, d) && l.Home(b)
  {
    Final(d, Installs(l, d, Head(l, d)), |Head(l, d)|, b)
  }

  ghost predicate SameImage(l: Layout, d: Disk, e: Disk) {
    HeadOk(l, d) && HeadOk(l, e) && forall b :: l.Home(b) ==> Image(l, d, b) == Image(l, e, b)
  }

  lemma FinalPrefix(d: Disk, ws: seq<Write>, vs: seq<Write>, k: nat, b: nat)
    requires k <= |ws| && b < |d|
    ensures Final(d, ws + vs, k, b) == Final(d, ws, k, b)
  {
  }

  /** A completed recovery installs the image and empties the header. */
  lemma RecoveredIsImage(l: Layout, d: Disk)
    requires HeadOk(l, d)
    ensures HeadOk(l, Recovered(l, d)) && Head(l, Recovered(l, d)) == []
    ensures forall b :: l.Home(b) ==> Recovered(l, d)[b] == Image(l, d, b)
  {
    var ws := RecoverWrites(l, d);
    var n := |ws| - 1;
    assert ws[..n + 1] == ws;
    ApplyStep(d, ws, n);
    HeadRoundTrip(d[l.start], []);
    forall b | l.Home(b) ensures Recovered(l, d)[b] == Image(l, d, b) {
      ApplyAt(d, ws, n, b);
      FinalPrefix(d, Installs(l, d, Head(l, d)), [ws[n]], n, b);
    }
  }

  /** Installing never touches the log region. */
  lemma InstallKeepsLog(l: Layout, d: Disk, k: nat)
    requires HeadOk(l, d) && k <= |Head(l, d)|
    ensures var e := Apply(d, RecoverWrites(l, d)[..k]);
      HeadOk(l, e) && forall b :: l.InLog(b) ==> e[b] == d[b]
  {
    var ws := RecoverWrites(l, d);
    var e := Apply(d, ws[..k]);
    forall b | l.InLog(b) ensures e[b] == d[b] {
      ApplyAt(d, ws, k, b);
      FinalMiss(d, ws, k, b);
    }
  }

  /** A recovery cut after any `k` of its writes leaves the same image to recover. */
  lemma CutRecoveryKeepsImage(l: Layout, d: Disk, k: nat)
    requires HeadOk(l, d) && k <= |RecoverWrites(l, d)|
    ensures SameImage(l, Apply(d, RecoverWrites(l, d)[..k]), d)
  {
    var ws := RecoverWrites(l, d);
    var e := Apply(d, ws[..k]);
    var h := Head(l, d);
    if k == |ws| {
      assert ws[..k] == ws;
      RecoveredIsImage(l, d);
    } else {
      InstallKeepsLog(l, d, k);
      assert Head(l, e) == h;
      assert Installs(l, e, h) == Installs(l, d, h);
      forall b | l.Home(b) ensures Image(l, e, b) == Image(l, d, b) {
        CutInstallAt(l, d, k, b);
        FinalAgree(e, d, Installs(l, d, h), |h|, b);
      }
    }
  }

  lemma CutInstallAt(l: Layout, d: Disk, k: nat, b: nat)
    requires HeadOk(l, d) && k <= |Head(l, d)| && l.Home(b)
    ensures var ws := Installs(l, d, Head(l, d));
      Apply(d, RecoverWrites(l, d)[..k])[b] == d[b] || exists i :: 0 <= i < |ws| && ws[i].block == b
  {
    var ws := RecoverWrites(l, d);
    var ins := Installs(l, d, Head(l, d));
    ApplyAt(d, ws, k, b);
    if !exists i :: 0 <= i < |ins| && ins[i].block == b {
      assert forall i :: 0 <= i < k ==> ws[i].block == ins[i].block;
      FinalMiss(d, ws, k, b);
    }
  }

  /** A sequence of recoveries, the i-th cut after `cuts[i]` of its writes. */
  ghost function CutRecoveries(l: Layout, d: Disk, cuts: seq<nat>): (e: Disk)
    requires HeadOk(l, d)
    ensures HeadOk(l, e)
    decreases |cuts|
  {
    if cuts == [] then d
    else
      var ws := RecoverWrites(l, d);
      var k := if cuts[0] <= |ws| then cuts[0] else |ws|;
      CutRecoveryKeepsImage(l, d, k);
      CutRecoveries(l, Apply(d, ws[..k]), cuts[1..])
  }

  lemma {:induction false} CutRecoveriesKeepImage(l: Layout, d: Disk, cuts: seq<nat>)
    requires HeadOk(l, d)
    ensures SameImage(l, CutRecoveries(l, d, cuts), d)
    decreases |cuts|
  {
    if cuts != [] {
      var ws := RecoverWrites(l, d);
      var k := if cuts[0] <= |ws| then cuts[0] else |ws|;
      CutRecoveryKeepsImage(l, d, k);
      CutRecoveriesKeepImage(l, Apply(d, ws[..k]), cuts[1..]);
    }
  }

  // ---------- commit ----------

  ghost predicate LoggedOk(l: Layout, lh: seq<nat>) {
    && |lh| <= LOGBLOCKS
    && (forall i :: 0 <= i < |lh| ==> l.Home(lh[i]))
    && forall i, j :: 0 <= i < j < |lh| ==> lh[i] != lh[j]
  }

  /** log_write's loop: an already logged block is absorbed. */
  function Absorb(lh: seq<nat>, b: nat): seq<nat> {
    if b in lh then lh else lh + [b]
  }

  ghost function LogWrites(l: Layout, view: Disk, lh: seq<nat>): (ws: seq<Write>)
    requires l.Valid() && |view| == l.size && LoggedOk(l, lh)
    ensures |ws| == |lh| && forall i :: 0 <= i < |ws| ==> ws[i] == Write(l.start + 1 + i, view[lh[i]])
  {
    seq(|lh|, i requires 0 <= i < |lh| => Write(l.start + 1 + i, view[lh[i]]))
  }

  ghost function HomeWrites(l: Layout, view: Disk, lh: seq<nat>): (ws: seq<Write>)
    requires l.Valid() && |view| == l.size && LoggedOk(l, lh)
    ensures |ws| == |lh| && forall i :: 0 <= i < |ws| ==> ws[i] == Write(lh[i], view[lh[i]])
  {
    seq(|lh|, i requires 0 <= i < |lh| => Write(lh[i], view[lh[i]]))
  }

  /** The `j`-th disk write of a commit that has something to commit. */
  ghost function CommitWrite(l: Layout, d: Disk, view: Disk, lh: seq<nat>, j: nat): Write
    requires l.Valid() && |d| == |view| == l.size && LoggedOk(l, lh) && j < 2 * |lh| + 2
  {
    var n := |lh|;
    if j < n then Write(l.start + 1 + j, view[lh[j]])
    else if j == n then Write(l.start, EncodeHead(d[l.start], lh))
    else if j < 2 * n + 1 then Write(lh[j - n - 1], view[lh[j - n - 1]])
    else Write(l.start, EncodeHead(EncodeHead(d[l.start], lh), []))
  }

  /** What commit() writes, in order: the log, the header, the home blocks, the empty
      header. `d` is the disk and `view` what the cache holds when commit starts. */
  ghost function CommitWrites(l: Layout, d: Disk, view: Disk, lh: seq<nat>): (ws: seq<Write>)
    requires l.Valid() && |d| == |view| == l.size && LoggedOk(l, lh)
    ensures Fits(d, ws) && |ws| == if lh == [] then 0 else 2 * |lh| + 2
    ensures lh != [] ==> forall j :: 0 <= j < |ws| ==> ws[j] == CommitWrite(l, d, view, lh, j)
  {
    if lh == [] then []
    else
      var hd := EncodeHead(d[l.start], lh);
      LogWrites(l, view, lh) + [Write(l.start, hd)] + HomeWrites(l, view, lh)
      + [Write(l.start, EncodeHead(hd, []))]
  }

  /** The old home content with every logged block replaced by its cached content. */
  ghost predicate AllNew(l: Layout, d: Disk, view: Disk, lh: seq<nat>, e: Disk)
    requires |d| == |view| == l.size
  {
    && |e| == l.size
    && forall b :: l.Home(b) ==> e[b] == if b in lh then view[b] else d[b]
  }

  ghost predicate ImageAllNew(l: Layout, d: Disk, view: Disk, lh: seq<nat>, e: Disk)
    requires |d| == |view| == l.size
  {
    HeadOk(l, e) && forall b :: l.Home(b) ==> Image(l, e, b) == if b in lh then view[b] else d[b]
  }

  ghost predicate ReadyToCommit(l: Layout, d: Disk, view: Disk, lh: seq<nat>) {
    && HeadOk(l, d) && Head(l, d) == [] && |view| == l.size && LoggedOk(l, lh)
  }

  /** Cut before the header write: nothing changed that recovery would install. */
  lemma CommitCutEarly(l: Layout, d: Disk, view: Disk, lh: seq<nat>, k: nat)
    requires ReadyToCommit(l, d, view, lh) && k <= |lh|
    requires k <= |CommitWrites(l, d, view, lh)|
    ensures var e := Apply(d, CommitWrites(l, d, view, lh)[..k]);
      SameImage(l, e, d) && Head(l, e) == [] && forall b :: l.Home(b) ==> e[b] == d[b]
  {
    var ws := CommitWrites(l, d, view, lh);
    var e := Apply(d, ws[..k]);
    forall b | 0 <= b < l.size && (b == l.start || l.Home(b)) ensures e[b] == d[b] {
      ApplyAt(d, ws, k, b);
      FinalMiss(d, ws, k, b);
    }
  }

  /** Cut after the header write but before the final one: the header is on disk ... */
  lemma CommitCutLateHead(l: Layout, d: Disk, view: Disk, lh: seq<nat>, k: nat)
    requires ReadyToCommit(l, d, view, lh) && lh != [] && |lh| < k < 2 * |lh| + 2
    ensures var e := Apply(d, CommitWrites(l, d, view, lh)[..k]);
      HeadOk(l, e) && Head(l, e) == lh && e[l.start] == EncodeHead(d[l.start], lh)
  {
    var ws := CommitWrites(l, d, view, lh);
    ApplyAt(d, ws, k, l.start);
    FinalHit(d, ws, k, l.start, |lh|);
    HeadRoundTrip(d[l.start], lh);
  }

  /** ... the log is complete ... */
  lemma CommitCutLateLog(l: Layout, d: Disk, view: Disk, lh: seq<nat>, k: nat, i: nat)
    requires ReadyToCommit(l, d, view, lh) && lh != [] && |lh| < k < 2 * |lh| + 2 && i < |lh|
    ensures Apply(d, CommitWrites(l, d, view, lh)[..k])[l.start + 1 + i] == view[lh[i]]
  {
    hide EncodeHead, LogWrites, HomeWrites;
    var ws := CommitWrites(l, d, view, lh);
    ApplyAt(d, ws, k, l.start + 1 + i);
    FinalHit(d, ws, k, l.start + 1 + i, i);
  }

  /** ... and of the home blocks, only those already installed have changed. */
  lemma CommitCutLateHome(l: Layout, d: Disk, view: Disk, lh: seq<nat>, k: nat, b: nat)
    requires ReadyToCommit(l, d, view, lh) && lh != [] && |lh| < k < 2 * |lh| + 2 && l.Home(b)
    ensures var e := Apply(d, CommitWrites(l, d, view, lh)[..k]);
      e[b] == if b in lh[..k - |lh| - 1] then view[b] else d[b]
  {
    hide EncodeHead, LogWrites, HomeWrites, CommitWrites, Apply, Final;
    var ws := CommitWrites(l, d, view, lh);
    var n := |lh|;
    ApplyAt(d, ws, k, b);
    if b in lh[..k - n - 1] {
      var i :| 0 <= i < k - n - 1 && lh[i] == b;
      FinalHit(d, ws, k, b, n + 1 + i);
    } else {
      forall j | 0 <= j < k ensures ws[j].block != b {
        if n < j { assert lh[j - n - 1] in lh[..k - n - 1]; }
      }
      FinalMiss(d, ws, k, b);
    }
  }

  /** The image of a disk whose log is complete. */
  lemma LoggedImage(l: Layout, e: Disk, view: Disk, lh: seq<nat>, b: nat)
    requires HeadOk(l, e) && Head(l, e) == lh && |view| == l.size && LoggedOk(l, lh) && l.Home(b)
    requires forall i :: 0 <= i < |lh| ==> e[l.start + 1 + i] == view[lh[i]]
    ensures Image(l, e, b) == if b in lh then view[b] else e[b]
  {
    hide Installs, EncodeHead;
    var ins := Installs(l, e, lh);
    if b in lh {
      var i :| 0 <= i < |lh| && lh[i] == b;
      FinalHit(e, ins, |lh|, b, i);
    } else {
      FinalMiss(e, ins, |lh|, b);
    }
  }

  lemma CommitCutLateImage(l: Layout, d: Disk, view: Disk, lh: seq<nat>, k: nat, e: Disk)
    requires ReadyToCommit(l, d, view, lh) && lh != [] && |lh| < k < 2 * |lh| + 2
    requires e == Apply(d, CommitWrites(l, d, view, lh)[..k])
    ensures ImageAllNew(l, d, view, lh, e)
  {
    CommitCutLateHead(l, d, view, lh, k);
    forall i | 0 <= i < |lh| ensures e[l.start + 1 + i] == view[lh[i]] {
      CommitCutLateLog(l, d, view, lh, k, i);
    }
    forall b | l.Home(b) ensures Image(l, e, b) == if b in lh then view[b] else d[b] {
      LoggedImage(l, e, view, lh, b);
      CommitCutLateHome(l, d, view, lh, k, b);
    }
  }

  lemma CommitHomeComplete(l: Layout, d: Disk, view: Disk, lh: seq<nat>, b: nat)
    requires ReadyToCommit(l, d, view, lh) && lh != [] && l.Home(b)
    ensures Apply(d, CommitWrites(l, d, view, lh))[b] == if b in lh then view[b] else d[b]
  {
    var ws := CommitWrites(l, d, view, lh);
    var n := |ws| - 1;
    CommitCutLateHome(l, d, view, lh, n, b);
    assert lh[..n - |lh| - 1] == lh;
    assert ws[..n + 1] == ws;
    ApplyStep(d, ws, n);
  }

  /** The whole commit: home blocks all new, header empty again. */
  lemma CommitComplete(l: Layout, d: Disk, view: Disk, lh: seq<nat>, e: Disk)
    requires ReadyToCommit(l, d, view, lh)
    requires e == Apply(d, CommitWrites(l, d, view, lh))
    ensures HeadOk(l, e) && Head(l, e) == []
    ensures AllNew(l, d, view, lh, e) && ImageAllNew(l, d, view, lh, e)
  {
    if lh != [] {
      var ws := CommitWrites(l, d, view, lh);
      var n := |ws| - 1;
      assert ws[..n + 1] == ws;
      ApplyStep(d, ws, n);
      HeadRoundTrip(EncodeHead(d[l.start], lh), []);
      forall b | l.Home(b) ensures e[b] == if b in lh then view[b] else d[b] {
        CommitHomeComplete(l, d, view, lh, b);
      }
    }
  }

  /** Atomic commit. Cut commit() after any `k` of its disk writes, then run any number of
      recoveries each cut anywhere, then one that completes: the home blocks are all old
      or all new, all new exactly when the first header write was among the `k`, and the
      on-disk header ends empty. */
  lemma CommitIsAtomic(l: Layout, d: Disk, view: Disk, lh: seq<nat>, k: nat, cuts: seq<nat>)
    requires ReadyToCommit(l, d, view, lh) && k <= |CommitWrites(l, d, view, lh)|
    ensures var e := Apply(d, CommitWrites(l, d, view, lh)[..k]);
      && HeadOk(l, e)
      && var r := Recovered(l, CutRecoveries(l, e, cuts));
         && HeadOk(l, r) && Head(l, r) == []
         && if k > |lh| then AllNew(l, d, view, lh, r) else SameHome(l, r, d)
  {
    var ws := CommitWrites(l, d, view, lh);
    var e := Apply(d, ws[..k]);
    if k <= |lh| {
      CommitCutEarly(l, d, view, lh, k);
    } else if k < |ws| {
      CommitCutLateImage(l, d, view, lh, k, e);
    } else {
      assert ws[..k] == ws;
      CommitComplete(l, d, view, lh, e);
    }
    CutRecoveriesKeepImage(l, e, cuts);
    RecoveredIsImage(l, CutRecoveries(l, e, cuts));
  }
}
