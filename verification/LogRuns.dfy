/** Every run of the logging protocol of kernel/log.c over the buffer cache: any interleaving
    of begin_op, log_write and end_op by any number of operations, of references to buffers
    taken and dropped and of evictions, the disk writes of commits one at a time, crashes at
    any point and recoveries that may themselves be cut. */
module LogRuns {
  import opened Common
  import opened LogFormat
  import opened Params

  /** One log_write: operation `op` set home block `block` to `data`. */
  datatype Entry = Entry(op: nat, block: nat, data: Block)

  /** What became of an operation: still in the open transaction, in durable group `g`,
      or lost in a crash. */
  datatype Fate = Live | Durable(g: nat) | Lost

  /** `base` is the disk when the commit or recovery started, `k` how many of its writes
      have reached the disk; `busy` while a commit holds a buffer for its next write. */
  datatype Phase = Running | Committing(base: Disk, k: nat, busy: bool) | Recovering(base: Disk, k: nat)

  /** History that no code reads: what was logged, and what of it is durable. */
  datatype History = History(
    origin: Disk,                   // the home blocks at boot
    groups: seq<seq<Entry>>,        // groups whose header write reached the disk
    current: seq<Entry>,            // entries of the open transaction
    issued: map<nat, seq<Entry>>,   // everything each operation ever logged
    fate: map<nat, Fate>)

  datatype State = State(
    l: Layout,
    disk: Disk,                     // what survives a crash
    view: Disk,                     // the blocks as bread returns them
    lh: seq<nat>,                   // log.lh.block[0..log.lh.n]
    open: map<nat, nat>,            // operations between begin_op and end_op: blocks appended
    waiting: set<nat>,              // processes asleep in begin_op
    held: map<nat, nat>,            // references that clients hold to the buffer of a block
    phase: Phase,                   // log.committing is phase.Committing?
    h: History)

  datatype Step =
    | Begin(op: nat)
    | Wait(pid: nat)
    | Woken(pid: nat)
    | Hold(block: nat)
    | Drop(block: nat)
    | Evict(block: nat)
    | LogWrite(op: nat, block: nat, data: Block)
    | End(op: nat)
    | CommitBread
    | CommitDisk
    | CommitDone
    | Crash
    | RecoverDisk
    | RecoverDone

  // ---------- history ----------

  ghost function Play(d: Disk, es: seq<Entry>): (r: Disk)
    ensures |r| == |d|
    decreases |es|
  {
    if es == [] then d
    else
      var n := |es| - 1;
      var r := Play(d, es[..n]);
      if es[n].block < |d| then r[es[n].block := es[n].data] else r
  }

  ghost function PlayAll(d: Disk, gs: seq<seq<Entry>>): (r: Disk)
    ensures |r| == |d|
    decreases |gs|
  {
    if gs == [] then d else Play(PlayAll(d, gs[..|gs| - 1]), gs[|gs| - 1])
  }

  /** The entries of one operation, in order. */
  ghost function Mine(es: seq<Entry>, op: nat): seq<Entry>
    decreases |es|
  {
    if es == [] then []
    else
      var n := |es| - 1;
      Mine(es[..n], op) + if es[n].op == op then [es[n]] else []
  }

  ghost predicate Touched(es: seq<Entry>, b: nat) {
    exists i :: 0 <= i < |es| && es[i].block == b
  }

  lemma {:induction false} PlayUntouched(d: Disk, es: seq<Entry>, b: nat)
    requires b < |d| && !Touched(es, b)
    ensures Play(d, es)[b] == d[b]
    decreases |es|
  {
    if es != [] {
      var n := |es| - 1;
      assert es[n].block != b;
      assert forall i :: 0 <= i < n ==> es[..n][i] == es[i];
      PlayUntouched(d, es[..n], b);
    }
  }

  lemma PlaySnoc(d: Disk, es: seq<Entry>, e: Entry)
    requires e.block < |d|
    ensures Play(d, es + [e]) == Play(d, es)[e.block := e.data]
  {
    assert (es + [e])[..|es|] == es;
  }

  lemma MineSnoc(es: seq<Entry>, e: Entry, op: nat)
    ensures Mine(es + [e], op) == Mine(es, op) + if e.op == op then [e] else []
  {
    assert (es + [e])[..|es|] == es;
  }

  lemma TouchedSnoc(es: seq<Entry>, e: Entry, b: nat)
    ensures Touched(es + [e], b) <==> Touched(es, b) || e.block == b
  {
    var fs := es + [e];
    assert fs[|es|] == e;
    if Touched(es, b) { var i :| 0 <= i < |es| && es[i].block == b; assert fs[i].block == b; }
  }

  // ---------- reservation ----------

  /** Blocks that the open operations may still append. */
  ghost function Unspent(open: map<nat, nat>): nat
    requires forall op :: op in open ==> open[op] <= MAXOPBLOCKS
    decreases |open|
  {
    if open == map[] then 0
    else
      var op :| op in open;
      MAXOPBLOCKS - open[op] + Unspent(open - {op})
  }

  lemma {:induction false} UnspentRemove(open: map<nat, nat>, op: nat)
    requires op in open && forall o :: o in open ==> open[o] <= MAXOPBLOCKS
    ensures Unspent(open) == MAXOPBLOCKS - open[op] + Unspent(open - {op})
    decreases |open|
  {
    var o :| o in open && Unspent(open) == MAXOPBLOCKS - open[o] + Unspent(open - {o});
    if o != op {
      UnspentRemove(open - {o}, op);
      UnspentRemove(open - {op}, o);
      assert open - {o} - {op} == open - {op} - {o};
    }
  }

  lemma UnspentUpdate(open: map<nat, nat>, op: nat, v: nat)
    requires v <= MAXOPBLOCKS && forall o :: o in open ==> open[o] <= MAXOPBLOCKS
    ensures Unspent(open[op := v]) == MAXOPBLOCKS - v + Unspent(open - {op})
  {
    UnspentRemove(open[op := v], op);
    assert open[op := v] - {op} == open - {op};
  }

  lemma {:induction false} UnspentBound(open: map<nat, nat>)
    requires forall o :: o in open ==> open[o] <= MAXOPBLOCKS
    ensures Unspent(open) <= |open| * MAXOPBLOCKS
    decreases |open|
  {
    if open != map[] {
      var op :| op in open;
      UnspentRemove(open, op);
      UnspentBound(open - {op});
      assert (open - {op}).Keys == open.Keys - {op};
    }
  }

  // ---------- steps ----------

  /** begin_op's test: this operation might exhaust the log. */
  predicate NoRoom(s: State) {
    |s.lh| + (|s.open| + 1) * MAXOPBLOCKS > LOGBLOCKS
  }

  // ---------- buffers ----------

  /** How many of n logged blocks a commit has installed and unpinned after k writes. */
  function Installed(k: nat, n: nat): (i: nat)
    ensures i <= n
  {
    if k <= n + 1 then 0 else if k - n - 1 <= n then k - n - 1 else n
  }

  ghost function Blocks(lh: seq<nat>): set<nat> {
    set b | b in lh
  }

  /** The blocks that log_write has pinned and install_trans not yet unpinned. */
  ghost function Pinned(s: State): set<nat> {
    if s.phase.Committing? then Blocks(s.lh[Installed(s.phase.k, |s.lh|)..]) else Blocks(s.lh)
  }

  /** The home blocks whose buffers are referenced. */
  ghost function Referenced(s: State): set<nat> {
    Pinned(s) + s.held.Keys
  }

  /** Buffers in use: besides those, the one that a commit holds for the log area. */
  ghost function InUse(s: State): nat {
    |Referenced(s)| + if s.phase.Committing? && s.phase.busy then 1 else 0
  }

  /** bget's panic: the block has no referenced buffer and no buffer is left to recycle. */
  ghost predicate NoBuffers(s: State, step: Step) {
    match step
    case Hold(b) => b !in Referenced(s) && InUse(s) >= NBUF
    case CommitBread => InUse(s) >= NBUF
    case _ => false
  }

  /** When a step can be taken. The clauses on LogWrite are what log.c asks of a client: an
      open operation, a referenced buffer of a block outside the log, and room left in its
      own budget. A block's buffer can be recycled unless it is referenced. */
  ghost predicate Enabled(s: State, step: Step) {
    match step
    case Begin(op) => !s.phase.Committing? && !s.phase.Recovering? && !NoRoom(s) && op !in s.h.issued
    case Wait(pid) => !s.phase.Recovering? && pid !in s.waiting && (s.phase.Committing? || NoRoom(s))
    case Woken(pid) => pid in s.waiting
    case Hold(b) => !s.phase.Recovering? && s.l.Home(b)
    case Drop(b) => b in s.held
    case Evict(b) => !s.phase.Recovering? && s.l.Home(b) && b !in Referenced(s) && |s.disk| == |s.view| == s.l.size
    case LogWrite(op, b, data) => MayLog(s, op, b)
    case End(op) => op in s.open
    case CommitBread =>
      && s.phase.Committing? && !s.phase.busy && CanCommit(s, s.phase.base)
      && s.phase.k < |CommitWrites(s.l, s.phase.base, s.view, s.lh)|
    case CommitDisk =>
      && s.phase.Committing? && s.phase.busy && CanCommit(s, s.phase.base)
      && s.phase.k < |CommitWrites(s.l, s.phase.base, s.view, s.lh)|
    case CommitDone =>
      && s.phase.Committing? && !s.phase.busy && CanCommit(s, s.phase.base)
      && s.phase.k == |CommitWrites(s.l, s.phase.base, s.view, s.lh)|
    case Crash => true
    case RecoverDisk =>
      s.phase.Recovering? && HeadOk(s.l, s.phase.base) && s.phase.k < |RecoverWrites(s.l, s.phase.base)|
    case RecoverDone =>
      s.phase.Recovering? && HeadOk(s.l, s.phase.base) && s.phase.k == |RecoverWrites(s.l, s.phase.base)|
  }

  predicate MayLog(s: State, op: nat, b: nat) {
    op in s.open && b in s.held && s.l.Home(b) && s.open[op] < MAXOPBLOCKS
  }

  ghost predicate CanCommit(s: State, base: Disk) {
    s.l.Valid() && |base| == |s.view| == |s.disk| == s.l.size && LoggedOk(s.l, s.lh)
  }

  /** The panics of log_write and end_op. */
  predicate Panics(s: State, step: Step) {
    match step
    case LogWrite(_, _, _) => |s.lh| >= LOGBLOCKS || |s.open| < 1
    case End(_) => s.phase.Committing?
    case _ => false
  }

  ghost function Settle(fate: map<nat, Fate>, f: Fate): map<nat, Fate> {
    map op | op in fate :: if fate[op].Live? then f else fate[op]
  }

  ghost function Put(d: Disk, w: Write): Disk {
    if w.block < |d| then d[w.block := w.data] else d
  }

  ghost function Begun(h: History, op: nat): History {
    h.(issued := h.issued[op := []], fate := h.fate[op := Live])
  }

  ghost function Logged(h: History, e: Entry): History {
    h.(current := h.current + [e],
       issued := if e.op in h.issued then h.issued[e.op := h.issued[e.op] + [e]] else h.issued)
  }

  /** The commit point: the open transaction becomes the next durable group. */
  ghost function Hardened(h: History): History {
    h.(groups := h.groups + [h.current], current := [], fate := Settle(h.fate, Durable(|h.groups|)))
  }

  ghost function Forgotten(h: History): History {
    h.(current := [], fate := Settle(h.fate, Lost))
  }

  ghost function DoLogWrite(s: State, e: Entry): State
    requires e.op in s.open
  {
    s.(view := Put(s.view, Write(e.block, e.data)),
       lh := Absorb(s.lh, e.block),
       open := if e.block in s.lh then s.open else s.open[e.op := s.open[e.op] + 1],
       h := Logged(s.h, e))
  }

  ghost function DoEnd(s: State, op: nat): State {
    var open := s.open - {op};
    if open == map[] then s.(open := open, phase := Committing(s.disk, 0, false))
    else s.(open := open, waiting := {})
  }

  /** One disk write of commit(), whose buffers are released after it; the header write is
      the commit point. */
  ghost function DoCommitDisk(s: State): State
    requires Enabled(s, CommitDisk)
  {
    var k := s.phase.k;
    var t := s.(disk := Put(s.disk, CommitWrites(s.l, s.phase.base, s.view, s.lh)[k]),
                phase := Committing(s.phase.base, k + 1, false));
    if k == |s.lh| then t.(h := Hardened(s.h)) else t
  }

  ghost function Do(s: State, step: Step): State
    requires Enabled(s, step)
  {
    match step
    case Begin(op) => s.(open := s.open[op := 0], h := Begun(s.h, op))
    case Wait(pid) => s.(waiting := s.waiting + {pid})
    case Woken(pid) => s.(waiting := s.waiting - {pid})
    case Hold(b) => s.(held := s.held[b := 1 + if b in s.held then s.held[b] else 0])
    case Drop(b) => s.(held := if s.held[b] > 1 then s.held[b := s.held[b] - 1] else s.held - {b})
    case Evict(b) => s.(view := s.view[b := s.disk[b]])
    case LogWrite(op, b, data) => DoLogWrite(s, Entry(op, b, data))
    case End(op) => DoEnd(s, op)
    case CommitBread => s.(phase := Committing(s.phase.base, s.phase.k, true))
    case CommitDisk => DoCommitDisk(s)
    case CommitDone => s.(lh := [], phase := Running, waiting := {})
    case Crash =>
      s.(lh := [], open := map[], waiting := {}, held := map[], phase := Recovering(s.disk, 0), h := Forgotten(s.h))
    case RecoverDisk =>
      s.(disk := Put(s.disk, RecoverWrites(s.l, s.phase.base)[s.phase.k]),
         phase := Recovering(s.phase.base, s.phase.k + 1))
    case RecoverDone => s.(view := s.disk, phase := Running)
  }

  ghost predicate Takes(s: State, step: Step) {
    Enabled(s, step) && !Panics(s, step) && !NoBuffers(s, step)
  }

  /** The machine boots into a recovery, from any disk with a legal header. */
  ghost predicate Boot(s: State) {
    && HeadOk(s.l, s.disk)
    && s.phase == Recovering(s.disk, 0)
    && s.lh == [] && s.open == map[] && s.waiting == {} && s.held == map[] && |s.view| == s.l.size
    && s.h == History(Recovered(s.l, s.disk), [], [], map[], map[])
  }

  /** A run takes enabled steps and ends where one would panic. */
  ghost predicate RunFrom(s: State, steps: seq<Step>, t: State)
    decreases |steps|
  {
    if steps == [] then s == t
    else Takes(s, steps[0]) && RunFrom(Do(s, steps[0]), steps[1..], t)
  }

  // ---------- invariant ----------

  /** What the disk owes the durable history. */
  ghost function DurableDisk(s: State): Disk {
    PlayAll(s.h.origin, s.h.groups)
  }

  /** The image a recovery would install is exactly the durable history. */
  ghost predicate CrashSafe(s: State) {
    && HeadOk(s.l, s.disk) && |s.h.origin| == s.l.size
    && forall b :: s.l.Home(b) ==> Image(s.l, s.disk, b) == DurableDisk(s)[b]
  }

  ghost predicate LogMatches(s: State) {
    && LoggedOk(s.l, s.lh)
    && (forall b :: b in s.lh <==> Touched(s.h.current, b))
    && SameHome(s.l, s.view, Play(DurableDisk(s), s.h.current))
  }

  ghost predicate PhaseOk(s: State) {
    match s.phase
    case Running =>
      && HeadOk(s.l, s.disk) && Head(s.l, s.disk) == [] && LogMatches(s)
      && (s.open == map[] ==> s.lh == [] && s.h.current == [])
    case Committing(base, k, busy) =>
      && s.open == map[] && ReadyToCommit(s.l, base, s.view, s.lh)
      && k <= |CommitWrites(s.l, base, s.view, s.lh)| && (busy ==> k < |CommitWrites(s.l, base, s.view, s.lh)|)
      && s.disk == Apply(base, CommitWrites(s.l, base, s.view, s.lh)[..k])
      && (if k <= |s.lh| then LogMatches(s) && SameHome(s.l, base, DurableDisk(s)) && (s.lh == [] ==> s.h.current == [])
          else s.h.current == [] && SameHome(s.l, s.view, DurableDisk(s))
               && forall b :: s.l.Home(b) && b !in s.lh ==> base[b] == s.view[b])
    case Recovering(base, k) =>
      && s.open == map[] && s.lh == [] && s.h.current == [] && s.waiting == {} && s.held == map[]
      && HeadOk(s.l, base) && k <= |RecoverWrites(s.l, base)|
      && s.disk == Apply(base, RecoverWrites(s.l, base)[..k])
  }

  /** Reservation: the log always has room for what open operations may still append. */
  ghost predicate BudgetOk(s: State) {
    && (forall op :: op in s.open ==> s.open[op] <= MAXOPBLOCKS)
    && |s.lh| + Unspent(s.open) <= LOGBLOCKS
  }

  ghost predicate Nowhere(gs: seq<seq<Entry>>, op: nat) {
    forall g :: 0 <= g < |gs| ==> Mine(gs[g], op) == []
  }

  ghost predicate OnlyIn(gs: seq<seq<Entry>>, op: nat, d: nat, es: seq<Entry>) {
    && d < |gs| && Mine(gs[d], op) == es
    && forall g :: 0 <= g < |gs| && g != d ==> Mine(gs[g], op) == []
  }

  ghost predicate FateOk(h: History, op: nat) {
    && op in h.fate && op in h.issued
    && match h.fate[op]
       case Live => Mine(h.current, op) == h.issued[op] && Nowhere(h.groups, op)
       case Durable(d) => Mine(h.current, op) == [] && OnlyIn(h.groups, op, d, h.issued[op])
       case Lost => Mine(h.current, op) == [] && Nowhere(h.groups, op)
  }

  ghost predicate Known(h: History, es: seq<Entry>) {
    forall i :: 0 <= i < |es| ==> es[i].op in h.issued
  }

  ghost predicate FatesOk(h: History) {
    && h.fate.Keys == h.issued.Keys
    && Known(h, h.current)
    && (forall g :: 0 <= g < |h.groups| ==> Known(h, h.groups[g]))
    && (forall op :: op in h.issued ==> FateOk(h, op))
  }

  ghost predicate OpenLive(s: State) {
    forall op :: op in s.open ==> op in s.h.fate && s.h.fate[op].Live?
  }

  ghost predicate WaitersOk(s: State) {
    s.waiting != {} ==> s.phase.Committing? || s.open != map[]
  }

  ghost predicate BuffersOk(s: State) {
    (forall b :: b in s.held ==> s.l.Home(b) && s.held[b] > 0) && InUse(s) <= NBUF
  }

  ghost predicate LogInv(s: State) {
    && CrashSafe(s) && PhaseOk(s) && BudgetOk(s) && FatesOk(s.h) && OpenLive(s) && WaitersOk(s) && |s.view| == s.l.size
  }

  ghost predicate Inv(s: State) {
    LogInv(s) && BuffersOk(s)
  }

  // ---------- history lemmas ----------

  /** An operation that issued nothing appears nowhere. */
  lemma {:induction false} MineAbsent(es: seq<Entry>, op: nat, known: set<nat>)
    requires op !in known && forall i :: 0 <= i < |es| ==> es[i].op in known
    ensures Mine(es, op) == []
    decreases |es|
  {
    if es != [] { MineAbsent(es[..|es| - 1], op, known); }
  }

  lemma BegunFates(h: History, op: nat)
    requires FatesOk(h) && op !in h.issued
    ensures FatesOk(Begun(h, op))
  {
    var t := Begun(h, op);
    MineAbsent(h.current, op, h.issued.Keys);
    forall g | 0 <= g < |h.groups| ensures Mine(h.groups[g], op) == [] && Known(t, t.groups[g]) {
      assert Known(h, h.groups[g]);
      MineAbsent(h.groups[g], op, h.issued.Keys);
    }
    forall o | o in t.issued ensures FateOk(t, o) {
      if o != op { assert FateOk(h, o); }
    }
  }

  lemma LoggedFates(h: History, e: Entry)
    requires FatesOk(h) && e.op in h.issued && h.fate[e.op].Live?
    ensures FatesOk(Logged(h, e))
  {
    var t := Logged(h, e);
    forall g | 0 <= g < |h.groups| ensures Known(t, t.groups[g]) { assert Known(h, h.groups[g]); }
    forall op | op in t.issued ensures FateOk(t, op) {
      assert FateOk(h, op);
      MineSnoc(h.current, e, op);
    }
  }

  lemma HardenedFates(h: History)
    requires FatesOk(h)
    ensures FatesOk(Hardened(h))
  {
    var t := Hardened(h);
    var n := |h.groups|;
    assert forall g :: 0 <= g < n ==> t.groups[g] == h.groups[g];
    forall g | 0 <= g <= n ensures Known(t, t.groups[g]) {
      if g < n { assert Known(h, h.groups[g]); }
    }
    forall op | op in t.issued ensures FateOk(t, op) {
      assert FateOk(h, op);
      if h.fate[op].Durable? { assert OnlyIn(h.groups, op, h.fate[op].g, h.issued[op]); }
    }
  }

  lemma ForgottenFates(h: History)
    requires FatesOk(h)
    ensures FatesOk(Forgotten(h))
  {
    var t := Forgotten(h);
    forall g | 0 <= g < |h.groups| ensures Known(t, t.groups[g]) { assert Known(h, h.groups[g]); }
    forall op | op in t.issued ensures FateOk(t, op) { assert FateOk(h, op); }
  }

  // ---------- one lemma per kind of step ----------

  /** Every disk with a legal header boots, and whatever the machine is doing it can crash: then
      all that is left is the disk, and the durable groups. */
  lemma BootsAndCrashes(l: Layout, d: Disk, s: State) returns (boot: State)
    requires HeadOk(l, d)
    ensures Boot(boot) && boot.l == l && boot.disk == d
    ensures Takes(s, Crash)
    ensures var t := Do(s, Crash);
      && t.l == s.l && t.disk == s.disk && t.phase == Recovering(s.disk, 0) && t.h.groups == s.h.groups
      && t.lh == [] && t.open == map[] && t.waiting == {} && t.held == map[]
  {
    boot := State(l, d, d, [], map[], {}, map[], Recovering(d, 0), History(Recovered(l, d), [], [], map[], map[]));
  }

  lemma BootInv(s: State)
    requires Boot(s)
    ensures Inv(s)
  {
    RecoveredIsImage(s.l, s.disk);
    assert RecoverWrites(s.l, s.disk)[..0] == [];
    assert Unspent(s.open) == 0;
  }

  lemma BeginBudget(s: State, op: nat)
    requires BudgetOk(s) && !NoRoom(s) && op !in s.open
    ensures BudgetOk(s.(open := s.open[op := 0], h := Begun(s.h, op)))
  {
    hide Begun, Unspent;
    UnspentUpdate(s.open, op, 0);
    assert s.open - {op} == s.open;
    UnspentBound(s.open);
    assert Unspent(s.open[op := 0]) <= (|s.open| + 1) * MAXOPBLOCKS;
  }

  lemma BeginInv(s: State, op: nat)
    requires LogInv(s) && Enabled(s, Begin(op))
    ensures LogInv(Do(s, Begin(op)))
  {
    hide PlayAll, Play, Mine, FateOk, Known, Apply, Image, Head, HeadOk, LoggedOk, Touched, SameHome, BudgetOk,
      NoRoom;
    assert op !in s.open;
    BeginBudget(s, op);
    BegunFates(s.h, op);
    assert op in Do(s, Begin(op)).open;
  }

  lemma LogWriteMatches(s: State, e: Entry)
    requires LogInv(s) && MayLog(s, e.op, e.block) && |s.lh| < LOGBLOCKS
    ensures LogMatches(DoLogWrite(s, e))
  {
    hide PlayAll, Play, Mine, FatesOk, Apply, Image, BudgetOk, WaitersOk;
    var t := DoLogWrite(s, e);
    assert s.phase.Running?;
    PlaySnoc(DurableDisk(s), s.h.current, e);
    forall b ensures b in t.lh <==> Touched(t.h.current, b) {
      TouchedSnoc(s.h.current, e, b);
    }
  }

  lemma LogWriteBudget(s: State, e: Entry)
    requires BudgetOk(s) && MayLog(s, e.op, e.block)
    ensures |s.lh| < LOGBLOCKS && BudgetOk(DoLogWrite(s, e))
  {
    UnspentRemove(s.open, e.op);
    if e.block !in s.lh { UnspentUpdate(s.open, e.op, s.open[e.op] + 1); }
  }

  lemma LogWriteInv(s: State, e: Entry)
    requires LogInv(s) && MayLog(s, e.op, e.block)
    ensures LogInv(DoLogWrite(s, e))
  {
    var t := DoLogWrite(s, e);
    LogWriteBudget(s, e);
    LogWriteMatches(s, e);
    LoggedFates(s.h, e);
    assert t.open.Keys == s.open.Keys && e.op in t.open;
  }

  lemma EndInv(s: State, op: nat)
    requires LogInv(s) && Enabled(s, End(op))
    ensures LogInv(DoEnd(s, op))
  {
    hide PlayAll, Play, Mine, FatesOk, EncodeHead, CommitWrite, LogWrites, HomeWrites;
    var t := DoEnd(s, op);
    assert s.phase.Running?;
    UnspentRemove(s.open, op);
    forall b | s.l.Home(b) ensures s.disk[b] == DurableDisk(s)[b] { assert Image(s.l, s.disk, b) == s.disk[b]; }
    if t.phase.Committing? {
      assert CommitWrites(t.l, t.disk, t.view, t.lh)[..0] == [];
      assert s.h.current != [] ==> Touched(s.h.current, s.h.current[0].block);
    }
  }

  /** At the commit point the cached home blocks are exactly the durable history. */
  lemma CommitPoint(s: State)
    requires LogInv(s) && Enabled(s, CommitDisk) && s.phase.k == |s.lh|
    ensures var t := DoCommitDisk(s); SameHome(t.l, t.view, DurableDisk(t))
    ensures forall b :: s.l.Home(b) && b !in s.lh ==> s.phase.base[b] == s.view[b]
  {
    var t := DoCommitDisk(s);
    assert t.h.groups[..|s.h.groups|] == s.h.groups;
    forall b | s.l.Home(b) && b !in s.lh ensures s.phase.base[b] == s.view[b] {
      PlayUntouched(DurableDisk(s), s.h.current, b);
    }
  }

  /** Each disk write of a commit leaves a disk that recovers to the durable history. */
  lemma CommitDiskCrashSafe(s: State)
    requires LogInv(s) && Enabled(s, CommitDisk)
    ensures CrashSafe(DoCommitDisk(s))
  {
    hide EncodeHead, CommitWrites, Mine, FatesOk, Apply, Image, Head;
    var t := DoCommitDisk(s);
    var base, k := s.phase.base, s.phase.k;
    ApplyStep(base, CommitWrites(s.l, base, s.view, s.lh), k);
    CommitImage(s.l, base, s.view, s.lh, k + 1, t.disk);
    var d := DurableDisk(t);
    if k == |s.lh| {
      CommitPoint(s);
    } else {
      assert d == DurableDisk(s);
    }
    forall b | s.l.Home(b) ensures Image(s.l, t.disk, b) == d[b] {
      if k < |s.lh| {
        assert base[b] == d[b];
      } else if b in s.lh {
        assert s.view[b] == d[b];
      } else {
        assert base[b] == s.view[b] == d[b];
      }
    }
  }

  lemma CommitDiskInv(s: State)
    requires LogInv(s) && Enabled(s, CommitDisk)
    ensures LogInv(DoCommitDisk(s))
  {
    hide CommitWrites, CommitWrite, PlayAll, Play, Mine, FatesOk, Apply, Image;
    CommitDiskCrashSafe(s);
    ApplyStep(s.phase.base, CommitWrites(s.l, s.phase.base, s.view, s.lh), s.phase.k);
    if s.phase.k == |s.lh| {
      CommitPoint(s);
      HardenedFates(s.h);
    }
  }

  lemma CommitImage(l: Layout, d: Disk, view: Disk, lh: seq<nat>, k: nat, e: Disk)
    requires ReadyToCommit(l, d, view, lh) && k <= |CommitWrites(l, d, view, lh)|
    requires e == Apply(d, CommitWrites(l, d, view, lh)[..k])
    ensures HeadOk(l, e)
    ensures forall b :: l.Home(b) ==> Image(l, e, b) == if k > |lh| && b in lh then view[b] else d[b]
  {
    var ws := CommitWrites(l, d, view, lh);
    if k <= |lh| {
      CommitCutEarly(l, d, view, lh, k);
    } else if k < |ws| {
      CommitCutLateImage(l, d, view, lh, k, e);
    } else {
      assert ws[..k] == ws;
      CommitComplete(l, d, view, lh, e);
    }
  }

  lemma CommitDoneInv(s: State)
    requires LogInv(s) && Enabled(s, CommitDone)
    ensures LogInv(Do(s, CommitDone))
  {
    var t := Do(s, CommitDone);
    var ws := CommitWrites(s.l, s.phase.base, s.view, s.lh);
    assert ws[..|ws|] == ws;
    CommitComplete(s.l, s.phase.base, s.view, s.lh, s.disk);
  }

  lemma CrashInv(s: State)
    requires LogInv(s)
    ensures LogInv(Do(s, Crash))
  {
    assert RecoverWrites(s.l, s.disk)[..0] == [];
    ForgottenFates(s.h);
  }

  lemma RecoverDiskInv(s: State)
    requires LogInv(s) && Enabled(s, RecoverDisk)
    ensures LogInv(Do(s, RecoverDisk))
  {
    hide PlayAll, Play, Mine, FatesOk, EncodeHead, Installs, Head, Image, RecoverWrites, Apply;
    var base, k := s.phase.base, s.phase.k;
    CutRecoveryKeepsImage(s.l, base, k);
    ApplyStep(base, RecoverWrites(s.l, base), k);
    CutRecoveryKeepsImage(s.l, base, k + 1);
  }

  lemma RecoverDoneInv(s: State)
    requires LogInv(s) && Enabled(s, RecoverDone)
    ensures LogInv(Do(s, RecoverDone))
  {
    hide PlayAll, Mine, FatesOk, EncodeHead, Installs, Apply, RecoverWrites, Recovered, Head, HeadOk, Image;
    RecoveredNow(s);
  }

  lemma RecoveredNow(s: State)
    requires LogInv(s) && Enabled(s, RecoverDone)
    ensures HeadOk(s.l, s.disk) && Head(s.l, s.disk) == [] && SameHome(s.l, s.disk, DurableDisk(s))
  {
    hide PlayAll, Play, Mine, FatesOk, EncodeHead, Installs, Apply, RecoverWrites;
    var ws := RecoverWrites(s.l, s.phase.base);
    assert ws[..s.phase.k] == ws;
    RecoveredIsImage(s.l, s.phase.base);
    forall b | s.l.Home(b) ensures s.disk[b] == DurableDisk(s)[b] { assert Image(s.l, s.disk, b) == s.disk[b]; }
  }

  /** Sleeping, waking and taking or dropping references touch nothing that is logged. */
  lemma WaitInv(s: State, step: Step)
    requires LogInv(s) && (step.Wait? || step.Woken? || step.Hold? || step.Drop? || step.CommitBread?)
    requires Enabled(s, step)
    ensures LogInv(Do(s, step))
  {
    hide LogInv, CommitWrites, RecoverWrites, CanCommit, NoBuffers, Referenced;
    StillWaited(s, step);
    LogInvAlike(s, Do(s, step));
  }

  lemma StillWaited(s: State, step: Step)
    requires LogInv(s) && (step.Wait? || step.Woken? || step.Hold? || step.Drop? || step.CommitBread?)
    requires Enabled(s, step)
    ensures WaitersOk(Do(s, step)) && (s.phase.Recovering? ==> Do(s, step).waiting == {} && Do(s, step).held == map[])
  {
    hide CommitWrites, RecoverWrites, CanCommit, CrashSafe, LogMatches, FatesOk, HeadOk, BudgetOk;
  }

  /** The invariant of the log reads neither the sleepers, nor the references, nor busy. */
  lemma LogInvAlike(s: State, t: State)
    requires LogInv(s) && WaitersOk(t) && (t.phase.Recovering? ==> t.waiting == {} && t.held == map[])
    requires t.l == s.l && t.disk == s.disk && t.view == s.view && t.lh == s.lh && t.open == s.open && t.h == s.h
    requires t.phase == s.phase || (s.phase.Committing? && t.phase == Committing(s.phase.base, s.phase.k, true)
      && CanCommit(s, s.phase.base) && s.phase.k < |CommitWrites(s.l, s.phase.base, s.view, s.lh)|)
    ensures LogInv(t)
  {
    hide PlayAll, Play, Mine, FatesOk, Apply, Image, Head, CommitWrites, RecoverWrites;
    assert DurableDisk(t) == DurableDisk(s);
  }

  /** What the cache would forget is on disk: a home block that is not pinned shows what the
      disk holds. */
  lemma DirtyIsPinned(s: State, b: nat)
    requires LogInv(s) && !s.phase.Recovering? && s.l.Home(b) && b !in Pinned(s)
    ensures s.view[b] == s.disk[b]
  {
    hide PlayAll, Play, Mine, FatesOk, EncodeHead, Apply, CommitWrites, CommitWrite;
    var d := DurableDisk(s);
    if s.phase.Running? {
      assert s.disk[b] == Image(s.l, s.disk, b) == d[b];
      PlayUntouched(d, s.h.current, b);
    } else {
      CommittedSoFar(s, b);
    }
  }

  /** The disk during a commit, at a block that is not logged or already installed. */
  lemma CommittedSoFar(s: State, b: nat)
    requires LogInv(s) && s.phase.Committing? && s.l.Home(b) && b !in Pinned(s)
    ensures s.view[b] == s.disk[b]
  {
    hide PlayAll, Play, Mine, FatesOk, EncodeHead, Apply, CommitWrites, CommitWrite, Image, CrashSafe, Head;
    var base, k, n := s.phase.base, s.phase.k, |s.lh|;
    var ws := CommitWrites(s.l, base, s.view, s.lh);
    if s.lh == [] {
      assert ws[..k] == [];
      ApplyNone(base);
      PlayUntouched(DurableDisk(s), s.h.current, b);
    } else if k <= n {
      PlayUntouched(DurableDisk(s), s.h.current, b);
      EarlyHome(s.l, base, s.view, s.lh, k, b);
    } else if k < |ws| {
      CommitCutLateHome(s.l, base, s.view, s.lh, k, b);
      assert s.lh[..k - n - 1] + s.lh[k - n - 1..] == s.lh;
    } else {
      assert ws[..k] == ws;
      CommitHomeComplete(s.l, base, s.view, s.lh, b);
    }
  }

  lemma ApplyNone(d: Disk)
    ensures Apply(d, []) == d
  {
  }

  lemma EarlyHome(l: Layout, d: Disk, view: Disk, lh: seq<nat>, k: nat, b: nat)
    requires ReadyToCommit(l, d, view, lh) && lh != [] && k <= |lh| && l.Home(b)
    ensures Apply(d, CommitWrites(l, d, view, lh)[..k])[b] == d[b]
  {
    hide EncodeHead, LogWrites, HomeWrites, CommitWrites, Apply, Final;
    ApplyAt(d, CommitWrites(l, d, view, lh), k, b);
    FinalMiss(d, CommitWrites(l, d, view, lh), k, b);
  }

  lemma EvictInv(s: State, b: nat)
    requires LogInv(s) && Enabled(s, Evict(b))
    ensures Do(s, Evict(b)) == s
  {
    hide LogInv;
    DirtyIsPinned(s, b);
  }

  // ---------- buffers in use ----------

  /** Every step that bget does not stop keeps within the buffers there are. */
  lemma StepBuffers(s: State, step: Step)
    requires Inv(s) && Takes(s, step)
    ensures BuffersOk(Do(s, step))
  {
    hide LogInv;
    NoneOpen(s);
    HeldHome(s, step);
    FewInUse(s, step);
  }

  lemma HeldHome(s: State, step: Step)
    requires BuffersOk(s) && Enabled(s, step)
    ensures var t := Do(s, step); forall b :: b in t.held ==> t.l.Home(b) && t.held[b] > 0
  {
    hide CommitWrites, RecoverWrites, CanCommit, Hardened, Begun, Logged, Forgotten, Referenced, InUse, HeadOk,
      NoRoom;
  }

  lemma FewInUse(s: State, step: Step)
    requires InUse(s) <= NBUF && Takes(s, step) && (s.phase.Committing? ==> s.open == map[])
    ensures InUse(Do(s, step)) <= NBUF
  {
    hide CommitWrites, RecoverWrites, CanCommit, Hardened, Begun, Logged, Forgotten, Referenced, HeadOk, NoRoom,
      Panics;
    Fewer(s, step);
    SubsetSize(Referenced(Do(s, step)), if step.Hold? then Referenced(s) + {step.block} else Referenced(s));
  }

  lemma NoneOpen(s: State)
    requires LogInv(s)
    ensures s.phase.Committing? ==> s.open == map[]
  {
    hide CrashSafe, FatesOk, BudgetOk, CommitWrites;
  }

  /** Only taking a reference makes a block referenced. */
  lemma Fewer(s: State, step: Step)
    requires Enabled(s, step) && (s.phase.Committing? ==> s.open == map[])
    ensures Referenced(Do(s, step)) <= if step.Hold? then Referenced(s) + {step.block} else Referenced(s)
  {
    hide CommitWrites, RecoverWrites, CanCommit, Hardened, Begun, Logged, Forgotten, NoRoom, HeadOk;
  }

  lemma StepInv(s: State, step: Step)
    requires Inv(s) && Takes(s, step)
    ensures Inv(Do(s, step))
  {
    hide LogInv, BuffersOk;
    StepBuffers(s, step);
    match step
    case Begin(op) => BeginInv(s, op);
    case Wait(_) => WaitInv(s, step);
    case Woken(_) => WaitInv(s, step);
    case Hold(_) => WaitInv(s, step);
    case Drop(_) => WaitInv(s, step);
    case Evict(b) => EvictInv(s, b);
    case LogWrite(op, b, data) => LogWriteInv(s, Entry(op, b, data));
    case End(op) => EndInv(s, op);
    case CommitBread => WaitInv(s, step);
    case CommitDisk => CommitDiskInv(s);
    case CommitDone => CommitDoneInv(s);
    case Crash => CrashInv(s);
    case RecoverDisk => RecoverDiskInv(s);
    case RecoverDone => RecoverDoneInv(s);
  }

  // ---------- theorems over runs ----------

  lemma Reached(boot: State, steps: seq<Step>, s: State)
    requires Boot(boot) && RunFrom(boot, steps, s)
    ensures Inv(s)
  {
    hide Inv;
    BootInv(boot);
    RunInv(boot, steps, s);
  }

  lemma {:induction false} RunInv(s: State, steps: seq<Step>, t: State)
    requires Inv(s) && RunFrom(s, steps, t)
    ensures Inv(t)
    decreases |steps|
  {
    if steps != [] {
      StepInv(s, steps[0]);
      RunInv(Do(s, steps[0]), steps[1..], t);
    }
  }

  /** Crash safety over every run: whatever happened, completing a recovery from the disk
      as it stands gives exactly the boot content with a whole number of group commits
      played over it, and an empty header. */
  lemma RecoveredIsWholeGroups(boot: State, steps: seq<Step>, s: State)
    requires Boot(boot) && RunFrom(boot, steps, s)
    ensures HeadOk(s.l, s.disk)
    ensures var r := Recovered(s.l, s.disk);
      SameHome(s.l, r, PlayAll(s.h.origin, s.h.groups)) && HeadOk(s.l, r) && Head(s.l, r) == []
  {
    Reached(boot, steps, s);
    hide Boot, RunFrom;
    RecoveredIsImage(s.l, s.disk);
  }

  /** Every operation's writes lie, complete and in order, inside one durable group, or in
      none: no crash splits an operation. */
  lemma OperationsAreAtomic(boot: State, steps: seq<Step>, s: State, op: nat)
    requires Boot(boot) && RunFrom(boot, steps, s) && op in s.h.issued
    ensures Nowhere(s.h.groups, op) || exists g :: OnlyIn(s.h.groups, op, g, s.h.issued[op])
  {
    Reached(boot, steps, s);
    hide Boot, RunFrom;
    assert FateOk(s.h, op);
    if s.h.fate[op].Durable? { assert OnlyIn(s.h.groups, op, s.h.fate[op].g, s.h.issued[op]); }
  }

  /** While the system runs, bread sees the durable history plus the open transaction. */
  lemma RunningView(boot: State, steps: seq<Step>, s: State)
    requires Boot(boot) && RunFrom(boot, steps, s) && s.phase.Running?
    ensures SameHome(s.l, s.view, Play(PlayAll(s.h.origin, s.h.groups), s.h.current))
    ensures s.open == map[] ==> s.h.current == []
  {
    hide CommitWrites, CommitWrite, RecoverWrites, PlayAll, Play, Mine, FatesOk, Apply, Image;
    Reached(boot, steps, s);
    hide Boot, RunFrom;
  }

  lemma StepKeepsDurable(s: State, step: Step, op: nat)
    requires Inv(s) && Takes(s, step) && op in s.h.fate && s.h.fate[op].Durable?
    ensures var t := Do(s, step);
      && s.h.groups <= t.h.groups && s.h.origin == t.h.origin
      && op in t.h.fate && t.h.fate[op] == s.h.fate[op]
      && op in s.h.issued && op in t.h.issued && t.h.issued[op] == s.h.issued[op]
  {
    hide PlayAll, Play, Mine, FateOk, Known, Apply, Image, Head, HeadOk, CommitWrites, RecoverWrites, LogMatches,
      PhaseOk, CanCommit, NoBuffers, Panics, NoRoom, Referenced, CrashSafe, BuffersOk, BudgetOk;
    assert op in s.h.issued;
  }

  /** Durability: once an operation's group is committed, no later step, crash or cut
      recovery takes it back. */
  lemma {:induction false} DurableForever(s: State, steps: seq<Step>, t: State, op: nat)
    requires Inv(s) && RunFrom(s, steps, t) && op in s.h.fate && s.h.fate[op].Durable?
    ensures s.h.groups <= t.h.groups && s.h.origin == t.h.origin
    ensures op in t.h.fate && t.h.fate[op] == s.h.fate[op]
    ensures op in s.h.issued && op in t.h.issued && t.h.issued[op] == s.h.issued[op]
    decreases |steps|
  {
    assert op in s.h.issued;
    if steps != [] {
      StepInv(s, steps[0]);
      StepKeepsDurable(s, steps[0], op);
      DurableForever(Do(s, steps[0]), steps[1..], t, op);
    }
  }

  /** When the commit that an end_op started returns, every operation of the transaction
      that logged anything is durable. */
  lemma CommittedOpsAreDurable(boot: State, steps: seq<Step>, s: State, op: nat)
    requires Boot(boot) && RunFrom(boot, steps, s) && Enabled(s, CommitDone)
    requires op in s.h.issued && s.h.issued[op] != [] && op in s.h.fate && !s.h.fate[op].Lost?
    ensures s.h.fate[op].Durable?
  {
    Reached(boot, steps, s);
    hide Inv, Boot, RunFrom, Enabled;
    CommittedNow(s, op);
  }

  lemma CommittedNow(s: State, op: nat)
    requires LogInv(s) && Enabled(s, CommitDone)
    requires op in s.h.issued && s.h.issued[op] != [] && op in s.h.fate && !s.h.fate[op].Lost?
    ensures s.h.fate[op].Durable?
  {
    NothingOpen(s);
    FateOf(s, op);
    hide LogInv, Enabled, Nowhere, OnlyIn;
    assert Mine([], op) == [];
  }

  lemma NothingOpen(s: State)
    requires LogInv(s) && Enabled(s, CommitDone)
    ensures s.h.current == []
  {
    hide CrashSafe, HeadOk, Apply, LogMatches, FatesOk, SameHome, PlayAll, Play, Head, CommitWrite, BudgetOk;
  }

  lemma FateOf(s: State, op: nat)
    requires LogInv(s) && op in s.h.issued
    ensures FateOk(s.h, op)
  {
    hide FateOk, CrashSafe, PhaseOk, BudgetOk;
  }

  /** Reservation is sound: no run reaches a panic of log_write or end_op, the log plus all
      unspent budgets fits, and a commit never overlaps an open operation. */
  lemma NoPanic(boot: State, steps: seq<Step>, s: State)
    requires Boot(boot) && RunFrom(boot, steps, s)
    ensures forall step :: Enabled(s, step) ==> !Panics(s, step)
    ensures (forall op :: op in s.open ==> s.open[op] <= MAXOPBLOCKS) && |s.lh| + Unspent(s.open) <= LOGBLOCKS
    ensures s.phase.Committing? ==> s.open == map[]
  {
    Reached(boot, steps, s);
    hide Boot, RunFrom, CommitWrites, RecoverWrites, CrashSafe, LogMatches, FatesOk, HeadOk, Enabled, Panics;
    forall step | Enabled(s, step) ensures !Panics(s, step) {
      NoPanicNow(s, step);
    }
  }

  lemma NoPanicNow(s: State, step: Step)
    requires LogInv(s) && Enabled(s, step)
    ensures !Panics(s, step)
  {
    hide CommitWrites, RecoverWrites, CrashSafe, LogMatches, FatesOk, HeadOk, CanCommit, Referenced;
    if step.LogWrite? {
      LogWriteBudget(s, Entry(step.op, step.block, step.data));
      assert |s.open.Keys| >= 1;
    }
  }

  /** Nobody sleeps in begin_op for ever: whenever someone does, a commit is under way or
      an open operation is left, the next end_op or commit end wakes them, and with
      neither left there is room. */
  lemma WaitersAreWoken(boot: State, steps: seq<Step>, s: State)
    requires Boot(boot) && RunFrom(boot, steps, s)
    ensures s.waiting != {} ==> s.phase.Committing? || s.open != map[]
    ensures forall op :: op in s.open ==>
      Enabled(s, End(op)) && var t := Do(s, End(op)); t.waiting == {} || t.phase.Committing?
    ensures Enabled(s, CommitDone) ==> Do(s, CommitDone).waiting == {} && !NoRoom(Do(s, CommitDone))
    ensures s.phase.Running? && s.open == map[] ==> !NoRoom(s)
  {
    Reached(boot, steps, s);
    hide Inv, Boot, RunFrom, Enabled, NoRoom;
    WaitersNow(s);
  }

  lemma WaitersNow(s: State)
    requires LogInv(s)
    ensures s.waiting != {} ==> s.phase.Committing? || s.open != map[]
    ensures forall op :: op in s.open ==>
      Enabled(s, End(op)) && var t := Do(s, End(op)); t.waiting == {} || t.phase.Committing?
    ensures Enabled(s, CommitDone) ==> Do(s, CommitDone).waiting == {} && !NoRoom(Do(s, CommitDone))
    ensures s.phase.Running? && s.open == map[] ==> !NoRoom(s)
  {
    hide CommitWrites, RecoverWrites, CrashSafe, LogMatches, FatesOk, HeadOk, CanCommit, Referenced, BudgetOk;
  }

  /** Nothing unwritten can leave the cache: outside a recovery, a home block that no log
      record pins shows what the disk holds, so recycling an unreferenced buffer changes
      nothing that bread shows. */
  lemma EvictionIsHarmless(boot: State, steps: seq<Step>, s: State, b: nat)
    requires Boot(boot) && RunFrom(boot, steps, s) && !s.phase.Recovering? && s.l.Home(b)
    ensures |s.view| == |s.disk| == s.l.size
    ensures b !in Pinned(s) ==> s.view[b] == s.disk[b]
    ensures b !in Referenced(s) ==> Enabled(s, Evict(b)) && Do(s, Evict(b)) == s
  {
    Reached(boot, steps, s);
    hide Inv, Boot, RunFrom, Enabled, Referenced, Pinned;
    EvictionNow(s, b);
  }

  lemma EvictionNow(s: State, b: nat)
    requires LogInv(s) && !s.phase.Recovering? && s.l.Home(b)
    ensures |s.view| == |s.disk| == s.l.size
    ensures b !in Pinned(s) ==> s.view[b] == s.disk[b]
    ensures b !in Referenced(s) ==> Enabled(s, Evict(b)) && Do(s, Evict(b)) == s
  {
    hide LogInv, Pinned;
    Sizes(s);
    if b !in Pinned(s) {
      DirtyIsPinned(s, b);
    }
  }

  lemma Sizes(s: State)
    requires LogInv(s)
    ensures s.l.Valid() && |s.disk| == |s.view| == s.l.size && LoggedOk(s.l, s.lh)
    ensures s.phase.Committing? ==>
      && CanCommit(s, s.phase.base) && s.phase.k <= |CommitWrites(s.l, s.phase.base, s.view, s.lh)|
      && (s.phase.busy ==> s.phase.k < |CommitWrites(s.l, s.phase.base, s.view, s.lh)|)
    ensures s.phase.Recovering? ==>
      && HeadOk(s.l, s.phase.base) && s.phase.k <= |RecoverWrites(s.l, s.phase.base)|
  {
    hide PlayAll, Play, Mine, FatesOk, Image, CommitWrites, RecoverWrites, Apply, Head, LogMatches;
    if s.phase.Running? || s.phase.Committing? { LoggedFine(s); }
  }

  lemma LoggedFine(s: State)
    requires LogInv(s) && !s.phase.Recovering?
    ensures LoggedOk(s.l, s.lh)
  {
    hide PlayAll, Play, Mine, FatesOk, Image, CommitWrites, RecoverWrites, Apply, Head, LoggedOk;
  }

  /** A commit under way takes its next step exactly when bget finds it a buffer: some buffer
      is left beside those of pinned and held blocks. At its start these are the logged
      blocks and the others held. */
  lemma CommitProceeds(boot: State, steps: seq<Step>, s: State)
    requires Boot(boot) && RunFrom(boot, steps, s) && s.phase.Committing?
    ensures Enabled(s, CommitBread) || Enabled(s, CommitDisk) || Enabled(s, CommitDone)
    ensures Enabled(s, CommitDisk) ==> Takes(s, CommitDisk)
    ensures Enabled(s, CommitDone) ==> Takes(s, CommitDone)
    ensures Enabled(s, CommitBread) ==> (Takes(s, CommitBread) <==> |Referenced(s)| < NBUF)
    ensures |s.lh| + |s.held.Keys - Blocks(s.lh)| < NBUF ==> |Referenced(s)| < NBUF
    ensures s.phase.k <= |s.lh| ==> |Referenced(s)| == |s.lh| + |s.held.Keys - Blocks(s.lh)|
  {
    Reached(boot, steps, s);
    hide Inv, Boot, RunFrom;
    CommitMoves(s);
    CommitCount(s);
  }

  lemma CommitMoves(s: State)
    requires Inv(s) && s.phase.Committing?
    ensures Enabled(s, CommitBread) || Enabled(s, CommitDisk) || Enabled(s, CommitDone)
    ensures Enabled(s, CommitDisk) ==> Takes(s, CommitDisk)
    ensures Enabled(s, CommitDone) ==> Takes(s, CommitDone)
    ensures Enabled(s, CommitBread) ==> (Takes(s, CommitBread) <==> |Referenced(s)| < NBUF)
  {
    hide LogInv, BuffersOk, CommitWrites, Referenced, CanCommit;
    Sizes(s);
  }

  lemma CommitCount(s: State)
    requires Inv(s) && s.phase.Committing?
    ensures |s.lh| + |s.held.Keys - Blocks(s.lh)| < NBUF ==> |Referenced(s)| < NBUF
    ensures s.phase.k <= |s.lh| ==> |Referenced(s)| == |s.lh| + |s.held.Keys - Blocks(s.lh)|
  {
    hide LogInv, BuffersOk, CommitWrites, CanCommit;
    Sizes(s);
    BlockCount(s.lh);
    CountRest(s.lh, Installed(s.phase.k, |s.lh|), s.held.Keys);
  }

  lemma CountRest(lh: seq<nat>, i: nat, held: set<nat>)
    requires i <= |lh|
    ensures |Blocks(lh[i..]) + held| <= |Blocks(lh)| + |held - Blocks(lh)|
    ensures i == 0 ==> |Blocks(lh[i..]) + held| == |Blocks(lh)| + |held - Blocks(lh)|
  {
    var all := Blocks(lh) + (held - Blocks(lh));
    assert Blocks(lh[i..]) + held <= all;
    SubsetSize(Blocks(lh[i..]) + held, all);
    if i == 0 {
      assert lh[i..] == lh;
      assert Blocks(lh) + held == all;
    }
  }

  lemma {:induction false} BlockCount(lh: seq<nat>)
    requires forall i, j :: 0 <= i < j < |lh| ==> lh[i] != lh[j]
    ensures |Blocks(lh)| == |lh|
  {
    if lh != [] {
      var n := |lh| - 1;
      assert Blocks(lh) == Blocks(lh[..n]) + {lh[n]};
      BlockCount(lh[..n]);
    }
  }

  /** A recovery under way can always take its next step: it reads at most two buffers at a
      time and nobody holds any. */
  lemma RecoveryProceeds(boot: State, steps: seq<Step>, s: State)
    requires Boot(boot) && RunFrom(boot, steps, s) && s.phase.Recovering?
    ensures Takes(s, RecoverDisk) || Takes(s, RecoverDone)
    ensures Referenced(s) == {} && InUse(s) + 2 <= NBUF
  {
    Reached(boot, steps, s);
    hide Inv, Boot, RunFrom, Takes, Referenced;
    RecoveryNow(s);
  }

  lemma RecoveryNow(s: State)
    requires Inv(s) && s.phase.Recovering?
    ensures Takes(s, RecoverDisk) || Takes(s, RecoverDone)
    ensures Referenced(s) == {} && InUse(s) + 2 <= NBUF
  {
    hide CommitWrites, RecoverWrites, CrashSafe, FatesOk, HeadOk, LogMatches;
    assert Blocks(s.lh) == {};
    assert Referenced(s) == {};
  }

  // ---------- a transaction that cannot commit ----------

  lemma {:induction false} RunJoin(s: State, a: seq<Step>, t: State, b: seq<Step>, u: State)
    requires RunFrom(s, a, t) && RunFrom(t, b, u)
    ensures RunFrom(s, a + b, u)
    decreases |a|
  {
    hide Enabled, Panics, NoBuffers;
    if a == [] {
      assert a + b == b;
    } else {
      RunJoin(Do(s, a[0]), a[1..], t, b, u);
      assert (a + b)[0] == a[0] && (a + b)[1..] == a[1..] + b;
    }
  }

  lemma RunOne(s: State, step: Step)
    requires Takes(s, step)
    ensures RunFrom(s, [step], Do(s, step))
  {
    assert RunFrom(Do(s, step), [step][1..], Do(s, step));
  }

  /** The rest of a recovery. */
  lemma {:induction false} RecoverRun(s: State) returns (steps: seq<Step>, t: State)
    requires Inv(s) && s.phase.Recovering?
    ensures RunFrom(s, steps, t) && t == s.(disk := t.disk, view := t.view, phase := Running)
    decreases |RecoverWrites(s.l, s.phase.base)| - s.phase.k
  {
    hide LogInv, BuffersOk, RecoverWrites, CommitWrites, HeadOk;
    Sizes(s);
    if s.phase.k == |RecoverWrites(s.l, s.phase.base)| {
      t := Do(s, RecoverDone);
      RunOne(s, RecoverDone);
      steps := [RecoverDone];
    } else {
      StepInv(s, RecoverDisk);
      RunOne(s, RecoverDisk);
      steps, t := RecoverRun(Do(s, RecoverDisk));
      RunJoin(s, [RecoverDisk], Do(s, RecoverDisk), steps, t);
      steps := [RecoverDisk] + steps;
    }
  }

  /** Operations 0, 1 and 2, of which the first j blocks take ten each in turn. */
  ghost function Shares(j: nat): map<nat, nat>
    requires j <= LOGBLOCKS
  {
    map[0 := if j <= 10 then j else 10,
        1 := if j <= 10 then 0 else if j <= 20 then j - 10 else 10,
        2 := if j <= 20 then 0 else j - 20]
  }

  /** Nothing is logged yet but the first blocks of `bs`, by three open operations. */
  ghost predicate Filling(s: State, l: Layout, bs: seq<nat>, j: nat) {
    && j <= |bs| == LOGBLOCKS && s.l == l && s.lh == bs[..j] && s.open == Shares(j) && s.held == map[]
    && s.phase == Running
  }

  lemma ThreeBegin(s: State, bs: seq<nat>) returns (steps: seq<Step>, t: State)
    requires s.phase == Running && s.lh == [] && s.open == map[] && s.held == map[] && s.h.issued == map[]
    requires |bs| == LOGBLOCKS
    ensures RunFrom(s, steps, t) && Filling(t, s.l, bs, 0)
  {
    var s1 := Do(s, Begin(0));
    RunOne(s, Begin(0));
    assert s1.open.Keys == {0};
    var s2 := Do(s1, Begin(1));
    RunOne(s1, Begin(1));
    assert s2.open.Keys == {0, 1};
    t := Do(s2, Begin(2));
    RunOne(s2, Begin(2));
    RunJoin(s, [Begin(0)], s1, [Begin(1)], s2);
    RunJoin(s, [Begin(0)] + [Begin(1)], s2, [Begin(2)], t);
    steps := [Begin(0)] + [Begin(1)] + [Begin(2)];
  }

  /** bread, log_write and brelse of the next block. */
  lemma LogNext(s: State, bs: seq<nat>, data: Block, j: nat) returns (steps: seq<Step>, t: State)
    requires Filling(s, s.l, bs, j) && j < LOGBLOCKS && Fresh(s.l, bs)
    ensures RunFrom(s, steps, t) && Filling(t, s.l, bs, j + 1)
  {
    hide RunFrom, Filling, Fresh;
    HoldNext(s, bs, j);
    var b, op := bs[j], j / 10;
    var s1 := Do(s, Hold(b));
    RunOne(s, Hold(b));
    LogHeld(s, s1, bs, data, j);
    var s2 := Do(s1, LogWrite(op, b, data));
    RunOne(s1, LogWrite(op, b, data));
    t := Do(s2, Drop(b));
    RunOne(s2, Drop(b));
    RunJoin(s, [Hold(b)], s1, [LogWrite(op, b, data)], s2);
    RunJoin(s, [Hold(b)] + [LogWrite(op, b, data)], s2, [Drop(b)], t);
    steps := [Hold(b)] + [LogWrite(op, b, data)] + [Drop(b)];
  }

  lemma HoldNext(s: State, bs: seq<nat>, j: nat)
    requires Filling(s, s.l, bs, j) && j < LOGBLOCKS && Fresh(s.l, bs)
    ensures |bs| == LOGBLOCKS && Takes(s, Hold(bs[j])) && Do(s, Hold(bs[j])) == s.(held := map[bs[j] := 1])
  {
    BlockCount(bs[..j]);
    assert Referenced(s) == Blocks(bs[..j]);
    assert map[][bs[j] := 1] == map[bs[j] := 1];
  }

  lemma LogHeld(s: State, s1: State, bs: seq<nat>, data: Block, j: nat)
    requires Filling(s, s.l, bs, j) && j < LOGBLOCKS && Fresh(s.l, bs) && s1 == s.(held := map[bs[j] := 1])
    ensures Takes(s1, LogWrite(j / 10, bs[j], data))
    ensures var s2 := Do(s1, LogWrite(j / 10, bs[j], data));
      Takes(s2, Drop(bs[j])) && Filling(Do(s2, Drop(bs[j])), s.l, bs, j + 1)
  {
    hide Logged, Put;
    var b, op := bs[j], j / 10;
    assert op in s1.open.Keys;
    NextShare(j);
    assert b !in s1.lh && s1.lh + [b] == bs[..j + 1];
    assert map[b := 1] - {b} == map[];
  }

  lemma NextShare(j: nat)
    requires j < LOGBLOCKS
    ensures j / 10 in Shares(j) && Shares(j)[j / 10] < MAXOPBLOCKS
    ensures Shares(j)[j / 10 := Shares(j)[j / 10] + 1] == Shares(j + 1)
  {
  }

  ghost predicate Fresh(l: Layout, bs: seq<nat>) {
    && |bs| == LOGBLOCKS && (forall i :: 0 <= i < |bs| ==> l.Home(bs[i]))
    && forall i, j :: 0 <= i < j < |bs| ==> bs[i] != bs[j]
  }

  lemma {:induction false} LogAll(s: State, bs: seq<nat>, data: Block, j: nat) returns (steps: seq<Step>, t: State)
    requires Filling(s, s.l, bs, j) && Fresh(s.l, bs)
    ensures RunFrom(s, steps, t) && Filling(t, s.l, bs, LOGBLOCKS)
    decreases LOGBLOCKS - j
  {
    if j == LOGBLOCKS {
      steps, t := [], s;
    } else {
      var first, u := LogNext(s, bs, data, j);
      steps, t := LogAll(u, bs, data, j + 1);
      RunJoin(s, first, u, steps, t);
      steps := first + steps;
    }
  }

  lemma ThreeEnd(s: State, bs: seq<nat>) returns (steps: seq<Step>, t: State)
    requires Filling(s, s.l, bs, LOGBLOCKS)
    ensures RunFrom(s, steps, t) && t == s.(open := map[], waiting := t.waiting, phase := Committing(s.disk, 0, false))
  {
    var s1 := Do(s, End(0));
    RunOne(s, End(0));
    assert 1 in s1.open && 2 in s1.open;
    var s2 := Do(s1, End(1));
    RunOne(s1, End(1));
    assert 2 in s2.open;
    t := Do(s2, End(2));
    RunOne(s2, End(2));
    RunJoin(s, [End(0)], s1, [End(1)], s2);
    RunJoin(s, [End(0)] + [End(1)], s2, [End(2)], t);
    steps := [End(0)] + [End(1)] + [End(2)];
  }

  /** From any boot, three operations can log ten blocks each, within their budgets and with
      every log_write allowed, and end: the commit then needs a buffer while all are pinned,
      and panics in bget. */
  lemma FullLogPanics(boot: State, bs: seq<nat>, data: Block) returns (steps: seq<Step>, s: State)
    requires Boot(boot) && Fresh(boot.l, bs)
    ensures RunFrom(boot, steps, s) && s.phase.Committing? && s.lh == bs && s.held == map[]
    ensures Enabled(s, CommitBread) && NoBuffers(s, CommitBread)
  {
    BootInv(boot);
    hide Inv, Boot, RunFrom;
    var r, s0 := RecoverRun(boot);
    var b, s1 := ThreeBegin(s0, bs);
    var w, s2 := LogAll(s1, bs, data, 0);
    var e, s3 := ThreeEnd(s2, bs);
    RunJoin(boot, r, s0, b, s1);
    RunJoin(boot, r + b, s1, w, s2);
    RunJoin(boot, r + b + w, s2, e, s3);
    steps, s := r + b + w + e, s3;
    RunInv(boot, steps, s);
    NoneLeft(s, bs);
  }

  lemma NoneLeft(s: State, bs: seq<nat>)
    requires Inv(s) && s.phase.Committing? && s.phase.k == 0 && !s.phase.busy && s.lh == bs && s.held == map[]
    requires Fresh(s.l, bs)
    ensures Enabled(s, CommitBread) && NoBuffers(s, CommitBread)
  {
    hide LogInv, CanCommit, CommitWrites;
    Sizes(s);
    BlockCount(bs);
    assert bs[0..] == bs;
    assert Referenced(s) == Blocks(bs);
  }
}
