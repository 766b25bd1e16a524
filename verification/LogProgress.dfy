/** kernel/log.c: that what LogRuns proves safe also happens: a commit, given a buffer, runs to
    its end, and an operation that writes becomes durable. */
module LogProgress {
  import opened Common
  import opened LogFormat
  import opened LogRuns
  import opened Params

  /** The rest of a commit, when a buffer is left beside those of the logged and held blocks: the
      open transaction becomes one durable group, once. */
  lemma {:induction false} CommitRun(s: State) returns (steps: seq<Step>, t: State)
    requires Inv(s) && s.phase.Committing? && |s.lh| + |s.held.Keys - Blocks(s.lh)| < NBUF
    ensures RunFrom(s, steps, t) && t.phase == Running && t.lh == [] && t.open == s.open && t.held == s.held
    ensures t.l == s.l && t.h == if s.lh != [] && s.phase.k <= |s.lh| then Hardened(s.h) else s.h
    decreases |CommitWrites(s.l, s.phase.base, s.view, s.lh)| - s.phase.k, if s.phase.busy then 0 else 1
  {
    hide LogInv, BuffersOk, CommitWrites, CanCommit, Referenced, NoBuffers, Hardened, Blocks, RunFrom;
    Sizes(s);
    CommitMoves(s);
    CommitCount(s);
    var step := NextStep(s);
    var u := Do(s, step);
    RunOne(s, step);
    if step.CommitDone? {
      steps, t := [step], u;
    } else {
      StepInv(s, step);
      var more;
      more, t := CommitRun(u);
      RunJoin(s, [step], u, more, t);
      steps := [step] + more;
    }
  }

  lemma CommitLength(l: Layout, d: Disk, view: Disk, lh: seq<nat>) returns (n: nat)
    requires l.Valid() && |d| == |view| == l.size && LoggedOk(l, lh)
    ensures n == |CommitWrites(l, d, view, lh)| == if lh == [] then 0 else 2 * |lh| + 2
  {
    n := |CommitWrites(l, d, view, lh)|;
    hide LoggedOk;
  }

  lemma NextStep(s: State) returns (step: Step)
    requires s.phase.Committing? && CanCommit(s, s.phase.base)
    requires s.phase.k <= |CommitWrites(s.l, s.phase.base, s.view, s.lh)|
    requires s.phase.busy ==> s.phase.k < |CommitWrites(s.l, s.phase.base, s.view, s.lh)|
    ensures step == CommitBread || step == CommitDisk || step == CommitDone
    ensures Enabled(s, step)
    ensures step.CommitDone? ==> s.lh == [] || s.phase.k > |s.lh|
  {
    var n := CommitLength(s.l, s.phase.base, s.view, s.lh);
    hide CommitWrites, CanCommit, HeadOk, RecoverWrites, NoRoom, MayLog, Referenced;
    step := if s.phase.busy then CommitDisk else if s.phase.k < n then CommitBread else CommitDone;
  }

  // ---------- one operation, from begin_op to the end of its commit ----------

  ghost function Entries(op: nat, ws: seq<Write>): (es: seq<Entry>)
    ensures |es| == |ws| && forall i :: 0 <= i < |ws| ==> es[i] == Entry(op, ws[i].block, ws[i].data)
  {
    seq(|ws|, i requires 0 <= i < |ws| => Entry(op, ws[i].block, ws[i].data))
  }

  /** Operation op alone is open and has appended at most n blocks. */
  ghost predicate Writing(s: State, op: nat, n: nat) {
    && Inv(s) && s.phase == Running && s.held == map[] && s.open.Keys == {op} && op in s.h.issued
    && s.open[op] <= n && |s.lh| <= n <= MAXOPBLOCKS
  }

  /** bread, log_write and brelse of one block. */
  lemma LogOne(s: State, op: nat, w: Write, n: nat) returns (steps: seq<Step>, t: State)
    requires Writing(s, op, n) && n < MAXOPBLOCKS && s.l.Home(w.block)
    ensures RunFrom(s, steps, t) && Writing(t, op, n + 1) && t.l == s.l && t.lh != []
    ensures t.h == Logged(s.h, Entry(op, w.block, w.data))
  {
    hide RunFrom, Inv;
    var b := w.block;
    HoldOne(s, op, b, n);
    var s1 := Do(s, Hold(b));
    StepInv(s, Hold(b));
    RunOne(s, Hold(b));
    LogHeldOne(s, s1, op, w, n);
    var s2 := Do(s1, LogWrite(op, b, w.data));
    StepInv(s1, LogWrite(op, b, w.data));
    RunOne(s1, LogWrite(op, b, w.data));
    t := Do(s2, Drop(b));
    StepInv(s2, Drop(b));
    RunOne(s2, Drop(b));
    hide Do, Takes;
    RunJoin(s, [Hold(b)], s1, [LogWrite(op, b, w.data)], s2);
    RunJoin(s, [Hold(b)] + [LogWrite(op, b, w.data)], s2, [Drop(b)], t);
    steps := [Hold(b)] + [LogWrite(op, b, w.data)] + [Drop(b)];
  }

  lemma HoldOne(s: State, op: nat, b: nat, n: nat)
    requires Writing(s, op, n) && s.l.Home(b)
    ensures Takes(s, Hold(b)) && Do(s, Hold(b)) == s.(held := map[b := 1])
  {
    FewBlocksIn(s.lh);
    hide Inv;
    assert Referenced(s) == Blocks(s.lh);
    assert map[][b := 1] == map[b := 1];
  }

  lemma {:induction false} FewBlocksIn(lh: seq<nat>)
    ensures |Blocks(lh)| <= |lh|
  {
    if lh != [] {
      var n := |lh| - 1;
      FewBlocksIn(lh[..n]);
      assert Blocks(lh) == Blocks(lh[..n]) + {lh[n]};
    } else {
      assert Blocks(lh) == {};
    }
  }

  lemma LogHeldOne(s: State, s1: State, op: nat, w: Write, n: nat)
    requires Writing(s, op, n) && n < MAXOPBLOCKS && s.l.Home(w.block) && s1 == s.(held := map[w.block := 1])
    ensures Takes(s1, LogWrite(op, w.block, w.data))
    ensures var s2 := Do(s1, LogWrite(op, w.block, w.data)); Takes(s2, Drop(w.block))
    ensures var t := Do(Do(s1, LogWrite(op, w.block, w.data)), Drop(w.block));
      && t.phase == Running && t.held == map[] && t.open.Keys == {op} && t.open[op] <= n + 1
      && t.lh != [] && |t.lh| <= n + 1 && t.l == s.l && t.h == Logged(s.h, Entry(op, w.block, w.data))
  {
    hide Inv, Put;
    assert op in s.open.Keys && |s.open| == |s.open.Keys| == 1;
    assert map[w.block := 1] - {w.block} == map[];
  }

  lemma EntriesCons(op: nat, ws: seq<Write>, current: seq<Entry>)
    requires ws != []
    ensures current + Entries(op, ws) == current + [Entry(op, ws[0].block, ws[0].data)] + Entries(op, ws[1..])
  {
  }

  lemma {:induction false} LogThese(s: State, op: nat, ws: seq<Write>, n: nat) returns (steps: seq<Step>, t: State)
    requires Writing(s, op, n) && n + |ws| <= MAXOPBLOCKS && forall i :: 0 <= i < |ws| ==> s.l.Home(ws[i].block)
    ensures RunFrom(s, steps, t) && Writing(t, op, n + |ws|) && t.l == s.l && (s.lh != [] || ws != [] ==> t.lh != [])
    ensures t.h.groups == s.h.groups && t.h.origin == s.h.origin && t.h.fate == s.h.fate
    ensures t.h.current == s.h.current + Entries(op, ws)
    decreases |ws|
  {
    if ws == [] {
      steps, t := [], s;
    } else {
      var first, u := LogOne(s, op, ws[0], n);
      EntriesCons(op, ws, s.h.current);
      hide Writing, RunFrom, Entries;
      steps, t := LogThese(u, op, ws[1..], n + 1);
      RunJoin(s, first, u, steps, t);
      steps := first + steps;
    }
  }

  lemma OpenAndWrite(s: State, op: nat, ws: seq<Write>) returns (steps: seq<Step>, t: State)
    requires Inv(s) && s.phase == Running && s.open == map[] && s.held == map[] && op !in s.h.issued
    requires |ws| <= MAXOPBLOCKS && forall i :: 0 <= i < |ws| ==> s.l.Home(ws[i].block)
    ensures RunFrom(s, steps, t) && Writing(t, op, MAXOPBLOCKS) && t.l == s.l && (ws != [] ==> t.lh != [])
    ensures t.h.groups == s.h.groups && t.h.origin == s.h.origin && t.h.current == Entries(op, ws)
    ensures op in t.h.fate && t.h.fate[op] == Live
  {
    hide RunFrom, Inv, Do, Takes, Entries;
    var u := BeginOne(s, op);
    hide Writing;
    var w;
    w, t := LogThese(u, op, ws, 0);
    RunJoin(s, [Begin(op)], u, w, t);
    steps := [Begin(op)] + w;
    MoreBudget(t, op, |ws|);
    assert [] + Entries(op, ws) == Entries(op, ws);
  }

  lemma EndAndCommit(s: State, op: nat) returns (steps: seq<Step>, t: State)
    requires Writing(s, op, MAXOPBLOCKS) && s.lh != []
    ensures RunFrom(s, steps, t) && t.phase == Running && t.lh == [] && t.open == map[] && t.held == map[]
    ensures t.l == s.l && t.h == Hardened(s.h)
  {
    EndOne(s, op);
    StepInv(s, End(op));
    RunOne(s, End(op));
    var u := Do(s, End(op));
    hide RunFrom, Inv, Do, Takes, Hardened, Blocks;
    var c;
    c, t := CommitRun(u);
    RunJoin(s, [End(op)], u, c, t);
    steps := [End(op)] + c;
  }

  /** With nothing else going on, an operation that writes its blocks and ends becomes the next
      durable group, whole and in order. */
  lemma OperationRun(s: State, op: nat, ws: seq<Write>) returns (steps: seq<Step>, t: State)
    requires Inv(s) && s.phase == Running && s.open == map[] && s.held == map[] && op !in s.h.issued
    requires 0 < |ws| <= MAXOPBLOCKS && forall i :: 0 <= i < |ws| ==> s.l.Home(ws[i].block)
    ensures RunFrom(s, steps, t) && Inv(t) && t.phase == Running && t.open == map[] && t.held == map[] && t.l == s.l
    ensures t.h.groups == s.h.groups + [Entries(op, ws)] && t.h.current == [] && t.h.origin == s.h.origin
    ensures op in t.h.fate && t.h.fate[op] == Durable(|s.h.groups|)
  {
    var w, u := OpenAndWrite(s, op, ws);
    var c;
    c, t := EndAndCommit(u, op);
    hide RunFrom, Inv, Writing, Entries;
    RunJoin(s, w, u, c, t);
    steps := w + c;
    RunInv(s, steps, t);
  }

  /** From any boot on: once the recovery is over, an operation can write its blocks and end, and
      what a recovery gives from then on is what the first one gave with exactly its writes
      played over that. */
  lemma FirstOperation(boot: State, op: nat, ws: seq<Write>) returns (steps: seq<Step>, t: State)
    requires Boot(boot) && 0 < |ws| <= MAXOPBLOCKS && forall i :: 0 <= i < |ws| ==> boot.l.Home(ws[i].block)
    ensures RunFrom(boot, steps, t) && t.phase == Running && t.l == boot.l && HeadOk(t.l, t.disk)
    ensures SameHome(t.l, Recovered(t.l, t.disk), Play(Recovered(boot.l, boot.disk), Entries(op, ws)))
  {
    BootInv(boot);
    hide Inv, RunFrom, Entries, Recovered, Play, SameHome;
    var r, s := RecoverRun(boot);
    RunInv(boot, r, s);
    var w;
    w, t := OperationRun(s, op, ws);
    RunJoin(boot, r, s, w, t);
    steps := r + w;
    RecoveredIsWholeGroups(boot, steps, t);
    OnlyGroup(boot.h.origin, Entries(op, ws));
    assert [] + [Entries(op, ws)] == [Entries(op, ws)];
  }

  lemma OnlyGroup(d: Disk, g: seq<Entry>)
    ensures PlayAll(d, [g]) == Play(d, g)
  {
    assert ([g])[..0] == [];
  }

  lemma MoreBudget(s: State, op: nat, n: nat)
    requires Writing(s, op, n)
    ensures Writing(s, op, MAXOPBLOCKS)
  {
    hide Inv;
  }

  lemma BeginOne(s: State, op: nat) returns (t: State)
    requires Inv(s) && s.phase == Running && s.open == map[] && s.held == map[] && op !in s.h.issued
    ensures RunFrom(s, [Begin(op)], t) && Writing(t, op, 0) && t.l == s.l
    ensures t.h.groups == s.h.groups && t.h.origin == s.h.origin && t.h.current == []
    ensures op in t.h.fate && t.h.fate[op] == Live
  {
    NothingOpenYet(s);
    StepInv(s, Begin(op));
    RunOne(s, Begin(op));
    t := Do(s, Begin(op));
    hide Inv, RunFrom;
    assert t.open == map[op := 0];
  }

  lemma NothingOpenYet(s: State)
    requires Inv(s) && s.phase == Running && s.open == map[]
    ensures s.lh == [] && s.h.current == []
  {
    hide CommitWrites, RecoverWrites, CrashSafe, LogMatches, FatesOk, HeadOk, BuffersOk, BudgetOk;
  }

  lemma EndOne(s: State, op: nat)
    requires Writing(s, op, MAXOPBLOCKS) && s.lh != []
    ensures Takes(s, End(op))
    ensures var t := Do(s, End(op));
      && t.phase == Committing(s.disk, 0, false) && t.open == map[] && t.held == map[] && t.lh == s.lh
      && |t.lh| + |t.held.Keys - Blocks(t.lh)| < NBUF && t.h == s.h && t.l == s.l
  {
    hide Inv;
    assert op in s.open.Keys;
    assert (s.open - {op}).Keys == {};
    assert s.held.Keys - Blocks(s.lh) == {};
  }
}
