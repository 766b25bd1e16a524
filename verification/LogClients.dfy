/** Whoever uses the log of kernel/log.c to keep a property of the disk: if every operation,
    between its begin_op and end_op, turns home blocks that have the property into ones that
    have it and logs every block in which they differ, then so does every disk that a crash can
    leave, once it has been recovered. Any number of operations may be open at a time; one of
    them changes blocks at a time. */
module LogClients {
  import opened Common
  import opened Params
  import opened LogFormat
  import opened LogRuns

  /** Between operations, or within operation op, which replaces the home blocks `from` by `to`
      and has logged the blocks `done`; it had appended `spent` blocks before. */
  datatype Client = Idle | Busy(op: nat, from: Disk, to: Disk, done: set<nat>, spent: nat)

  datatype Move = Sys(step: Step) | Start(op: nat, to: Disk) | Finish

  /** The property depends on the home blocks only. */
  ghost predicate OfHome(l: Layout, good: Disk -> bool) {
    forall d: Disk, e: Disk :: SameHome(l, d, e) && good(d) ==> good(e)
  }

  /** What has to be logged. */
  ghost predicate Differ(l: Layout, d: Disk, e: Disk, b: nat)
    requires |d| == |e| == l.size
  {
    l.Home(b) && d[b] != e[b]
  }

  ghost predicate StepAllowed(c: Client, step: Step) {
    match step
    case LogWrite(op, b, data) => c.Busy? && op == c.op && b < |c.to| && data == c.to[b]
    case End(op) => c.Busy? ==> op != c.op
    case _ => true
  }

  ghost predicate Allowed(s: State, c: Client, move: Move, good: Disk -> bool) {
    match move
    case Sys(step) => Takes(s, step) && StepAllowed(c, step)
    case Start(op, to) => c.Idle? && op in s.open && |s.view| == |to| == s.l.size && good(to)
    case Finish =>
      && c.Busy? && |c.from| == |c.to| == s.l.size
      && forall b: nat :: Differ(s.l, c.from, c.to, b) ==> b in c.done
  }

  ghost function NextState(s: State, c: Client, move: Move, good: Disk -> bool): State
    requires Allowed(s, c, move, good)
  {
    if move.Sys? then Do(s, move.step) else s
  }

  ghost function NextClient(s: State, c: Client, move: Move, good: Disk -> bool): Client
    requires Allowed(s, c, move, good)
  {
    match move
    case Sys(step) => if step.LogWrite? then c.(done := c.done + {step.block}) else if step.Crash? then Idle else c
    case Start(op, to) => Busy(op, s.view, to, {}, s.open[op])
    case Finish => Idle
  }

  ghost predicate ClientRun(s: State, c: Client, moves: seq<Move>, t: State, c': Client, good: Disk -> bool)
    decreases |moves|
  {
    if moves == [] then s == t && c == c'
    else
      && Allowed(s, c, moves[0], good)
      && ClientRun(NextState(s, c, moves[0], good), NextClient(s, c, moves[0], good), moves[1..], t, c', good)
  }

  // ---------- invariant ----------

  /** An operation under way: what it has logged shows, and nothing else has changed. */
  ghost predicate Midway(s: State, c: Client, good: Disk -> bool)
    requires c.Busy?
  {
    && c.op in s.open && |s.view| == |c.from| == |c.to| == s.l.size && good(c.to)
    && (forall b: nat :: s.l.Home(b) ==> s.view[b] == if b in c.done then c.to[b] else c.from[b])
    && (forall b :: b in c.done ==> b in s.lh)
    && s.open[c.op] <= c.spent + |c.done|
  }

  ghost predicate Shows(s: State, c: Client, good: Disk -> bool) {
    if s.phase.Recovering? then c.Idle? else if c.Idle? then good(s.view) else Midway(s, c, good)
  }

  ghost predicate ClientInv(s: State, c: Client, good: Disk -> bool) {
    Inv(s) && good(DurableDisk(s)) && Shows(s, c, good)
  }

  lemma GoodAlike(l: Layout, good: Disk -> bool, d: Disk, e: Disk)
    requires OfHome(l, good) && SameHome(l, d, e)
    ensures good(d) <==> good(e)
  {
  }

  /** The durable content only changes at a commit point, where it becomes what bread shows. */
  lemma DurableStep(s: State, step: Step)
    requires LogInv(s) && Takes(s, step)
    ensures var t := Do(s, step);
      || DurableDisk(t) == DurableDisk(s)
      || (s.phase.Committing? && s.open == map[] && t.phase.Committing? && SameHome(t.l, s.view, DurableDisk(t)))
    ensures Do(s, step).l == s.l
  {
    hide CommitWrites, RecoverWrites, PlayAll, LogInv, CanCommit, NoBuffers, NoRoom, HeadOk, Referenced, Panics;
    if step.CommitDisk? && s.phase.k == |s.lh| {
      CommitPoint(s);
      NoneOpen(s);
    }
  }

  /** Outside a recovery bread's view changes by log_write only. */
  lemma ViewStep(s: State, step: Step)
    requires LogInv(s) && Takes(s, step) && !s.phase.Recovering? && !step.LogWrite?
    ensures var t := Do(s, step); t.l == s.l && t.view == s.view
    ensures var t := Do(s, step);
      t.phase.Recovering? || ((forall b :: b in s.lh ==> b in t.lh) || s.open == map[])
    ensures var t := Do(s, step); t.phase.Recovering? <==> step.Crash?
    ensures forall op :: op in s.open && !step.Crash? && step != End(op) ==>
      op in Do(s, step).open && Do(s, step).open[op] == s.open[op]
  {
    hide CommitWrites, RecoverWrites, PlayAll, LogInv, CanCommit, NoBuffers, HeadOk, Panics, Hardened, NoRoom,
      Referenced;
    NoneOpen(s);
    OpenIssued(s);
    if step.Evict? {
      EvictInv(s, step.block);
    }
  }

  lemma OpenIssued(s: State)
    requires LogInv(s)
    ensures forall op :: op in s.open ==> op in s.h.issued
  {
    hide CrashSafe, PhaseOk, BudgetOk, FateOk;
  }

  lemma LoggedShows(s: State, c: Client, good: Disk -> bool, b: nat)
    requires c.Busy? && Midway(s, c, good) && b < |c.to| && Takes(s, LogWrite(c.op, b, c.to[b]))
    ensures var t := Do(s, LogWrite(c.op, b, c.to[b])); Midway(t, c.(done := c.done + {b}), good)
  {
    var t := Do(s, LogWrite(c.op, b, c.to[b]));
    assert t.view == s.view[b := c.to[b]];
    assert b in c.done ==> c.done + {b} == c.done;
  }

  lemma RecoveredShows(s: State, good: Disk -> bool)
    requires LogInv(s) && Takes(s, RecoverDone) && OfHome(s.l, good) && good(DurableDisk(s))
    ensures good(Do(s, RecoverDone).view)
  {
    RecoveredNow(s);
    hide LogInv, Takes;
    GoodAlike(s.l, good, s.disk, DurableDisk(s));
  }

  lemma SysShows(s: State, c: Client, step: Step, good: Disk -> bool)
    requires ClientInv(s, c, good) && OfHome(s.l, good) && Takes(s, step) && StepAllowed(c, step)
    ensures Shows(NextState(s, c, Sys(step), good), NextClient(s, c, Sys(step), good), good)
  {
    hide LogInv, BuffersOk, Takes, DurableDisk, OfHome;
    if s.phase.Recovering? {
      RecoveringStays(s, step);
      if step.RecoverDone? { RecoveredShows(s, good); }
    } else if step.LogWrite? {
      LoggingRuns(s, step);
      LoggedShows(s, c, good, step.block);
    } else {
      ViewStep(s, step);
    }
  }

  lemma RecoveringStays(s: State, step: Step)
    requires LogInv(s) && Takes(s, step) && s.phase.Recovering?
    ensures !step.LogWrite? && (Do(s, step).phase.Recovering? <==> !step.RecoverDone?)
  {
    hide CommitWrites, RecoverWrites, PlayAll, CanCommit, NoBuffers, HeadOk, Panics, CrashSafe, FatesOk, Referenced;
  }

  lemma LoggingRuns(s: State, step: Step)
    requires Takes(s, step) && step.LogWrite?
    ensures Do(s, step).phase == s.phase
  {
  }

  lemma MoveInv(s: State, c: Client, move: Move, good: Disk -> bool)
    requires ClientInv(s, c, good) && OfHome(s.l, good) && Allowed(s, c, move, good)
    ensures var t := NextState(s, c, move, good); t.l == s.l && ClientInv(t, NextClient(s, c, move, good), good)
  {
    hide LogInv, BuffersOk, DurableDisk, OfHome, StepAllowed, Enabled, Panics, NoBuffers;
    if move.Sys? {
      var t := Do(s, move.step);
      StepInv(s, move.step);
      SysShows(s, c, move.step, good);
      DurableStep(s, move.step);
      if DurableDisk(t) != DurableDisk(s) {
        assert c.Idle?;
        GoodAlike(s.l, good, s.view, DurableDisk(t));
      }
    } else if move.Finish? {
      FinishShows(s, c, good);
    } else {
      RecoveringIsShut(s);
    }
  }

  lemma RecoveringIsShut(s: State)
    requires LogInv(s)
    ensures s.phase.Recovering? ==> s.open == map[]
  {
    hide CrashSafe, FatesOk, BudgetOk, RecoverWrites, HeadOk;
  }

  lemma FinishShows(s: State, c: Client, good: Disk -> bool)
    requires Shows(s, c, good) && OfHome(s.l, good) && Allowed(s, c, Finish, good)
    ensures Shows(s, Idle, good)
  {
    forall b: nat | s.l.Home(b) ensures s.view[b] == c.to[b] {
      assert b !in c.done ==> !Differ(s.l, c.from, c.to, b);
    }
    GoodAlike(s.l, good, s.view, c.to);
  }

  lemma {:induction false} ClientRunInv(s: State, c: Client, moves: seq<Move>, t: State, c': Client, good: Disk -> bool)
    requires ClientInv(s, c, good) && OfHome(s.l, good) && ClientRun(s, c, moves, t, c', good)
    ensures ClientInv(t, c', good) && t.l == s.l
    decreases |moves|
  {
    hide ClientInv, OfHome, Allowed;
    if moves != [] {
      MoveInv(s, c, moves[0], good);
      ClientRunInv(NextState(s, c, moves[0], good), NextClient(s, c, moves[0], good), moves[1..], t, c', good);
    }
  }

  lemma BootClient(boot: State, good: Disk -> bool)
    requires Boot(boot) && good(Recovered(boot.l, boot.disk))
    ensures ClientInv(boot, Idle, good)
  {
    BootInv(boot);
    hide LogInv;
  }

  // ---------- theorems over runs ----------

  /** Whatever happened, recovering the disk as it stands gives home blocks with the property,
      and between operations bread shows such blocks. */
  lemma RecoveredIsGood(boot: State, moves: seq<Move>, s: State, c: Client, good: Disk -> bool)
    requires Boot(boot) && OfHome(boot.l, good) && good(Recovered(boot.l, boot.disk))
    requires ClientRun(boot, Idle, moves, s, c, good)
    ensures HeadOk(s.l, s.disk) && good(Recovered(s.l, s.disk))
    ensures c.Idle? && !s.phase.Recovering? ==> good(s.view)
  {
    BootClient(boot, good);
    ClientRunInv(boot, Idle, moves, s, c, good);
    hide Boot, ClientRun, OfHome;
    RecoveredDurable(s);
    GoodAlike(s.l, good, Recovered(s.l, s.disk), DurableDisk(s));
  }

  lemma RecoveredDurable(s: State)
    requires LogInv(s)
    ensures HeadOk(s.l, s.disk) && SameHome(s.l, Recovered(s.l, s.disk), DurableDisk(s))
  {
    hide PlayAll, PhaseOk, FatesOk, Apply;
    RecoveredIsImage(s.l, s.disk);
  }

  /** An operation that has to change at most MAXOPBLOCKS blocks can log each of them: its
      reservation lasts, and log_write does not panic. */
  lemma WithinBudget(boot: State, moves: seq<Move>, s: State, c: Client, good: Disk -> bool, b: nat)
    requires Boot(boot) && OfHome(boot.l, good) && good(Recovered(boot.l, boot.disk))
    requires ClientRun(boot, Idle, moves, s, c, good)
    requires c.Busy? && s.l.Home(b) && b in s.held && c.spent + |c.done| < MAXOPBLOCKS
    ensures b < |c.to| && Allowed(s, c, Sys(LogWrite(c.op, b, c.to[b])), good)
  {
    BootClient(boot, good);
    ClientRunInv(boot, Idle, moves, s, c, good);
    hide Boot, ClientRun, OfHome, ClientInv;
    MayLogNow(s, c, good, b);
  }

  lemma MayLogNow(s: State, c: Client, good: Disk -> bool, b: nat)
    requires ClientInv(s, c, good) && c.Busy? && s.l.Home(b) && b in s.held && c.spent + |c.done| < MAXOPBLOCKS
    ensures b < |c.to| && Allowed(s, c, Sys(LogWrite(c.op, b, c.to[b])), good)
  {
    hide LogInv, DurableDisk;
    RecoveringIsShut(s);
    NoPanicNow(s, LogWrite(c.op, b, c.to[b]));
  }

  // ---------- a whole operation ----------

  lemma {:induction false} ClientJoin(s: State, c: Client, a: seq<Move>, t: State, d: Client, b: seq<Move>, u: State,
                                      e: Client, good: Disk -> bool)
    requires ClientRun(s, c, a, t, d, good) && ClientRun(t, d, b, u, e, good)
    ensures ClientRun(s, c, a + b, u, e, good)
    decreases |a|
  {
    hide Allowed, NextState, NextClient;
    if a == [] {
      assert a + b == b;
    } else {
      ClientJoin(NextState(s, c, a[0], good), NextClient(s, c, a[0], good), a[1..], t, d, b, u, e, good);
      assert (a + b)[0] == a[0] && (a + b)[1..] == a[1..] + b;
    }
  }

  lemma ClientOne(s: State, c: Client, move: Move, good: Disk -> bool)
    requires Allowed(s, c, move, good)
    ensures ClientRun(s, c, [move], NextState(s, c, move, good), NextClient(s, c, move, good), good)
  {
    hide Allowed, NextState, NextClient;
    assert [move][1..] == [];
  }

  /** bread, the change, log_write and brelse of one more block. */
  lemma LogOne(s: State, c: Client, good: Disk -> bool, b: nat) returns (moves: seq<Move>, t: State)
    requires ClientInv(s, c, good) && OfHome(s.l, good) && s.phase.Running? && c.Busy? && s.l.Home(b)
    requires c.spent + |c.done| < MAXOPBLOCKS && InUse(s) < NBUF
    ensures ClientRun(s, c, moves, t, c.(done := c.done + {b}), good)
    ensures ClientInv(t, c.(done := c.done + {b}), good) && t.phase.Running? && t.l == s.l && InUse(t) <= InUse(s) + 1
  {
    hide LogInv, BuffersOk, DurableDisk, OfHome, Midway;
    var hold := Sys(Hold(b));
    assert Allowed(s, c, hold, good);
    var s1 := NextState(s, c, hold, good);
    MoveInv(s, c, hold, good);
    ClientOne(s, c, hold, good);
    MayLogNow(s1, c, good, b);
    var write := Sys(LogWrite(c.op, b, c.to[b]));
    var s2, c2 := NextState(s1, c, write, good), c.(done := c.done + {b});
    MoveInv(s1, c, write, good);
    ClientOne(s1, c, write, good);
    var drop := Sys(Drop(b));
    assert Allowed(s2, c2, drop, good);
    t := NextState(s2, c2, drop, good);
    MoveInv(s2, c2, drop, good);
    ClientOne(s2, c2, drop, good);
    ClientJoin(s, c, [hold], s1, c, [write], s2, c2, good);
    ClientJoin(s, c, [hold] + [write], s2, c2, [drop], t, c2, good);
    moves := [hold] + [write] + [drop];
    UseOne(s, s1, s2, t, b, c.op, c.to[b]);
  }

  /** It leaves at most one more buffer in use, the pinned one. */
  lemma UseOne(s: State, s1: State, s2: State, t: State, b: nat, op: nat, data: Block)
    requires s.phase.Running? && Takes(s, Hold(b)) && s1 == Do(s, Hold(b))
    requires Takes(s1, LogWrite(op, b, data)) && s2 == Do(s1, LogWrite(op, b, data))
    requires Takes(s2, Drop(b)) && t == Do(s2, Drop(b))
    ensures InUse(t) <= InUse(s) + 1 && t.phase.Running?
  {
    hide Logged, Put, HeadOk;
    assert Referenced(t) <= Referenced(s) + {b};
    SubsetSize(Referenced(t), Referenced(s) + {b});
  }

  /** The blocks of D, one after the other. */
  lemma {:induction false} LogEach(s: State, c: Client, good: Disk -> bool, D: set<nat>)
    returns (moves: seq<Move>, t: State)
    requires ClientInv(s, c, good) && OfHome(s.l, good) && s.phase.Running? && c.Busy?
    requires (forall b :: b in D ==> s.l.Home(b)) && D !! c.done
    requires c.spent + |c.done| + |D| <= MAXOPBLOCKS && InUse(s) + |D| <= NBUF
    ensures ClientRun(s, c, moves, t, c.(done := c.done + D), good)
    ensures ClientInv(t, c.(done := c.done + D), good) && t.phase.Running? && t.l == s.l
    decreases |D|
  {
    hide ClientInv, OfHome, ClientRun;
    if D == {} {
      moves, t := [], s;
      assert c.done + D == c.done;
      RunNone(s, c, good);
    } else {
      var b :| b in D;
      var first, u := LogOne(s, c, good, b);
      assert c.done + {b} + (D - {b}) == c.done + D;
      moves, t := LogEach(u, c.(done := c.done + {b}), good, D - {b});
      ClientJoin(s, c, first, u, c.(done := c.done + {b}), moves, t, c.(done := c.done + D), good);
      moves := first + moves;
    }
  }

  lemma RunNone(s: State, c: Client, good: Disk -> bool)
    ensures ClientRun(s, c, [], s, c, good)
  {
  }

  /** An operation that changes at most MAXOPBLOCKS blocks and finds as many buffers can be
      carried through: bread then shows exactly what it was to bring about. */
  lemma OperationRuns(s: State, good: Disk -> bool, op: nat, to: Disk, D: set<nat>)
    returns (moves: seq<Move>, t: State)
    requires ClientInv(s, Idle, good) && OfHome(s.l, good) && s.phase.Running? && op in s.open && s.open[op] == 0
    requires |s.view| == |to| == s.l.size && good(to) && forall b: nat :: Differ(s.l, s.view, to, b) ==> b in D
    requires (forall b :: b in D ==> s.l.Home(b)) && |D| <= MAXOPBLOCKS && InUse(s) + |D| <= NBUF
    ensures ClientRun(s, Idle, moves, t, Idle, good) && ClientInv(t, Idle, good)
    ensures t.l == s.l && SameHome(s.l, t.view, to)
  {
    hide LogInv, BuffersOk, DurableDisk, OfHome, InUse;
    var start := Start(op, to);
    var c := NextClient(s, Idle, start, good);
    MoveInv(s, Idle, start, good);
    ClientOne(s, Idle, start, good);
    var c' := c.(done := c.done + D);
    assert c.done + D == D;
    moves, t := LogEach(s, c, good, D);
    assert Allowed(t, c', Finish, good);
    MoveInv(t, c', Finish, good);
    ClientOne(t, c', Finish, good);
    ClientJoin(s, Idle, [start], s, c, moves, t, c', good);
    ClientJoin(s, Idle, [start] + moves, t, c', [Finish], t, Idle, good);
    moves := [start] + moves + [Finish];
    FinishedShows(t, c', good);
  }

  lemma FinishedShows(s: State, c: Client, good: Disk -> bool)
    requires c.Busy? && Midway(s, c, good) && Allowed(s, c, Finish, good)
    ensures SameHome(s.l, s.view, c.to)
  {
    forall b: nat | s.l.Home(b) ensures s.view[b] == c.to[b] {
      assert b !in c.done ==> !Differ(s.l, c.from, c.to, b);
    }
  }
}
