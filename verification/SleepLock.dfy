/** kernel/sleeplock.c over sleep() and wakeup() of kernel/proc.c, as a step system: any
    number of processes and sleep-locks, every lock acquisition, release and state change a
    step of its own, with preemption and kill at any point the code allows them. A process
    may take a sleep-lock while it holds others, and sleep for other reasons meanwhile. */
module SleepLock {
  import opened Common

  datatype RunState = RUNNING | RUNNABLE | SLEEPING

  /** Where a process is, and in which lock's code. */
  datatype Pc =
    | Idle                       // in code of its own
    | Away                       // in a sleep() on some other channel
    | Want(l: nat)               // at acquire(&lk->lk), entering acquiresleep or leaving sleep
    | Test(l: nat)               // holds lk: at while(lk->locked)
    | Leave(l: nat)              // holds lk: has set locked and pid, at release(&lk->lk)
    | Sleep0(l: nat)             // holds lk: in sleep(), at acquire(&p->lock)
    | Sleep1(l: nat)             // holds lk and p->lock: at release(lk)
    | Sleep2(l: nat)             // holds p->lock: about to set chan and SLEEPING
    | Sleep3(l: nat)             // holds p->lock: at sched()
    | Off(l: nat)                // switched out inside sched()
    | Sleep4(l: nat)             // switched back in, holds p->lock: at p->chan = 0
    | Sleep5(l: nat)             // holds p->lock: at release(&p->lock)
    | Rel0(l: nat)               // in releasesleep, at acquire(&lk->lk)
    | Rel1(l: nat)               // holds lk: at locked = 0
    | Wake(l: nat, i: nat)       // holds lk: in wakeup(), about to look at process i
    | WakeIn(l: nat, i: nat)     // holds lk and proc[i].lock
    | Rel2(l: nat)               // holds lk: at release(&lk->lk)

  /** `held` is the set of sleep-locks whose `locked` this process has set. */
  datatype Proc = Proc(pc: Pc, state: RunState, chan: Option<nat>, held: set<nat>)

  datatype Lock = Lock(spin: Option<nat>, locked: bool, pid: Option<nat>)

  datatype State = State(procs: seq<Proc>, plock: seq<Option<nat>>, locks: seq<Lock>)

  datatype Step =
    | Enter(p: nat, l: nat) | AcquireSpin(p: nat) | TestLocked(p: nat) | LeaveAcquire(p: nat)
    | LockSelf(p: nat) | ReleaseCond(p: nat) | GoToSleep(p: nat) | SwitchOut(p: nat)
    | SwitchIn(p: nat) | ClearChan(p: nat) | UnlockSelf(p: nat)
    | CallRelease(p: nat, l: nat) | ClearLocked(p: nat) | WakeLook(p: nat) | WakeOne(p: nat) | LeaveRelease(p: nat)
    | Block(p: nat, c: nat) | Rouse(p: nat) | Return(p: nat)
    | Kill(victim: nat) | Preempt(p: nat) | Resume(p: nat)

  // ---------- steps ----------

  function Actor(step: Step): nat {
    if step.Kill? then step.victim else step.p
  }

  function SetPc(s: State, p: nat, pc: Pc): State
    requires p < |s.procs|
  {
    s.(procs := s.procs[p := s.procs[p].(pc := pc)])
  }

  function SetSpin(s: State, l: nat, h: Option<nat>): State
    requires l < |s.locks|
  {
    s.(locks := s.locks[l := s.locks[l].(spin := h)])
  }

  predicate Running(s: State, p: nat) {
    p < |s.procs| && p < |s.plock| && s.procs[p].state.RUNNING?
  }

  predicate LockOk(s: State, l: nat) { l < |s.locks| }

  /** When a step can be taken: acquire() only when the spinlock is free. */
  predicate Enabled(s: State, step: Step) {
    match step
    case Enter(p, l) => Running(s, p) && s.procs[p].pc.Idle? && LockOk(s, l)
    case AcquireSpin(p) =>
      && Running(s, p) && (s.procs[p].pc.Want? || s.procs[p].pc.Rel0?)
      && LockOk(s, s.procs[p].pc.l) && s.locks[s.procs[p].pc.l].spin.None?
    case TestLocked(p) => Running(s, p) && s.procs[p].pc.Test? && LockOk(s, s.procs[p].pc.l)
    case LeaveAcquire(p) => Running(s, p) && s.procs[p].pc.Leave? && LockOk(s, s.procs[p].pc.l)
    case LockSelf(p) => Running(s, p) && s.procs[p].pc.Sleep0? && s.plock[p].None?
    case ReleaseCond(p) => Running(s, p) && s.procs[p].pc.Sleep1? && LockOk(s, s.procs[p].pc.l)
    case GoToSleep(p) => Running(s, p) && s.procs[p].pc.Sleep2?
    case SwitchOut(p) => p < |s.procs| && p < |s.plock| && s.procs[p].pc.Sleep3?
    case SwitchIn(p) =>
      && p < |s.procs| && p < |s.plock| && s.procs[p].pc.Off?
      && s.procs[p].state.RUNNABLE? && s.plock[p].None?
    case ClearChan(p) => Running(s, p) && s.procs[p].pc.Sleep4?
    case UnlockSelf(p) => Running(s, p) && s.procs[p].pc.Sleep5?
    case CallRelease(p, l) => Running(s, p) && s.procs[p].pc.Idle? && LockOk(s, l) && l in s.procs[p].held
    case ClearLocked(p) => Running(s, p) && s.procs[p].pc.Rel1? && LockOk(s, s.procs[p].pc.l)
    case WakeLook(p) =>
      && Running(s, p) && s.procs[p].pc.Wake?
      && var i := s.procs[p].pc.i;
         i >= |s.procs| || i == p || (i < |s.plock| && s.plock[i].None?)
    case WakeOne(p) =>
      Running(s, p) && s.procs[p].pc.WakeIn? && s.procs[p].pc.i < |s.procs| && s.procs[p].pc.i < |s.plock|
    case LeaveRelease(p) => Running(s, p) && s.procs[p].pc.Rel2? && LockOk(s, s.procs[p].pc.l)
    case Block(p, c) => Running(s, p) && s.plock[p].None? && s.procs[p].pc.Idle?
    case Rouse(p) =>
      p < |s.procs| && p < |s.plock| && s.procs[p].state.SLEEPING? && s.plock[p].None? && s.procs[p].pc.Away?
    case Return(p) =>
      p < |s.procs| && p < |s.plock| && s.procs[p].state.RUNNABLE? && s.plock[p].None? && s.procs[p].pc.Away?
    case Kill(v) => v < |s.procs| && v < |s.plock| && s.plock[v].None?
    case Preempt(p) => Running(s, p) && s.plock[p].None? && MayYield(s.procs[p].pc)
    case Resume(p) =>
      p < |s.procs| && p < |s.plock| && s.procs[p].state.RUNNABLE? && s.plock[p].None? && MayYield(s.procs[p].pc)
  }

  /** Timer interrupts are off while any spinlock is held. */
  predicate MayYield(pc: Pc) { pc.Idle? || pc.Want? || pc.Rel0? }

  /** Steps of the scheduler and of kill(), which touch one process only. */
  predicate Schedules(step: Step) {
    step.Block? || step.Rouse? || step.Return? || step.Kill? || step.Preempt? || step.Resume?
  }

  function DoSchedule(s: State, step: Step): (r: State)
    requires Enabled(s, step) && Schedules(step)
    ensures |r.procs| == |s.procs| && r.plock == s.plock && r.locks == s.locks
  {
    match step
    case Block(p, c) =>
      s.(procs := s.procs[p := s.procs[p].(pc := Away, state := SLEEPING, chan := Some(c))])
    case Rouse(p) => s.(procs := s.procs[p := s.procs[p].(state := RUNNABLE)])
    case Return(p) => s.(procs := s.procs[p := s.procs[p].(pc := Idle, state := RUNNING, chan := None)])
    case Kill(v) =>
      if s.procs[v].state.SLEEPING? then s.(procs := s.procs[v := s.procs[v].(state := RUNNABLE)]) else s
    case Preempt(p) => s.(procs := s.procs[p := s.procs[p].(state := RUNNABLE)])
    case Resume(p) => s.(procs := s.procs[p := s.procs[p].(state := RUNNING)])
  }

  /** The steps of sleep(), from acquire(&p->lock) to release(&p->lock). */
  predicate Sleeps(step: Step) {
    || step.LockSelf? || step.ReleaseCond? || step.GoToSleep? || step.SwitchOut?
    || step.SwitchIn? || step.ClearChan? || step.UnlockSelf?
  }

  function DoSleep(s: State, step: Step): (r: State)
    requires Enabled(s, step) && Sleeps(step)
    ensures |r.procs| == |s.procs| && |r.plock| == |s.plock| && |r.locks| == |s.locks|
  {
    var p, l := step.p, s.procs[step.p].pc.l;
    match step
    case LockSelf(_) => SetPc(s, p, Sleep1(l)).(plock := s.plock[p := Some(p)])
    case ReleaseCond(_) => SetSpin(SetPc(s, p, Sleep2(l)), l, None)
    case GoToSleep(_) => s.(procs := s.procs[p := s.procs[p].(pc := Sleep3(l), state := SLEEPING, chan := Some(l))])
    case SwitchOut(_) => SetPc(s, p, Off(l)).(plock := s.plock[p := None])
    case SwitchIn(_) =>
      s.(procs := s.procs[p := s.procs[p].(pc := Sleep4(l), state := RUNNING)], plock := s.plock[p := Some(p)])
    case ClearChan(_) => s.(procs := s.procs[p := s.procs[p].(pc := Sleep5(l), chan := None)])
    case UnlockSelf(_) => SetPc(s, p, Want(l)).(plock := s.plock[p := None])
  }

  function Do(s: State, step: Step): (r: State)
    requires Enabled(s, step)
    ensures |r.procs| == |s.procs| && |r.plock| == |s.plock| && |r.locks| == |s.locks|
  {
    if Schedules(step) then DoSchedule(s, step)
    else if Sleeps(step) then DoSleep(s, step)
    else
      match step
      case Enter(p, l) => SetPc(s, p, Want(l))
      case AcquireSpin(p) =>
        var l := s.procs[p].pc.l;
        SetSpin(SetPc(s, p, if s.procs[p].pc.Want? then Test(l) else Rel1(l)), l, Some(p))
      case TestLocked(p) =>
        var l := s.procs[p].pc.l;
        if s.locks[l].locked then SetPc(s, p, Sleep0(l))
        else
          s.(procs := s.procs[p := s.procs[p].(pc := Leave(l), held := s.procs[p].held + {l})],
             locks := s.locks[l := s.locks[l].(locked := true, pid := Some(p))])
      case LeaveAcquire(p) => SetSpin(SetPc(s, p, Idle), s.procs[p].pc.l, None)
      case CallRelease(p, l) => SetPc(s, p, Rel0(l))
      case ClearLocked(p) =>
        var l := s.procs[p].pc.l;
        s.(procs := s.procs[p := s.procs[p].(pc := Wake(l, 0), held := s.procs[p].held - {l})],
           locks := s.locks[l := s.locks[l].(locked := false, pid := None)])
      case WakeLook(p) =>
        var l, i := s.procs[p].pc.l, s.procs[p].pc.i;
        if i >= |s.procs| then SetPc(s, p, Rel2(l))
        else if i == p then SetPc(s, p, Wake(l, i + 1))
        else SetPc(s, p, WakeIn(l, i)).(plock := s.plock[i := Some(p)])
      case WakeOne(p) =>
        var l, i := s.procs[p].pc.l, s.procs[p].pc.i;
        var q := s.procs[i];
        var woken := if q.state.SLEEPING? && q.chan == Some(l) then q.(state := RUNNABLE) else q;
        SetPc(s.(procs := s.procs[i := woken], plock := s.plock[i := None]), p, Wake(l, i + 1))
      case LeaveRelease(p) => SetSpin(SetPc(s, p, Idle), s.procs[p].pc.l, None)
  }

  ghost predicate Init(s: State) {
    && |s.plock| == |s.procs|
    && (forall p :: 0 <= p < |s.procs| ==>
          s.procs[p].pc.Idle? && !s.procs[p].state.SLEEPING? && s.plock[p].None? && s.procs[p].held == {})
    && (forall l :: 0 <= l < |s.locks| ==> s.locks[l] == Lock(None, false, None))
  }

  ghost predicate RunFrom(s: State, steps: seq<Step>, t: State)
    decreases |steps|
  {
    if steps == [] then s == t
    else Enabled(s, steps[0]) && RunFrom(Do(s, steps[0]), steps[1..], t)
  }

  // ---------- invariant ----------

  /** The code between acquire and release of lk. */
  predicate InSpin(pc: Pc) {
    pc.Test? || pc.Leave? || pc.Sleep0? || pc.Sleep1? || pc.Rel1? || pc.Wake? || pc.WakeIn? || pc.Rel2?
  }

  predicate HasLock(pc: Pc) { !pc.Idle? && !pc.Away? }

  predicate HasOwnLock(pc: Pc) { pc.Sleep1? || pc.Sleep2? || pc.Sleep3? || pc.Sleep4? || pc.Sleep5? }

  /** Asleep on lock l, or past the point of no return on the way there. */
  predicate Sleeping(q: Proc, l: nat) {
    || ((q.pc.Sleep0? || q.pc.Sleep1? || q.pc.Sleep2? || q.pc.Sleep3?) && q.pc.l == l)
    || (q.pc.Off? && q.pc.l == l && q.state.SLEEPING?)
  }

  ghost predicate SpinOk(s: State) {
    && (forall p :: 0 <= p < |s.procs| && HasLock(s.procs[p].pc) ==> s.procs[p].pc.l < |s.locks|)
    && (forall p :: 0 <= p < |s.procs| && InSpin(s.procs[p].pc) ==> s.locks[s.procs[p].pc.l].spin == Some(p))
    && (forall l :: 0 <= l < |s.locks| && s.locks[l].spin.Some? ==>
          var p := s.locks[l].spin.value; p < |s.procs| && InSpin(s.procs[p].pc) && s.procs[p].pc.l == l)
  }

  ghost predicate OwnerOk(s: State) {
    && (forall p, l {:trigger l in s.procs[p].held} :: 0 <= p < |s.procs| && l in s.procs[p].held ==>
          l < |s.locks| && s.locks[l].pid == Some(p))
    && (forall l :: 0 <= l < |s.locks| ==> (s.locks[l].locked <==> s.locks[l].pid.Some?))
    && (forall l :: 0 <= l < |s.locks| && s.locks[l].pid.Some? ==>
          var p := s.locks[l].pid.value; 0 <= p < |s.procs| && l in s.procs[p].held)
  }

  /** A process that leaves acquiresleep, or is about to clear `locked`, holds that lock. */
  predicate LeavingOk(q: Proc) { q.pc.Leave? || q.pc.Rel0? || q.pc.Rel1? ==> q.pc.l in q.held }

  ghost predicate LeavingsOk(s: State) {
    forall p :: 0 <= p < |s.procs| ==> LeavingOk(s.procs[p])
  }

  ghost predicate PlockOk(s: State) {
    && |s.plock| == |s.procs|
    && (forall p :: 0 <= p < |s.procs| && HasOwnLock(s.procs[p].pc) ==> s.plock[p] == Some(p))
    && (forall p :: 0 <= p < |s.procs| && s.procs[p].pc.WakeIn? ==>
          s.procs[p].pc.i < |s.procs| && s.procs[p].pc.i != p && s.plock[s.procs[p].pc.i] == Some(p))
  }

  predicate StateOk(q: Proc) {
    && (q.pc.Sleep3? ==> q.state.SLEEPING? && q.chan == Some(q.pc.l))
    && (q.pc.Off? ==> !q.state.RUNNING? && q.chan == Some(q.pc.l))
    && (q.pc.Away? ==> !q.state.RUNNING?)
    && (!q.pc.Sleep3? && !q.pc.Off? && !q.pc.Away? ==> !q.state.SLEEPING?)
  }

  ghost predicate StatesOk(s: State) {
    forall p :: 0 <= p < |s.procs| ==> StateOk(s.procs[p])
  }

  /** A waker of lock l that has not yet passed process p. */
  predicate WakerBefore(s: State, l: nat, p: nat)
    requires l < |s.locks|
  {
    && s.locks[l].spin.Some? && s.locks[l].spin.value < |s.procs|
    && var w := s.procs[s.locks[l].spin.value].pc; (w.Wake? || w.WakeIn?) && w.i <= p
  }

  /** No wakeup is lost: whoever sleeps on a lock finds it taken, or a waker on its way. */
  ghost predicate NoneLost(s: State) {
    forall p, l :: 0 <= p < |s.procs| && 0 <= l < |s.locks| && Sleeping(s.procs[p], l) ==>
      s.locks[l].locked || WakerBefore(s, l, p)
  }

  ghost predicate Inv(s: State) {
    SpinOk(s) && OwnerOk(s) && LeavingsOk(s) && ReleasingOk(s) && PlockOk(s) && StatesOk(s) && NoneLost(s)
  }

  lemma InitInv(s: State)
    requires Init(s)
    ensures Inv(s)
  {
  }

  /** The steps that take or release some lk. */
  predicate TouchesSpin(step: Step) {
    step.AcquireSpin? || step.LeaveAcquire? || step.ReleaseCond? || step.LeaveRelease?
  }

  lemma StepSpinTouched(s: State, step: Step)
    requires SpinOk(s) && Enabled(s, step) && TouchesSpin(step)
    ensures SpinOk(Do(s, step))
  {
    var t, a, l := Do(s, step), step.p, s.procs[step.p].pc.l;
    var inside := step.AcquireSpin?;
    assert t.procs == s.procs[a := t.procs[a]];
    assert t.locks == s.locks[l := s.locks[l].(spin := if inside then Some(a) else None)];
    assert InSpin(t.procs[a].pc) <==> inside;
    assert HasLock(t.procs[a].pc) ==> t.procs[a].pc.l == l;
    assert inside || s.locks[l].spin == Some(a);
    hide Do, Enabled;
  }

  /** What such a step leaves of one process, and of one lk. */
  lemma SpinKeptAt(s: State, step: Step, p: nat)
    requires Enabled(s, step) && !TouchesSpin(step) && p < |s.procs|
    requires HasLock(s.procs[p].pc) ==> s.procs[p].pc.l < |s.locks|
    ensures |Do(s, step).procs| == |s.procs|
    ensures var pc, pc' := s.procs[p].pc, Do(s, step).procs[p].pc;
      (InSpin(pc') <==> InSpin(pc)) && (HasLock(pc') ==> pc'.l < |s.locks|) && (InSpin(pc) ==> pc'.l == pc.l)
  {
  }

  lemma SpinKeptLock(s: State, step: Step)
    requires Enabled(s, step) && !TouchesSpin(step)
    ensures |Do(s, step).procs| == |s.procs| && |Do(s, step).locks| == |s.locks|
    ensures forall l :: 0 <= l < |s.locks| ==> Do(s, step).locks[l].spin == s.locks[l].spin
  {
  }

  lemma StepSpinKept(s: State, step: Step)
    requires SpinOk(s) && Enabled(s, step) && !TouchesSpin(step)
    ensures SpinOk(Do(s, step))
  {
    hide Do, Enabled, TouchesSpin;
    var t := Do(s, step);
    SpinKeptLock(s, step);
    forall p: nat | p < |s.procs|
      ensures InSpin(t.procs[p].pc) <==> InSpin(s.procs[p].pc)
      ensures HasLock(t.procs[p].pc) ==> t.procs[p].pc.l < |t.locks|
      ensures InSpin(s.procs[p].pc) ==> t.procs[p].pc.l == s.procs[p].pc.l
    {
      SpinKeptAt(s, step, p);
    }
  }

  /** The steps that set or clear `locked`. */
  predicate TouchesOwner(step: Step) { step.TestLocked? || step.ClearLocked? }

  lemma StepOwnerTouched(s: State, step: Step)
    requires OwnerOk(s) && LeavingsOk(s) && Enabled(s, step) && TouchesOwner(step)
    ensures OwnerOk(Do(s, step))
  {
    var t, p, l := Do(s, step), step.p, s.procs[step.p].pc.l;
    assert LeavingOk(s.procs[p]);
    hide LeavingsOk;
    assert step.TestLocked? && !s.locks[l].locked ==> forall q :: 0 <= q < |s.procs| ==> l !in s.procs[q].held;
    assert step.ClearLocked? ==> forall q :: 0 <= q < |s.procs| && q != p ==> l !in s.procs[q].held;
    assert forall q :: 0 <= q < |s.procs| && q != p ==> t.procs[q] == s.procs[q];
    assert forall k :: 0 <= k < |s.locks| && k != l ==> t.locks[k] == s.locks[k];
  }

  lemma OwnerKeptAt(s: State, step: Step, p: nat)
    requires Enabled(s, step) && !TouchesOwner(step) && p < |s.procs|
    ensures |Do(s, step).procs| == |s.procs| && Do(s, step).procs[p].held == s.procs[p].held
  {
  }

  lemma OwnerKeptLock(s: State, step: Step)
    requires Enabled(s, step) && !TouchesOwner(step)
    ensures var t := Do(s, step); |t.procs| == |s.procs| && |t.locks| == |s.locks|
    ensures forall l :: 0 <= l < |s.locks| ==>
      Do(s, step).locks[l].locked == s.locks[l].locked && Do(s, step).locks[l].pid == s.locks[l].pid
  {
  }

  lemma StepOwnerKept(s: State, step: Step)
    requires OwnerOk(s) && Enabled(s, step) && !TouchesOwner(step)
    ensures OwnerOk(Do(s, step))
  {
    hide Do, Enabled, TouchesOwner;
    var t := Do(s, step);
    OwnerKeptLock(s, step);
    forall p: nat | p < |s.procs| ensures t.procs[p].held == s.procs[p].held {
      OwnerKeptAt(s, step, p);
    }
  }

  lemma LeavingAfter(s: State, step: Step, p: nat)
    requires Enabled(s, step) && p < |s.procs| && LeavingOk(s.procs[p])
    ensures |Do(s, step).procs| == |s.procs| && LeavingOk(Do(s, step).procs[p])
  {
  }

  lemma StepLeavings(s: State, step: Step)
    requires LeavingsOk(s) && Enabled(s, step)
    ensures LeavingsOk(Do(s, step))
  {
    hide Do, Enabled, LeavingOk;
    SameCount(s, step);
    forall p: nat | p < |s.procs| ensures LeavingOk(Do(s, step).procs[p]) {
      LeavingAfter(s, step, p);
    }
  }

  /** Between clearing `locked` and releasing lk, nobody takes the lock. */
  ghost predicate ReleasingOk(s: State) {
    forall p :: 0 <= p < |s.procs| && Releasing(s.procs[p].pc) && s.procs[p].pc.l < |s.locks| ==>
      !s.locks[s.procs[p].pc.l].locked
  }

  predicate Releasing(pc: Pc) { pc.Wake? || pc.WakeIn? || pc.Rel2? }

  lemma StepReleasing(s: State, step: Step)
    requires ReleasingOk(s) && SpinOk(s) && Enabled(s, step)
    ensures ReleasingOk(Do(s, step))
  {
    hide Do, Enabled;
    var t := Do(s, step);
    forall p: nat | p < |t.procs| && Releasing(t.procs[p].pc) && t.procs[p].pc.l < |t.locks|
      ensures !t.locks[t.procs[p].pc.l].locked
    {
      if Actor(step) == p {
        ReleasingActor(s, step);
      } else {
        ReleasingOther(s, step, p);
      }
    }
  }

  lemma ReleasingActor(s: State, step: Step)
    requires ReleasingOk(s) && SpinOk(s) && Enabled(s, step) && Actor(step) < |s.procs|
    ensures var t, p := Do(s, step), Actor(step);
      Releasing(t.procs[p].pc) && t.procs[p].pc.l < |t.locks| ==> !t.locks[t.procs[p].pc.l].locked
  {
    hide SpinOk;
    if Schedules(step) || Sleeps(step) {
      ReleasingScheduled(s, step);
    } else {
      ReleasingCaller(s, step);
    }
  }

  lemma ReleasingScheduled(s: State, step: Step)
    requires ReleasingOk(s) && Enabled(s, step) && Actor(step) < |s.procs| && (Schedules(step) || Sleeps(step))
    ensures var t, p := Do(s, step), Actor(step);
      Releasing(t.procs[p].pc) && t.procs[p].pc.l < |t.locks| ==> !t.locks[t.procs[p].pc.l].locked
  {
  }

  lemma ReleasingCaller(s: State, step: Step)
    requires ReleasingOk(s) && Enabled(s, step) && Actor(step) < |s.procs| && !Schedules(step) && !Sleeps(step)
    ensures var t, p := Do(s, step), Actor(step);
      Releasing(t.procs[p].pc) && t.procs[p].pc.l < |t.locks| ==> !t.locks[t.procs[p].pc.l].locked
  {
  }

  /** Only the holder of lk sets `locked`. */
  lemma ReleasingOther(s: State, step: Step, p: nat)
    requires ReleasingOk(s) && SpinOk(s) && Enabled(s, step) && p < |s.procs| && p != Actor(step)
    ensures var t := Do(s, step);
      Releasing(t.procs[p].pc) && t.procs[p].pc.l < |t.locks| ==> !t.locks[t.procs[p].pc.l].locked
  {
    OthersSame(s, step, p);
    var pc, a := s.procs[p].pc, Actor(step);
    assert Releasing(pc) && pc.l < |s.locks| ==> InSpin(pc) && !s.locks[pc.l].locked && s.locks[pc.l].spin == Some(p);
    assert a < |s.procs| && InSpin(s.procs[a].pc) ==> s.locks[s.procs[a].pc.l].spin == Some(a);
    hide SpinOk, ReleasingOk;
  }

  /** The steps that take or release some proc[i].lock. */
  predicate TouchesPlock(step: Step) {
    step.LockSelf? || step.SwitchOut? || step.SwitchIn? || step.UnlockSelf? || step.WakeLook? || step.WakeOne?
  }

  lemma StepPlockSelf(s: State, step: Step)
    requires PlockOk(s) && Enabled(s, step)
    requires step.LockSelf? || step.SwitchOut? || step.SwitchIn? || step.UnlockSelf?
    ensures PlockOk(Do(s, step))
  {
    var t, a := Do(s, step), step.p;
    assert |t.procs| == |s.procs| && t.plock == s.plock[a := if HasOwnLock(t.procs[a].pc) then Some(a) else None];
    assert forall q :: 0 <= q < |s.procs| && q != a ==> t.procs[q] == s.procs[q];
    hide Do, Enabled;
  }

  lemma StepPlockOther(s: State, step: Step)
    requires PlockOk(s) && Enabled(s, step) && (step.WakeLook? || step.WakeOne?)
    ensures PlockOk(Do(s, step))
  {
    var t, a := Do(s, step), step.p;
    assert |t.procs| == |s.procs|;
    assert forall q :: 0 <= q < |s.procs| && q != a ==> t.procs[q].pc == s.procs[q].pc;
  }

  lemma StepPlockTouched(s: State, step: Step)
    requires PlockOk(s) && Enabled(s, step) && TouchesPlock(step)
    ensures PlockOk(Do(s, step))
  {
    hide PlockOk, Do, Enabled;
    if step.WakeLook? || step.WakeOne? {
      StepPlockOther(s, step);
    } else {
      StepPlockSelf(s, step);
    }
  }

  lemma StepPlockKept(s: State, step: Step)
    requires PlockOk(s) && Enabled(s, step) && !TouchesPlock(step)
    ensures PlockOk(Do(s, step))
  {
    var t := Do(s, step);
    assert |t.procs| == |s.procs| && t.plock == s.plock;
    forall p | 0 <= p < |s.procs|
      ensures HasOwnLock(t.procs[p].pc) ==> HasOwnLock(s.procs[p].pc)
      ensures t.procs[p].pc.WakeIn? ==> t.procs[p].pc == s.procs[p].pc
    {
    }
  }

  /** A step changes the state of its actor and, in wakeup(), of one process more. */
  lemma OthersSame(s: State, step: Step, p: nat)
    requires Enabled(s, step) && p < |s.procs| && p != Actor(step)
    ensures |Do(s, step).procs| == |s.procs| && Do(s, step).procs[p].pc == s.procs[p].pc
    ensures var q, r := s.procs[p], Do(s, step).procs[p];
      r == q || (q.state.SLEEPING? && r == q.(state := RUNNABLE))
  {
  }

  lemma ScheduledAfter(s: State, step: Step)
    requires Schedules(step) && PlockOk(s) && Enabled(s, step) && Actor(step) < |s.procs|
    requires StateOk(s.procs[Actor(step)])
    ensures StateOk(Do(s, step).procs[Actor(step)])
  {
  }

  lemma SleeperAfter(s: State, step: Step)
    requires Sleeps(step) && PlockOk(s) && Enabled(s, step) && Actor(step) < |s.procs|
    requires StateOk(s.procs[Actor(step)])
    ensures StateOk(Do(s, step).procs[Actor(step)])
  {
  }

  lemma CallerAfter(s: State, step: Step)
    requires !Schedules(step) && !Sleeps(step) && PlockOk(s) && Enabled(s, step) && Actor(step) < |s.procs|
    requires StateOk(s.procs[Actor(step)])
    ensures StateOk(Do(s, step).procs[Actor(step)])
  {
  }

  lemma ActorAfter(s: State, step: Step)
    requires PlockOk(s) && StatesOk(s) && Enabled(s, step)
    ensures Actor(step) < |s.procs| == |Do(s, step).procs| && StateOk(Do(s, step).procs[Actor(step)])
  {
    assert Actor(step) < |s.procs|;
    hide Do, StateOk;
    if Schedules(step) {
      ScheduledAfter(s, step);
    } else if Sleeps(step) {
      SleeperAfter(s, step);
    } else {
      CallerAfter(s, step);
    }
  }

  lemma StateAfter(s: State, step: Step, p: nat)
    requires PlockOk(s) && StatesOk(s) && Enabled(s, step) && p < |s.procs|
    ensures |Do(s, step).procs| == |s.procs| && StateOk(Do(s, step).procs[p])
  {
    assert StateOk(s.procs[p]);
    hide Do, Enabled, Actor, StatesOk;
    if p == Actor(step) {
      ActorAfter(s, step);
    } else {
      SleepersOk(s, p);
      OthersSame(s, step, p);
    }
  }

  /** Only a process inside sleep() is ever asleep. */
  lemma SleepersOk(s: State, p: nat)
    requires p < |s.procs| && StateOk(s.procs[p])
    ensures s.procs[p].state.SLEEPING? ==> s.procs[p].pc.Sleep3? || s.procs[p].pc.Off? || s.procs[p].pc.Away?
  {
  }

  lemma StepStates(s: State, step: Step)
    requires PlockOk(s) && StatesOk(s) && Enabled(s, step)
    ensures StatesOk(Do(s, step))
  {
    hide Do, Enabled, StateOk;
    forall p: nat | p < |Do(s, step).procs| ensures StateOk(Do(s, step).procs[p]) {
      SameCount(s, step);
      StateAfter(s, step, p);
    }
  }

  lemma SameCount(s: State, step: Step)
    requires Enabled(s, step)
    ensures |Do(s, step).procs| == |s.procs|
  {
  }

  lemma ScheduledSleeper(s: State, step: Step, p: nat, l: nat)
    requires Enabled(s, step) && p < |s.procs| && (Schedules(step) || Sleeps(step))
    requires Sleeping(Do(s, step).procs[p], l)
    ensures Sleeping(s.procs[p], l)
  {
  }

  lemma CallingSleeper(s: State, step: Step, p: nat, l: nat)
    requires Enabled(s, step) && p < |s.procs| && l < |s.locks| && !Schedules(step) && !Sleeps(step)
    requires Sleeping(Do(s, step).procs[p], l)
    ensures Sleeping(s.procs[p], l) || (step.TestLocked? && step.p == p && s.locks[l].locked)
  {
  }

  /** A process asleep on l, or on its way there, was so before the step, or has just seen
      the lock taken. */
  lemma SleeperBefore(s: State, step: Step, p: nat, l: nat)
    requires Enabled(s, step) && p < |s.procs| && l < |s.locks| && Sleeping(Do(s, step).procs[p], l)
    ensures Sleeping(s.procs[p], l) || (step.TestLocked? && step.p == p && s.locks[l].locked)
  {
    hide Do, Sleeping, Enabled;
    if Schedules(step) || Sleeps(step) {
      ScheduledSleeper(s, step, p, l);
    } else {
      CallingSleeper(s, step, p, l);
    }
  }

  /** A waker only moves past a process that is not asleep on its lock. */
  lemma WakerStays(s: State, step: Step, p: nat, l: nat)
    requires SpinOk(s) && PlockOk(s) && StatesOk(s) && Enabled(s, step) && p < |s.procs| && l < |s.locks|
    requires Sleeping(Do(s, step).procs[p], l) && WakerBefore(s, l, p)
    ensures WakerBefore(Do(s, step), l, p)
  {
    hide Do, Enabled, Sleeping;
    var w := s.locks[l].spin.value;
    var a := Actor(step);
    assert InSpin(s.procs[w].pc) && s.procs[w].pc.l == l && StateOk(s.procs[p]);
    assert a < |s.procs| ==> (InSpin(s.procs[a].pc) && s.procs[a].pc.l == l ==> a == w);
    WakerMoves(s, step, p, l, w);
  }

  lemma WakerMoves(s: State, step: Step, p: nat, l: nat, w: nat)
    requires Enabled(s, step) && p < |s.procs| && l < |s.locks| && w < |s.procs|
    requires Sleeping(Do(s, step).procs[p], l) && WakerBefore(s, l, p) && s.locks[l].spin == Some(w)
    requires InSpin(s.procs[w].pc) && s.procs[w].pc.l == l && StateOk(s.procs[p])
    requires InSpin(s.procs[p].pc) && s.procs[p].pc.l == l ==> p == w
    requires |s.plock| == |s.procs| && (HasOwnLock(s.procs[p].pc) ==> s.plock[p] == Some(p))
    requires s.procs[w].pc.WakeIn? ==>
      && s.procs[w].pc.i < |s.plock| && s.procs[w].pc.i != w && s.plock[s.procs[w].pc.i] == Some(w)
    requires var a := Actor(step); a < |s.procs| && InSpin(s.procs[a].pc) && s.procs[a].pc.l == l ==> a == w
    ensures WakerBefore(Do(s, step), l, p)
  {
    if Actor(step) != w {
      hide Sleeping;
      OthersSame(s, step, w);
      HeldSpinStays(s, step, l, w);
      hide Do, Enabled;
    } else if step.WakeOne? && s.procs[w].pc.i == p {
      WokenIsAwake(s, step, p, l);
    }
  }

  lemma HeldSpinStays(s: State, step: Step, l: nat, w: nat)
    requires Enabled(s, step) && l < |s.locks| && w < |s.procs| && Actor(step) != w && s.locks[l].spin == Some(w)
    requires var a := Actor(step); a < |s.procs| && InSpin(s.procs[a].pc) ==> s.procs[a].pc.l != l
    ensures Do(s, step).locks[l].spin == Some(w)
  {
  }

  /** wakeup() leaves the process it looks at awake, if that was asleep on its lock. */
  lemma WokenIsAwake(s: State, step: Step, p: nat, l: nat)
    requires Enabled(s, step) && step.WakeOne? && step.p != p && p < |s.procs| && s.procs[step.p].pc == WakeIn(l, p)
    requires StateOk(s.procs[p]) && |s.plock| == |s.procs| && s.plock[p] == Some(step.p)
    requires HasOwnLock(s.procs[p].pc) ==> s.plock[p] == Some(p)
    requires InSpin(s.procs[p].pc) ==> s.procs[p].pc.l != l
    ensures !Sleeping(Do(s, step).procs[p], l)
  {
  }

  lemma StepOneSleeper(s: State, step: Step, p: nat, l: nat)
    requires Inv(s) && Enabled(s, step) && p < |s.procs| && l < |s.locks|
    requires Sleeping(Do(s, step).procs[p], l)
    ensures Do(s, step).locks[l].locked || WakerBefore(Do(s, step), l, p)
  {
    hide PlockOk, StatesOk, ReleasingOk, OwnerOk;
    SleeperBefore(s, step, p, l);
    if WakerBefore(s, l, p) {
      WakerStays(s, step, p, l);
    } else {
      assert s.locks[l].locked;
      LockedStays(s, step, p, l);
    }
  }

  /** Clearing `locked` starts a waker before everyone. */
  lemma LockedStays(s: State, step: Step, p: nat, l: nat)
    requires SpinOk(s) && Enabled(s, step) && l < |s.locks| && s.locks[l].locked
    ensures l < |Do(s, step).locks| && (Do(s, step).locks[l].locked || WakerBefore(Do(s, step), l, p))
  {
  }

  lemma StepInv(s: State, step: Step)
    requires Inv(s) && Enabled(s, step)
    ensures Inv(Do(s, step))
  {
    hide SpinOk, OwnerOk, LeavingsOk, PlockOk, StatesOk, ReleasingOk, Sleeping, WakerBefore;
    StepLeavings(s, step);
    if TouchesSpin(step) { StepSpinTouched(s, step); } else { StepSpinKept(s, step); }
    if TouchesOwner(step) { StepOwnerTouched(s, step); } else { StepOwnerKept(s, step); }
    StepReleasing(s, step);
    if TouchesPlock(step) { StepPlockTouched(s, step); } else { StepPlockKept(s, step); }
    StepStates(s, step);
    forall p, l | 0 <= p < |s.procs| && 0 <= l < |s.locks| && Sleeping(Do(s, step).procs[p], l)
      ensures Do(s, step).locks[l].locked || WakerBefore(Do(s, step), l, p)
    {
      StepOneSleeper(s, step, p, l);
    }
  }

  lemma {:induction false} RunInv(s: State, steps: seq<Step>, t: State)
    requires Inv(s) && RunFrom(s, steps, t)
    ensures Inv(t)
    decreases |steps|
  {
    if steps != [] {
      StepInv(s, steps[0]);
      RunInv(Do(s, steps[0]), steps[1..], t);
    }
  }

  // ---------- theorems over runs ----------

  /** In every reachable state a process that is about to return from acquiresleep has set
      the lock's fields, and is the only one that has. */
  lemma LeavesWithLock(init: State, steps: seq<Step>, s: State, p: nat, l: nat)
    requires Init(init) && RunFrom(init, steps, s)
    requires p < |s.procs| && s.procs[p].pc == Leave(l)
    ensures l in s.procs[p].held && l < |s.locks| && s.locks[l].locked && s.locks[l].pid == Some(p)
    ensures forall q: nat :: q < |s.procs| && l in s.procs[q].held ==> q == p
  {
    hide SpinOk, PlockOk, StatesOk, ReleasingOk, NoneLost, RunFrom, Init;
    InitInv(init);
    RunInv(init, steps, s);
    assert LeavingOk(s.procs[p]);
    assert l < |s.locks| && s.locks[l].pid == Some(p);
    hide LeavingsOk;
  }

  /** No lost wakeup: in every reachable state, when lk is free and locked is 0, no process
      is asleep on the lock or committed to going to sleep on it. */
  lemma NoLostWakeup(init: State, steps: seq<Step>, s: State, p: nat, l: nat)
    requires Init(init) && RunFrom(init, steps, s)
    requires p < |s.procs| && l < |s.locks| && s.locks[l].spin.None? && !s.locks[l].locked
    ensures !Sleeping(s.procs[p], l)
  {
    hide SpinOk, OwnerOk, PlockOk, StatesOk, ReleasingOk, LeavingsOk, Sleeping, RunFrom, Init;
    InitInv(init);
    RunInv(init, steps, s);
  }

  /** While someone sleeps on a free lk, some process h holds the lock. If h is asleep itself,
      it is in a sleep() of its own: one for another reason, or one for a sleep-lock that is
      taken or whose waker is still on its way to h. */
  lemma SleeperHasHolder(init: State, steps: seq<Step>, s: State, p: nat, l: nat)
    requires Init(init) && RunFrom(init, steps, s)
    requires p < |s.procs| && l < |s.locks| && s.locks[l].spin.None? && Sleeping(s.procs[p], l)
    ensures s.locks[l].pid.Some? && s.locks[l].pid.value < |s.procs| && l in s.procs[s.locks[l].pid.value].held
    ensures var i := s.locks[l].pid.value; var h := s.procs[i];
      h.state.SLEEPING? ==>
        || h.pc.Away?
        || (HasLock(h.pc) && Sleeping(h, h.pc.l) && h.pc.l < |s.locks|
            && (s.locks[h.pc.l].locked || WakerBefore(s, h.pc.l, i)))
  {
    InitInv(init);
    RunInv(init, steps, s);
    hide PlockOk, RunFrom, Init, WakerBefore;
    assert StateOk(s.procs[s.locks[l].pid.value]);
  }

  /** Every process waits only for locks of a higher rank than those it holds. */
  ghost predicate Ordered(s: State, rank: nat -> nat) {
    forall p, l, k :: 0 <= p < |s.procs| && Sleeping(s.procs[p], l) && k in s.procs[p].held ==> rank(k) < rank(l)
  }

  ghost predicate WaitsForNone(s: State, h: nat)
    requires h < |s.procs|
  {
    forall k :: 0 <= k < |s.locks| ==> !Sleeping(s.procs[h], k)
  }

  /** Sleep-locks alone do not deadlock when they are taken in rank order: behind every
      sleeper there is a process that holds a lock others wait for and waits for none. */
  lemma {:induction false} OrderedLocksDoNotDeadlock(init: State, steps: seq<Step>, s: State, p: nat, l: nat,
                                                     rank: nat -> nat, top: nat)
    returns (h: nat, k: nat)
    requires Init(init) && RunFrom(init, steps, s) && Ordered(s, rank)
    requires forall i :: 0 <= i < |s.locks| ==> s.locks[i].spin.None? && rank(i) < top
    requires p < |s.procs| && l < |s.locks| && Sleeping(s.procs[p], l)
    ensures h < |s.procs| && k < |s.locks| && k in s.procs[h].held && WaitsForNone(s, h)
    ensures exists q: nat :: q < |s.procs| && Sleeping(s.procs[q], k)
    decreases top - rank(l)
  {
    hide Sleeping, Inv, Init, RunFrom;
    SleeperHasHolder(init, steps, s, p, l);
    h, k := s.locks[l].pid.value, l;
    if i: nat :| i < |s.locks| && Sleeping(s.procs[h], i) {
      h, k := OrderedLocksDoNotDeadlock(init, steps, s, h, i, rank, top);
    }
  }

  /** A releasesleep that has run its wakeup() loop to the end leaves nobody asleep. */
  lemma ReleaseWakesAll(init: State, steps: seq<Step>, s: State, w: nat, p: nat, l: nat)
    requires Init(init) && RunFrom(init, steps, s)
    requires w < |s.procs| && p < |s.procs| && s.procs[w].pc == Rel2(l)
    ensures l < |s.locks| && !Sleeping(s.procs[p], l)
  {
    hide Init, RunFrom, Inv;
    InitInv(init);
    RunInv(init, steps, s);
    WokenAll(s, w, p, l);
  }

  lemma WokenAll(s: State, w: nat, p: nat, l: nat)
    requires Inv(s) && w < |s.procs| && p < |s.procs| && s.procs[w].pc == Rel2(l)
    ensures l < |s.locks| && !Sleeping(s.procs[p], l)
  {
    hide OwnerOk, LeavingsOk, PlockOk, StatesOk, Sleeping;
    assert HasLock(s.procs[w].pc) && InSpin(s.procs[w].pc) && Releasing(s.procs[w].pc);
    assert s.locks[l].spin == Some(w) && !s.locks[l].locked;
    hide SpinOk, ReleasingOk;
  }
}
