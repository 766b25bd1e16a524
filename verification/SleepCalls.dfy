/** What the callers of acquiresleep and releasesleep (kernel/sleeplock.c) get over whole
    runs: which calls they are in and which locks they have, as told by the calls they make
    and by their getting back to code of their own, and nothing else of the state. */
module SleepCalls {
  import opened Common
  import opened SleepLock

  datatype Call = Outside | InAcquire(l: nat) | InRelease(l: nat)

  /** `inside` is the set of locks whose acquiresleep has returned and whose releasesleep has
      not been called since. */
  datatype Client = Client(call: Call, inside: set<nat>)

  /** What a step tells about the process that takes it, which is at `after` then. */
  function Observe(v: seq<Client>, step: Step, after: Pc): (r: seq<Client>)
    requires step.Kill? || step.p < |v|
  {
    if step.Kill? then v
    else
      var c := v[step.p];
      if step.Enter? then v[step.p := c.(call := InAcquire(step.l))]
      else if step.CallRelease? then v[step.p := Client(InRelease(step.l), c.inside - {step.l})]
      else if !after.Idle? then v
      else v[step.p := Client(Outside, if c.call.InAcquire? then c.inside + {c.call.l} else c.inside)]
  }

  predicate Follows(s: State, v: seq<Client>, step: Step, t: State, w: seq<Client>) {
    && Enabled(s, step) && |v| == |s.procs| && Actor(step) < |v|
    && t == Do(s, step) && w == Observe(v, step, t.procs[Actor(step)].pc)
  }

  /** A run, with what its callers see of it. */
  ghost predicate Run(s: State, v: seq<Client>, steps: seq<Step>, t: State, w: seq<Client>)
    decreases |steps|
  {
    if steps == [] then s == t && v == w
    else
      && Enabled(s, steps[0]) && |v| == |s.procs| && Actor(steps[0]) < |v|
      && var u := Do(s, steps[0]); Run(u, Observe(v, steps[0], u.procs[Actor(steps[0])].pc), steps[1..], t, w)
  }

  function AtFirst(n: nat): (r: seq<Client>)
    ensures |r| == n && forall p :: 0 <= p < n ==> r[p] == Client(Outside, {})
  {
    seq(n, _ => Client(Outside, {}))
  }

  // ---------- calls and the locks they take ----------

  predicate AcquireCode(pc: Pc) {
    || pc.Want? || pc.Test? || pc.Leave? || pc.Sleep0? || pc.Sleep1? || pc.Sleep2?
    || pc.Sleep3? || pc.Off? || pc.Sleep4? || pc.Sleep5?
  }

  predicate ReleaseCode(pc: Pc) { pc.Rel0? || pc.Rel1? || pc.Wake? || pc.WakeIn? || pc.Rel2? }

  /** A process has set `locked` exactly for the locks it is inside, and for the one whose
      acquiresleep is about to return or whose releasesleep has just begun. */
  predicate ClientOk(c: Client, q: Proc) {
    match c.call
    case Outside => (q.pc.Idle? || q.pc.Away?) && q.held == c.inside
    case InAcquire(l) =>
      AcquireCode(q.pc) && q.pc.l == l && q.held == if q.pc.Leave? then c.inside + {l} else c.inside
    case InRelease(l) =>
      && ReleaseCode(q.pc) && q.pc.l == l && l !in c.inside
      && q.held == if q.pc.Rel0? || q.pc.Rel1? then c.inside + {l} else c.inside
  }

  ghost predicate ClientsOk(v: seq<Client>, s: State) {
    |v| == |s.procs| && forall p :: 0 <= p < |v| ==> ClientOk(v[p], s.procs[p])
  }

  lemma ActorClient(s: State, v: seq<Client>, step: Step)
    requires Enabled(s, step) && |v| == |s.procs| && Actor(step) < |v|
    requires ClientOk(v[Actor(step)], s.procs[Actor(step)])
    ensures var t, p := Do(s, step), Actor(step);
      var w := Observe(v, step, t.procs[p].pc);
      |w| == |v| == |t.procs| && ClientOk(w[p], t.procs[p])
  {
    if Schedules(step) {
    } else if Sleeps(step) {
    } else {
    }
  }

  lemma OtherClient(s: State, v: seq<Client>, step: Step, p: nat)
    requires Enabled(s, step) && |v| == |s.procs| && Actor(step) < |v| && p < |v| && p != Actor(step)
    requires ClientOk(v[p], s.procs[p])
    ensures var t := Do(s, step); var w := Observe(v, step, t.procs[Actor(step)].pc);
      |w| == |v| == |t.procs| && ClientOk(w[p], t.procs[p])
  {
    OthersSame(s, step, p);
    hide Do, Enabled;
  }

  lemma StepClients(s: State, v: seq<Client>, step: Step)
    requires Enabled(s, step) && ClientsOk(v, s) && Actor(step) < |v|
    ensures var t := Do(s, step); ClientsOk(Observe(v, step, t.procs[Actor(step)].pc), t)
  {
    hide Do, Enabled, ClientOk, Observe;
    ActorClient(s, v, step);
    forall p: nat | p < |v|
      ensures var t := Do(s, step); var w := Observe(v, step, t.procs[Actor(step)].pc);
        |w| == |v| == |t.procs| && ClientOk(w[p], t.procs[p])
    {
      if p != Actor(step) { OtherClient(s, v, step, p); }
    }
  }

  lemma {:induction false} RunClients(s: State, v: seq<Client>, steps: seq<Step>, t: State, w: seq<Client>)
    requires ClientsOk(v, s) && Run(s, v, steps, t, w)
    ensures ClientsOk(w, t) && RunFrom(s, steps, t)
    decreases |steps|
  {
    hide Do, Enabled, Observe, ClientOk;
    if steps != [] {
      StepClients(s, v, steps[0]);
      var u := Do(s, steps[0]);
      RunClients(u, Observe(v, steps[0], u.procs[Actor(steps[0])].pc), steps[1..], t, w);
    }
  }

  /** Mutual exclusion: between the return of an acquiresleep and the call of its
      releasesleep no other process is there for the same lock, and the lock's fields name
      the one that is. */
  lemma MutualExclusion(init: State, steps: seq<Step>, s: State, v: seq<Client>, p: nat, q: nat, l: nat)
    requires Init(init) && Run(init, AtFirst(|init.procs|), steps, s, v)
    requires p < |v| && q < |v| && l in v[p].inside && l in v[q].inside
    ensures p == q && l < |s.locks| && s.locks[l].locked && s.locks[l].pid == Some(p)
  {
    InitInv(init);
    RunClients(init, AtFirst(|init.procs|), steps, s, v);
    RunInv(init, steps, s);
    hide SpinOk, PlockOk, StatesOk, ReleasingOk, LeavingsOk, NoneLost, RunFrom, Run, Init;
    assert ClientOk(v[p], s.procs[p]) && ClientOk(v[q], s.procs[q]);
    assert l in s.procs[p].held && l in s.procs[q].held;
    hide ClientOk, ClientsOk;
    assert l < |s.locks| && s.locks[l].pid == Some(p);
    assert s.locks[l].pid == Some(q);
  }

  /** A lock that is taken is so by somebody: the process `pid` names is between the two
      calls, or about to return from the first, or has just begun the second. */
  lemma LockedBySomebody(init: State, steps: seq<Step>, s: State, v: seq<Client>, l: nat)
    requires Init(init) && Run(init, AtFirst(|init.procs|), steps, s, v)
    requires l < |s.locks| && s.locks[l].locked
    ensures s.locks[l].pid.Some? && s.locks[l].pid.value < |v| == |s.procs|
    ensures var p := s.locks[l].pid.value;
      || l in v[p].inside
      || (v[p].call == InAcquire(l) && s.procs[p].pc.Leave?)
      || (v[p].call == InRelease(l) && (s.procs[p].pc.Rel0? || s.procs[p].pc.Rel1?))
  {
    InitInv(init);
    RunClients(init, AtFirst(|init.procs|), steps, s, v);
    RunInv(init, steps, s);
    hide SpinOk, PlockOk, StatesOk, ReleasingOk, LeavingsOk, NoneLost, RunFrom, Run, Init;
    var p := s.locks[l].pid.value;
    assert l in s.procs[p].held && ClientOk(v[p], s.procs[p]);
  }

  /** A process asleep on a lock is inside a call of acquiresleep for it. */
  lemma SleepersAreAcquiring(init: State, steps: seq<Step>, s: State, v: seq<Client>, p: nat, l: nat)
    requires Init(init) && Run(init, AtFirst(|init.procs|), steps, s, v)
    requires p < |v| && p < |s.procs| && Sleeping(s.procs[p], l)
    ensures v[p].call == InAcquire(l)
  {
    RunClients(init, AtFirst(|init.procs|), steps, s, v);
    hide Run, RunFrom, Init;
    assert ClientOk(v[p], s.procs[p]);
  }

  // ---------- who is put to sleep and who is woken ----------

  /** A process asleep is left asleep by every step but a kill of it, the end of a sleep() of
      another kind, and a wakeup() of its channel that has come to it. */
  lemma WhoIsWoken(s: State, step: Step, p: nat)
    requires Enabled(s, step) && p < |s.procs| && StateOk(s.procs[p]) && s.procs[p].state.SLEEPING?
    ensures |Do(s, step).procs| == |s.procs|
    ensures !Do(s, step).procs[p].state.SLEEPING? <==>
      || step == Kill(p) || step == Rouse(p)
      || (step.WakeOne? && s.procs[step.p].pc.WakeIn?
          && s.procs[step.p].pc.i == p && s.procs[p].chan == Some(s.procs[step.p].pc.l))
  {
    if step.WakeOne? {
    } else if Schedules(step) {
    } else if Sleeps(step) {
    } else {
    }
  }

  /** kill() makes a sleeper runnable and changes nothing else; nothing but its process lock
      keeps it off. */
  lemma KillWakes(s: State, v: nat)
    requires v < |s.procs| && v < |s.plock| && s.plock[v].None?
    ensures Enabled(s, Kill(v))
    ensures var t := Do(s, Kill(v));
      && |t.procs| == |s.procs| && !t.procs[v].state.SLEEPING? && t.plock == s.plock && t.locks == s.locks
      && (!s.procs[v].state.SLEEPING? ==> t == s)
      && t.procs[v] == s.procs[v].(state := t.procs[v].state)
      && forall p :: 0 <= p < |s.procs| && p != v ==> t.procs[p] == s.procs[p]
  {
  }

  /** A process in code of its own can be preempted, and resumes as it was. */
  lemma PreemptAndResume(s: State, p: nat)
    requires p < |s.procs| && p < |s.plock| && s.plock[p].None?
    requires s.procs[p].pc.Idle? && s.procs[p].state.RUNNING?
    ensures Enabled(s, Preempt(p)) && var t := Do(s, Preempt(p));
      p < |t.procs| && t.procs[p].state.RUNNABLE? && Enabled(t, Resume(p)) && Do(t, Resume(p)) == s
  {
    assert s.procs[p := s.procs[p]] == s.procs;
  }

  /** It can sleep for another reason, be woken from that, and go on. */
  lemma AwayAndBack(s: State, p: nat, c: nat)
    requires p < |s.procs| && p < |s.plock| && s.plock[p].None?
    requires s.procs[p].pc.Idle? && s.procs[p].state.RUNNING?
    ensures Enabled(s, Block(p, c)) && var t := Do(s, Block(p, c));
      && p < |t.procs| && t.procs[p].state.SLEEPING? && t.procs[p].chan == Some(c) && Enabled(t, Rouse(p))
      && var u := Do(t, Rouse(p));
      && p < |u.procs| && u.procs[p].state.RUNNABLE? && Enabled(u, Return(p))
      && Do(u, Return(p)) == s.(procs := s.procs[p := s.procs[p].(chan := None)])
  {
  }

  /** Any number of running processes and locks can start. */
  lemma Boots(n: nat, k: nat)
    ensures Init(State(seq(n, _ => Proc(Idle, RUNNING, None, {})), seq(n, _ => None),
                       seq(k, _ => Lock(None, false, None))))
  {
  }

  // ---------- calls that nobody disturbs ----------

  lemma One(s: State, v: seq<Client>, step: Step, t: State, w: seq<Client>)
    requires Follows(s, v, step, t, w)
    ensures Run(s, v, [step], t, w)
  {
    assert Run(t, w, [step][1..], t, w);
  }

  lemma {:induction false} Then(s: State, v: seq<Client>, a: seq<Step>, t: State, w: seq<Client>, b: seq<Step>,
                                u: State, x: seq<Client>)
    requires Run(s, v, a, t, w) && Run(t, w, b, u, x)
    ensures Run(s, v, a + b, u, x)
    decreases |a|
  {
    hide Do, Enabled, Observe;
    if a == [] {
      assert a + b == b;
    } else {
      var r := Do(s, a[0]);
      assert (a + b)[1..] == a[1..] + b && (a + b)[0] == a[0];
      Then(r, Observe(v, a[0], r.procs[Actor(a[0])].pc), a[1..], t, w, b, u, x);
    }
  }

  lemma AndStep(s: State, v: seq<Client>, a: seq<Step>, t: State, w: seq<Client>, step: Step,
                u: State, x: seq<Client>)
    requires Run(s, v, a, t, w) && Follows(t, w, step, u, x)
    ensures Run(s, v, a + [step], u, x)
  {
    hide Do, Enabled, Observe, Run;
    One(t, w, step, u, x);
    Then(s, v, a, t, w, [step], u, x);
  }

  /** Process p is in code of its own and can go on; nobody is in the code of lock l. */
  predicate Ready(s: State, v: seq<Client>, p: nat, l: nat) {
    && |v| == |s.procs| == |s.plock| && p < |s.procs| && l < |s.locks|
    && s.procs[p].pc.Idle? && s.procs[p].state.RUNNING? && s.plock[p].None? && s.locks[l].spin.None?
  }

  /** From having asked for a free lock to the return of acquiresleep. */
  lemma TakeFree(s: State, v: seq<Client>, p: nat, l: nat)
    returns (steps: seq<Step>, t: State, w: seq<Client>)
    requires |v| == |s.procs| == |s.plock| && p < |s.procs| && l < |s.locks|
    requires s.procs[p].pc == Want(l) && s.procs[p].state.RUNNING? && v[p].call == InAcquire(l)
    requires s.locks[l].spin.None? && !s.locks[l].locked
    ensures Run(s, v, steps, t, w)
    ensures t.procs == s.procs[p := s.procs[p].(pc := Idle, held := s.procs[p].held + {l})]
    ensures t.locks == s.locks[l := Lock(None, true, Some(p))] && t.plock == s.plock
    ensures w == v[p := Client(Outside, v[p].inside + {l})]
  {
    var q := s.procs[p];
    var s1 := State(s.procs[p := q.(pc := Test(l))], s.plock, s.locks[l := s.locks[l].(spin := Some(p))]);
    var s2 := State(s.procs[p := q.(pc := Leave(l), held := q.held + {l})], s.plock,
                    s.locks[l := Lock(Some(p), true, Some(p))]);
    t := State(s.procs[p := q.(pc := Idle, held := q.held + {l})], s.plock,
               s.locks[l := Lock(None, true, Some(p))]);
    w := v[p := Client(Outside, v[p].inside + {l})];
    assert Follows(s, v, AcquireSpin(p), s1, v);
    assert Follows(s1, v, TestLocked(p), s2, v);
    assert Follows(s2, v, LeaveAcquire(p), t, w);
    hide Do, Enabled, Observe, Run, Follows;
    One(s, v, AcquireSpin(p), s1, v);
    AndStep(s, v, [AcquireSpin(p)], s1, v, TestLocked(p), s2, v);
    steps := [AcquireSpin(p)] + [TestLocked(p)] + [LeaveAcquire(p)];
    AndStep(s, v, [AcquireSpin(p)] + [TestLocked(p)], s2, v, LeaveAcquire(p), t, w);
  }

  /** acquiresleep of a free lock takes it and returns. */
  lemma AcquireFree(s: State, v: seq<Client>, p: nat, l: nat)
    returns (steps: seq<Step>, t: State, w: seq<Client>)
    requires Ready(s, v, p, l) && !s.locks[l].locked
    ensures Run(s, v, steps, t, w)
    ensures t.procs == s.procs[p := s.procs[p].(held := s.procs[p].held + {l})]
    ensures t.locks == s.locks[l := Lock(None, true, Some(p))] && t.plock == s.plock
    ensures w == v[p := Client(Outside, v[p].inside + {l})]
  {
    var s1, v1 := SetPc(s, p, Want(l)), v[p := v[p].(call := InAcquire(l))];
    assert Follows(s, v, Enter(p, l), s1, v1);
    One(s, v, Enter(p, l), s1, v1);
    steps, t, w := TakeFree(s1, v1, p, l);
    assert t.procs == s.procs[p := s.procs[p].(held := s.procs[p].held + {l})];
    assert w == v[p := Client(Outside, v[p].inside + {l})];
    hide Do, Enabled, Observe, Run, Follows;
    Then(s, v, [Enter(p, l)], s1, v1, steps, t, w);
    steps := [Enter(p, l)] + steps;
  }

  /** acquiresleep of a lock that is taken puts the caller to sleep on it, and leaves lk and
      the lock as they were. */
  lemma AcquireTaken(s: State, v: seq<Client>, p: nat, l: nat)
    returns (steps: seq<Step>, t: State, w: seq<Client>)
    requires Ready(s, v, p, l) && s.locks[l].locked
    ensures Run(s, v, steps, t, w)
    ensures t.procs == s.procs[p := Proc(Off(l), SLEEPING, Some(l), s.procs[p].held)]
    ensures t.locks == s.locks && t.plock == s.plock
    ensures w == v[p := v[p].(call := InAcquire(l))]
  {
    var s1, v1 := SetPc(s, p, Want(l)), v[p := v[p].(call := InAcquire(l))];
    assert Follows(s, v, Enter(p, l), s1, v1);
    var s2 := SetSpin(SetPc(s, p, Test(l)), l, Some(p));
    assert Follows(s1, v1, AcquireSpin(p), s2, v1);
    var s3 := SetPc(s2, p, Sleep0(l));
    assert Follows(s2, v1, TestLocked(p), s3, v1);
    w := v1;
    hide Run, Follows;
    One(s, v, Enter(p, l), s1, v1);
    AndStep(s, v, [Enter(p, l)], s1, v1, AcquireSpin(p), s2, v1);
    var a := [Enter(p, l)] + [AcquireSpin(p)];
    AndStep(s, v, a, s2, v1, TestLocked(p), s3, v1);
    assert s3.procs[p] == s.procs[p].(pc := Sleep0(l)) && s3.plock == s.plock;
    var b;
    b, t := FallAsleep(s3, v1, p, l);
    assert t.procs == s.procs[p := Proc(Off(l), SLEEPING, Some(l), s.procs[p].held)];
    assert t.locks == s.locks;
    hide Do, Enabled, Observe;
    Then(s, v, a + [TestLocked(p)], s3, v1, b, t, v1);
    steps := a + [TestLocked(p)] + b;
  }

  /** sleep(), from its first line to being switched out. */
  lemma FallAsleep(s: State, v: seq<Client>, p: nat, l: nat)
    returns (steps: seq<Step>, t: State)
    requires |v| == |s.procs| == |s.plock| && p < |s.procs| && l < |s.locks| && s.plock[p].None?
    requires s.procs[p].pc == Sleep0(l) && s.procs[p].state.RUNNING?
    ensures Run(s, v, steps, t, v)
    ensures t.procs == s.procs[p := Proc(Off(l), SLEEPING, Some(l), s.procs[p].held)]
    ensures t.locks == s.locks[l := s.locks[l].(spin := None)] && t.plock == s.plock
  {
    var a, s1 := CommitToSleep(s, v, p, l);
    var q := Proc(Sleep3(l), SLEEPING, Some(l), s.procs[p].held);
    var s2 := s1.(procs := s.procs[p := q]);
    assert Follows(s1, v, GoToSleep(p), s2, v);
    t := State(s.procs[p := q.(pc := Off(l))], s.plock, s1.locks);
    assert Follows(s2, v, SwitchOut(p), t, v);
    hide Do, Enabled, Observe, Run, Follows;
    AndStep(s, v, a, s1, v, GoToSleep(p), s2, v);
    AndStep(s, v, a + [GoToSleep(p)], s2, v, SwitchOut(p), t, v);
    steps := a + [GoToSleep(p)] + [SwitchOut(p)];
  }

  lemma CommitToSleep(s: State, v: seq<Client>, p: nat, l: nat)
    returns (steps: seq<Step>, t: State)
    requires |v| == |s.procs| == |s.plock| && p < |s.procs| && l < |s.locks| && s.plock[p].None?
    requires s.procs[p].pc == Sleep0(l) && s.procs[p].state.RUNNING?
    ensures Run(s, v, steps, t, v)
    ensures t.procs == s.procs[p := s.procs[p].(pc := Sleep2(l))] && t.plock == s.plock[p := Some(p)]
    ensures t.locks == s.locks[l := s.locks[l].(spin := None)]
  {
    var mine := s.plock[p := Some(p)];
    var s1 := State(s.procs[p := s.procs[p].(pc := Sleep1(l))], mine, s.locks);
    assert Follows(s, v, LockSelf(p), s1, v);
    t := State(s.procs[p := s.procs[p].(pc := Sleep2(l))], mine, s.locks[l := s.locks[l].(spin := None)]);
    assert Follows(s1, v, ReleaseCond(p), t, v);
    hide Do, Enabled, Observe, Run, Follows;
    One(s, v, LockSelf(p), s1, v);
    steps := [LockSelf(p)] + [ReleaseCond(p)];
    AndStep(s, v, [LockSelf(p)], s1, v, ReleaseCond(p), t, v);
  }

  /** What wakeup(l) leaves of a process: a sleeper on l is runnable, any other as it was. */
  function AfterWakeup(q: Proc, l: nat): Proc {
    if q.state.SLEEPING? && q.chan == Some(l) then q.(state := RUNNABLE) else q
  }

  ghost predicate AllUnlocked(plock: seq<Option<nat>>) { forall i :: 0 <= i < |plock| ==> plock[i].None? }

  /** wakeup()'s loop from process i on. */
  lemma {:induction false} WakeRest(s: State, v: seq<Client>, p: nat, l: nat, i: nat)
    returns (steps: seq<Step>, t: State)
    requires |v| == |s.procs| == |s.plock| && p < |s.procs| && i <= |s.procs| && AllUnlocked(s.plock)
    requires s.procs[p].pc == Wake(l, i) && s.procs[p].state.RUNNING?
    ensures Run(s, v, steps, t, v) && t.locks == s.locks && t.plock == s.plock && |t.procs| == |s.procs|
    ensures t.procs[p] == s.procs[p].(pc := Rel2(l))
    ensures forall j :: 0 <= j < |s.procs| && j != p ==>
      t.procs[j] == if j < i then s.procs[j] else AfterWakeup(s.procs[j], l)
    decreases |s.procs| - i
  {
    if i == |s.procs| {
      steps, t := [WakeLook(p)], SetPc(s, p, Rel2(l));
      assert Follows(s, v, WakeLook(p), t, v);
      One(s, v, WakeLook(p), t, v);
    } else {
      var a, s1 := WakeNext(s, v, p, l, i);
      steps, t := WakeRest(s1, v, p, l, i + 1);
      hide Do, Enabled, Observe, Run;
      Then(s, v, a, s1, v, steps, t, v);
      steps := a + steps;
    }
  }

  lemma WakeNext(s: State, v: seq<Client>, p: nat, l: nat, i: nat)
    returns (steps: seq<Step>, t: State)
    requires |v| == |s.procs| == |s.plock| && p < |s.procs| && i < |s.procs| && AllUnlocked(s.plock)
    requires s.procs[p].pc == Wake(l, i) && s.procs[p].state.RUNNING?
    ensures Run(s, v, steps, t, v) && t.locks == s.locks && t.plock == s.plock && |t.procs| == |s.procs|
    ensures t.procs[p] == s.procs[p].(pc := Wake(l, i + 1))
    ensures forall j :: 0 <= j < |s.procs| && j != p ==>
      t.procs[j] == if j == i then AfterWakeup(s.procs[j], l) else s.procs[j]
  {
    if i == p {
      steps, t := [WakeLook(p)], SetPc(s, p, Wake(l, i + 1));
      assert Follows(s, v, WakeLook(p), t, v);
      One(s, v, WakeLook(p), t, v);
    } else {
      var s1 := State(s.procs[p := s.procs[p].(pc := WakeIn(l, i))], s.plock[i := Some(p)], s.locks);
      assert Follows(s, v, WakeLook(p), s1, v);
      t := State(s.procs[p := s.procs[p].(pc := Wake(l, i + 1))][i := AfterWakeup(s.procs[i], l)], s.plock, s.locks);
      assert Do(s1, WakeOne(p)).procs == t.procs && Do(s1, WakeOne(p)).plock == t.plock;
      assert Follows(s1, v, WakeOne(p), t, v);
      One(s, v, WakeLook(p), s1, v);
      hide Do, Enabled, Observe, Run, Follows;
      steps := [WakeLook(p)] + [WakeOne(p)];
      AndStep(s, v, [WakeLook(p)], s1, v, WakeOne(p), t, v);
    }
  }

  /** releasesleep frees the lock, wakes exactly the processes asleep on it, and returns. */
  lemma Release(s: State, v: seq<Client>, p: nat, l: nat)
    returns (steps: seq<Step>, t: State, w: seq<Client>)
    requires Ready(s, v, p, l) && AllUnlocked(s.plock) && l in s.procs[p].held
    ensures Run(s, v, steps, t, w)
    ensures t.locks == s.locks[l := Lock(None, false, None)] && t.plock == s.plock && |t.procs| == |s.procs|
    ensures t.procs[p] == s.procs[p].(held := s.procs[p].held - {l})
    ensures forall j :: 0 <= j < |s.procs| && j != p ==> t.procs[j] == AfterWakeup(s.procs[j], l)
    ensures w == v[p := Client(Outside, v[p].inside - {l})]
  {
    var v1 := v[p := Client(InRelease(l), v[p].inside - {l})];
    var a, s1 := ClearFirst(s, v, p, l);
    hide Run;
    var b, s2 := WakeRest(s1, v1, p, l, 0);
    hide Do, Enabled, Observe, Follows;
    Then(s, v, a, s1, v1, b, s2, v1);
    hide AfterWakeup, AllUnlocked, Ready;
    t, w := LeaveLast(s2, v1, p, l);
    AndStep(s, v, a + b, s2, v1, LeaveRelease(p), t, w);
    steps := a + b + [LeaveRelease(p)];
    assert w == v[p := Client(Outside, v[p].inside - {l})];
    assert forall j :: 0 <= j < |s.procs| && j != p ==> s1.procs[j] == s.procs[j];
  }

  lemma LeaveLast(s: State, v: seq<Client>, p: nat, l: nat)
    returns (t: State, w: seq<Client>)
    requires |v| == |s.procs| == |s.plock| && p < |s.procs| && l < |s.locks|
    requires s.procs[p].pc == Rel2(l) && s.procs[p].state.RUNNING? && v[p].call == InRelease(l)
    ensures Follows(s, v, LeaveRelease(p), t, w)
    ensures t.procs == s.procs[p := s.procs[p].(pc := Idle)] && t.plock == s.plock
    ensures t.locks == s.locks[l := s.locks[l].(spin := None)]
    ensures w == v[p := Client(Outside, v[p].inside)]
  {
    t, w := SetSpin(SetPc(s, p, Idle), l, None), v[p := Client(Outside, v[p].inside)];
  }

  /** releasesleep up to its call of wakeup(). */
  lemma ClearFirst(s: State, v: seq<Client>, p: nat, l: nat)
    returns (steps: seq<Step>, t: State)
    requires Ready(s, v, p, l) && l in s.procs[p].held
    ensures Run(s, v, steps, t, v[p := Client(InRelease(l), v[p].inside - {l})])
    ensures t.procs == s.procs[p := s.procs[p].(pc := Wake(l, 0), held := s.procs[p].held - {l})]
    ensures t.locks == s.locks[l := Lock(Some(p), false, None)] && t.plock == s.plock
  {
    var q, v1 := s.procs[p], v[p := Client(InRelease(l), v[p].inside - {l})];
    var s1 := SetPc(s, p, Rel0(l));
    assert Follows(s, v, CallRelease(p, l), s1, v1);
    var s2 := SetSpin(SetPc(s, p, Rel1(l)), l, Some(p));
    assert Follows(s1, v1, AcquireSpin(p), s2, v1);
    t := State(s.procs[p := q.(pc := Wake(l, 0), held := q.held - {l})], s.plock,
               s.locks[l := Lock(Some(p), false, None)]);
    assert Follows(s2, v1, ClearLocked(p), t, v1);
    hide Do, Enabled, Observe, Run, Follows;
    One(s, v, CallRelease(p, l), s1, v1);
    AndStep(s, v, [CallRelease(p, l)], s1, v1, AcquireSpin(p), s2, v1);
    steps := [CallRelease(p, l)] + [AcquireSpin(p)] + [ClearLocked(p)];
    AndStep(s, v, [CallRelease(p, l)] + [AcquireSpin(p)], s2, v1, ClearLocked(p), t, v1);
  }

  /** A process woken from its sleep on a lock that is free takes it and returns. */
  lemma WokenTakes(s: State, v: seq<Client>, p: nat, l: nat)
    returns (steps: seq<Step>, t: State, w: seq<Client>)
    requires |v| == |s.procs| == |s.plock| && p < |s.procs| && l < |s.locks|
    requires s.procs[p].pc == Off(l) && s.procs[p].state.RUNNABLE? && s.plock[p].None? && v[p].call == InAcquire(l)
    requires s.locks[l].spin.None? && !s.locks[l].locked
    ensures Run(s, v, steps, t, w)
    ensures t.procs == s.procs[p := Proc(Idle, RUNNING, None, s.procs[p].held + {l})]
    ensures t.locks == s.locks[l := Lock(None, true, Some(p))] && t.plock == s.plock
    ensures w == v[p := Client(Outside, v[p].inside + {l})]
  {
    var q, mine := s.procs[p], s.plock[p := Some(p)];
    var s1 := State(s.procs[p := q.(pc := Sleep4(l), state := RUNNING)], mine, s.locks);
    assert Follows(s, v, SwitchIn(p), s1, v);
    var s2 := State(s.procs[p := Proc(Sleep5(l), RUNNING, None, q.held)], mine, s.locks);
    assert Follows(s1, v, ClearChan(p), s2, v);
    var s3 := State(s.procs[p := Proc(Want(l), RUNNING, None, q.held)], s.plock, s.locks);
    assert Follows(s2, v, UnlockSelf(p), s3, v);
    hide Run, Do, Enabled, Observe;
    steps := [SwitchIn(p)] + [ClearChan(p)] + [UnlockSelf(p)];
    One(s, v, SwitchIn(p), s1, v);
    AndStep(s, v, [SwitchIn(p)], s1, v, ClearChan(p), s2, v);
    AndStep(s, v, [SwitchIn(p)] + [ClearChan(p)], s2, v, UnlockSelf(p), s3, v);
    var a;
    a, t, w := TakeFree(s3, v, p, l);
    assert t.procs == s.procs[p := Proc(Idle, RUNNING, None, s.procs[p].held + {l})];
    Then(s, v, steps, s3, v, a, t, w);
    steps := steps + a;
  }

  /** From any boot two running processes can meet at any lock: p has it while q is asleep in
      its call; and from there p can give it up and q, woken, return with it. */
  lemma HandOver(init: State, p: nat, q: nat, l: nat)
    returns (a: seq<Step>, s: State, v: seq<Client>, b: seq<Step>, t: State, w: seq<Client>)
    requires Init(init) && p < |init.procs| && q < |init.procs| && p != q && l < |init.locks|
    requires init.procs[p].state.RUNNING? && init.procs[q].state.RUNNING?
    ensures Run(init, AtFirst(|init.procs|), a, s, v) && |v| == |s.procs| == |init.procs|
    ensures v[p] == Client(Outside, {l}) && v[q] == Client(InAcquire(l), {})
    ensures s.procs[q].pc == Off(l) && s.procs[q].state.SLEEPING?
    ensures Run(s, v, b, t, w) && |w| == |v| && w[p] == Client(Outside, {}) && w[q] == Client(Outside, {l})
  {
    hide Run, Do, Enabled, Observe;
    var v0 := AtFirst(|init.procs|);
    var a1, s1, v1 := AcquireFree(init, v0, p, l);
    var a2;
    a2, s, v := AcquireTaken(s1, v1, q, l);
    Then(init, v0, a1, s1, v1, a2, s, v);
    a := a1 + a2;
    var b1, t1, w1 := Release(s, v, p, l);
    var b2;
    b2, t, w := WokenTakes(t1, w1, q, l);
    Then(s, v, b1, t1, w1, b2, t, w);
    b := b1 + b2;
  }
}
