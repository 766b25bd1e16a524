/** kernel/proc.c over kernel/vm.c and kernel/kalloc.c: the memory of all processes at once.
    Every physical page is on the free list, the kernel's, or one process's, in exactly one
    place, and every operation keeps that for all processes. */
module ProcMem {
  import opened Common
  import opened Sv39
  import opened Kalloc
  import opened Vm
  import opened VmSpace
  import opened VmFree

  /** What struct proc holds of a process's memory. */
  datatype Proc = Proc(root: nat, sz: nat, trapframe: nat)

  // ---------- one process ----------

  /** A process maps frames of its own below its size, its trapframe and the trampoline. */
  ghost predicate SpaceOk(lo: nat, hi: nat, mem: Mem, free: seq<nat>, trampoline: nat, p: Proc, T: Tables) {
    && Tree(mem, p.root, T) && hi <= |mem| && Held(lo, hi, free, T)
    && Owned(lo, hi, mem, free, T, 0, UserTop(p.sz)) && NoneMapped(mem, T, UserTop(p.sz), TRAPFRAME)
    && HighOk(mem, T, trampoline, p.trapframe)
    && lo <= p.trapframe < hi && p.trapframe !in free && p.trapframe !in T.Values
    && p.trapframe !in Frames(mem, T, 0, UserTop(p.sz))
  }

  ghost predicate HighOk(mem: Mem, T: Tables, trampoline: nat, trapframe: nat)
    requires Apart(mem, T)
  {
    && Lookup(mem, T, TRAMPOLINE) == MkPte(trampoline, PTE_V + PTE_R + PTE_X)
    && Lookup(mem, T, TRAPFRAME) == MkPte(trapframe, PTE_V + PTE_R + PTE_W)
  }

  /** The pages of a process: its tables, its frames and its trapframe. */
  ghost function Pages(mem: Mem, p: Proc, T: Tables): set<nat> {
    if Apart(mem, T) then T.Values + Frames(mem, T, 0, UserTop(p.sz)) + {p.trapframe} else {}
  }

  /** Nothing a process can see has changed. */
  ghost predicate Unseen(mem: Mem, mem': Mem, p: Proc, T: Tables) {
    && Apart(mem, T) && Apart(mem', T) && |mem'| == |mem|
    && (forall v :: Entry(mem', T, v) == Entry(mem, T, v))
    && (forall q :: q in Pages(mem, p, T) && q < |mem| ==> mem'[q] == mem[q])
  }

  lemma HighMapped(mem: Mem, T: Tables, trampoline: nat, trapframe: nat)
    requires Apart(mem, T) && HighOk(mem, T, trampoline, trapframe)
    ensures Mapped(mem, T, TRAMPOLINE) && Ppn(Entry(mem, T, TRAMPOLINE)) == trampoline
    ensures Mapped(mem, T, TRAPFRAME) && Ppn(Entry(mem, T, TRAPFRAME)) == trapframe
  {
    hide Entry, Ppn, MkPte;
    PteRoundTrip(trampoline, PTE_V + PTE_R + PTE_X);
    PteRoundTrip(trapframe, PTE_V + PTE_R + PTE_W);
    PteNonzero(trampoline, PTE_V + PTE_R + PTE_X);
    PteNonzero(trapframe, PTE_V + PTE_R + PTE_W);
  }

  lemma PteNonzero(ppn: nat, flags: nat)
    requires flags > 0
    ensures MkPte(ppn, flags) > 0
  {
  }

  lemma FrameIn(mem: Mem, T: Tables, top: nat, u: nat)
    requires Apart(mem, T) && u < top && Mapped(mem, T, u)
    ensures Ppn(Entry(mem, T, u)) in Frames(mem, T, 0, top)
  {
  }

  /** A change to pages that are free or another's leaves a process as it was. */
  lemma OtherKept(lo: nat, hi: nat, mem: Mem, free: seq<nat>, trampoline: nat, q: Proc, T: Tables,
                  mem': Mem, free': seq<nat>, mine: set<nat>)
    requires SpaceOk(lo, hi, mem, free, trampoline, q, T) && |mem'| == |mem|
    requires forall p :: 0 <= p < |mem| && p !in mine && p !in free ==> mem'[p] == mem[p]
    requires (forall p :: p in Pages(mem, q, T) ==> p !in mine) && forall p :: p in free' ==> p in free || p in mine
    ensures SpaceOk(lo, hi, mem', free', trampoline, q, T) && Unseen(mem, mem', q, T)
    ensures Pages(mem', q, T) == Pages(mem, q, T)
  {
    hide Entry, Ppn, NodeOk, MkPte;
    assert forall n :: n in T ==> T[n] in T.Values;
    TreeFrame(mem, q.root, T, mem');
    forall v ensures Mapped(mem', T, v) <==> Mapped(mem, T, v) {
      assert Entry(mem', T, v) == Entry(mem, T, v);
    }
    forall v ensures Lookup(mem', T, v) == Lookup(mem, T, v) {
      assert Entry(mem', T, v) == Entry(mem, T, v);
    }
    var top := UserTop(q.sz);
    forall u: nat | u < top && Mapped(mem, T, u) ensures Ppn(Entry(mem, T, u)) in Pages(mem, q, T) {
      FrameIn(mem, T, top, u);
    }
    SameFrames(mem, T, mem', 0, top);
  }

  lemma SameFrames(mem: Mem, T: Tables, mem': Mem, a: nat, b: nat)
    requires Apart(mem, T) && Apart(mem', T) && forall v :: Entry(mem', T, v) == Entry(mem, T, v)
    ensures Frames(mem', T, a, b) == Frames(mem, T, a, b)
  {
    hide Entry, Ppn;
    forall v ensures Mapped(mem', T, v) <==> Mapped(mem, T, v) {
      assert Entry(mem', T, v) == Entry(mem, T, v);
    }
  }

  // ---------- all processes ----------

  type Procs = map<nat, Proc>
  type AllTables = map<nat, Tables>

  ghost predicate SpacesOk(lo: nat, hi: nat, mem: Mem, free: seq<nat>, trampoline: nat, procs: Procs,
                           tables: AllTables) {
    && procs.Keys == tables.Keys
    && forall i :: i in procs ==> SpaceOk(lo, hi, mem, free, trampoline, procs[i], tables[i])
  }

  /** Page p is one of process i's. */
  ghost predicate OwnedBy(mem: Mem, procs: Procs, tables: AllTables, i: nat, p: nat) {
    i in procs && i in tables && p in Pages(mem, procs[i], tables[i])
  }

  ghost predicate OneOwner(mem: Mem, procs: Procs, tables: AllTables) {
    forall i: nat, j: nat, p: nat :: OwnedBy(mem, procs, tables, i, p) && OwnedBy(mem, procs, tables, j, p) ==> i == j
  }

  ghost predicate NoneOf(mem: Mem, procs: Procs, tables: AllTables, kernel: set<nat>) {
    forall i: nat, p: nat :: OwnedBy(mem, procs, tables, i, p) ==> p !in kernel
  }

  ghost predicate Covers(lo: nat, hi: nat, mem: Mem, free: seq<nat>, kernel: set<nat>, procs: Procs,
                         tables: AllTables) {
    forall p: nat :: lo <= p < hi ==> p in free || p in kernel || exists i: nat :: OwnedBy(mem, procs, tables, i, p)
  }

  /** The pages lo..hi are divided among the free list, the kernel and the processes. */
  ghost predicate Partition(lo: nat, hi: nat, mem: Mem, free: seq<nat>, kernel: set<nat>, trampoline: nat,
                            procs: Procs, tables: AllTables) {
    && SpacesOk(lo, hi, mem, free, trampoline, procs, tables) && hi <= |mem| && trampoline < lo
    && OneOwner(mem, procs, tables) && NoneOf(mem, procs, tables, kernel) && (forall p :: p in kernel ==> p !in free)
    && Covers(lo, hi, mem, free, kernel, procs, tables)
  }

  /** The account of one operation: what was free or process i's still is. */
  ghost predicate Account(free: seq<nat>, mine: set<nat>, free': seq<nat>, mine': set<nat>) {
    && (forall p: nat :: p in free' || p in mine' <==> p in free || p in mine)
    && (forall p: nat :: p in free' ==> p !in mine')
  }

  ghost predicate OnlyTouched(mem: Mem, free: seq<nat>, mine: set<nat>, mem': Mem) {
    |mem'| == |mem| && forall p :: 0 <= p < |mem| && p !in mine && p !in free ==> mem'[p] == mem[p]
  }

  /** Every other process is as it was. */
  ghost predicate OthersUnseen(mem: Mem, procs: Procs, tables: AllTables, i: nat, mem': Mem) {
    procs.Keys == tables.Keys && forall j :: j in procs && j != i ==> Unseen(mem, mem', procs[j], tables[j])
  }

  /** The pages of process i, none if there is no such process. */
  ghost function Mine(mem: Mem, procs: Procs, tables: AllTables, i: nat): set<nat> {
    if i in procs && i in tables then Pages(mem, procs[i], tables[i]) else {}
  }

  lemma OthersKept(lo: nat, hi: nat, mem: Mem, free: seq<nat>, kernel: set<nat>, trampoline: nat, procs: Procs,
                   tables: AllTables,
                   i: nat, mem': Mem, free': seq<nat>, mine': set<nat>)
    requires Partition(lo, hi, mem, free, kernel, trampoline, procs, tables)
    requires OnlyTouched(mem, free, Mine(mem, procs, tables, i), mem')
    requires Account(free, Mine(mem, procs, tables, i), free', mine')
    ensures OthersUnseen(mem, procs, tables, i, mem') && |mem'| == |mem|
    ensures forall j :: j in procs && j != i ==>
      && SpaceOk(lo, hi, mem', free', trampoline, procs[j], tables[j])
      && Pages(mem', procs[j], tables[j]) == Pages(mem, procs[j], tables[j])
  {
    hide SpaceOk, Pages, Unseen;
    var mine := Mine(mem, procs, tables, i);
    forall j | j in procs && j != i
      ensures SpaceOk(lo, hi, mem', free', trampoline, procs[j], tables[j]) && Unseen(mem, mem', procs[j], tables[j])
      ensures Pages(mem', procs[j], tables[j]) == Pages(mem, procs[j], tables[j])
    {
      SpaceFacts(lo, hi, mem, free, trampoline, procs[j], tables[j]);
      forall p | p in Pages(mem, procs[j], tables[j]) ensures p !in mine {
        assert OwnedBy(mem, procs, tables, j, p);
        assert p in mine ==> OwnedBy(mem, procs, tables, i, p);
      }
      OtherKept(lo, hi, mem, free, trampoline, procs[j], tables[j], mem', free', mine);
    }
  }

  lemma SpaceFacts(lo: nat, hi: nat, mem: Mem, free: seq<nat>, trampoline: nat, p: Proc, T: Tables)
    requires SpaceOk(lo, hi, mem, free, trampoline, p, T)
    ensures Apart(mem, T) && forall q :: q in Pages(mem, p, T) ==> lo <= q < hi && q !in free
  {
    hide Entry, Ppn;
    forall q | q in T.Values ensures lo <= q < hi && q !in free {
      var n :| n in T && T[n] == q;
    }
  }

  /** An operation of process i, old or new, keeps the partition. */
  lemma Replaced(lo: nat, hi: nat, mem: Mem, free: seq<nat>, kernel: set<nat>, trampoline: nat, procs: Procs,
                 tables: AllTables,
                 i: nat, mem': Mem, free': seq<nat>, p: Proc, T: Tables)
    requires Partition(lo, hi, mem, free, kernel, trampoline, procs, tables)
    requires SpaceOk(lo, hi, mem', free', trampoline, p, T)
    requires OnlyTouched(mem, free, Mine(mem, procs, tables, i), mem')
    requires Account(free, Mine(mem, procs, tables, i), free', Pages(mem', p, T))
    ensures Partition(lo, hi, mem', free', kernel, trampoline, procs[i := p], tables[i := T])
    ensures OthersUnseen(mem, procs, tables, i, mem')
  {
    hide SpaceOk, Pages, Unseen, Partition, SpacesOk, OthersUnseen, Account, OnlyTouched, Mine;
    PartitionFacts(lo, hi, mem, free, kernel, trampoline, procs, tables);
    OthersKept(lo, hi, mem, free, kernel, trampoline, procs, tables, i, mem', free', Pages(mem', p, T));
    PlacedAs(lo, hi, mem, free, trampoline, procs, tables, i, mem', free', p, T);
    AccountOwned(mem, free, procs, tables, i, mem', free', procs[i := p], tables[i := T], Pages(mem', p, T));
    Shared(lo, hi, mem, free, kernel, procs, tables, i, mem', free', procs[i := p], tables[i := T], trampoline);
  }

  /** The spaces after an operation of process i, and who owns what among the others. */
  lemma PlacedAs(lo: nat, hi: nat, mem: Mem, free: seq<nat>, trampoline: nat, procs: Procs, tables: AllTables,
                 i: nat, mem': Mem, free': seq<nat>, p: Proc, T: Tables)
    requires SpacesOk(lo, hi, mem, free, trampoline, procs, tables) && SpaceOk(lo, hi, mem', free', trampoline, p, T)
    requires forall j :: j in procs && j != i ==>
      && SpaceOk(lo, hi, mem', free', trampoline, procs[j], tables[j])
      && Pages(mem', procs[j], tables[j]) == Pages(mem, procs[j], tables[j])
    ensures SpacesOk(lo, hi, mem', free', trampoline, procs[i := p], tables[i := T])
    ensures forall j: nat, q: nat :: j != i ==>
      (OwnedBy(mem', procs[i := p], tables[i := T], j, q) <==> OwnedBy(mem, procs, tables, j, q))
    ensures forall q: nat :: OwnedBy(mem', procs[i := p], tables[i := T], i, q) <==> q in Pages(mem', p, T)
  {
    hide SpaceOk, Pages;
  }

  /** The account of an operation in terms of who owns what. */
  lemma AccountOwned(mem: Mem, free: seq<nat>, procs: Procs, tables: AllTables, i: nat, mem': Mem, free': seq<nat>,
                     ps: Procs, ts: AllTables, mine': set<nat>)
    requires Account(free, Mine(mem, procs, tables, i), free', mine')
    requires forall j: nat, q: nat :: j != i ==> (OwnedBy(mem', ps, ts, j, q) <==> OwnedBy(mem, procs, tables, j, q))
    requires forall q: nat :: OwnedBy(mem', ps, ts, i, q) <==> q in mine'
    ensures Handed(mem, free, procs, tables, i, mem', free', ps, ts)
  {
    hide Pages;
  }

  lemma MineFacts(lo: nat, hi: nat, mem: Mem, free: seq<nat>, trampoline: nat, procs: Procs, tables: AllTables)
    requires SpacesOk(lo, hi, mem, free, trampoline, procs, tables)
    ensures forall j: nat, q: nat :: OwnedBy(mem, procs, tables, j, q) ==> lo <= q < hi && q !in free
    ensures forall j :: j in procs ==> j in tables && Apart(mem, tables[j])
  {
    hide SpaceOk, Pages;
    forall j | j in procs ensures j in tables && Apart(mem, tables[j]) {
      SpaceFacts(lo, hi, mem, free, trampoline, procs[j], tables[j]);
    }
    forall j: nat, q: nat | OwnedBy(mem, procs, tables, j, q) ensures lo <= q < hi && q !in free {
      SpaceFacts(lo, hi, mem, free, trampoline, procs[j], tables[j]);
    }
  }

  /** Who owns what after an operation of process i. */
  ghost predicate Handed(mem: Mem, free: seq<nat>, procs: Procs, tables: AllTables,
                         i: nat, mem': Mem, free': seq<nat>, ps: Procs, ts: AllTables) {
    && (forall j: nat, q: nat :: j != i ==> (OwnedBy(mem', ps, ts, j, q) <==> OwnedBy(mem, procs, tables, j, q)))
    && (forall q: nat :: q in free' || OwnedBy(mem', ps, ts, i, q) <==> q in free || OwnedBy(mem, procs, tables, i, q))
  }

  /** The sharing clauses of the partition, from who owns what before and after. */
  lemma Shared(lo: nat, hi: nat, mem: Mem, free: seq<nat>, kernel: set<nat>, procs: Procs, tables: AllTables,
               i: nat, mem': Mem, free': seq<nat>, ps: Procs, ts: AllTables, trampoline: nat)
    requires Partition(lo, hi, mem, free, kernel, trampoline, procs, tables) && |mem'| == |mem|
    requires Handed(mem, free, procs, tables, i, mem', free', ps, ts)
    requires SpacesOk(lo, hi, mem', free', trampoline, ps, ts)
    ensures Partition(lo, hi, mem', free', kernel, trampoline, ps, ts)
  {
    MineFacts(lo, hi, mem, free, trampoline, procs, tables);
    hide SpacesOk, OwnedBy, OneOwner, NoneOf, Covers;
    StillOne(mem, free, procs, tables, i, mem', free', ps, ts);
    StillNone(mem, free, kernel, procs, tables, i, mem', free', ps, ts);
    StillCovers(lo, hi, mem, free, kernel, procs, tables, i, mem', free', ps, ts);
    FreeNotKernel(mem, free, kernel, procs, tables, i, mem', free', ps, ts);
  }

  lemma StillOne(mem: Mem, free: seq<nat>, procs: Procs, tables: AllTables,
                 i: nat, mem': Mem, free': seq<nat>, ps: Procs, ts: AllTables)
    requires Handed(mem, free, procs, tables, i, mem', free', ps, ts) && OneOwner(mem, procs, tables)
    requires forall j: nat, q: nat :: OwnedBy(mem, procs, tables, j, q) ==> q !in free
    ensures OneOwner(mem', ps, ts)
  {
    hide OwnedBy;
  }

  lemma StillNone(mem: Mem, free: seq<nat>, kernel: set<nat>, procs: Procs, tables: AllTables,
                  i: nat, mem': Mem, free': seq<nat>, ps: Procs, ts: AllTables)
    requires Handed(mem, free, procs, tables, i, mem', free', ps, ts) && NoneOf(mem, procs, tables, kernel)
    requires forall p :: p in kernel ==> p !in free
    ensures NoneOf(mem', ps, ts, kernel)
  {
    hide OwnedBy;
  }

  lemma FreeNotKernel(mem: Mem, free: seq<nat>, kernel: set<nat>, procs: Procs, tables: AllTables,
                      i: nat, mem': Mem, free': seq<nat>, ps: Procs, ts: AllTables)
    requires Handed(mem, free, procs, tables, i, mem', free', ps, ts) && NoneOf(mem, procs, tables, kernel)
    requires forall p :: p in kernel ==> p !in free
    ensures forall p :: p in kernel ==> p !in free'
  {
    hide OwnedBy;
  }

  lemma StillCovers(lo: nat, hi: nat, mem: Mem, free: seq<nat>, kernel: set<nat>, procs: Procs, tables: AllTables,
                    i: nat, mem': Mem, free': seq<nat>, ps: Procs, ts: AllTables)
    requires Handed(mem, free, procs, tables, i, mem', free', ps, ts)
    requires Covers(lo, hi, mem, free, kernel, procs, tables)
    ensures Covers(lo, hi, mem', free', kernel, ps, ts)
  {
    hide OwnedBy;
    forall q: nat | lo <= q < hi ensures q in free' || q in kernel || exists j: nat :: OwnedBy(mem', ps, ts, j, q) {
      if j: nat :| OwnedBy(mem, procs, tables, j, q) {
        assert j != i ==> OwnedBy(mem', ps, ts, j, q);
      }
    }
  }

  /** Removing process i, when all its pages went to the free list. */
  lemma Removed(lo: nat, hi: nat, mem: Mem, free: seq<nat>, kernel: set<nat>, trampoline: nat, procs: Procs,
                tables: AllTables,
                i: nat, mem': Mem, free': seq<nat>)
    requires Partition(lo, hi, mem, free, kernel, trampoline, procs, tables)
    requires OnlyTouched(mem, free, Mine(mem, procs, tables, i), mem')
    requires Account(free, Mine(mem, procs, tables, i), free', {})
    ensures Partition(lo, hi, mem', free', kernel, trampoline, procs - {i}, tables - {i})
    ensures OthersUnseen(mem, procs, tables, i, mem')
  {
    hide SpaceOk, Pages, Unseen;
    OthersKept(lo, hi, mem, free, kernel, trampoline, procs, tables, i, mem', free', {});
    var ps, ts, mine := procs - {i}, tables - {i}, Mine(mem, procs, tables, i);
    forall j: nat, q: nat | j != i ensures OwnedBy(mem', ps, ts, j, q) <==> OwnedBy(mem, procs, tables, j, q) {
      if j in procs { SpaceFacts(lo, hi, mem', free', trampoline, procs[j], tables[j]); }
    }
    forall q: nat ensures q in mine <==> OwnedBy(mem, procs, tables, i, q) {
    }
    Shared(lo, hi, mem, free, kernel, procs, tables, i, mem', free', ps, ts, trampoline);
  }

  // ---------- what each operation does to its process ----------

  lemma AccountTook(T: Tables, free: seq<nat>, T': Tables, free': seq<nat>, xs: set<nat>, fs: set<nat>)
    requires Took(T, free, T', free', xs)
    requires (forall p :: p in fs ==> p !in free) && forall n :: n in T ==> T[n] !in free
    ensures Account(free, T.Values + fs, free', T'.Values + fs + xs)
  {
    forall p: nat ensures p in T.Values ==> p in T'.Values {
      if p in T.Values {
        var n :| n in T && T[n] == p;
        assert T'[n] == p;
      }
    }
    forall p: nat ensures p in T'.Values ==> (p in T.Values || p in free) && p !in free' {
      if p in T'.Values {
        var n :| n in T' && T'[n] == p;
        assert n in T ==> T[n] in T.Values;
      }
    }
  }

  /** The parts of SpaceOk that only translations decide. */
  lemma HighKept(mem: Mem, T: Tables, mem': Mem, T': Tables, trampoline: nat, trapframe: nat)
    requires Apart(mem, T) && Apart(mem', T') && HighOk(mem, T, trampoline, trapframe)
    requires forall u :: TRAPFRAME <= u < MAXVPN ==> Lookup(mem', T', u) == Lookup(mem, T, u)
    ensures HighOk(mem', T', trampoline, trapframe)
  {
    hide Lookup;
  }

  /** Only tables came off the free list: an operation that failed for want of memory. */
  lemma TablesOnly(lo: nat, hi: nat, mem: Mem, free: seq<nat>, trampoline: nat, p: Proc, T: Tables,
                   mem': Mem, free': seq<nat>, T': Tables)
    requires SpaceOk(lo, hi, mem, free, trampoline, p, T) && Tree(mem', p.root, T') && Held(lo, hi, free', T')
    requires SameLookups(mem, T, mem', T') && Took(T, free, T', free', {}) && Untouched(mem, T, free, mem')
    ensures SpaceOk(lo, hi, mem', free', trampoline, p, T')
    ensures OnlyTouched(mem, free, Pages(mem, p, T), mem') && Account(free, Pages(mem, p, T), free', Pages(mem', p, T'))
  {
    hide Tree, Entry, Ppn, Took, Lookup, Mapped, Owned, Frames;
    var top := UserTop(p.sz);
    var fs := Frames(mem, T, 0, top) + {p.trapframe};
    OwnedKept(lo, hi, mem, free, T, mem', free', T', {}, 0, top);
    HighKept(mem, T, mem', T', trampoline, p.trapframe);
    FramesHeld(lo, hi, mem, free, T, top);
    AccountTook(T, free, T', free', {}, fs);
    TookFacts(T, free, T', free', {}, p.trapframe);
    assert T.Values + fs == Pages(mem, p, T) && T'.Values + fs + {} == Pages(mem', p, T');
  }

  lemma FramesHeld(lo: nat, hi: nat, mem: Mem, free: seq<nat>, T: Tables, top: nat)
    requires Apart(mem, T) && Owned(lo, hi, mem, free, T, 0, top)
    ensures forall f :: f in Frames(mem, T, 0, top) ==> lo <= f < hi && f !in free && f !in T.Values
  {
    hide Entry, Ppn;
  }

  lemma TookFacts(T: Tables, free: seq<nat>, T': Tables, free': seq<nat>, xs: set<nat>, q: nat)
    requires Took(T, free, T', free', xs) && q !in free && q !in T.Values
    ensures q !in free' && q !in T'.Values && q !in xs
  {
    forall n | n in T' ensures T'[n] != q {
      assert n in T ==> T[n] in T.Values;
    }
  }

  lemma OwnedJoin(lo: nat, hi: nat, mem: Mem, free: seq<nat>, T: Tables, a: nat, b: nat, c: nat)
    requires Apart(mem, T) && Owned(lo, hi, mem, free, T, a, b) && Owned(lo, hi, mem, free, T, b, c) && a <= b <= c
    requires Frames(mem, T, a, b) !! Frames(mem, T, b, c)
    ensures Owned(lo, hi, mem, free, T, a, c) && Frames(mem, T, a, c) == Frames(mem, T, a, b) + Frames(mem, T, b, c)
  {
    hide Entry, Ppn;
    forall u, w | a <= u < w < c && Mapped(mem, T, u) && Mapped(mem, T, w)
      ensures Ppn(Entry(mem, T, u)) != Ppn(Entry(mem, T, w))
    {
      if u < b <= w {
        assert Ppn(Entry(mem, T, u)) in Frames(mem, T, a, b) && Ppn(Entry(mem, T, w)) in Frames(mem, T, b, c);
      }
    }
  }

  /** Growing without a clash stays below the high pages. */
  lemma GrowsBelow(mem: Mem, T: Tables, trampoline: nat, trapframe: nat, a: nat, b: nat)
    requires Apart(mem, T) && HighOk(mem, T, trampoline, trapframe) && a <= b && FirstClash(mem, T, a, b) == b
    ensures a == b || b <= TRAPFRAME
  {
    hide Mapped;
    HighMapped(mem, T, trampoline, trapframe);
    var u: nat := if a <= TRAPFRAME then TRAPFRAME else a;
    assert a <= u < b ==> !Clashes(mem, T, u);
  }

  /** growproc(n) with n > 0. */
  lemma GrownKept(lo: nat, hi: nat, mem: Mem, free: seq<nat>, trampoline: nat, p: Proc, T: Tables,
                  mem': Mem, free': seq<nat>, T': Tables, newsz: nat, flags: nat)
    requires SpaceOk(lo, hi, mem, free, trampoline, p, T) && Tree(mem', p.root, T') && Held(lo, hi, free', T')
    requires p.sz <= newsz && PagesFor(p.sz) <= PagesFor(newsz)
    requires FirstClash(mem, T, PagesFor(p.sz), PagesFor(newsz)) == PagesFor(newsz)
    requires Grown(lo, hi, mem, T, free, mem', T', free', PagesFor(p.sz), PagesFor(newsz), flags)
    ensures var p' := p.(sz := newsz);
      && SpaceOk(lo, hi, mem', free', trampoline, p', T')
      && OnlyTouched(mem, free, Pages(mem, p, T), mem') && Account(free, Pages(mem, p, T), free', Pages(mem', p', T'))
  {
    hide Tree, Entry, Ppn, Flags, Took, Lookup, Mapped, Owned, Frames, PagesFor, FirstClash;
    var a, b, p' := PagesFor(p.sz), PagesFor(newsz), p.(sz := newsz);
    GrowsBelow(mem, T, trampoline, p.trapframe, a, b);
    var top := UserTop(p.sz);
    var xs, fs := Frames(mem', T', a, b), Frames(mem, T, 0, top);
    OwnedKept(lo, hi, mem, free, T, mem', free', T', xs, 0, top);
    HighKept(mem, T, mem', T', trampoline, p.trapframe);
    FramesHeld(lo, hi, mem, free, T, top);
    AccountTook(T, free, T', free', xs, fs + {p.trapframe});
    TookFacts(T, free, T', free', xs, p.trapframe);
    TookOff(T, free, T', free', xs);
    FramesEmpty(mem', T', a);
    if a < b {
      OwnedJoin(lo, hi, mem', free', T', 0, a, b);
    }
    assert T.Values + (fs + {p.trapframe}) == Pages(mem, p, T);
    assert T'.Values + (fs + {p.trapframe}) + xs == Pages(mem', p', T');
  }

  lemma FramesEmpty(mem: Mem, T: Tables, a: nat)
    requires Apart(mem, T)
    ensures Frames(mem, T, a, a) == {}
  {
  }

  lemma TookOff(T: Tables, free: seq<nat>, T': Tables, free': seq<nat>, xs: set<nat>)
    requires Took(T, free, T', free', xs)
    ensures forall x :: x in xs ==> x in free
  {
  }

  /** vmfault() that maps frame f at page v. */
  lemma FaultKept(lo: nat, hi: nat, mem: Mem, free: seq<nat>, trampoline: nat, p: Proc, T: Tables,
                  mem': Mem, free': seq<nat>, T': Tables, v: nat, f: nat, flags: nat)
    requires SpaceOk(lo, hi, mem, free, trampoline, p, T) && Tree(mem', p.root, T') && Held(lo, hi, free', T')
    requires v < PagesFor(p.sz) && v < MAXVPN && !Mapped(mem, T, v) && flags < 1024 && IsValid(flags)
    requires Took(T, free, T', free', {f}) && Untouched(mem, T, free, mem') && lo <= f < hi
    requires RangeMapped(mem, T, mem', T', v, 1, f, flags)
    ensures SpaceOk(lo, hi, mem', free', trampoline, p, T')
    ensures OnlyTouched(mem, free, Pages(mem, p, T), mem') && Account(free, Pages(mem, p, T), free', Pages(mem', p, T'))
  {
    hide Tree, Entry, Ppn, Took, Mapped, Frames, PagesFor, MkPte;
    HighMapped(mem, T, trampoline, p.trapframe);
    var top := UserTop(p.sz);
    assert v < TRAPFRAME && v < top;
    var fs := Frames(mem, T, 0, top) + {p.trapframe};
    OneMore(lo, hi, mem, free, T, mem', free', T', v, f, flags, top);
    HighKept(mem, T, mem', T', trampoline, p.trapframe);
    FramesHeld(lo, hi, mem, free, T, top);
    AccountTook(T, free, T', free', {f}, fs);
    TookFacts(T, free, T', free', {f}, p.trapframe);
    assert T.Values + fs == Pages(mem, p, T) && T'.Values + fs + {f} == Pages(mem', p, T');
  }

  lemma OneMore(lo: nat, hi: nat, mem: Mem, free: seq<nat>, T: Tables, mem': Mem, free': seq<nat>, T': Tables,
                v: nat, f: nat, flags: nat, top: nat)
    requires Apart(mem, T) && Owned(lo, hi, mem, free, T, 0, top) && v < top <= MAXVPN && hi <= |mem|
    requires !Mapped(mem, T, v)
    requires Took(T, free, T', free', {f}) && Untouched(mem, T, free, mem') && lo <= f < hi
    requires RangeMapped(mem, T, mem', T', v, 1, f, flags) && flags < 1024 && IsValid(flags)
    ensures Owned(lo, hi, mem', free', T', 0, top) && Frames(mem', T', 0, top) == Frames(mem, T, 0, top) + {f}
  {
    hide Entry, Ppn, MkPte, Took;
    PteRoundTrip(f, flags);
    PteNonzero(f, flags);
    forall u | 0 <= u < top
      ensures if u == v then Mapped(mem', T', u) && Ppn(Entry(mem', T', u)) == f
              else
                && (Mapped(mem', T', u) <==> Mapped(mem, T, u))
                && (Mapped(mem, T, u) ==> Entry(mem', T', u) == Entry(mem, T, u))
    {
      assert Lookup(mem', T', u) == if u == v then MkPte(f, flags) else Lookup(mem, T, u);
    }
    forall u | 0 <= u < top && Mapped(mem, T, u)
      ensures var g := Ppn(Entry(mem, T, u)); lo <= g < hi && g !in free' && g !in T'.Values && g != f
    {
      TookFacts(T, free, T', free', {f}, Ppn(Entry(mem, T, u)));
    }
    TookItself(T, free, T', free', f);
  }

  lemma TookItself(T: Tables, free: seq<nat>, T': Tables, free': seq<nat>, f: nat)
    requires Took(T, free, T', free', {f})
    ensures f in free && f !in free' && f !in T'.Values
  {
    assert f in {f};
  }

  /** growproc(n) with n < 0, from a size below the high pages. */
  lemma ShrunkKept(lo: nat, hi: nat, mem: Mem, free: seq<nat>, trampoline: nat, p: Proc, T: Tables,
                   mem': Mem, free': seq<nat>, newsz: nat)
    requires SpaceOk(lo, hi, mem, free, trampoline, p, T) && Tree(mem', p.root, T) && Held(lo, hi, free', T)
    requires newsz < p.sz && PagesFor(newsz) <= PagesFor(p.sz) && |mem'| == |mem|
    requires PagesFor(p.sz) <= TRAPFRAME || PagesFor(newsz) == PagesFor(p.sz)
    requires RangeCleared(mem, T, mem', T, PagesFor(newsz), PagesFor(p.sz))
    requires Freed(free, Frames(mem, T, PagesFor(newsz), PagesFor(p.sz)), free')
    requires forall q :: 0 <= q < |mem'| && q !in T.Values && q !in free' ==> mem'[q] == mem[q]
    ensures var p' := p.(sz := newsz);
      && SpaceOk(lo, hi, mem', free', trampoline, p', T)
      && OnlyTouched(mem, free, Pages(mem, p, T), mem') && Account(free, Pages(mem, p, T), free', Pages(mem', p', T))
  {
    hide Tree, Entry, Ppn, Mapped, Owned, Frames, PagesFor;
    var a, b, p' := PagesFor(newsz), PagesFor(p.sz), p.(sz := newsz);
    HighKept(mem, T, mem', T, trampoline, p.trapframe);
    FramesHeld(lo, hi, mem, free, T, UserTop(p.sz));
    FramesEmpty(mem, T, a);
    if a < b {
      Split(lo, hi, mem, free, T, mem', free', a, b);
    } else {
      AsBefore(lo, hi, mem, free, T, mem', free', UserTop(p.sz));
    }
    assert forall n :: n in T ==> T[n] in T.Values;
    assert forall q: nat :: q in T.Values ==> q !in free' by {
      forall q: nat | q in T.Values ensures q !in free' { var n :| n in T && T[n] == q; }
    }
    assert Pages(mem, p, T) == Pages(mem', p', T) + Frames(mem, T, a, b);
  }

  /** Cutting an owned range: the lower part stays, the frames of the upper part are free. */
  lemma Split(lo: nat, hi: nat, mem: Mem, free: seq<nat>, T: Tables, mem': Mem, free': seq<nat>, a: nat, b: nat)
    requires Apart(mem, T) && Owned(lo, hi, mem, free, T, 0, b) && a <= b <= MAXVPN
    requires RangeCleared(mem, T, mem', T, a, b) && Freed(free, Frames(mem, T, a, b), free')
    ensures Owned(lo, hi, mem', free', T, 0, a) && Frames(mem', T, 0, a) == Frames(mem, T, 0, a)
    ensures Frames(mem, T, 0, b) == Frames(mem, T, 0, a) + Frames(mem, T, a, b)
    ensures Frames(mem, T, 0, a) !! Frames(mem, T, a, b)
  {
    hide Entry, Ppn;
    forall u | 0 <= u < a
      ensures Mapped(mem', T, u) <==> Mapped(mem, T, u)
      ensures Mapped(mem, T, u) ==> Entry(mem', T, u) == Entry(mem, T, u)
    {
      assert Lookup(mem', T, u) == Lookup(mem, T, u);
    }
    assert Frames(mem, T, 0, a) !! Frames(mem, T, a, b);
    assert forall u :: 0 <= u < a && Mapped(mem, T, u) ==> Ppn(Entry(mem, T, u)) in Frames(mem, T, 0, a);
  }

  lemma AsBefore(lo: nat, hi: nat, mem: Mem, free: seq<nat>, T: Tables, mem': Mem, free': seq<nat>, top: nat)
    requires Apart(mem, T) && Apart(mem', T) && Owned(lo, hi, mem, free, T, 0, top) && top <= MAXVPN
    requires (forall u :: 0 <= u < MAXVPN ==> Lookup(mem', T, u) == Lookup(mem, T, u)) && Freed(free, {}, free')
    ensures Owned(lo, hi, mem', free', T, 0, top) && Frames(mem', T, 0, top) == Frames(mem, T, 0, top)
  {
    hide Entry, Ppn;
    forall u | 0 <= u < top
      ensures Mapped(mem', T, u) <==> Mapped(mem, T, u)
      ensures Mapped(mem, T, u) ==> Entry(mem', T, u) == Entry(mem, T, u)
    {
      assert Lookup(mem', T, u) == Lookup(mem, T, u);
    }
  }

  /** A new process: its trapframe f and the page table built after it. */
  lemma NewSpace(lo: nat, hi: nat, mem: Mem, free: seq<nat>, trampoline: nat, f: nat, free1: seq<nat>,
                 mem': Mem, free': seq<nat>, root: nat, T: Tables)
    requires free == [f] + free1 && f !in free1 && lo <= f < hi <= |mem| == |mem'|
    requires Tree(mem', root, T) && Held(lo, hi, free', T) && Took(map[], free1, T, free', {})
    requires NoneMapped(mem', T, 0, TRAPFRAME) && HighOk(mem', T, trampoline, f)
    ensures SpaceOk(lo, hi, mem', free', trampoline, Proc(root, 0, f), T)
    ensures Account(free, {}, free', Pages(mem', Proc(root, 0, f), T))
  {
    hide Tree, Entry, Ppn, Lookup;
    assert UserTop(0) == 0;
    FramesEmpty(mem', T, 0);
    AccountTook(map[], free1, T, free', {}, {});
    var none: Tables := map[];
    assert none.Values == {} && f !in none.Values;
    TookFacts(map[], free1, T, free', {}, f);
    assert Pages(mem', Proc(root, 0, f), T) == T.Values + {f};
    assert T.Values + {} + {} == T.Values;
  }

  /** freeproc(): all of the process's pages are free again. */
  lemma FreedAccount(mem: Mem, free: seq<nat>, p: Proc, T: Tables, free': seq<nat>)
    requires Apart(mem, T) && Freed([p.trapframe] + free, Frames(mem, T, 0, UserTop(p.sz)) + T.Values, free')
    ensures Account(free, Pages(mem, p, T), free', {})
  {
    hide Frames, UserTop;
  }

  /** fork()'s child, once the pages below the parent's size are copied. */
  lemma CopiedKept(lo: nat, hi: nat, mem: Mem, free: seq<nat>, trampoline: nat, p: Proc, C: Tables, P: Tables,
                   mem': Mem, free': seq<nat>, C': Tables, sz: nat)
    requires SpaceOk(lo, hi, mem, free, trampoline, p, C) && p.sz == 0 && Tree(mem', p.root, C')
    requires Held(lo, hi, free', C')
    requires PagesFor(sz) <= TRAPFRAME && Copied(lo, hi, mem, P, C, free, mem', C', free', PagesFor(sz))
    ensures var p' := p.(sz := sz);
      && SpaceOk(lo, hi, mem', free', trampoline, p', C')
      && OnlyTouched(mem, free, Pages(mem, p, C), mem') && Account(free, Pages(mem, p, C), free', Pages(mem', p', C'))
  {
    hide Tree, Entry, Ppn, Flags, Took, Lookup, Mapped, Owned, Frames, PagesFor, PageCopied;
    PagesForBound(0, 0);
    var b, p' := PagesFor(sz), p.(sz := sz);
    var xs := Frames(mem', C', 0, b);
    FramesEmpty(mem, C, 0);
    HighKept(mem, C, mem', C', trampoline, p.trapframe);
    AccountTook(C, free, C', free', xs, {p.trapframe});
    TookFacts(C, free, C', free', xs, p.trapframe);
    assert C.Values + {p.trapframe} == Pages(mem, p, C);
    assert C'.Values + {p.trapframe} + xs == Pages(mem', p', C');
  }

  /** sbrk() that only raises the size. */
  lemma LazyKept(lo: nat, hi: nat, mem: Mem, free: seq<nat>, trampoline: nat, p: Proc, T: Tables, newsz: nat)
    requires SpaceOk(lo, hi, mem, free, trampoline, p, T) && p.sz <= newsz
    ensures SpaceOk(lo, hi, mem, free, trampoline, p.(sz := newsz), T)
    ensures Pages(mem, p.(sz := newsz), T) == Pages(mem, p, T)
  {
    hide Tree, Entry, Ppn;
    PagesForMono(p.sz, newsz);
    var a, b := UserTop(p.sz), UserTop(newsz);
    forall u | a <= u < b ensures !Mapped(mem, T, u) {
      assert Lookup(mem, T, u) == 0;
    }
    assert Frames(mem, T, 0, b) == Frames(mem, T, 0, a);
  }

  /** Every frame a process maps below MAXVA is one of its pages or the trampoline. */
  lemma MappedFrame(lo: nat, hi: nat, mem: Mem, free: seq<nat>, trampoline: nat, p: Proc, T: Tables, u: nat)
    requires SpaceOk(lo, hi, mem, free, trampoline, p, T) && u < MAXVPN && Mapped(mem, T, u)
    ensures var f := Ppn(Entry(mem, T, u)); f in Pages(mem, p, T) || f == trampoline
  {
    hide Tree, Entry, Ppn, MkPte;
    HighMapped(mem, T, trampoline, p.trapframe);
    forall v | UserTop(p.sz) <= v < TRAPFRAME ensures !Mapped(mem, T, v) {
      assert Lookup(mem, T, v) == 0;
    }
    if u < UserTop(p.sz) {
      FrameIn(mem, T, UserTop(p.sz), u);
    }
  }

  /** A process of size 0 maps the two high pages only. */
  lemma OnlyHigh(lo: nat, hi: nat, mem: Mem, free: seq<nat>, trampoline: nat, p: Proc, T: Tables, u: nat)
    requires SpaceOk(lo, hi, mem, free, trampoline, p, T) && p.sz == 0 && u < MAXVPN
    ensures Mapped(mem, T, u) <==> u >= TRAPFRAME
  {
    hide Tree, Entry, Ppn, MkPte;
    assert UserTop(0) == 0;
    HighMapped(mem, T, trampoline, p.trapframe);
    if u < TRAPFRAME {
      assert Lookup(mem, T, u) == 0;
    }
  }

  lemma PagesApart(lo: nat, hi: nat, mem: Mem, free: seq<nat>, kernel: set<nat>, trampoline: nat, procs: Procs,
                   tables: AllTables,
                   i: nat, j: nat, q: nat)
    requires Partition(lo, hi, mem, free, kernel, trampoline, procs, tables) && i in procs && j in procs && i != j
    ensures i in tables && j in tables
    ensures q in Pages(mem, procs[i], tables[i]) ==> q !in Pages(mem, procs[j], tables[j])
  {
    hide SpacesOk, Pages;
    SpacesAt(lo, hi, mem, free, trampoline, procs, tables, i);
    SpacesAt(lo, hi, mem, free, trampoline, procs, tables, j);
    assert q in Pages(mem, procs[i], tables[i]) ==> OwnedBy(mem, procs, tables, i, q);
    assert q in Pages(mem, procs[j], tables[j]) ==> OwnedBy(mem, procs, tables, j, q);
  }

  lemma SpacesAt(lo: nat, hi: nat, mem: Mem, free: seq<nat>, trampoline: nat, procs: Procs, tables: AllTables, i: nat)
    requires SpacesOk(lo, hi, mem, free, trampoline, procs, tables) && i in procs
    ensures i in tables && SpaceOk(lo, hi, mem, free, trampoline, procs[i], tables[i])
  {
  }

  /** A process and another of size 0 are a forking pair: nothing the one maps is free or a
      table of the other. */
  lemma PairOk(lo: nat, hi: nat, mem: Mem, free: seq<nat>, kernel: set<nat>, trampoline: nat, procs: Procs,
               tables: AllTables,
               i: nat, j: nat)
    requires Partition(lo, hi, mem, free, kernel, trampoline, procs, tables)
    requires i in procs && j in procs && i != j && procs[j].sz == 0
    requires forall q :: q in free ==> lo <= q < hi
    ensures i in tables && j in tables && Apart(mem, tables[i]) && Apart(mem, tables[j])
    ensures ParentOk(mem, tables[i], tables[j], free, MAXVPN)
    ensures forall u :: 0 <= u < MAXVPN && Mapped(mem, tables[j], u) ==> Mapped(mem, tables[i], u)
  {
    hide Mapped, SpaceOk, Pages, HighOk;
    var P, C, p, c := tables[i], tables[j], procs[i], procs[j];
    SpacesAt(lo, hi, mem, free, trampoline, procs, tables, i);
    SpacesAt(lo, hi, mem, free, trampoline, procs, tables, j);
    SpaceFacts(lo, hi, mem, free, trampoline, p, P);
    SpaceFacts(lo, hi, mem, free, trampoline, c, C);
    TablesInPages(mem, p, P);
    TablesInPages(mem, c, C);
    forall q: nat | q in Pages(mem, p, P) ensures q !in C.Values {
      PagesApart(lo, hi, mem, free, kernel, trampoline, procs, tables, i, j, q);
    }
    hide Partition;
    forall u: nat | u < MAXVPN && Mapped(mem, P, u)
      ensures var f := Ppn(Entry(mem, P, u)); f < |mem| && f !in free && f !in C.Values
    {
      MappedFrame(lo, hi, mem, free, trampoline, p, P, u);
    }
    forall u: nat | u < MAXVPN && Mapped(mem, C, u) ensures Mapped(mem, P, u) {
      OnlyHigh(lo, hi, mem, free, trampoline, c, C, u);
      BothHigh(lo, hi, mem, free, trampoline, p, P);
    }
  }

  lemma TablesInPages(mem: Mem, p: Proc, T: Tables)
    requires Apart(mem, T)
    ensures (forall n :: n in T ==> T[n] in Pages(mem, p, T)) && forall q :: q in T.Values ==> q in Pages(mem, p, T)
  {
    assert forall n :: n in T ==> T[n] in T.Values;
  }

  lemma BothHigh(lo: nat, hi: nat, mem: Mem, free: seq<nat>, trampoline: nat, p: Proc, T: Tables)
    requires SpaceOk(lo, hi, mem, free, trampoline, p, T)
    ensures forall u :: TRAPFRAME <= u < MAXVPN ==> Mapped(mem, T, u)
  {
    hide Tree, Entry, Ppn, MkPte;
    HighMapped(mem, T, trampoline, p.trapframe);
  }

  // ---------- every page has one place ----------

  datatype Place =
    | OnFreeList
    | InKernel
    | TableOf(i: nat, n: Node)
    | FrameOf(i: nat, u: nat)
    | TrapframeOf(i: nat)

  ghost predicate IsAt(mem: Mem, free: seq<nat>, kernel: set<nat>, procs: Procs, tables: AllTables, p: nat,
                       place: Place) {
    match place
    case OnFreeList => p in free
    case InKernel => p in kernel
    case TableOf(i, n) => i in procs && i in tables && n in tables[i] && tables[i][n] == p
    case FrameOf(i, u) =>
      && i in procs && i in tables && Apart(mem, tables[i]) && u < UserTop(procs[i].sz)
      && Mapped(mem, tables[i], u) && Ppn(Entry(mem, tables[i], u)) == p
    case TrapframeOf(i) => i in procs && procs[i].trapframe == p
  }

  /** Every physical page is in exactly one place: the free list, the kernel, or one table,
      one mapping or the trapframe of one process. */
  lemma OnePlace(lo: nat, hi: nat, mem: Mem, free: seq<nat>, kernel: set<nat>, trampoline: nat, procs: Procs,
                 tables: AllTables, p: nat)
    requires Partition(lo, hi, mem, free, kernel, trampoline, procs, tables) && lo <= p < hi
    ensures exists a :: IsAt(mem, free, kernel, procs, tables, p, a)
    ensures forall a, b ::
      IsAt(mem, free, kernel, procs, tables, p, a) && IsAt(mem, free, kernel, procs, tables, p, b) ==> a == b
  {
    hide Entry, Ppn, NodeOk;
    Somewhere(lo, hi, mem, free, kernel, trampoline, procs, tables, p);
    forall a, b | IsAt(mem, free, kernel, procs, tables, p, a) && IsAt(mem, free, kernel, procs, tables, p, b)
      ensures a == b
    {
      OwnerOf(lo, hi, mem, free, kernel, trampoline, procs, tables, p, a);
      OwnerOf(lo, hi, mem, free, kernel, trampoline, procs, tables, p, b);
      if !a.OnFreeList? && !a.InKernel? && !b.OnFreeList? && !b.InKernel? {
        WithinOne(lo, hi, mem, free, kernel, trampoline, procs, tables, p, a, b);
      }
    }
  }

  lemma OwnerOf(lo: nat, hi: nat, mem: Mem, free: seq<nat>, kernel: set<nat>, trampoline: nat, procs: Procs,
                tables: AllTables,
                p: nat, a: Place)
    requires Partition(lo, hi, mem, free, kernel, trampoline, procs, tables)
    requires IsAt(mem, free, kernel, procs, tables, p, a)
    ensures a.OnFreeList? ==> p in free && p !in kernel
    ensures a.InKernel? ==> p in kernel && p !in free
    ensures !a.OnFreeList? && !a.InKernel? ==> OwnedBy(mem, procs, tables, a.i, p) && p !in free && p !in kernel
  {
    hide Entry, Ppn, NodeOk;
    if !a.OnFreeList? && !a.InKernel? {
      assert SpaceOk(lo, hi, mem, free, trampoline, procs[a.i], tables[a.i]);
      SpaceFacts(lo, hi, mem, free, trampoline, procs[a.i], tables[a.i]);
      if a.FrameOf? { FrameIn(mem, tables[a.i], UserTop(procs[a.i].sz), a.u); }
      assert OwnedBy(mem, procs, tables, a.i, p);
    }
  }

  lemma WithinOne(lo: nat, hi: nat, mem: Mem, free: seq<nat>, kernel: set<nat>, trampoline: nat, procs: Procs,
                  tables: AllTables, p: nat, a: Place, b: Place)
    requires Partition(lo, hi, mem, free, kernel, trampoline, procs, tables)
    requires IsAt(mem, free, kernel, procs, tables, p, a) && IsAt(mem, free, kernel, procs, tables, p, b)
    requires !a.OnFreeList? && !a.InKernel? && !b.OnFreeList? && !b.InKernel?
    requires OwnedBy(mem, procs, tables, a.i, p) && OwnedBy(mem, procs, tables, b.i, p)
    ensures a == b
  {
    hide Entry, Ppn, Tree, SpaceOk, Pages, SpacesOk;
    var i := a.i;
    assert b.i == i;
    SpacesAt(lo, hi, mem, free, trampoline, procs, tables, i);
    WithinSpace(lo, hi, mem, free, kernel, trampoline, procs, tables, p, a, b);
  }

  lemma WithinSpace(lo: nat, hi: nat, mem: Mem, free: seq<nat>, kernel: set<nat>, trampoline: nat, procs: Procs,
                    tables: AllTables, p: nat, a: Place, b: Place)
    requires !a.OnFreeList? && !a.InKernel? && !b.OnFreeList? && !b.InKernel? && a.i == b.i
    requires a.i in procs && a.i in tables && SpaceOk(lo, hi, mem, free, trampoline, procs[a.i], tables[a.i])
    requires IsAt(mem, free, kernel, procs, tables, p, a) && IsAt(mem, free, kernel, procs, tables, p, b)
    ensures a == b
  {
    hide Entry, Ppn, NodeOk, HighOk, NoneMapped, Frames;
    var T, top := tables[a.i], UserTop(procs[a.i].sz);
    FramesHeld(lo, hi, mem, free, T, top);
    if a.FrameOf? { FrameIn(mem, T, top, a.u); }
    if b.FrameOf? { FrameIn(mem, T, top, b.u); }
    assert forall n :: n in T ==> T[n] in T.Values;
  }

  lemma Somewhere(lo: nat, hi: nat, mem: Mem, free: seq<nat>, kernel: set<nat>, trampoline: nat, procs: Procs,
                  tables: AllTables, p: nat)
    requires Partition(lo, hi, mem, free, kernel, trampoline, procs, tables) && lo <= p < hi
    ensures exists a :: IsAt(mem, free, kernel, procs, tables, p, a)
  {
    hide SpacesOk;
    if p in free {
      assert IsAt(mem, free, kernel, procs, tables, p, OnFreeList);
    } else if p in kernel {
      assert IsAt(mem, free, kernel, procs, tables, p, InKernel);
    } else {
      var i: nat :| OwnedBy(mem, procs, tables, i, p);
      InPages(mem, free, kernel, procs, tables, p, i);
    }
  }

  lemma InPages(mem: Mem, free: seq<nat>, kernel: set<nat>, procs: Procs, tables: AllTables, p: nat, i: nat)
    requires OwnedBy(mem, procs, tables, i, p)
    ensures exists a :: IsAt(mem, free, kernel, procs, tables, p, a)
  {
    hide Entry, Ppn, Apart;
    var T := tables[i];
    if p in T.Values {
      var n :| n in T && T[n] == p;
      assert IsAt(mem, free, kernel, procs, tables, p, TableOf(i, n));
    } else if p == procs[i].trapframe {
      assert IsAt(mem, free, kernel, procs, tables, p, TrapframeOf(i));
    } else {
      var u :| 0 <= u < UserTop(procs[i].sz) && Mapped(mem, T, u) && Ppn(Entry(mem, T, u)) == p;
      assert IsAt(mem, free, kernel, procs, tables, p, FrameOf(i, u));
    }
  }

  /** The pages of all processes, and how many they are, added up process by process. */
  ghost function AllPages(mem: Mem, procs: Procs, tables: AllTables): (set<nat>, nat)
    decreases |procs|
  {
    if procs == map[] then ({}, 0)
    else
      var i :| i in procs;
      var rest, mine := AllPages(mem, procs - {i}, tables), Mine(mem, procs, tables, i);
      (rest.0 + mine, rest.1 + |mine|)
  }

  lemma {:induction false} AllPagesAre(mem: Mem, procs: Procs, tables: AllTables)
    requires OneOwner(mem, procs, tables)
    ensures var r := AllPages(mem, procs, tables);
      && |r.0| == r.1
      && forall q: nat :: q in r.0 <==> exists i: nat :: OwnedBy(mem, procs, tables, i, q)
    decreases |procs|
  {
    hide Pages;
    if procs != map[] {
      var r := AllPages(mem, procs, tables);
      var i :| i in procs && r == (AllPages(mem, procs - {i}, tables).0 + Mine(mem, procs, tables, i),
                                   AllPages(mem, procs - {i}, tables).1 + |Mine(mem, procs, tables, i)|);
      forall j: nat, q: nat
        ensures OwnedBy(mem, procs - {i}, tables, j, q) <==> j != i && OwnedBy(mem, procs, tables, j, q)
      {
      }
      AllPagesAre(mem, procs - {i}, tables);
      OneMoreOwner(mem, procs, tables, i, AllPages(mem, procs - {i}, tables).0);
    }
  }

  lemma OneMoreOwner(mem: Mem, procs: Procs, tables: AllTables, i: nat, rest: set<nat>)
    requires OneOwner(mem, procs, tables)
    requires forall q: nat :: q in rest <==> exists j: nat :: j != i && OwnedBy(mem, procs, tables, j, q)
    ensures rest !! Mine(mem, procs, tables, i)
    ensures forall q: nat ::
      q in rest + Mine(mem, procs, tables, i) <==> exists j: nat :: OwnedBy(mem, procs, tables, j, q)
  {
    hide Pages;
    forall q: nat ensures q in Mine(mem, procs, tables, i) <==> OwnedBy(mem, procs, tables, i, q) {
    }
  }

  /** Conservation: whatever the processes do, free pages, kernel pages and the pages of each
      process add up to the memory there is. */
  lemma PagesAddUp(lo: nat, hi: nat, mem: Mem, free: seq<nat>, kernel: set<nat>, trampoline: nat, procs: Procs,
                   tables: AllTables)
    requires Partition(lo, hi, mem, free, kernel, trampoline, procs, tables) && lo <= hi && Distinct(free)
    requires (forall p :: p in free ==> lo <= p < hi) && forall p :: p in kernel ==> lo <= p < hi
    ensures |free| + |kernel| + AllPages(mem, procs, tables).1 == hi - lo
  {
    PartitionFacts(lo, hi, mem, free, kernel, trampoline, procs, tables);
    MineFacts(lo, hi, mem, free, trampoline, procs, tables);
    hide SpacesOk, OwnedBy, Mine, AllPages, Distinct;
    AllPagesAre(mem, procs, tables);
    var all := AllPages(mem, procs, tables).0;
    hide OneOwner, NoneOf, Covers, Partition;
    PartsApart(lo, hi, mem, free, kernel, procs, tables, all);
    PartsCover(lo, hi, mem, free, kernel, procs, tables, all);
    PartsAdd(lo, hi, free, kernel, all);
  }

  lemma PartsAdd(lo: nat, hi: nat, free: seq<nat>, kernel: set<nat>, all: set<nat>)
    requires lo <= hi && Distinct(free) && Listed(free) !! kernel && Listed(free) !! all && kernel !! all
    requires (forall p :: p in free ==> lo <= p < hi) && (forall p :: p in kernel ==> lo <= p < hi)
    requires forall q :: q in all ==> lo <= q < hi
    requires forall q: nat :: lo <= q < hi ==> q in Listed(free) || q in kernel || q in all
    ensures |free| + |kernel| + |all| == hi - lo
  {
    ListSize(free);
    assert PageRange(lo, hi) == Listed(free) + kernel + all;
    hide Listed;
    ThreeParts(Listed(free), kernel, all);
  }

  lemma PartsApart(lo: nat, hi: nat, mem: Mem, free: seq<nat>, kernel: set<nat>, procs: Procs, tables: AllTables,
                   all: set<nat>)
    requires NoneOf(mem, procs, tables, kernel) && forall p :: p in kernel ==> p !in free
    requires forall j: nat, q: nat :: OwnedBy(mem, procs, tables, j, q) ==> lo <= q < hi && q !in free
    requires forall q: nat :: q in all <==> exists i: nat :: OwnedBy(mem, procs, tables, i, q)
    ensures Listed(free) !! kernel && Listed(free) !! all && kernel !! all && forall q :: q in all ==> lo <= q < hi
  {
    hide OwnedBy;
    forall q | q in all ensures lo <= q < hi && q !in free && q !in kernel {
      var i: nat :| OwnedBy(mem, procs, tables, i, q);
    }
  }

  lemma PartsCover(lo: nat, hi: nat, mem: Mem, free: seq<nat>, kernel: set<nat>, procs: Procs, tables: AllTables,
                   all: set<nat>)
    requires Covers(lo, hi, mem, free, kernel, procs, tables)
    requires forall q: nat :: q in all <==> exists i: nat :: OwnedBy(mem, procs, tables, i, q)
    ensures forall q: nat :: lo <= q < hi ==> q in Listed(free) || q in kernel || q in all
  {
    hide OwnedBy;
  }

  lemma ThreeParts(a: set<nat>, b: set<nat>, c: set<nat>)
    requires a !! b && a !! c && b !! c
    ensures |a + b + c| == |a| + |b| + |c|
  {
    assert (a + b) !! c;
  }

  ghost function Listed(free: seq<nat>): set<nat> {
    set p | p in free
  }

  lemma {:induction false} ListSize(free: seq<nat>)
    requires Distinct(free)
    ensures |Listed(free)| == |free|
  {
    if free != [] {
      ListSize(free[1..]);
      assert Listed(free) == Listed(free[1..]) + {free[0]};
    } else {
      assert Listed(free) == {};
    }
  }

  ghost function PageRange(lo: nat, hi: nat): (r: set<nat>)
    requires lo <= hi
    ensures |r| == hi - lo && forall p: nat :: p in r <==> lo <= p < hi
    decreases hi
  {
    if lo == hi then {} else PageRange(lo, hi - 1) + {hi - 1}
  }

  /** What the MMU lets a process write: a page below its size, through a frame of its own.
      The trapframe and trampoline are not user pages. */
  lemma MmuSees(lo: nat, hi: nat, mem: Mem, free: seq<nat>, trampoline: nat, p: Proc, T: Tables, v: nat)
    requires SpaceOk(lo, hi, mem, free, trampoline, p, T) && v < 2 * MAXVPN
    ensures var w := HwWalk(mem, p.root, v, 2);
      && (w.Leaf? && UserWritable(w.pte) <==> v < UserTop(p.sz) && UserWritable(Lookup(mem, T, v)))
      && (w.Leaf? && UserWritable(w.pte) ==> w.pte == Entry(mem, T, v) && OwnFrame(lo, hi, mem, free, p, T, v))
  {
    hide Tree, Entry, Ppn, MkPte, Frames, UserWritable;
    if v >= MAXVPN {
      UpperHalfFaults(mem, p.root, T, v);
    } else {
      HardwareAgrees(mem, p.root, T, v);
      WritableIsLeaf(Lookup(mem, T, v));
      WritableBits(trampoline, PTE_V + PTE_R + PTE_X);
      WritableBits(p.trapframe, PTE_V + PTE_R + PTE_W);
      FlagsNotUser();
      if v < UserTop(p.sz) && Mapped(mem, T, v) { FrameIn(mem, T, UserTop(p.sz), v); }
    }
  }

  lemma WritableIsLeaf(pte: nat)
    ensures UserWritable(pte) ==> IsLeaf(pte) && pte > 0
  {
    var n := pte / 2;
    assert pte / 4 == n / 2 && n == 8 * (n / 8) + n % 8;
    assert n % 8 == 0 ==> n / 2 == 4 * (n / 8);
  }

  lemma FlagsNotUser()
    ensures !UserWritable(PTE_V + PTE_R + PTE_X) && !UserWritable(PTE_V + PTE_R + PTE_W) && !UserWritable(0)
  {
  }

  ghost predicate OwnFrame(lo: nat, hi: nat, mem: Mem, free: seq<nat>, p: Proc, T: Tables, v: nat) {
    && Apart(mem, T) && v < UserTop(p.sz) && Mapped(mem, T, v)
    && var f := Ppn(Entry(mem, T, v));
       lo <= f < hi && f !in free && f !in T.Values && f in Frames(mem, T, 0, UserTop(p.sz))
  }

  /** One word of page v's frame was stored, and no other page below `top` shows a change. */
  ghost predicate Stored(mem: Mem, T: Tables, top: nat, v: nat, k: nat, x: nat, mem': Mem) {
    && Apart(mem, T) && k < ENTRIES && v < top && Mapped(mem, T, v) && Ppn(Entry(mem, T, v)) < |mem|
    && mem' == Poke(mem, Ppn(Entry(mem, T, v)), k, x)
    && forall u: nat :: u < top && u != v && Mapped(mem, T, u) ==>
         Ppn(Entry(mem, T, u)) < |mem| && mem'[Ppn(Entry(mem, T, u))] == mem[Ppn(Entry(mem, T, u))]
  }

  lemma StoreKept(lo: nat, hi: nat, mem: Mem, free: seq<nat>, trampoline: nat, p: Proc, T: Tables,
                  v: nat, k: nat, x: nat, ok: bool, mem': Mem)
    requires SpaceOk(lo, hi, mem, free, trampoline, p, T) && k < ENTRIES
    requires if ok then OwnFrame(lo, hi, mem, free, p, T, v) && mem' == Poke(mem, Ppn(Entry(mem, T, v)), k, x)
             else mem' == mem
    ensures SpaceOk(lo, hi, mem', free, trampoline, p, T) && SameLookups(mem, T, mem', T)
    ensures OnlyTouched(mem, free, Pages(mem, p, T), mem') && Account(free, Pages(mem, p, T), free, Pages(mem', p, T))
    ensures ok ==> Stored(mem, T, UserTop(p.sz), v, k, x, mem')
  {
    hide Entry, Ppn, NodeOk, MkPte;
    assert forall n :: n in T ==> T[n] in T.Values;
    TreeFrame(mem, p.root, T, mem');
    forall u ensures Mapped(mem', T, u) <==> Mapped(mem, T, u) {
      assert Entry(mem', T, u) == Entry(mem, T, u);
    }
    SameEntries(mem, T, mem');
    SameFrames(mem, T, mem', 0, UserTop(p.sz));
    SpaceFacts(lo, hi, mem, free, trampoline, p, T);
  }

  // ---------- the operations of proc.c ----------

  const INT_MAX: nat := 0x7fff_ffff
  const SZ_MAX: nat := 0xffff_ffff_ffff_f000   // beyond it, rounding up to a page wraps
  const UINT64: nat := 0x1_0000_0000_0000_0000

  /** PGROUNDUP(sz) / PGSIZE in 64 bits. */
  function Rounded(sz: nat): nat { if sz > SZ_MAX then 0 else PagesFor(sz) }

  /** Pages that fork takes for the first b pages: a trapframe, the three tables of an empty
      space, a frame for each page the parent maps, and the tables those need. */
  ghost function ForkNeed(mem: Mem, P: Tables, b: nat): nat
    requires Apart(mem, P)
  {
    4 + CopyPages(mem, P, b) + |CopyPaths(mem, P, b) - ({Root} + High())|
  }

  /** uvmdealloc() on a process's size panics when it reaches the trampoline page. */
  predicate ShrinkPanics(sz: nat, newsz: nat) {
    PagesFor(newsz) < PagesFor(sz) && PagesFor(sz) > TRAMPOLINE
  }

  predicate ShrinkLoses(sz: nat, n: nat) {
    n <= sz <= SZ_MAX && ShrinkFreesTrapframe(sz, sz - n)
  }

  /** It frees the trapframe that is still in use when it reaches the page below. */
  predicate ShrinkFreesTrapframe(sz: nat, newsz: nat) {
    PagesFor(newsz) <= TRAPFRAME < PagesFor(sz)
  }

  class Machine {
    const m: PhysMem
    const trampoline: nat
    ghost const kernel: set<nat>   // pages the kernel keeps for itself
    var procs: Procs
    ghost var tables: AllTables

    ghost predicate Valid()
      reads this, m
    {
      m.Valid() && Partition(m.lo, m.hi, m.mem, m.free, kernel, trampoline, procs, tables)
    }

    /** After boot: no process, and every page is free or the kernel's. */
    constructor (m: PhysMem, trampoline: nat, ghost kernel: set<nat>)
      requires m.Valid() && trampoline < m.lo
      requires forall p: nat :: p in kernel ==> p !in m.free
      requires forall p: nat :: m.lo <= p < m.hi ==> p in m.free || p in kernel
      ensures Valid() && procs == map[] && this.m == m && this.trampoline == trampoline
    {
      this.m, this.trampoline, this.kernel := m, trampoline, kernel;
      procs, tables := map[], map[];
    }

    /** The memory part of allocproc(): a trapframe and a page table, or nothing. It succeeds
        exactly when four pages are free. */
    method AllocProc(i: nat) returns (ok: bool)
      requires Valid() && i !in procs
      modifies this, m
      ensures Valid() && OthersUnseen(old(m.mem), old(procs), old(tables), i, m.mem)
      ensures ok <==> |old(m.free)| >= 4
      ensures ok ==> i in procs && procs == old(procs)[i := procs[i]] && procs[i].sz == 0
      ensures ok ==> i in tables && tables == old(tables)[i := tables[i]] && tables[i].Keys == {Root} + High()
      ensures ok ==> |m.free| == |old(m.free)| - 4
      ensures !ok ==> procs == old(procs) && tables == old(tables) && forall p :: p in m.free <==> p in old(m.free)
    {
      hide Partition, SpaceOk, Pages, OthersUnseen, High, Freed, NoneMapped, Took, Account, Tree, Apart, OnlyTouched,
        Mine;
      ghost var mem0, free0 := m.mem, m.free;
      ok := false;
      PartitionFacts(m.lo, m.hi, m.mem, m.free, kernel, trampoline, procs, tables);
      var tf := m.Kalloc();
      if tf == 0 {
        Unaffected(m.lo, m.hi, mem0, free0, kernel, trampoline, procs, tables, i, m.mem, m.free);
        return;
      }
      ghost var free1 := m.free;
      var root;
      ghost var T;
      root, T := ProcPagetable(m, trampoline, tf);
      if root == 0 {
        NotTaken(free0, tf, free1, m.free);
        m.Kfree(tf);
        Unaffected(m.lo, m.hi, mem0, free0, kernel, trampoline, procs, tables, i, m.mem, m.free);
        return;
      }
      NewSpace(m.lo, m.hi, mem0, free0, trampoline, tf, free1, m.mem, m.free, root, T);
      ok := true;
      NewOne(m.lo, m.hi, mem0, free0, kernel, trampoline, procs, tables, i, m.mem, m.free, Proc(root, 0, tf), T);
      procs, tables := procs[i := Proc(root, 0, tf)], tables[i := T];
    }

    /** growproc(n), n > 0. A sum that wraps adds nothing; a size in the last page below 2^64
        rounds up to 0, and the pages are mapped from there. */
    method Grow(i: nat, n: nat) returns (out: Outcome)
      requires Valid() && i in procs && i in tables && Apart(m.mem, tables[i])
      requires 0 < n <= INT_MAX && procs[i].sz < UINT64
      modifies this, m
      ensures old(procs)[i].sz + n >= UINT64 ==>
        && out == Done && Valid() && procs == old(procs) && tables == old(tables)
        && m.mem == old(m.mem) && m.free == old(m.free)
      ensures Rounded(old(procs)[i].sz) <= PagesFor(old(procs)[i].sz + n)
      ensures old(procs)[i].sz + n < UINT64 ==>
        out == GrowOutcome(old(m.mem), old(tables)[i], |old(m.free)|,
                           Rounded(old(procs)[i].sz), PagesFor(old(procs)[i].sz + n))
      ensures out != Panicked ==> Valid() && OthersUnseen(old(m.mem), old(procs), old(tables), i, m.mem)
      ensures out != Panicked ==> i in tables && tables == old(tables)[i := tables[i]]
      ensures out == Done && old(procs)[i].sz + n < UINT64 ==>
        && procs == old(procs)[i := old(procs)[i].(sz := old(procs)[i].sz + n)]
        && Grown(m.lo, m.hi, old(m.mem), old(tables)[i], old(m.free), m.mem, tables[i], m.free,
                 Rounded(old(procs)[i].sz), PagesFor(old(procs)[i].sz + n), PTE_V + PTE_R + PTE_U + PTE_W)
      ensures out == Failed ==> procs == old(procs) && SameLookups(old(m.mem), old(tables)[i], m.mem, tables[i])
    {
      hide Partition, SpaceOk, Pages, OthersUnseen, Account, Grown, SameLookups, Took, Untouched, OnlyTouched,
        GrowOutcome, Tree, PagesFor;
      ghost var mem0, free0, T := m.mem, m.free, tables[i];
      var p := procs[i];
      SpaceAt(m.lo, m.hi, m.mem, m.free, kernel, trampoline, procs, tables, i);
      PagesForMono(p.sz, p.sz + n);
      PagesForBound(0, 0);
      var newsz := (p.sz + n) % UINT64;
      if newsz < p.sz {
        out := Done;  // uvmalloc() hands the old size back
        SeenSelf(m.lo, m.hi, m.mem, m.free, kernel, trampoline, procs, tables, i);
        assert tables == tables[i := T];
        return;
      }
      var sz;
      ghost var T';
      out, sz, T' := UvmAlloc(m, p.root, T, if p.sz > SZ_MAX then 0 else p.sz, newsz, PTE_W);
      if out == Panicked {
        return;
      }
      if out == Failed {
        TablesOnly(m.lo, m.hi, mem0, free0, trampoline, p, T, m.mem, m.free, T');
      } else {
        GrewClean(m.lo, m.hi, mem0, free0, trampoline, p, T, |free0|, newsz);
        GrownKept(m.lo, m.hi, mem0, free0, trampoline, p, T, m.mem, m.free, T', sz, PTE_V + PTE_R + PTE_U + PTE_W);
        p := p.(sz := sz);
      }
      Replaced(m.lo, m.hi, mem0, free0, kernel, trampoline, procs, tables, i, m.mem, m.free, p, T');
      procs, tables := procs[i := p], tables[i := T'];
      assert procs == old(procs) || out == Done;
    }

    /** growproc(-n), n > 0. A request for more than there is changes nothing, and one from the
        last page below 2^64 frees nothing. From a size that reaches the high pages it panics
        or frees the trapframe under the process; only then is the partition lost. */
    method Shrink(i: nat, n: nat) returns (panic: bool)
      requires Valid() && i in procs && 0 < n <= INT_MAX + 1 && procs[i].sz < UINT64
      modifies this, m
      ensures panic <==> n <= old(procs)[i].sz <= SZ_MAX && ShrinkPanics(old(procs)[i].sz, old(procs)[i].sz - n)
      ensures !panic ==> tables == old(tables)
      ensures !panic && n <= old(procs)[i].sz ==> procs == old(procs)[i := old(procs)[i].(sz := old(procs)[i].sz - n)]
      ensures !panic && n > old(procs)[i].sz ==> procs == old(procs)
      ensures !panic ==> (Valid() <==> !ShrinkLoses(old(procs)[i].sz, n))
      ensures !panic && ShrinkLoses(old(procs)[i].sz, n) ==> procs[i].trapframe in m.free
      ensures !panic && !ShrinkLoses(old(procs)[i].sz, n) ==>
        i in old(tables) && OthersUnseen(old(m.mem), old(procs), old(tables), i, m.mem)
      ensures !panic && n <= old(procs)[i].sz <= SZ_MAX && !ShrinkLoses(old(procs)[i].sz, n) ==>
        RangeCleared(old(m.mem), old(tables)[i], m.mem, old(tables)[i],
                     PagesFor(old(procs)[i].sz - n), PagesFor(old(procs)[i].sz))
      ensures !(n <= old(procs)[i].sz <= SZ_MAX) ==> m.mem == old(m.mem) && m.free == old(m.free)
    {
      hide Partition, SpaceOk, Pages, OthersUnseen, PagesFor, RangeCleared;
      var p := procs[i];
      SpaceAt(m.lo, m.hi, m.mem, m.free, kernel, trampoline, procs, tables, i);
      if n > p.sz {
        SeenSelf(m.lo, m.hi, m.mem, m.free, kernel, trampoline, procs, tables, i);
        return false;  // the difference wraps to more than the size
      }
      if p.sz > SZ_MAX {
        LastPage(m.lo, m.hi, m.mem, m.free, trampoline, p, tables[i], p.sz - n);
        SpaceFacts(m.lo, m.hi, m.mem, m.free, trampoline, p, tables[i]);
        Replaced(m.lo, m.hi, m.mem, m.free, kernel, trampoline, procs, tables, i, m.mem, m.free,
                 p.(sz := p.sz - n), tables[i]);
        assert tables == tables[i := tables[i]];
        procs := procs[i := p.(sz := p.sz - n)];
        return false;
      }
      panic := ShrinkTo(i, p.sz - n);
    }

    /** growproc(n), n < 0, where no rounding wraps. */
    method ShrinkTo(i: nat, newsz: nat) returns (panic: bool)
      requires Valid() && i in procs && newsz < procs[i].sz <= newsz + INT_MAX + 1 && procs[i].sz <= SZ_MAX
      modifies this, m
      ensures panic <==> ShrinkPanics(old(procs)[i].sz, newsz)
      ensures !panic ==> procs == old(procs)[i := old(procs)[i].(sz := newsz)] && tables == old(tables)
      ensures !panic ==> (Valid() <==> !ShrinkFreesTrapframe(old(procs)[i].sz, newsz))
      ensures !panic && ShrinkFreesTrapframe(old(procs)[i].sz, newsz) ==> procs[i].trapframe in m.free
      ensures !panic && !ShrinkFreesTrapframe(old(procs)[i].sz, newsz) ==>
        && i in old(tables) && OthersUnseen(old(m.mem), old(procs), old(tables), i, m.mem)
        && RangeCleared(old(m.mem), old(tables)[i], m.mem, old(tables)[i], PagesFor(newsz), PagesFor(old(procs)[i].sz))
    {
      hide Partition, SpaceOk, Pages, OthersUnseen, Account, OnlyTouched, PagesFor, RangeCleared, Tree, FirstStop,
        Owned, Freed, Frames;
      ghost var mem0, free0 := m.mem, m.free;
      var p := procs[i];
      SpaceAt(m.lo, m.hi, m.mem, m.free, kernel, trampoline, procs, tables, i);
      ghost var T := tables[i];
      PagesForMono(newsz, p.sz);
      ShrinkStop(m.lo, m.hi, m.mem, m.free, trampoline, p, T, newsz);
      var sz;
      panic, sz := UvmDealloc(m, p.root, T, p.sz, newsz);
      if panic {
        return;
      }
      procs := procs[i := p.(sz := newsz)];
      if ShrinkFreesTrapframe(p.sz, newsz) {
        TrapframeGone(m.lo, m.hi, mem0, free0, trampoline, p, T, newsz, m.free);
        StillNeeded(m.lo, m.hi, m.mem, m.free, kernel, trampoline, procs, tables, i);
      } else {
        ShrunkKept(m.lo, m.hi, mem0, free0, trampoline, p, T, m.mem, m.free, newsz);
        Replaced(m.lo, m.hi, mem0, free0, kernel, trampoline, old(procs), tables, i, m.mem, m.free, p.(sz := newsz), T);
        assert tables[i := T] == tables;
      }
    }

    /** The memory part of kfork(): process j becomes a copy of process i. On failure nothing
        is left of j; the panic is reached exactly when the parent's size covers its own
        trapframe page and memory lasts to there. */
    method Fork(i: nat, j: nat) returns (out: Outcome)
      requires Valid() && i in procs && i in tables && j !in procs && Apart(m.mem, tables[i])
      modifies this, m
      ensures out == Panicked <==>
        && PagesFor(old(procs)[i].sz) > TRAPFRAME
        && |old(m.free)| > ForkNeed(old(m.mem), old(tables)[i], TRAPFRAME)
      ensures out == Done <==>
        && PagesFor(old(procs)[i].sz) <= TRAPFRAME
        && |old(m.free)| >= ForkNeed(old(m.mem), old(tables)[i], PagesFor(old(procs)[i].sz))
      ensures out != Panicked ==> Valid() && OthersUnseen(old(m.mem), old(procs), old(tables), j, m.mem)
      ensures out == Failed ==> procs == old(procs) && tables == old(tables)
      ensures out == Done ==> procs.Keys == old(procs).Keys + {j} && procs == old(procs)[j := procs[j]]
      ensures out == Done ==> j in tables && tables == old(tables)[j := tables[j]]
      ensures out == Done ==>
        && procs[j].sz == procs[i].sz && SameMemory(m.mem, tables[i], tables[j], PagesFor(procs[i].sz))
    {
      hide Partition, SpaceOk, Pages, OthersUnseen, Account, OnlyTouched, PagesFor, Tree, Copied, Took, Untouched,
        SameLookups, ParentOk, Owned, High, Mapped, CopyOutcome, ForkNeed, SameMemory, Mine, CopyPages, CopyPaths,
        Unseen, SameAccess, Apart, Held;
      ghost var mem0, procs0, tables0, n := m.mem, procs, tables, |m.free|;
      var p := procs[i];
      SpaceAt(m.lo, m.hi, m.mem, m.free, kernel, trampoline, procs, tables, i);
      ghost var P := tables[i];
      ForkNeedFour(mem0, P, PagesFor(p.sz));
      ForkNeedFour(mem0, P, TRAPFRAME);
      var ok := AllocProc(j);
      if !ok {
        return Failed;
      }
      ghost var mem1, procs1, tables1 := m.mem, procs, tables;
      SeenAt(mem0, procs0, tables0, j, mem1, i);
      SpaceAt(m.lo, m.hi, m.mem, m.free, kernel, trampoline, procs, tables, i);
      SpaceAt(m.lo, m.hi, m.mem, m.free, kernel, trampoline, procs, tables, j);
      ForkOutcome(m.lo, m.hi, mem0, P, mem1, m.free, trampoline, p, procs[j], tables[j], n);
      out := CopyOrDrop(i, j);
      if out != Panicked {
        UnseenTrans(mem0, procs0, tables0, j, mem1, procs1, tables1, m.mem);
        assert out == Failed ==> procs == procs0 && tables == tables0;
      }
    }

    /** The rest of kfork()'s memory part: the copy, or no process j after all. */
    method CopyOrDrop(i: nat, j: nat) returns (out: Outcome)
      requires Valid() && i in procs && j in procs && i != j && procs[j].sz == 0
      requires i in tables && j in tables && Apart(m.mem, tables[i]) && Apart(m.mem, tables[j])
      modifies this, m
      ensures out == CopyOutcome(old(m.mem), old(tables)[i], old(tables)[j], |old(m.free)|, PagesFor(old(procs)[i].sz))
      ensures out != Panicked ==> Valid() && OthersUnseen(old(m.mem), old(procs), old(tables), j, m.mem)
      ensures out == Failed ==> procs == old(procs) - {j} && tables == old(tables) - {j}
      ensures out == Done ==> j in tables && tables == old(tables)[j := tables[j]]
      ensures out == Done ==> procs == old(procs)[j := old(procs)[j].(sz := procs[i].sz)]
      ensures out == Done ==> i in tables && SameMemory(m.mem, tables[i], tables[j], PagesFor(procs[i].sz))
    {
      hide Partition, SpaceOk, Pages, OthersUnseen, Account, PagesFor, CopyOutcome, SameMemory, Mine, Apart;
      ghost var mem0, procs0, tables0 := m.mem, procs, tables;
      PartitionFacts(m.lo, m.hi, m.mem, m.free, kernel, trampoline, procs, tables);
      out := CopySpace(i, j);
      if out == Failed {
        ghost var mem1, procs1, tables1 := m.mem, procs, tables;
        assert PagesFor(0) == 0 by { PagesForBound(0, 0); }
        var panic := FreeProc(j);
        UnseenTrans(mem0, procs0, tables0, j, mem1, procs1, tables1, m.mem);
        assert tables == tables0 - {j};
      }
    }

    /** uvmcopy() from process i into process j, whose size is still 0. */
    method CopySpace(i: nat, j: nat) returns (out: Outcome)
      requires Valid() && i in procs && j in procs && i != j && procs[j].sz == 0
      requires i in tables && j in tables && Apart(m.mem, tables[i]) && Apart(m.mem, tables[j])
      modifies this, m
      ensures out == CopyOutcome(old(m.mem), old(tables)[i], old(tables)[j], |old(m.free)|, PagesFor(old(procs)[i].sz))
      ensures out != Panicked ==> Valid() && OthersUnseen(old(m.mem), old(procs), old(tables), j, m.mem)
      ensures out != Panicked ==> j in tables && tables == old(tables)[j := tables[j]]
      ensures out != Panicked ==>
        procs == if out == Done then old(procs)[j := old(procs)[j].(sz := procs[i].sz)] else old(procs)
      ensures out == Done ==> i in tables && SameMemory(m.mem, tables[i], tables[j], PagesFor(procs[i].sz))
    {
      hide Partition, SpaceOk, Pages, OthersUnseen, Account, OnlyTouched, PagesFor, Tree, Copied, Took, Untouched,
        SameLookups, ParentOk, Owned, High, Mapped, CopyOutcome, SameMemory, Mine;
      ghost var mem1, free1, procs1, tables1 := m.mem, m.free, procs, tables;
      ghost var P, C := tables[i], tables[j];
      var p, c := procs[i], procs[j];
      SpaceAt(m.lo, m.hi, m.mem, m.free, kernel, trampoline, procs, tables, i);
      SpaceAt(m.lo, m.hi, m.mem, m.free, kernel, trampoline, procs, tables, j);
      PairOk(m.lo, m.hi, m.mem, m.free, kernel, trampoline, procs, tables, i, j);
      ghost var C';
      out, C' := UvmCopy(m, p.root, P, c.root, C, p.sz);
      if out == Panicked {
        return;
      }
      if out == Failed {
        TablesOnly(m.lo, m.hi, mem1, free1, trampoline, c, C, m.mem, m.free, C');
      } else {
        CopyFits(m.lo, m.hi, mem1, free1, trampoline, p, P, c, C, |free1|);
        CopiedKept(m.lo, m.hi, mem1, free1, trampoline, c, C, P, m.mem, m.free, C', p.sz);
        c := c.(sz := p.sz);
      }
      Replaced(m.lo, m.hi, mem1, free1, kernel, trampoline, procs1, tables1, j, m.mem, m.free, c, C');
      procs, tables := procs[j := c], tables[j := C'];
      if out == Done {
        SeenAt(mem1, procs1, tables1, j, m.mem, i);
        Alike(m.lo, m.hi, mem1, P, C, free1, m.mem, C', m.free, p, trampoline);
      }
    }

    /** sbrk() that only raises the size: no page is needed until a fault. */
    method GrowLazily(i: nat, n: nat) returns (ok: bool)
      requires Valid() && i in procs && n <= INT_MAX
      modifies this
      ensures Valid() && m.mem == old(m.mem) && m.free == old(m.free) && tables == old(tables)
      ensures ok <==> old(procs)[i].sz + n < 0x1_0000_0000_0000_0000
      ensures procs == if ok then old(procs)[i := old(procs)[i].(sz := old(procs)[i].sz + n)] else old(procs)
    {
      hide Partition, SpaceOk, Pages, OthersUnseen, Tree;
      var p := procs[i];
      ok := p.sz + n < 0x1_0000_0000_0000_0000;
      if ok {
        SpaceAt(m.lo, m.hi, m.mem, m.free, kernel, trampoline, procs, tables, i);
        ghost var T := tables[i];
        LazyKept(m.lo, m.hi, m.mem, m.free, trampoline, p, T, p.sz + n);
        SpaceFacts(m.lo, m.hi, m.mem, m.free, trampoline, p, T);
        p := p.(sz := p.sz + n);
        Replaced(m.lo, m.hi, m.mem, m.free, kernel, trampoline, procs, tables, i, m.mem, m.free, p, T);
        assert tables[i := T] == tables;
        procs := procs[i := p];
      }
    }

    /** vmfault() for process i. */
    method Fault(i: nat, va: nat) returns (panic: bool, f: nat)
      requires Valid() && i in procs && i in tables && Apart(m.mem, tables[i])
      modifies this, m
      ensures panic <==> MAXVPN * PGSIZE <= va < old(procs)[i].sz
      ensures !panic ==> Valid() && procs == old(procs) && OthersUnseen(old(m.mem), procs, old(tables), i, m.mem)
      ensures !panic ==> i in tables && tables == old(tables)[i := tables[i]]
      ensures !panic ==> (f != 0 <==>
        && va < procs[i].sz && !Mapped(old(m.mem), old(tables)[i], va / PGSIZE)
        && |old(m.free)| > Lacking(old(tables)[i], Path(va / PGSIZE)))
      ensures !panic && f == 0 ==> SameLookups(old(m.mem), old(tables)[i], m.mem, tables[i])
      ensures !panic && f != 0 ==> f < |m.mem| && m.mem[f] == Filled(0)
      ensures !panic && f != 0 ==> RangeMapped(old(m.mem), old(tables)[i], m.mem, tables[i],
                                               va / PGSIZE, 1, f, PTE_V + PTE_R + PTE_W + PTE_U)
    {
      hide Partition, SpaceOk, Pages, OthersUnseen, Account, SameLookups, Took, Untouched, OnlyTouched, RangeMapped,
        Lacking, Path, Mapped, Filled, Tree, PagesFor;
      ghost var mem0, free0, T := m.mem, m.free, tables[i];
      var p := procs[i];
      SpaceAt(m.lo, m.hi, m.mem, m.free, kernel, trampoline, procs, tables, i);
      ghost var T';
      panic, f, T' := VmFault(m, p.root, T, va, p.sz);
      if panic {
        return;
      }
      if f == 0 {
        TablesOnly(m.lo, m.hi, mem0, free0, trampoline, p, T, m.mem, m.free, T');
      } else {
        PageBelow(va, p.sz);
        FaultKept(m.lo, m.hi, mem0, free0, trampoline, p, T, m.mem, m.free, T', va / PGSIZE, f,
                  PTE_V + PTE_R + PTE_W + PTE_U);
      }
      Replaced(m.lo, m.hi, mem0, free0, kernel, trampoline, procs, tables, i, m.mem, m.free, p, T');
      assert procs[i := p] == procs;
      tables := tables[i := T'];
    }

    /** A store by process i's program to word k of virtual page v, as the MMU carries it out:
        a fault, or one word of a frame that is the process's own. */
    method UserStore(i: nat, v: nat, k: nat, x: nat) returns (ok: bool)
      requires Valid() && i in procs && i in tables && Apart(m.mem, tables[i])
      requires v < 2 * MAXVPN && k < ENTRIES
      modifies m`mem
      ensures Valid() && OthersUnseen(old(m.mem), procs, tables, i, m.mem)
      ensures ok <==> v < UserTop(procs[i].sz) && UserWritable(Lookup(old(m.mem), tables[i], v))
      ensures !ok ==> m.mem == old(m.mem)
      ensures ok ==> Stored(old(m.mem), tables[i], UserTop(procs[i].sz), v, k, x, m.mem)
      ensures SameLookups(old(m.mem), tables[i], m.mem, tables[i])
    {
      hide Partition, SpaceOk, Pages, OthersUnseen, Account, OnlyTouched, Tree, Entry, Ppn, UserTop, SameLookups,
        Stored;
      ghost var mem0, T := m.mem, tables[i];
      var p := procs[i];
      SpaceAt(m.lo, m.hi, m.mem, m.free, kernel, trampoline, procs, tables, i);
      SpaceFacts(m.lo, m.hi, m.mem, m.free, trampoline, p, T);
      MmuSees(m.lo, m.hi, m.mem, m.free, trampoline, p, T, v);
      var w := HwWalk(m.mem, p.root, v, 2);
      ok := w.Leaf? && UserWritable(w.pte);
      if ok {
        m.Store(Ppn(w.pte), k, x);
      }
      StoreKept(m.lo, m.hi, mem0, m.free, trampoline, p, T, v, k, x, ok, m.mem);
      Replaced(m.lo, m.hi, mem0, m.free, kernel, trampoline, procs, tables, i, m.mem, m.free, p, T);
      assert procs[i := p] == procs && tables[i := T] == tables;
    }

    /** freeproc(): kfree() of the trapframe, then proc_freepagetable(). */
    method FreeProc(i: nat) returns (panic: bool)
      requires Valid() && i in procs && procs[i].sz <= SZ_MAX
      modifies this, m
      ensures panic <==> PagesFor(old(procs)[i].sz) > MAXVPN
      ensures !panic ==> Valid() && procs == old(procs) - {i} && tables == old(tables) - {i}
      ensures !panic ==> OthersUnseen(old(m.mem), old(procs), old(tables), i, m.mem)
      ensures !panic ==> Account(old(m.free), Mine(old(m.mem), old(procs), old(tables), i), m.free, {})
    {
      hide Partition, SpaceOk, Pages, OthersUnseen, Account, OnlyTouched, PagesFor, Freed, Tree, Frames, UserTop;
      ghost var mem0, free0 := m.mem, m.free;
      var p := procs[i];
      SpaceAt(m.lo, m.hi, m.mem, m.free, kernel, trampoline, procs, tables, i);
      ghost var T := tables[i];
      TrapframeIn(m.lo, m.hi, m.mem, m.free, trampoline, p, T);
      m.Kfree(p.trapframe);
      ghost var mem1 := m.mem;
      TrapframeFreed(m, mem0, free0, trampoline, p, T);
      panic := ProcFreePagetable(m, p.root, T, p.sz);
      if panic {
        return;
      }
      SameFreed(mem0, mem1, T, UserTop(p.sz));
      FreedAccount(mem0, free0, p, T, m.free);
      FreedTouched(mem0, free0, p, T, mem1, m.mem, m.free);
      Removed(m.lo, m.hi, mem0, free0, kernel, trampoline, procs, tables, i, m.mem, m.free);
      procs, tables := procs - {i}, tables - {i};
    }
  }

  // ---------- sizes at which they go wrong ----------

  /** Calls of sbrk that bring process i, lazily, to any size. */
  method Reach(k: Machine, i: nat, sz: nat)
    requires k.Valid() && i in k.procs && k.procs[i].sz <= sz <= SZ_MAX
    modifies k
    ensures k.Valid() && k.m.mem == old(k.m.mem) && k.m.free == old(k.m.free) && k.tables == old(k.tables)
    ensures k.procs == old(k.procs)[i := old(k.procs)[i].(sz := sz)]
  {
    hide Partition;
    while k.procs[i].sz < sz
      invariant k.Valid() && i in k.procs && k.procs[i].sz <= sz
      invariant k.m.mem == old(k.m.mem) && k.m.free == old(k.m.free) && k.tables == old(k.tables)
      invariant k.procs == old(k.procs)[i := old(k.procs)[i].(sz := k.procs[i].sz)]
      decreases sz - k.procs[i].sz
    {
      var n := sz - k.procs[i].sz;
      var ok := k.GrowLazily(i, if n <= INT_MAX then n else INT_MAX);
    }
  }

  /** A new process of the given size, none of it backed. */
  method NewAt(k: Machine, i: nat, sz: nat)
    requires k.Valid() && i !in k.procs && |k.m.free| >= 4 && sz <= SZ_MAX
    modifies k, k.m
    ensures k.Valid() && i in k.procs && i in k.tables && Apart(k.m.mem, k.tables[i]) && k.procs[i].sz == sz
    ensures k.procs == old(k.procs)[i := k.procs[i]] && |k.m.free| == |old(k.m.free)| - 4
    ensures forall u :: 0 <= u < MAXVPN ==> (Mapped(k.m.mem, k.tables[i], u) <==> u >= TRAPFRAME)
  {
    hide Partition, OthersUnseen, SpaceOk, Mapped, Tree, High;
    var ok := k.AllocProc(i);
    ghost var p := k.procs[i];
    SpaceAt(k.m.lo, k.m.hi, k.m.mem, k.m.free, k.kernel, k.trampoline, k.procs, k.tables, i);
    forall u: nat | u < MAXVPN ensures Mapped(k.m.mem, k.tables[i], u) <==> u >= TRAPFRAME {
      OnlyHigh(k.m.lo, k.m.hi, k.m.mem, k.m.free, k.trampoline, p, k.tables[i], u);
    }
    Reach(k, i, sz);
  }

  /** A process that has grown past MAXVA cannot be freed: proc_freepagetable() panics. */
  method FreePanics(k: Machine, i: nat) returns (panic: bool)
    requires k.Valid() && i !in k.procs && |k.m.free| >= 4
    modifies k, k.m
    ensures panic
  {
    hide Partition, Mapped;
    NewAt(k, i, MAXVPN * PGSIZE + 1);
    panic := k.FreeProc(i);
  }

  /** A fault at MAXVA panics in such a process. */
  method FaultPanics(k: Machine, i: nat) returns (panic: bool, f: nat)
    requires k.Valid() && i !in k.procs && |k.m.free| >= 4
    modifies k, k.m
    ensures panic
  {
    hide Partition, Mapped, Lacking, Path;
    NewAt(k, i, MAXVPN * PGSIZE + 1);
    panic, f := k.Fault(i, MAXVPN * PGSIZE);
  }

  /** Growing on from just below the trapframe panics as soon as one page is free. */
  method GrowPanics(k: Machine, i: nat) returns (out: Outcome)
    requires k.Valid() && i !in k.procs && |k.m.free| >= 5
    modifies k, k.m
    ensures out == Panicked
  {
    hide Partition, Mapped, Path, Lacking, Tree, Apart;
    NewAt(k, i, TRAPFRAME * PGSIZE);
    ghost var T := k.tables[i];
    assert Clashes(k.m.mem, T, TRAPFRAME);
    NoPaths(T, TRAPFRAME);
    out := k.Grow(i, 1);
  }

  lemma NoPaths(T: Tables, a: nat)
    ensures Need(T, a, a) == 0
  {
    assert Paths(a, a) == {};
  }

  /** Giving back the page of the trapframe frees it under the process. */
  method ShrinkLosesTrapframe(k: Machine, i: nat) returns (panic: bool)
    requires k.Valid() && i !in k.procs && |k.m.free| >= 4
    modifies k, k.m
    ensures !panic && !k.Valid() && i in k.procs && k.procs[i].trapframe in k.m.free
  {
    hide Partition, Mapped;
    NewAt(k, i, TRAMPOLINE * PGSIZE);
    panic := k.Shrink(i, PGSIZE);
  }

  /** Forking a process whose size takes in its trapframe panics. */
  method ForkPanics(k: Machine, i: nat, j: nat) returns (out: Outcome)
    requires k.Valid() && i !in k.procs && j !in k.procs && i != j && |k.m.free| >= 9
    modifies k, k.m
    ensures out == Panicked
  {
    hide Partition, Mapped, Lacking, Path, High;
    NewAt(k, i, TRAMPOLINE * PGSIZE);
    NothingToCopy(k.m.mem, k.tables[i], TRAPFRAME);
    out := k.Fork(i, j);
  }

  lemma {:induction false} NothingToCopy(mem: Mem, P: Tables, b: nat)
    requires Apart(mem, P) && forall u :: 0 <= u < b ==> !Mapped(mem, P, u)
    ensures CopyPages(mem, P, b) == 0 && CopyPaths(mem, P, b) == {} && ForkNeed(mem, P, b) == 4
  {
    hide Mapped;
    if b > 0 {
      NothingToCopy(mem, P, b - 1);
    }
    assert CopyPaths(mem, P, b) - ({Root} + High()) == {};
  }

  /** Two spaces hold the same below page b: the same pages, flags and bytes. */
  ghost predicate SameMemory(mem: Mem, P: Tables, C: Tables, b: nat) {
    && Apart(mem, P) && Apart(mem, C)
    && forall u :: 0 <= u < b ==>
         && (Mapped(mem, C, u) <==> Mapped(mem, P, u))
         && (Mapped(mem, P, u) ==> PageCopied(mem, Entry(mem, P, u), mem, Entry(mem, C, u)))
  }

  // ---------- glue ----------

  /** Where shrinking stops: never among a process's own frames, always at the trampoline. */
  lemma ShrinkStop(lo: nat, hi: nat, mem: Mem, free: seq<nat>, trampoline: nat, p: Proc, T: Tables, newsz: nat)
    requires SpaceOk(lo, hi, mem, free, trampoline, p, T) && newsz < p.sz && trampoline < lo
    ensures var a, b := PagesFor(newsz), PagesFor(p.sz);
      && a <= b && Apart(mem, T)
      && Owned(lo, hi, mem, free, T, a, FirstStop(lo, hi, mem, T, true, a, b))
      && (FirstStop(lo, hi, mem, T, true, a, b) < b <==> ShrinkPanics(p.sz, newsz))
  {
    hide Tree, Entry, Ppn, MkPte, PagesFor, Mapped, Frames;
    var a, b := PagesFor(newsz), PagesFor(p.sz);
    PagesForMono(newsz, p.sz);
    var r := FirstStop(lo, hi, mem, T, true, a, b);
    HighMapped(mem, T, trampoline, p.trapframe);
    assert Stops(lo, hi, mem, T, true, TRAMPOLINE);
    assert !(r > TRAMPOLINE && a <= TRAMPOLINE);
    var top := UserTop(p.sz);
    forall u: nat | top <= u < TRAPFRAME ensures !Mapped(mem, T, u) {
      Unmapped(mem, T, top, u);
    }
    forall u: nat | u < top && Mapped(mem, T, u) ensures Ppn(Entry(mem, T, u)) != p.trapframe {
      FrameIn(mem, T, top, u);
    }
    assert r < b ==> Stops(lo, hi, mem, T, true, r);
  }

  lemma Unmapped(mem: Mem, T: Tables, top: nat, u: nat)
    requires NoneMapped(mem, T, top, TRAPFRAME) && top <= u < TRAPFRAME
    ensures !Mapped(mem, T, u)
  {
    hide Entry;
    assert Lookup(mem, T, u) == 0;
  }

  lemma TrapframeGone(lo: nat, hi: nat, mem: Mem, free: seq<nat>, trampoline: nat, p: Proc, T: Tables, newsz: nat,
                      free': seq<nat>)
    requires SpaceOk(lo, hi, mem, free, trampoline, p, T) && ShrinkFreesTrapframe(p.sz, newsz)
    requires Freed(free, Frames(mem, T, PagesFor(newsz), PagesFor(p.sz)), free')
    ensures p.trapframe in free'
  {
    hide Tree, Entry, Ppn, MkPte, PagesFor, Mapped;
    HighMapped(mem, T, trampoline, p.trapframe);
    assert p.trapframe in Frames(mem, T, PagesFor(newsz), PagesFor(p.sz));
  }

  lemma StillNeeded(lo: nat, hi: nat, mem: Mem, free: seq<nat>, kernel: set<nat>, trampoline: nat, procs: Procs,
                    tables: AllTables, i: nat)
    requires i in procs && procs[i].trapframe in free
    ensures !Partition(lo, hi, mem, free, kernel, trampoline, procs, tables)
  {
    hide Tree;
  }

  /** What one other process sees, out of OthersUnseen. */
  lemma SeenAt(mem: Mem, procs: Procs, tables: AllTables, j: nat, mem': Mem, i: nat)
    requires OthersUnseen(mem, procs, tables, j, mem') && i in procs && i != j
    ensures i in tables && Unseen(mem, mem', procs[i], tables[i])
    ensures forall b :: SameAccess(mem, mem', tables[i], b)
  {
    hide Entry, Ppn, Pages;
  }

  ghost predicate SameAccess(mem: Mem, mem': Mem, T: Tables, b: nat) {
    Apart(mem, T) && Apart(mem', T) && forall v :: Entry(mem', T, v) == Entry(mem, T, v)
  }

  /** Two steps of process j leave the others alone if each does. */
  lemma UnseenTrans(mem0: Mem, procs0: Procs, tables0: AllTables, j: nat, mem1: Mem, procs1: Procs, tables1: AllTables,
                    mem2: Mem)
    requires OthersUnseen(mem0, procs0, tables0, j, mem1) && OthersUnseen(mem1, procs1, tables1, j, mem2)
    requires procs0.Keys <= procs1.Keys && forall i :: i in procs0 && i != j ==>
      && i in tables0 && i in tables1 && procs1[i] == procs0[i] && tables1[i] == tables0[i]
    ensures OthersUnseen(mem0, procs0, tables0, j, mem2)
  {
    hide Unseen;
    forall i | i in procs0 && i != j ensures Unseen(mem0, mem2, procs0[i], tables0[i]) {
      assert Unseen(mem0, mem1, procs0[i], tables0[i]) && Unseen(mem1, mem2, procs0[i], tables0[i]);
      UnseenTwice(mem0, mem1, mem2, procs0[i], tables0[i]);
    }
  }

  lemma UnseenTwice(mem0: Mem, mem1: Mem, mem2: Mem, p: Proc, T: Tables)
    requires Unseen(mem0, mem1, p, T) && Unseen(mem1, mem2, p, T)
    ensures Unseen(mem0, mem2, p, T)
  {
    hide Entry, UserTop;
    SameFrames(mem0, T, mem1, 0, UserTop(p.sz));
    hide Frames;
  }

  lemma ForkNeedFour(mem: Mem, P: Tables, b: nat)
    requires Apart(mem, P)
    ensures ForkNeed(mem, P, b) >= 4
  {
  }

  /** What uvmcopy() does in fork, in terms of the state before it. */
  lemma ForkOutcome(lo: nat, hi: nat, mem0: Mem, P: Tables, mem1: Mem, free1: seq<nat>, trampoline: nat, p: Proc,
                    c: Proc, C: Tables, n: nat)
    requires SpaceOk(lo, hi, mem1, free1, trampoline, p, P) && SpaceOk(lo, hi, mem1, free1, trampoline, c, C)
    requires c.sz == 0
    requires SameAccess(mem0, mem1, P, 0) && C.Keys == {Root} + High() && |free1| == n - 4
    ensures var b := PagesFor(p.sz); var out := CopyOutcome(mem1, P, C, |free1|, b);
      && (out == Panicked <==> b > TRAPFRAME && n > ForkNeed(mem0, P, TRAPFRAME))
      && (out == Done <==> b <= TRAPFRAME && n >= ForkNeed(mem0, P, b))
  {
    hide Tree, Entry, Ppn, Owned, Frames, NoneMapped, HighOk, Held, High, PagesFor;
    var b := PagesFor(p.sz);
    SpaceFacts(lo, hi, mem1, free1, trampoline, p, P);
    SpaceFacts(lo, hi, mem1, free1, trampoline, c, C);
    var k := FirstCopyClash(mem1, P, C, 0, b);
    BothHigh(lo, hi, mem1, free1, trampoline, p, P);
    OnlyHigh(lo, hi, mem1, free1, trampoline, c, C, TRAPFRAME);
    assert CopyClashes(mem1, P, C, TRAPFRAME);
    if k < TRAPFRAME {
      OnlyHigh(lo, hi, mem1, free1, trampoline, c, C, k);
    }
    assert k == if b <= TRAPFRAME then b else TRAPFRAME;
    SameCopy(mem0, P, mem1, TRAPFRAME);
    SameCopy(mem0, P, mem1, b);
  }

  /** The copy only gets through below the high pages. */
  lemma CopyFits(lo: nat, hi: nat, mem: Mem, free: seq<nat>, trampoline: nat, p: Proc, P: Tables, c: Proc, C: Tables,
                 n: nat)
    requires SpaceOk(lo, hi, mem, free, trampoline, p, P) && SpaceOk(lo, hi, mem, free, trampoline, c, C) && c.sz == 0
    requires Apart(mem, P) && Apart(mem, C) && CopyOutcome(mem, P, C, n, PagesFor(p.sz)) == Done
    ensures PagesFor(p.sz) <= TRAPFRAME
  {
    hide Tree, Entry, Ppn, Owned, Frames, NoneMapped, HighOk, Held, PagesFor, CopyNeed;
    BothHigh(lo, hi, mem, free, trampoline, p, P);
    OnlyHigh(lo, hi, mem, free, trampoline, c, C, TRAPFRAME);
    assert CopyClashes(mem, P, C, TRAPFRAME);
  }

  lemma {:induction false} SameCopy(mem0: Mem, P: Tables, mem1: Mem, b: nat)
    requires SameAccess(mem0, mem1, P, 0)
    ensures CopyPages(mem1, P, b) == CopyPages(mem0, P, b) && CopyPaths(mem1, P, b) == CopyPaths(mem0, P, b)
  {
    hide Entry, Path;
    if b > 0 {
      SameCopy(mem0, P, mem1, b - 1);
      assert Entry(mem1, P, b - 1) == Entry(mem0, P, b - 1);
    }
  }

  /** After the copy the child holds what the parent, untouched, still holds. */
  lemma Alike(lo: nat, hi: nat, mem1: Mem, P: Tables, C: Tables, free1: seq<nat>, mem: Mem, C': Tables, free: seq<nat>,
              p: Proc, trampoline: nat)
    requires SpaceOk(lo, hi, mem1, free1, trampoline, p, P) && Unseen(mem1, mem, p, P) && PagesFor(p.sz) <= TRAPFRAME
    requires Copied(lo, hi, mem1, P, C, free1, mem, C', free, PagesFor(p.sz))
    ensures SameMemory(mem, P, C', PagesFor(p.sz))
  {
    hide Tree, Entry, Ppn, Flags, Owned, Took, Frames, Untouched;
    var b := PagesFor(p.sz);
    forall u: nat | u < b
      ensures Mapped(mem, C', u) <==> Mapped(mem, P, u)
      ensures Mapped(mem, P, u) ==> PageCopied(mem, Entry(mem, P, u), mem, Entry(mem, C', u))
    {
      assert Entry(mem, P, u) == Entry(mem1, P, u);
      if Mapped(mem1, P, u) {
        FrameIn(mem1, P, UserTop(p.sz), u);
      }
    }
  }

  lemma PartitionFacts(lo: nat, hi: nat, mem: Mem, free: seq<nat>, kernel: set<nat>, trampoline: nat, procs: Procs,
                       tables: AllTables)
    requires Partition(lo, hi, mem, free, kernel, trampoline, procs, tables)
    ensures hi <= |mem| && trampoline < lo && procs.Keys == tables.Keys
    ensures SpacesOk(lo, hi, mem, free, trampoline, procs, tables)
  {
    hide SpaceOk;
  }

  lemma SpaceAt(lo: nat, hi: nat, mem: Mem, free: seq<nat>, kernel: set<nat>, trampoline: nat, procs: Procs,
                tables: AllTables, i: nat)
    requires Partition(lo, hi, mem, free, kernel, trampoline, procs, tables) && i in procs
    ensures i in tables && SpaceOk(lo, hi, mem, free, trampoline, procs[i], tables[i])
    ensures Tree(mem, procs[i].root, tables[i]) && Held(lo, hi, free, tables[i]) && hi <= |mem|
    ensures Apart(mem, tables[i])
    ensures procs.Keys == tables.Keys && trampoline < lo
    ensures Mine(mem, procs, tables, i) == Pages(mem, procs[i], tables[i])
  {
    hide Tree, Entry;
  }

  /** Storing in free pages, with the same pages free in the end. */
  lemma Unaffected(lo: nat, hi: nat, mem: Mem, free: seq<nat>, kernel: set<nat>, trampoline: nat, procs: Procs,
                   tables: AllTables,
                   i: nat, mem': Mem, free': seq<nat>)
    requires Partition(lo, hi, mem, free, kernel, trampoline, procs, tables) && i !in procs && |mem'| == |mem|
    requires forall p :: p in free' <==> p in free
    requires forall p :: 0 <= p < |mem| && p !in free ==> mem'[p] == mem[p]
    ensures Partition(lo, hi, mem', free', kernel, trampoline, procs, tables)
    ensures OthersUnseen(mem, procs, tables, i, mem')
  {
    hide SpacesOk;
    PartitionFacts(lo, hi, mem, free, kernel, trampoline, procs, tables);
    assert Mine(mem, procs, tables, i) == {};
    Removed(lo, hi, mem, free, kernel, trampoline, procs, tables, i, mem', free');
    assert procs - {i} == procs && tables - {i} == tables;
  }

  lemma NewOne(lo: nat, hi: nat, mem: Mem, free: seq<nat>, kernel: set<nat>, trampoline: nat, procs: Procs,
               tables: AllTables,
               i: nat, mem': Mem, free': seq<nat>, p: Proc, T: Tables)
    requires Partition(lo, hi, mem, free, kernel, trampoline, procs, tables) && i !in procs && |mem'| == |mem|
    requires SpaceOk(lo, hi, mem', free', trampoline, p, T) && Account(free, {}, free', Pages(mem', p, T))
    requires forall q :: 0 <= q < |mem| && q !in free ==> mem'[q] == mem[q]
    ensures Partition(lo, hi, mem', free', kernel, trampoline, procs[i := p], tables[i := T])
    ensures OthersUnseen(mem, procs, tables, i, mem')
  {
    hide SpaceOk, Partition, Pages, Account;
    PartitionFacts(lo, hi, mem, free, kernel, trampoline, procs, tables);
    assert Mine(mem, procs, tables, i) == {};
    Replaced(lo, hi, mem, free, kernel, trampoline, procs, tables, i, mem', free', p, T);
  }

  lemma NotTaken(free0: seq<nat>, tf: nat, free1: seq<nat>, free2: seq<nat>)
    requires free0 == [tf] + free1 && tf !in free1 && Freed(free1, {}, free2)
    ensures tf !in free2 && forall p :: p in [tf] + free2 <==> p in free0
  {
  }

  /** Growing that succeeds meets no mapped page, so it does not come from a size that rounds up
      to 0: the trapframe page would be on the way. */
  lemma GrewClean(lo: nat, hi: nat, mem: Mem, free: seq<nat>, trampoline: nat, p: Proc, T: Tables, n: nat, newsz: nat)
    requires SpaceOk(lo, hi, mem, free, trampoline, p, T) && p.sz <= newsz && Rounded(p.sz) <= PagesFor(newsz)
    requires Apart(mem, T) && GrowOutcome(mem, T, n, Rounded(p.sz), PagesFor(newsz)) == Done
    ensures p.sz <= SZ_MAX && FirstClash(mem, T, PagesFor(p.sz), PagesFor(newsz)) == PagesFor(newsz)
  {
    hide Tree, Entry, FirstClash, Need;
    HighMapped(mem, T, trampoline, p.trapframe);
    assert Clashes(mem, T, TRAPFRAME);
    PagesForMono(p.sz, newsz);
    assert p.sz > SZ_MAX ==> PagesFor(p.sz) > TRAPFRAME;
  }

  lemma SeenSelf(lo: nat, hi: nat, mem: Mem, free: seq<nat>, kernel: set<nat>, trampoline: nat, procs: Procs,
                 tables: AllTables, i: nat)
    requires Partition(lo, hi, mem, free, kernel, trampoline, procs, tables)
    ensures OthersUnseen(mem, procs, tables, i, mem)
  {
    hide Pages, Tree;
  }

  /** Sizes that differ above the user part only. */
  lemma LastPage(lo: nat, hi: nat, mem: Mem, free: seq<nat>, trampoline: nat, p: Proc, T: Tables, newsz: nat)
    requires SpaceOk(lo, hi, mem, free, trampoline, p, T) && p.sz > SZ_MAX && newsz <= p.sz <= newsz + INT_MAX + 1
    ensures SpaceOk(lo, hi, mem, free, trampoline, p.(sz := newsz), T)
    ensures Pages(mem, p.(sz := newsz), T) == Pages(mem, p, T)
  {
    hide Tree, Entry, Ppn;
    assert UserTop(newsz) == UserTop(p.sz) == TRAPFRAME;
  }

  lemma PageBelow(va: nat, sz: nat)
    requires va < sz
    ensures va / PGSIZE < PagesFor(sz)
  {
  }

  lemma TrapframeIn(lo: nat, hi: nat, mem: Mem, free: seq<nat>, trampoline: nat, p: Proc, T: Tables)
    requires SpaceOk(lo, hi, mem, free, trampoline, p, T)
    ensures lo <= p.trapframe < hi && p.trapframe !in free
  {
  }

  /** With its trapframe free again, the rest of the process is still its own. */
  lemma TrapframeFreed(m: PhysMem, mem0: Mem, free0: seq<nat>, trampoline: nat, p: Proc, T: Tables)
    requires SpaceOk(m.lo, m.hi, mem0, free0, trampoline, p, T) && |m.mem| == |mem0| && m.free == [p.trapframe] + free0
    requires forall q :: 0 <= q < |m.mem| && q != p.trapframe ==> m.mem[q] == mem0[q]
    ensures ProcessSpace(m, p.root, T, UserTop(p.sz)) && Apart(mem0, T)
    ensures forall u :: Entry(m.mem, T, u) == Entry(mem0, T, u)
  {
    hide Entry, Ppn, NodeOk;
    assert forall n :: n in T ==> T[n] in T.Values;
    TreeFrame(mem0, p.root, T, m.mem);
    var top := UserTop(p.sz);
    forall u ensures Mapped(m.mem, T, u) <==> Mapped(mem0, T, u) {
      assert Entry(m.mem, T, u) == Entry(mem0, T, u);
    }
    forall u: nat | u < top && Mapped(mem0, T, u) ensures Ppn(Entry(mem0, T, u)) != p.trapframe {
      FrameIn(mem0, T, top, u);
    }
    forall u | top <= u < TRAPFRAME ensures Lookup(m.mem, T, u) == 0 {
      assert Lookup(mem0, T, u) == 0 && Entry(m.mem, T, u) == Entry(mem0, T, u);
    }
  }

  lemma SameFreed(mem0: Mem, mem1: Mem, T: Tables, top: nat)
    requires Apart(mem0, T) && Apart(mem1, T) && forall u :: Entry(mem1, T, u) == Entry(mem0, T, u)
    ensures Frames(mem1, T, 0, top) == Frames(mem0, T, 0, top)
  {
    hide Entry;
    SameFrames(mem0, T, mem1, 0, top);
  }

  lemma FreedTouched(mem0: Mem, free0: seq<nat>, p: Proc, T: Tables, mem1: Mem, mem: Mem, free: seq<nat>)
    requires Apart(mem0, T) && |mem| == |mem1| == |mem0| && Account(free0, Pages(mem0, p, T), free, {})
    requires forall q :: 0 <= q < |mem1| && q != p.trapframe ==> mem1[q] == mem0[q]
    requires forall q :: 0 <= q < |mem| && q !in free ==> mem[q] == mem1[q]
    ensures OnlyTouched(mem0, free0, Pages(mem0, p, T), mem)
  {
    hide Frames, UserTop;
    assert p.trapframe in Pages(mem0, p, T);
  }
}
