/** kernel/vm.c: walking, mapping, unmapping, growing, copying and freeing page tables that
    live in the same physical memory as the pages they map. Addresses are given as page
    numbers; the callers' byte sizes are kept in bytes. */
module Vm {
  import opened Common
  import opened Kalloc
  import opened Sv39

  /** How a call ends: a panic stops the machine. */
  datatype Outcome = Done | Failed | Panicked

  const PGSIZE := 4096
  const TRAMPOLINE := MAXVPN - 1
  const TRAPFRAME := MAXVPN - 2

  /** PGROUNDUP(sz) / PGSIZE */
  function PagesFor(sz: nat): nat { (sz + PGSIZE - 1) / PGSIZE }

  lemma PagesForBound(a: nat, sz: nat)
    ensures a * PGSIZE < sz <==> a < PagesFor(sz)
    ensures PagesFor(a * PGSIZE) == a
  {
  }

  lemma PagesForMono(a: nat, b: nat)
    requires a <= b
    ensures PagesFor(a) <= PagesFor(b)
  {
  }

  /** A page table whose tables are allocated pages. */
  ghost predicate TableOk(m: PhysMem, root: nat, T: Tables)
    reads m
  {
    Tree(m.mem, root, T) && forall n :: n in T ==> m.lo <= T[n] < m.hi && T[n] !in m.free
  }

  /** From T to T' only tables were added; they and the pages `xs` came off the free list,
      and nothing else did. */
  ghost predicate Took(T: Tables, free: seq<nat>, T': Tables, free': seq<nat>, xs: set<nat>) {
    && (forall n :: n in T ==> n in T' && T'[n] == T[n])
    && (forall p :: p in free' ==> p in free)
    && (forall n :: n in T' && n !in T ==> T'[n] in free && T'[n] !in free')
    && (forall p :: p in xs ==> p in free && p !in free' && p !in T'.Values)
    && (forall p :: p in free && p !in free' ==> p in T'.Values || p in xs)
  }

  ghost predicate Grew(T: Tables, free: seq<nat>, T': Tables, free': seq<nat>) {
    Took(T, free, T', free', {})
  }

  /** Pages that are neither tables of T nor free keep their content. */
  ghost predicate Untouched(mem: Mem, T: Tables, free: seq<nat>, mem': Mem) {
    && |mem'| == |mem|
    && forall p :: 0 <= p < |mem| && p !in T.Values && p !in free ==> mem'[p] == mem[p]
  }

  lemma TookTrans(T: Tables, free: seq<nat>, T1: Tables, free1: seq<nat>, T2: Tables, free2: seq<nat>,
                  xs: set<nat>, ys: set<nat>)
    requires Took(T, free, T1, free1, xs) && Took(T1, free1, T2, free2, ys)
    ensures Took(T, free, T2, free2, xs + ys)
  {
    forall p | p in xs ensures p !in T2.Values {
      assert forall n :: n in T1 ==> T1[n] in T1.Values;
    }
    forall p | p in free && p !in free2 && p !in xs + ys ensures p in T2.Values {
      if p !in free1 {
        var n :| n in T1 && T1[n] == p;
        assert T2[n] == p;
      }
    }
  }

  lemma GrewTrans(T: Tables, free: seq<nat>, T1: Tables, free1: seq<nat>, T2: Tables, free2: seq<nat>)
    requires Grew(T, free, T1, free1) && Grew(T1, free1, T2, free2)
    ensures Grew(T, free, T2, free2)
  {
    hide Took;
    TookTrans(T, free, T1, free1, T2, free2, {}, {});
    var none: set<nat> := {};
    assert none + none == none;
  }

  lemma UntouchedTrans(mem: Mem, T: Tables, free: seq<nat>, mem1: Mem, T1: Tables, free1: seq<nat>, xs: set<nat>,
                       mem2: Mem)
    requires Untouched(mem, T, free, mem1) && Untouched(mem1, T1, free1, mem2) && Took(T, free, T1, free1, xs)
    ensures Untouched(mem, T, free, mem2)
  {
    forall p | 0 <= p < |mem| && p !in T.Values && p !in free ensures mem2[p] == mem[p] {
      assert p !in T1.Values by { assert forall n :: n in T ==> T[n] in T.Values; }
    }
  }

  /** What walk() reads in an upper-level table. */
  lemma ChildEntry(mem: Mem, root: nat, T: Tables, n: Node, i: nat)
    requires Tree(mem, root, T) && n in T && !n.Low? && i < ENTRIES
    ensures T[n] < |mem|
    ensures var pte := mem[T[n]].w[i];
      (IsValid(pte) <==> Child(n, i) in T) && (IsValid(pte) ==> Ppn(pte) == T[Child(n, i)])
    ensures n.Root? && Child(n, i) !in T ==> forall j :: Low(i, j) !in T
  {
    assert NodeOk(mem, T, n) && EntryOk(mem[T[n]].w[i], T, Child(n, i));
    if Child(n, i) in T { PteRoundTrip(T[Child(n, i)], PTE_V); }
  }

  lemma Unchanged(mem: Mem, root: nat, T: Tables, free: seq<nat>)
    requires Tree(mem, root, T)
    ensures Root in T && T[Root] == root
    ensures SameLookups(mem, T, mem, T) && Grew(T, free, T, free) && Untouched(mem, T, free, mem)
  {
  }

  lemma LookupsTrans(mem: Mem, T: Tables, mem1: Mem, T1: Tables, mem2: Mem, T2: Tables)
    requires SameLookups(mem, T, mem1, T1) && SameLookups(mem1, T1, mem2, T2)
    ensures SameLookups(mem, T, mem2, T2)
  {
  }

  // ---------- how many tables a walk needs ----------

  /** The tables below the root on the way to page v. */
  ghost function Path(v: nat): set<Node> {
    {Mid(Px(2, v)), LeafOf(v)}
  }

  /** The tables on the way to pages a..b. */
  ghost function Paths(a: nat, b: nat): set<Node>
    decreases b
  {
    if b <= a then {} else Paths(a, b - 1) + Path(b - 1)
  }

  /** How many tables of `ns` are not in T. */
  ghost function Lacking(T: Tables, ns: set<Node>): nat {
    |ns - T.Keys|
  }

  lemma LackingMore(T: Tables, xs: set<Node>, ys: set<Node>)
    requires xs <= ys
    ensures Lacking(T, xs) <= Lacking(T, ys)
  {
    SubsetSize(xs - T.Keys, ys - T.Keys);
  }

  /** First the tables of xs are added, then those of ys. */
  lemma LackingAdd(T: Tables, T1: Tables, xs: set<Node>, ys: set<Node>)
    requires T1.Keys == T.Keys + xs
    ensures Lacking(T, xs + ys) == Lacking(T, xs) + Lacking(T1, ys)
    ensures T1.Keys + ys == T.Keys + (xs + ys)
  {
    CountSplit(T.Keys, T1.Keys, xs, ys);
  }

  lemma CountSplit<X>(k: set<X>, k1: set<X>, xs: set<X>, ys: set<X>)
    requires k1 == k + xs
    ensures |(xs + ys) - k| == |xs - k| + |ys - k1| && k1 + ys == k + (xs + ys)
  {
    var a, b, c := (xs + ys) - k, xs - k, ys - k1;
    assert a == b + c;
    assert b * c == {};
    CountUnion(b, c);
  }

  lemma CountUnion<X>(b: set<X>, c: set<X>)
    requires b * c == {}
    ensures |b + c| == |b| + |c|
  {
  }

  lemma LackingOne(T: Tables, n: Node)
    ensures Lacking(T, {n}) == if n in T then 0 else 1
  {
    if n in T {
      assert {n} - T.Keys == {};
    } else {
      assert {n} - T.Keys == {n};
    }
  }

  /** From T to T' exactly the missing tables of `ns` were added, and they are all that left
      the free list. */
  ghost predicate Added(T: Tables, free: seq<nat>, T': Tables, free': seq<nat>, ns: set<Node>) {
    T'.Keys == T.Keys + ns && |free'| == |free| - Lacking(T, ns)
  }

  lemma AddedNone(T: Tables, free: seq<nat>)
    ensures Added(T, free, T, free, {}) && Lacking(T, {}) == 0
  {
    assert {} - T.Keys == {} && T.Keys + {} == T.Keys;
  }

  lemma AddedMore(T: Tables, free: seq<nat>, T1: Tables, free1: seq<nat>, xs: set<Node>, ys: set<Node>)
    requires Added(T, free, T1, free1, xs)
    ensures |free1| >= Lacking(T1, ys) <==> |free| >= Lacking(T, xs + ys)
    ensures forall T2, free2: seq<nat> :: Added(T1, free1, T2, free2, ys) ==> Added(T, free, T2, free2, xs + ys)
  {
    LackingAdd(T, T1, xs, ys);
  }

  /** The allocation arm of walk(): a zeroed table page hung below table n. */
  method NewTable(m: PhysMem, root: nat, ghost T: Tables, ghost n: Node, page: nat, i: nat)
    returns (p: nat, ghost T': Tables)
    requires m.Valid() && TableOk(m, root, T) && n in T && page == T[n] && !n.Low? && i < ENTRIES
    requires Child(n, i) !in T && (n.Root? ==> i < TOP)
    modifies m
    ensures m.Valid() && TableOk(m, root, T')
    ensures SameLookups(old(m.mem), T, m.mem, T')
    ensures Grew(T, old(m.free), T', m.free) && Untouched(old(m.mem), T, old(m.free), m.mem)
    ensures p == 0 ==> T' == T && m.free == [] == old(m.free)
    ensures p != 0 ==> T' == T[Child(n, i) := p] && |m.free| == |old(m.free)| - 1
  {
    hide Tree, Took, Untouched, SameLookups, Child, MkPte, Filled;
    T' := T;
    Unchanged(m.mem, root, T, m.free);
    p := m.KallocFill(Filled(0));
    if p != 0 {
      TableFacts(old(m.mem), root, T, n, old(m.free), p);
      m.Store(page, i, MkPte(p, PTE_V));
      T' := T[Child(n, i) := p];
      AddTable(old(m.mem), root, T, n, i, p);
      GrewTable(old(m.mem), T, old(m.free), m.free, n, i, p);
    }
  }

  lemma TableFacts(mem: Mem, root: nat, T: Tables, n: Node, free: seq<nat>, p: nat)
    requires Tree(mem, root, T) && n in T && p in free && forall k :: k in T ==> T[k] !in free
    ensures T[n] < |mem| && p !in T.Values && p != T[n]
  {
  }

  lemma GrewTable(mem: Mem, T: Tables, free: seq<nat>, free': seq<nat>, n: Node, i: nat, p: nat)
    requires n in T && T[n] < |mem| && !n.Low? && i < ENTRIES && Child(n, i) !in T && p < |mem| && p !in T.Values
    requires free == [p] + free' && p !in free' && forall k :: k in T ==> T[k] !in free
    ensures Took(T, free, T[Child(n, i) := p], free', {})
    ensures Untouched(mem, T, free, WithTable(mem, T, n, i, p))
  {
    hide MkPte, Filled;
    var T' := T[Child(n, i) := p];
    assert T'[Child(n, i)] == p && T[n] in T.Values;
  }

  /** walk(): the slot of page v's entry, adding tables on the way when `alloc` is set. */
  method Walk(m: PhysMem, root: nat, ghost T: Tables, v: nat, alloc: bool)
    returns (ok: bool, page: nat, idx: nat, ghost T': Tables)
    requires m.Valid() && TableOk(m, root, T) && v < MAXVPN
    modifies m
    ensures m.Valid() && TableOk(m, root, T')
    ensures SameLookups(old(m.mem), T, m.mem, T')
    ensures Grew(T, old(m.free), T', m.free) && Untouched(old(m.mem), T, old(m.free), m.mem)
    ensures ok ==> LeafOf(v) in T' && page == T'[LeafOf(v)] && idx == Px(0, v)
    ensures !alloc ==> T' == T && m.mem == old(m.mem) && m.free == old(m.free) && (ok <==> LeafOf(v) in T)
    ensures alloc ==> (ok <==> |old(m.free)| >= Lacking(T, Path(v)))
    ensures alloc && ok ==> Added(T, old(m.free), T', m.free, Path(v))
    ensures alloc && !ok ==> m.free == []
  {
    hide NodeOk, SameLookups, Took, Untouched, Tree, Lacking;
    ghost var seen: set<Node> := {};
    PathStart(T, v);
    T', ok, page, idx := T, false, root, 0;
    Unchanged(m.mem, root, T, m.free);
    var level := 2;
    ghost var n := Root;
    while level > 0
      invariant 0 <= level <= 2 && n in T' && page == T'[n]
      invariant n == if level == 2 then Root else if level == 1 then Mid(Px(2, v)) else LeafOf(v)
      invariant m.Valid() && TableOk(m, root, T')
      invariant SameLookups(old(m.mem), T, m.mem, T')
      invariant Grew(T, old(m.free), T', m.free) && Untouched(old(m.mem), T, old(m.free), m.mem)
      invariant !alloc ==> T' == T && m.mem == old(m.mem) && m.free == old(m.free)
      invariant seen == if level == 2 then {} else if level == 1 then {Mid(Px(2, v))} else Path(v)
      invariant alloc ==> T'.Keys == T.Keys + seen && |m.free| == |old(m.free)| - Lacking(T, seen)
    {
      var i := Px(level, v);
      var pte := m.mem[page].w[i];
      ghost var c := Child(n, i);
      ChildEntry(m.mem, root, T', n, i);
      SeenMore(T, T', seen, c, v);
      if IsValid(pte) {
        page := Ppn(pte);
      } else {
        if !alloc {
          return;
        }
        ghost var mem1, T1, free1 := m.mem, T', m.free;
        page, T' := NewTable(m, root, T', n, page, i);
        GrewTrans(T, old(m.free), T1, free1, T', m.free);
        UntouchedTrans(old(m.mem), T, old(m.free), mem1, T1, free1, {}, m.mem);
        LookupsTrans(old(m.mem), T, mem1, T1, m.mem, T');
        if page == 0 {
          return;
        }
      }
      n := c;
      seen := seen + {c};
      level := level - 1;
    }
    ok, idx := true, Px(0, v);
  }

  lemma PathStart(T: Tables, v: nat)
    ensures Lacking(T, {}) == 0 && T.Keys + {} == T.Keys
  {
    assert {} - T.Keys == {};
  }

  lemma SeenMore(T: Tables, T': Tables, seen: set<Node>, c: Node, v: nat)
    requires seen + {c} <= Path(v)
    ensures T'.Keys == T.Keys + seen ==>
      && Lacking(T, seen + {c}) == Lacking(T, seen) + (if c in T' then 0 else 1)
      && T.Keys + (seen + {c}) == T'.Keys + {c}
      && Lacking(T, seen + {c}) <= Lacking(T, Path(v))
  {
    hide Path, Lacking;
    if T'.Keys == T.Keys + seen {
      LackingAdd(T, T', seen, {c});
      LackingOne(T', c);
      LackingMore(T, seen + {c}, Path(v));
    }
  }

  // ---------- mapping and unmapping ----------

  /** Writing page v's entry through the slot that walk() found. */
  method SetPte(m: PhysMem, root: nat, ghost T: Tables, ghost v: nat, page: nat, idx: nat, pte: nat)
    requires m.Valid() && TableOk(m, root, T) && v < MAXVPN
    requires LeafOf(v) in T && page == T[LeafOf(v)] && idx == Px(0, v)
    modifies m`mem
    ensures m.Valid() && TableOk(m, root, T) && Untouched(old(m.mem), T, m.free, m.mem)
    ensures page < |old(m.mem)| && m.mem == Poke(old(m.mem), page, idx, pte)
    ensures Apart(old(m.mem), T) && Entry(m.mem, T, v) == pte
    ensures forall u :: 0 <= u < MAXVPN && u != v ==> Entry(m.mem, T, u) == Entry(old(m.mem), T, u)
  {
    hide NodeOk, Px;
    SetLeaf(m.mem, root, T, v, pte);
    assert T[LeafOf(v)] in T.Values;
    m.Store(page, idx, pte);
  }

  /** Pages v..v+k translate to frames p..p+k with `flags`, all others as before. */
  ghost predicate RangeMapped(mem: Mem, T: Tables, mem': Mem, T': Tables, v: nat, k: nat, p: nat, flags: nat) {
    && Apart(mem, T) && Apart(mem', T')
    && forall u :: 0 <= u < MAXVPN ==>
         Lookup(mem', T', u) == if v <= u < v + k then MkPte(p + u - v, flags) else Lookup(mem, T, u)
  }

  /** One round of mappages' loop. It panics exactly when the page is mapped already. */
  method MapPage(m: PhysMem, root: nat, ghost T: Tables, a: nat, pa: nat, perm: nat)
    returns (out: Outcome, ghost T': Tables)
    requires m.Valid() && TableOk(m, root, T) && a < MAXVPN && perm < 1024
    modifies m
    ensures Apart(old(m.mem), T) && (out == Panicked <==> Mapped(old(m.mem), T, a))
    ensures m.Valid() && TableOk(m, root, T')
    ensures Grew(T, old(m.free), T', m.free) && Untouched(old(m.mem), T, old(m.free), m.mem)
    ensures out != Panicked ==> RangeMapped(old(m.mem), T, m.mem, T', a, if out == Done then 1 else 0, pa, WithV(perm))
    ensures out == Done <==> !Mapped(old(m.mem), T, a) && |old(m.free)| >= Lacking(T, Path(a))
    ensures out == Done ==> Added(T, old(m.free), T', m.free, Path(a))
    ensures out == Failed ==> m.free == []
  {
    hide NodeOk, Px, Took, Untouched, MkPte, WithV, EntryOk, Closed, SameLookups, RangeMapped, Added, Lacking, Path,
      Mapped;
    var ok, page, idx;
    MappedHasPath(m.mem, root, T, a);
    RangeNone(m.mem, T, a, pa, WithV(perm));
    ok, page, idx, T' := Walk(m, root, T, a, true);
    out := Failed;
    RangeAfterWalk(old(m.mem), T, old(m.mem), T, m.mem, T', a, 0, pa, WithV(perm));
    if ok {
      SlotHolds(m.mem, root, T', a, page, idx);
      if IsValid(m.mem[page].w[idx]) {
        return Panicked, T';
      }
      ghost var mem2 := m.mem;
      ValidPte(pa, perm);
      SetPte(m, root, T', a, page, idx, MkPte(pa, WithV(perm)));
      UntouchedTrans(old(m.mem), T, old(m.free), mem2, T', m.free, {}, m.mem);
      RangeStep(old(m.mem), T, mem2, T', m.mem, a, 0, pa, WithV(perm));
      out := Done;
    }
  }

  lemma SlotHolds(mem: Mem, root: nat, T: Tables, v: nat, page: nat, idx: nat)
    requires Tree(mem, root, T) && LeafOf(v) in T && page == T[LeafOf(v)] && idx == Px(0, v)
    ensures page < |mem| && idx < ENTRIES && (IsValid(mem[page].w[idx]) <==> Mapped(mem, T, v))
  {
  }

  /** To a mapped page no table is lacking. */
  lemma MappedHasPath(mem: Mem, root: nat, T: Tables, v: nat)
    requires Tree(mem, root, T)
    ensures Apart(mem, T) && (Mapped(mem, T, v) ==> Lacking(T, Path(v)) == 0)
  {
    if LeafOf(v) in T {
      assert Path(v) - T.Keys == {};
    }
  }

  /** mappages(): maps n pages from v to the frames from p. When walk() runs out of memory
      the first k pages stay mapped. */
  method MapPages(m: PhysMem, root: nat, ghost T: Tables, v: nat, n: nat, p: nat, perm: nat)
    returns (ok: bool, ghost T': Tables, ghost k: nat)
    requires m.Valid() && TableOk(m, root, T)
    requires 0 < n && v + n <= MAXVPN && perm < 1024
    requires forall u :: v <= u < v + n ==> !Mapped(m.mem, T, u)
    modifies m
    ensures m.Valid() && TableOk(m, root, T')
    ensures Grew(T, old(m.free), T', m.free) && Untouched(old(m.mem), T, old(m.free), m.mem)
    ensures RangeMapped(old(m.mem), T, m.mem, T', v, k, p, WithV(perm))
    ensures if ok then k == n else k < n && m.free == []
    ensures ok <==> |old(m.free)| >= Lacking(T, Paths(v, v + n))
    ensures ok ==> Added(T, old(m.free), T', m.free, Paths(v, v + n))
  {
    hide Tree, Took, Untouched, MkPte, WithV, RangeMapped, Lacking, Path, Added, Mapped;
    T', ok, k := T, false, 0;
    AddedNone(T, m.free);
    Unchanged(m.mem, root, T, m.free);
    RangeNone(m.mem, T, v, p, WithV(perm));
    var a, pa := v, p;
    while true
      invariant v <= a < v + n && k == a - v && pa == p + k
      invariant m.Valid() && TableOk(m, root, T')
      invariant Grew(T, old(m.free), T', m.free) && Untouched(old(m.mem), T, old(m.free), m.mem)
      invariant RangeMapped(old(m.mem), T, m.mem, T', v, k, p, WithV(perm))
      invariant Added(T, old(m.free), T', m.free, Paths(v, a))
      decreases v + n - a
    {
      AddedMore(T, old(m.free), T', m.free, Paths(v, a), Path(a));
      PathsMono(v, a + 1, v + n);
      LackingMore(T, Paths(v, a + 1), Paths(v, v + n));
      ghost var mem1, T1, free1 := m.mem, T', m.free;
      RangeNext(old(m.mem), T, m.mem, T', v, k, p, WithV(perm));
      var out;
      out, T' := MapPage(m, root, T', a, pa, perm);
      ok := out == Done;
      GrewTrans(T, old(m.free), T1, free1, T', m.free);
      UntouchedTrans(old(m.mem), T, old(m.free), mem1, T1, free1, {}, m.mem);
      RangeJoin(old(m.mem), T, mem1, T1, m.mem, T', v, k, if ok then 1 else 0, p, WithV(perm));
      if !ok {
        return;
      }
      k := k + 1;
      if a == v + n - 1 {
        return;
      }
      a, pa := a + 1, pa + 1;
    }
  }

  lemma {:induction false} PathsMono(v: nat, a: nat, b: nat)
    requires a <= b
    ensures Paths(v, a) <= Paths(v, b)
    decreases b
  {
    if a < b {
      PathsMono(v, a, b - 1);
    }
  }

  lemma RangeNext(mem: Mem, T: Tables, mem1: Mem, T1: Tables, v: nat, k: nat, p: nat, flags: nat)
    requires RangeMapped(mem, T, mem1, T1, v, k, p, flags) && v + k < MAXVPN
    ensures Apart(mem1, T1) && (!Mapped(mem, T, v + k) ==> !Mapped(mem1, T1, v + k))
  {
    hide Entry, MkPte;
    assert Lookup(mem1, T1, v + k) == Lookup(mem, T, v + k);
  }

  lemma RangeJoin(mem: Mem, T: Tables, mem1: Mem, T1: Tables, mem2: Mem, T2: Tables,
                  v: nat, k: nat, j: nat, p: nat, flags: nat)
    requires RangeMapped(mem, T, mem1, T1, v, k, p, flags)
    requires RangeMapped(mem1, T1, mem2, T2, v + k, j, p + k, flags)
    ensures RangeMapped(mem, T, mem2, T2, v, k + j, p, flags)
  {
    hide Lookup, MkPte;
  }

  lemma ValidPte(p: nat, perm: nat)
    requires perm < 1024
    ensures IsValid(MkPte(p, WithV(perm)))
  {
  }

  lemma RangeNone(mem: Mem, T: Tables, v: nat, p: nat, flags: nat)
    requires Apart(mem, T)
    ensures RangeMapped(mem, T, mem, T, v, 0, p, flags)
  {
  }

  lemma RangeAfterWalk(mem: Mem, T: Tables, mem1: Mem, T1: Tables, mem2: Mem, T2: Tables, v: nat, k: nat, p: nat,
                       flags: nat)
    requires RangeMapped(mem, T, mem1, T1, v, k, p, flags) && SameLookups(mem1, T1, mem2, T2) && v + k < MAXVPN
    ensures RangeMapped(mem, T, mem2, T2, v, k, p, flags)
    ensures Mapped(mem, T, v + k) <==> Mapped(mem2, T2, v + k)
  {
    hide Entry, MkPte;
    assert Lookup(mem2, T2, v + k) == Lookup(mem, T, v + k);
  }

  lemma RangeStep(mem: Mem, T: Tables, mem1: Mem, T': Tables, mem2: Mem, v: nat, k: nat, p: nat, flags: nat)
    requires RangeMapped(mem, T, mem1, T', v, k, p, flags) && Apart(mem2, T') && v + k < MAXVPN
    requires Entry(mem2, T', v + k) == MkPte(p + k, flags) && IsValid(MkPte(p + k, flags))
    requires forall u :: 0 <= u < MAXVPN && u != v + k ==> Entry(mem2, T', u) == Entry(mem1, T', u)
    ensures RangeMapped(mem, T, mem2, T', v, k + 1, p, flags)
  {
    hide Px, MkPte;
    forall u | 0 <= u < MAXVPN
      ensures Lookup(mem2, T', u) == if v <= u < v + k + 1 then MkPte(p + u - v, flags) else Lookup(mem, T, u)
    {
      if u != v + k { assert Lookup(mem2, T', u) == Lookup(mem1, T', u); }
    }
  }

  /** The frames that pages a..b map are allocated, are no tables, and no two are the same. */
  ghost predicate Freeable(m: PhysMem, T: Tables, a: nat, b: nat)
    requires Apart(m.mem, T)
    reads m
  {
    Owned(m.lo, m.hi, m.mem, m.free, T, a, b)
  }

  ghost predicate Owned(lo: nat, hi: nat, mem: Mem, free: seq<nat>, T: Tables, a: nat, b: nat)
    requires Apart(mem, T)
  {
    && (forall u :: a <= u < b && Mapped(mem, T, u) ==>
          var f := Ppn(Entry(mem, T, u)); lo <= f < hi && f !in free && f !in T.Values)
    && (forall u, w :: a <= u < w < b && Mapped(mem, T, u) && Mapped(mem, T, w) ==>
          Ppn(Entry(mem, T, u)) != Ppn(Entry(mem, T, w)))
  }

  /** The frames that pages a..b map. */
  ghost function Frames(mem: Mem, T: Tables, a: nat, b: nat): set<nat>
    requires Apart(mem, T)
  {
    set u | a <= u < b && Mapped(mem, T, u) :: Ppn(Entry(mem, T, u))
  }

  /** Pages a..b translate to nothing, all others as before. */
  ghost predicate RangeCleared(mem: Mem, T: Tables, mem': Mem, T': Tables, a: nat, b: nat) {
    && Apart(mem, T) && Apart(mem', T')
    && forall u :: 0 <= u < MAXVPN ==> Lookup(mem', T', u) == if a <= u < b then 0 else Lookup(mem, T, u)
  }

  /** The free list gained exactly the frames `fs`. */
  ghost predicate Freed(free: seq<nat>, fs: set<nat>, free': seq<nat>) {
    forall p :: p in free' <==> p in free || p in fs
  }

  /** Changing pages that are no tables changes no entry. */
  lemma TreeFrame(mem: Mem, root: nat, T: Tables, mem': Mem)
    requires Tree(mem, root, T) && |mem'| == |mem|
    requires forall n :: n in T ==> mem'[T[n]] == mem[T[n]]
    ensures Tree(mem', root, T) && forall v :: Entry(mem', T, v) == Entry(mem, T, v)
  {
    forall n | n in T ensures NodeOk(mem', T, n) { assert NodeOk(mem, T, n); }
  }

  /** Where uvmunmap() panics: in walk() beyond MAXVA, or in kfree() on a frame that is not
      allocatable memory. */
  ghost predicate Stops(lo: nat, hi: nat, mem: Mem, T: Tables, doFree: bool, u: nat)
    requires Apart(mem, T)
  {
    u >= MAXVPN || (doFree && Mapped(mem, T, u) && !(lo <= Ppn(Entry(mem, T, u)) < hi))
  }

  /** The first page of a..b at which uvmunmap() panics, b for none. */
  ghost function FirstStop(lo: nat, hi: nat, mem: Mem, T: Tables, doFree: bool, a: nat, b: nat): (r: nat)
    requires Apart(mem, T) && a <= b
    ensures a <= r <= b && (r < b ==> Stops(lo, hi, mem, T, doFree, r))
    ensures (forall u :: a <= u < r ==> !Stops(lo, hi, mem, T, doFree, u)) && (r > a ==> r <= MAXVPN)
    decreases b - a
  {
    if a == b || Stops(lo, hi, mem, T, doFree, a) then a else FirstStop(lo, hi, mem, T, doFree, a + 1, b)
  }

  /** With frames of its own only, a process meets no panic but the one beyond MAXVA. */
  lemma StopAtMax(lo: nat, hi: nat, mem: Mem, free: seq<nat>, T: Tables, doFree: bool, a: nat, b: nat)
    requires Apart(mem, T) && a <= b
    requires doFree ==> Owned(lo, hi, mem, free, T, a, if b < MAXVPN then b else MAXVPN)
    ensures FirstStop(lo, hi, mem, T, doFree, a, b) ==
      if b <= MAXVPN || a >= b then b else if a >= MAXVPN then a else MAXVPN
  {
    hide Entry, Ppn;
    var r := FirstStop(lo, hi, mem, T, doFree, a, b);
    assert r < b ==> r >= MAXVPN;
  }

  /** kfree() of the frame that page v maps leaves the tables alone. */
  method FreeFrame(m: PhysMem, root: nat, ghost T: Tables, v: nat, pa: nat)
    requires m.Valid() && TableOk(m, root, T) && v < MAXVPN && Freeable(m, T, v, v + 1)
    requires Apart(m.mem, T) && Mapped(m.mem, T, v) && pa == Ppn(Entry(m.mem, T, v)) && m.lo <= pa < m.hi
    modifies m
    ensures m.Valid() && TableOk(m, root, T) && |m.mem| == |old(m.mem)| && pa !in T.Values
    ensures pa !in old(m.free) && m.free == [pa] + old(m.free)
    ensures Apart(m.mem, T) && forall u :: Entry(m.mem, T, u) == Entry(old(m.mem), T, u)
    ensures forall p :: 0 <= p < |m.mem| && p != pa ==> m.mem[p] == old(m.mem)[p]
  {
    hide NodeOk, Ppn, EntryOk, Entry;
    assert forall n :: n in T ==> T[n] in T.Values;
    m.Kfree(pa);
    TreeFrame(old(m.mem), root, T, m.mem);
  }

  /** One round of uvmunmap's loop. */
  method UnmapPage(m: PhysMem, root: nat, ghost T: Tables, v: nat, doFree: bool) returns (panic: bool,
                   ghost f: set<nat>)
    requires m.Valid() && TableOk(m, root, T) && v < MAXVPN
    requires doFree && !Stops(m.lo, m.hi, m.mem, T, doFree, v) ==> Freeable(m, T, v, v + 1)
    modifies m
    ensures Apart(old(m.mem), T) && (panic <==> Stops(m.lo, m.hi, old(m.mem), T, doFree, v))
    ensures !panic ==> m.Valid() && TableOk(m, root, T) && |m.mem| == |old(m.mem)| && !Mapped(m.mem, T, v)
    ensures !panic ==> forall u :: 0 <= u < MAXVPN && u != v ==> Entry(m.mem, T, u) == Entry(old(m.mem), T, u)
    ensures f == if doFree && Mapped(old(m.mem), T, v) then {Ppn(Entry(old(m.mem), T, v))} else {}
    ensures !panic ==> Freed(old(m.free), f, m.free) && (f == {} ==> m.free == old(m.free))
    ensures !panic ==> forall p :: 0 <= p < |m.mem| && p !in T.Values && p !in f ==> m.mem[p] == old(m.mem)[p]
  {
    hide NodeOk, Px, MkPte, Ppn, EntryOk;
    f, panic := {}, false;
    var found, page, idx;
    ghost var T1;
    found, page, idx, T1 := Walk(m, root, T, v, false);
    if found && IsValid(m.mem[page].w[idx]) {
      assert Entry(m.mem, T, v) == m.mem[page].w[idx] && Mapped(m.mem, T, v);
      if doFree {
        var pa := Ppn(m.mem[page].w[idx]);
        f := {pa};
        if pa < m.lo || pa >= m.hi {
          panic := true;
          return;
        }
        FreeFrame(m, root, T, v, pa);
      }
      SetPte(m, root, T, v, page, idx, 0);
    }
  }

  /** uvmunmap(). Frames that it may free are frames of their own. */
  method UvmUnmap(m: PhysMem, root: nat, ghost T: Tables, v: nat, n: nat, doFree: bool) returns (panic: bool)
    requires m.Valid() && TableOk(m, root, T)
    requires doFree ==> Freeable(m, T, v, FirstStop(m.lo, m.hi, m.mem, T, doFree, v, v + n))
    modifies m
    ensures Apart(old(m.mem), T) && (panic <==> FirstStop(m.lo, m.hi, old(m.mem), T, doFree, v, v + n) < v + n)
    ensures !panic ==> m.Valid() && TableOk(m, root, T) && |m.mem| == |old(m.mem)|
    ensures !panic ==> RangeCleared(old(m.mem), T, m.mem, T, v, v + n)
    ensures !panic && !doFree ==> m.free == old(m.free)
    ensures !panic && doFree ==> Freed(old(m.free), Frames(old(m.mem), T, v, v + n), m.free)
    ensures !panic ==> forall p :: 0 <= p < |m.mem| && p !in T.Values && p !in m.free ==> m.mem[p] == old(m.mem)[p]
  {
    hide Tree, Stops, FirstStop, Owned, Unmapping, Entry, Mapped, Frames, RangeCleared, Freed;
    ghost var mem0, free0 := m.mem, m.free;
    TreeIsApart(m.mem, root, T);
    ghost var stop := FirstStop(m.lo, m.hi, m.mem, T, doFree, v, v + n);
    UnmapStart(m.lo, m.hi, m.mem, m.free, T, v, stop, doFree);
    panic := false;
    var a := v;
    while a < v + n
      invariant v <= a <= stop && Apart(m.mem, T)
      invariant m.Valid() && TableOk(m, root, T)
      invariant Unmapping(m.lo, m.hi, mem0, free0, m.mem, m.free, T, v, a, stop, doFree)
    {
      UnmapNow(m.lo, m.hi, mem0, free0, m.mem, m.free, T, v, a, stop, doFree);
      if a >= MAXVPN {
        return true;
      }
      ghost var mem1, free1 := m.mem, m.free;
      ghost var f;
      panic, f := UnmapPage(m, root, T, a, doFree);
      if panic {
        return;
      }
      TreeIsApart(m.mem, root, T);
      UnmapNext(m.lo, m.hi, mem0, free0, mem1, free1, m.mem, m.free, T, v, a, stop, doFree, f);
      a := a + 1;
    }
    UnmapDone(m.lo, m.hi, mem0, free0, m.mem, m.free, T, v, stop, doFree);
  }

  lemma TreeIsApart(mem: Mem, root: nat, T: Tables)
    requires Tree(mem, root, T)
    ensures Apart(mem, T)
  {
  }

  /** uvmunmap() before page a: everything from v on is cleared and, if asked, freed. */
  ghost predicate Unmapping(lo: nat, hi: nat, mem0: Mem, free0: seq<nat>, mem: Mem, free: seq<nat>, T: Tables,
                            v: nat, a: nat, stop: nat, doFree: bool) {
    && Apart(mem0, T) && Apart(mem, T) && |mem| == |mem0|
    && (forall u :: 0 <= u < MAXVPN && !(v <= u < a) ==> Entry(mem, T, u) == Entry(mem0, T, u))
    && (forall u :: v <= u < a ==> !Mapped(mem, T, u))
    && (!doFree ==> free == free0)
    && (doFree ==> Owned(lo, hi, mem, free, T, a, stop) && Freed(free0, Frames(mem0, T, v, a), free))
    && (forall p :: 0 <= p < |mem| && p !in T.Values && p !in free ==> mem[p] == mem0[p])
  }

  lemma UnmapStart(lo: nat, hi: nat, mem: Mem, free: seq<nat>, T: Tables, v: nat, stop: nat, doFree: bool)
    requires Apart(mem, T) && (doFree ==> Owned(lo, hi, mem, free, T, v, stop))
    ensures Unmapping(lo, hi, mem, free, mem, free, T, v, v, stop, doFree)
  {
    assert Frames(mem, T, v, v) == {};
  }

  /** Page a itself has not been looked at. */
  lemma UnmapNow(lo: nat, hi: nat, mem0: Mem, free0: seq<nat>, mem: Mem, free: seq<nat>, T: Tables,
                 v: nat, a: nat, stop: nat, doFree: bool)
    requires Unmapping(lo, hi, mem0, free0, mem, free, T, v, a, stop, doFree) && v <= a
    ensures Apart(mem0, T) && Apart(mem, T)
    ensures Stops(lo, hi, mem, T, doFree, a) <==> Stops(lo, hi, mem0, T, doFree, a)
    ensures a >= MAXVPN ==> Stops(lo, hi, mem0, T, doFree, a)
    ensures doFree && a < stop ==> Owned(lo, hi, mem, free, T, a, a + 1)
  {
    hide Entry, Ppn;
    StopsSame(lo, hi, mem0, mem, T, doFree, a);
  }

  lemma UnmapNext(lo: nat, hi: nat, mem0: Mem, free0: seq<nat>, mem1: Mem, free1: seq<nat>, mem: Mem, free: seq<nat>,
                  T: Tables, v: nat, a: nat, stop: nat, doFree: bool, f: set<nat>)
    requires Unmapping(lo, hi, mem0, free0, mem1, free1, T, v, a, stop, doFree) && v <= a < MAXVPN && a < stop <= MAXVPN
    requires Apart(mem1, T) && Apart(mem, T) && |mem| == |mem1| && !Mapped(mem, T, a)
    requires forall u :: 0 <= u < MAXVPN && u != a ==> Entry(mem, T, u) == Entry(mem1, T, u)
    requires f == if doFree && Mapped(mem1, T, a) then {Ppn(Entry(mem1, T, a))} else {}
    requires Freed(free1, f, free) && (f == {} ==> free == free1)
    requires forall p :: 0 <= p < |mem| && p !in T.Values && p !in f ==> mem[p] == mem1[p]
    ensures Unmapping(lo, hi, mem0, free0, mem, free, T, v, a + 1, stop, doFree)
  {
    hide Entry, Ppn;
    FramesStep(mem0, T, v, a);
    assert Entry(mem1, T, a) == Entry(mem0, T, a);
    assert forall u :: v <= u < a + 1 ==> !Mapped(mem, T, u) by {
      forall u | v <= u < a ensures !Mapped(mem, T, u) { assert !Mapped(mem1, T, u); }
    }
    if doFree {
      assert forall u :: a + 1 <= u < stop ==> Entry(mem, T, u) == Entry(mem1, T, u);
      assert Owned(lo, hi, mem, free, T, a + 1, stop);
    }
  }

  lemma UnmapDone(lo: nat, hi: nat, mem0: Mem, free0: seq<nat>, mem: Mem, free: seq<nat>, T: Tables,
                  v: nat, b: nat, doFree: bool)
    requires Unmapping(lo, hi, mem0, free0, mem, free, T, v, b, b, doFree)
    ensures RangeCleared(mem0, T, mem, T, v, b) && |mem| == |mem0| && (!doFree ==> free == free0)
    ensures doFree ==> Freed(free0, Frames(mem0, T, v, b), free)
    ensures forall p :: 0 <= p < |mem| && p !in T.Values && p !in free ==> mem[p] == mem0[p]
  {
    hide Entry, Ppn;
  }

  lemma StopsSame(lo: nat, hi: nat, mem: Mem, mem': Mem, T: Tables, doFree: bool, u: nat)
    requires Apart(mem, T) && Apart(mem', T) && (u < MAXVPN ==> Entry(mem', T, u) == Entry(mem, T, u))
    ensures Stops(lo, hi, mem', T, doFree, u) <==> Stops(lo, hi, mem, T, doFree, u)
    ensures u >= MAXVPN ==> Stops(lo, hi, mem, T, doFree, u)
  {
    hide Entry, Ppn;
  }

  lemma FramesStep(mem: Mem, T: Tables, v: nat, a: nat)
    requires Apart(mem, T) && v <= a
    ensures Frames(mem, T, v, a + 1) ==
            Frames(mem, T, v, a) + if Mapped(mem, T, a) then {Ppn(Entry(mem, T, a))} else {}
  {
    hide Entry, Ppn;
  }
}
