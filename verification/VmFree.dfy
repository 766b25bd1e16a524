/** kernel/vm.c:263-288 and kernel/proc.c:177-216: building and tearing down a process's
    page table, returning every page it owns to the free list exactly once. */
module VmFree {
  import opened Sv39
  import opened Kalloc
  import opened Vm
  import opened VmSpace

  /** Table k lies in the subtree of n. */
  predicate Under(k: Node, n: Node) {
    n.Root? || k == n || (n.Mid? && k.Low? && k.i == n.i)
  }

  /** The tables below n, linked as in Tree, with no leaf mapping left. */
  ghost predicate SubTree(mem: Mem, T: Tables, n: Node) {
    && Apart(mem, T) && n in T
    && (forall k :: k in T ==> Under(k, n) && NodeOk(mem, T, k))
    && (forall i: nat, j: nat :: Low(i, j) in T ==> j < ENTRIES && (n.Low? || Mid(i) in T))
    && (forall i: nat :: Mid(i) in T ==> i < TOP)
    && (forall k, i :: k in T && k.Low? && 0 <= i < ENTRIES ==> !IsValid(mem[T[k]].w[i]))
  }

  ghost function Below(T: Tables, c: Node): Tables {
    map k | k in T && Under(k, c) :: T[k]
  }

  lemma SubTreeChild(mem: Mem, T: Tables, n: Node, i: nat)
    requires SubTree(mem, T, n) && !n.Low? && i < ENTRIES && Child(n, i) in T
    ensures SubTree(mem, Below(T, Child(n, i)), Child(n, i))
  {
    var c := Child(n, i);
    var S := Below(T, c);
    forall k | k in S ensures NodeOk(mem, S, k) {
      assert NodeOk(mem, T, k);
      if !k.Low? {
        forall j | 0 <= j < ENTRIES ensures EntryOk(mem[S[k]].w[j], S, Child(k, j)) {
          assert EntryOk(mem[T[k]].w[j], T, Child(k, j));
        }
      }
    }
  }

  /** What is left once child i has been freed and its entry cleared. */
  lemma SubTreeRest(mem: Mem, T: Tables, n: Node, i: nat, mem': Mem)
    requires SubTree(mem, T, n) && !n.Low? && i < ENTRIES && Child(n, i) in T
    requires |mem'| == |mem| && mem'[T[n]] == Page(mem[T[n]].w[i := 0])
    requires forall k :: k in T && k != n && !Under(k, Child(n, i)) ==> mem'[T[k]] == mem[T[k]]
    ensures SubTree(mem', T - Below(T, Child(n, i)).Keys, n)
  {
    var c := Child(n, i);
    var R := T - Below(T, c).Keys;
    forall k | k in R ensures NodeOk(mem', R, k) {
      assert NodeOk(mem, T, k);
      if !k.Low? {
        forall j | 0 <= j < ENTRIES ensures EntryOk(mem'[R[k]].w[j], R, Child(k, j)) {
          assert EntryOk(mem[T[k]].w[j], T, Child(k, j));
        }
      }
    }
  }

  /** The tables of T are allocated pages. */
  ghost predicate Held(lo: nat, hi: nat, free: seq<nat>, T: Tables) {
    forall k :: k in T ==> lo <= T[k] < hi && T[k] !in free
  }

  /** Everything in T that is no longer in R went to the free list, and nothing else. */
  ghost predicate Returned(T: Tables, R: Tables, free: seq<nat>, free': seq<nat>) {
    && (forall k :: k in R ==> k in T && R[k] == T[k])
    && (forall p :: p in free' <==> p in free || exists k :: k in T && k !in R && T[k] == p)
  }

  lemma ReturnedStep(mem: Mem, T: Tables, R: Tables, c: Node, free: seq<nat>, free1: seq<nat>, free2: seq<nat>)
    requires Returned(T, R, free, free1) && Freed(free1, Below(R, c).Values, free2) && Apart(mem, T)
    ensures Returned(T, R - Below(R, c).Keys, free, free2)
  {
    var S := Below(R, c);
    var R' := R - S.Keys;
    forall p ensures p in free2 <==> p in free || exists k :: k in T && k !in R' && T[k] == p {
      if p in S.Values {
        var k :| k in S && S[k] == p;
        assert k in T && k !in R' && T[k] == p;
      }
      if k :| k in T && k !in R' && T[k] == p {
        if k in R { assert S[k] == p; }
      }
    }
  }

  /** freewalk(): frees the tables below n. The panic on a leaf is not reached. */
  method FreeWalk(m: PhysMem, page: nat, ghost n: Node, ghost T: Tables)
    requires m.Valid() && SubTree(m.mem, T, n) && page == T[n] && Held(m.lo, m.hi, m.free, T)
    modifies m
    ensures m.Valid() && |m.mem| == |old(m.mem)|
    ensures Freed(old(m.free), T.Values, m.free)
    ensures forall p :: 0 <= p < |m.mem| && p !in T.Values ==> m.mem[p] == old(m.mem)[p]
    decreases if n.Root? then 2 else if n.Mid? then 1 else 0, 1
  {
    hide Below, Returned, Freed, SubTree, Held;
    ghost var R := T;
    ReturnedNone(T, m.free);
    EntryFacts(m.lo, m.hi, m.mem, R, n, 0, m.free);
    for i := 0 to ENTRIES
      invariant m.Valid() && |m.mem| == |old(m.mem)|
      invariant SubTree(m.mem, R, n) && n in R && n in T && R[n] == page == T[n]
      invariant Held(m.lo, m.hi, m.free, R)
      invariant Returned(T, R, old(m.free), m.free)
      invariant R.Values <= T.Values
      invariant !n.Low? ==> forall j :: 0 <= j < i ==> Child(n, j) !in R
      invariant forall p :: 0 <= p < |m.mem| && p !in T.Values ==> m.mem[p] == old(m.mem)[p]
    {
      EntryFacts(m.lo, m.hi, m.mem, R, n, i, m.free);
      var pte := m.mem[page].w[i];
      if IsValid(pte) && !IsLeaf(pte) {
        ghost var free1 := m.free;
        FreeChild(m, page, Ppn(pte), n, i, R);
        ReturnedStep(old(m.mem), T, R, Child(n, i), old(m.free), free1, m.free);
        R := R - Below(R, Child(n, i)).Keys;
      } else if IsValid(pte) {
        assert false;  // panic("freewalk: leaf")
      }
    }
    OnlyRoot(m.mem, R, n);
    EntryFacts(m.lo, m.hi, m.mem, R, n, 0, m.free);
    m.Kfree(page);
    ReturnedAll(old(m.mem), T, R, n, old(m.free), m.free, page);
  }

  /** One round of freewalk's loop: free the subtree of entry i, then clear the entry. */
  method FreeChild(m: PhysMem, page: nat, child: nat, ghost n: Node, i: nat, ghost R: Tables)
    requires m.Valid() && SubTree(m.mem, R, n) && Held(m.lo, m.hi, m.free, R) && page == R[n]
    requires !n.Low? && i < ENTRIES && Child(n, i) in R && child == R[Child(n, i)]
    modifies m
    ensures m.Valid() && |m.mem| == |old(m.mem)|
    ensures Freed(old(m.free), Below(R, Child(n, i)).Values, m.free)
    ensures var R' := R - Below(R, Child(n, i)).Keys;
      && SubTree(m.mem, R', n) && Held(m.lo, m.hi, m.free, R') && n in R' && R'[n] == page
      && R'.Values <= R.Values && Child(n, i) !in R' && forall k :: k in R' ==> k in R
    ensures forall p :: 0 <= p < |m.mem| && p !in R.Values ==> m.mem[p] == old(m.mem)[p]
    decreases if n.Root? then 2 else if n.Mid? then 1 else 0, 0
  {
    hide Below, Freed, Held;
    ghost var c := Child(n, i);
    ghost var S := Below(R, c);
    ghost var mem1, free1 := m.mem, m.free;
    EntryFacts(m.lo, m.hi, mem1, R, n, i, free1);
    SubTreeChild(mem1, R, n, i);
    BelowFacts(mem1, R, n, c);
    HeldBelow(m.lo, m.hi, m.free, R, c);
    FreeWalk(m, child, c, S);
    FreedBy(free1, S, m.free, page);
    m.Store(page, i, 0);
    SubTreeRest(mem1, R, n, i, m.mem);
    HeldRest(m.lo, m.hi, mem1, R, c, free1, m.free);
  }

  /** What freewalk() finds in entry i of table n. */
  lemma EntryFacts(lo: nat, hi: nat, mem: Mem, R: Tables, n: Node, i: nat, free: seq<nat>)
    requires SubTree(mem, R, n) && Held(lo, hi, free, R) && i < ENTRIES
    ensures n in R && R[n] < |mem| && lo <= R[n] < hi && R[n] !in free && R[n] in R.Values
    ensures Apart(mem, R)
    ensures var pte := mem[R[n]].w[i];
      && (IsValid(pte) ==> !n.Low? && !IsLeaf(pte) && Child(n, i) in R && Ppn(pte) == R[Child(n, i)])
      && (!IsValid(pte) && !n.Low? ==> Child(n, i) !in R)
  {
    assert NodeOk(mem, R, n);
    if !n.Low? {
      assert EntryOk(mem[R[n]].w[i], R, Child(n, i));
      if Child(n, i) in R { PteRoundTrip(R[Child(n, i)], PTE_V); }
    }
  }

  lemma ReturnedNone(T: Tables, free: seq<nat>)
    ensures Returned(T, T, free, free)
  {
  }

  lemma BelowFacts(mem: Mem, R: Tables, n: Node, c: Node)
    requires SubTree(mem, R, n) && !n.Low? && c in R && (exists i: nat :: i < ENTRIES && c == Child(n, i))
    ensures c in Below(R, c) && Below(R, c)[c] == R[c] && n !in Below(R, c) && R[n] !in Below(R, c).Values
    ensures forall k :: k in Below(R, c) <==> k in R && Under(k, c)
    ensures forall k :: k in R && !Under(k, c) ==> R[k] !in Below(R, c).Values
    ensures forall k :: k in Below(R, c) ==> Below(R, c)[k] == R[k]
    ensures forall p :: p in Below(R, c).Values ==> p in R.Values
  {
    forall p | p in Below(R, c).Values ensures p in R.Values {
      var k :| k in Below(R, c) && Below(R, c)[k] == p;
      assert R[k] == p;
    }
  }

  lemma HeldBelow(lo: nat, hi: nat, free: seq<nat>, R: Tables, c: Node)
    requires Held(lo, hi, free, R)
    ensures Held(lo, hi, free, Below(R, c))
  {
  }

  lemma FreedBy(free: seq<nat>, S: Tables, free': seq<nat>, page: nat)
    requires Freed(free, S.Values, free') && page !in S.Values && page !in free
    ensures page !in free'
  {
  }

  lemma HeldRest(lo: nat, hi: nat, mem: Mem, R: Tables, c: Node, free: seq<nat>, free': seq<nat>)
    requires Held(lo, hi, free, R) && Apart(mem, R) && Freed(free, Below(R, c).Values, free')
    ensures Held(lo, hi, free', R - Below(R, c).Keys)
  {
    assert forall j :: j in Below(R, c) ==> Below(R, c)[j] == R[j];
  }

  /** With all its children gone, only the table itself is left. */
  lemma OnlyRoot(mem: Mem, R: Tables, n: Node)
    requires SubTree(mem, R, n) && (!n.Low? ==> forall j :: 0 <= j < ENTRIES ==> Child(n, j) !in R)
    ensures forall k :: k in R ==> k == n
  {
    assert forall i: nat :: n.Root? && i < ENTRIES ==> Child(n, i) == Mid(i);
    assert forall j: nat :: n.Mid? && j < ENTRIES ==> Child(n, j) == Low(n.i, j);
  }

  lemma ReturnedAll(mem: Mem, T: Tables, R: Tables, n: Node, free: seq<nat>, free': seq<nat>, page: nat)
    requires n in T && n in R && T[n] == page && (forall k :: k in R ==> k == n)
    requires free' != [] && free'[0] == page && Returned(T, R, free, free'[1..])
    ensures Freed(free, T.Values, free')
  {
    forall p ensures p in free' <==> p in free || p in T.Values {
      assert p in free' <==> p == page || p in free'[1..];
      if p in T.Values {
        var k :| k in T && T[k] == p;
        if k == n { assert p == page; } else { assert k !in R; }
      }
    }
  }

  /** A tree that translates nothing has no leaf entry. */
  lemma EmptyTree(mem: Mem, root: nat, T: Tables)
    requires Tree(mem, root, T) && forall v :: 0 <= v < MAXVPN ==> Lookup(mem, T, v) == 0
    ensures SubTree(mem, T, Root)
  {
    forall k, i | k in T && k.Low? && 0 <= i < ENTRIES ensures !IsValid(mem[T[k]].w[i]) {
      PxSurjective(k.i, k.j, i);
      var v := k.i * 262144 + k.j * 512 + i;
      assert Lookup(mem, T, v) == 0 && Entry(mem, T, v) == mem[T[k]].w[i];
    }
  }

  lemma FreedTwice(free: seq<nat>, xs: set<nat>, free1: seq<nat>, ys: set<nat>, free2: seq<nat>)
    requires Freed(free, xs, free1) && Freed(free1, ys, free2)
    ensures Freed(free, xs + ys, free2)
  {
  }

  /** No page from a up to b translates. */
  ghost predicate NoneMapped(mem: Mem, T: Tables, a: nat, b: nat) {
    Apart(mem, T) && forall v :: a <= v < b ==> Lookup(mem, T, v) == 0
  }

  function Min(a: nat, b: nat): nat { if a < b then a else b }

  /** uvmfree(): with every mapping below PGROUNDUP(sz), all frames and all tables go back.
      It panics exactly when sz is beyond MAXVA. */
  method UvmFree(m: PhysMem, root: nat, ghost T: Tables, sz: nat) returns (panic: bool)
    requires m.Valid() && TableOk(m, root, T)
    requires Freeable(m, T, 0, Min(PagesFor(sz), MAXVPN)) && NoneMapped(m.mem, T, PagesFor(sz), MAXVPN)
    modifies m
    ensures panic <==> PagesFor(sz) > MAXVPN
    ensures !panic ==> m.Valid() && |m.mem| == |old(m.mem)| && Apart(old(m.mem), T)
    ensures !panic ==> Freed(old(m.free), Frames(old(m.mem), T, 0, PagesFor(sz)) + T.Values, m.free)
    ensures !panic ==> forall p :: 0 <= p < |m.mem| && p !in m.free ==> m.mem[p] == old(m.mem)[p]
  {
    hide Lookup, Owned, NodeOk, PagesFor, SubTree, Apart, FirstStop;
    TreeIsApart(m.mem, root, T);
    ghost var fs := Frames(m.mem, T, 0, PagesFor(sz));
    PagesForBound(0, 0);
    PagesForBound(0, sz);
    StopAtMax(m.lo, m.hi, m.mem, m.free, T, true, 0, PagesFor(sz));
    panic := false;
    if sz > 0 {
      panic := UvmUnmap(m, root, T, 0, PagesFor(sz), true);
      if panic {
        return;
      }
    } else {
      assert fs == {};
    }
    ghost var free1 := m.free;
    EmptyTree(m.mem, root, T);
    FreeWalk(m, root, Root, T);
    FreedTwice(old(m.free), fs, free1, T.Values, m.free);
  }

  /** uvmcreate() */
  method UvmCreate(m: PhysMem) returns (root: nat, ghost T: Tables)
    requires m.Valid()
    modifies m
    ensures m.Valid() && |m.mem| == |old(m.mem)|
    ensures root == 0 ==> m.free == old(m.free) && m.mem == old(m.mem)
    ensures root != 0 ==> TableOk(m, root, T) && NoneMapped(m.mem, T, 0, MAXVPN)
    ensures root != 0 ==> Took(map[], old(m.free), T, m.free, {})
    ensures root != 0 <==> old(m.free) != []
    ensures root != 0 ==> T.Keys == {Root} && |m.free| == |old(m.free)| - 1
    ensures forall p :: 0 <= p < |m.mem| && p !in old(m.free) ==> m.mem[p] == old(m.mem)[p]
  {
    root := m.KallocFill(Filled(0));
    T := map[Root := root];
    assert Root in T && T[Root] == root;
  }

  /** The only mappings are frames of its own below `top`, the trampoline and the trapframe. */
  ghost predicate ProcessSpace(m: PhysMem, root: nat, T: Tables, top: nat)
    reads m
  {
    && TableOk(m, root, T) && top <= TRAPFRAME
    && Freeable(m, T, 0, top)
    && NoneMapped(m.mem, T, top, TRAPFRAME)
  }

  /** Both high pages hang below the same two tables. */
  ghost function High(): set<Node> { {Mid(255), Low(255, 511)} }

  lemma HighPaths()
    ensures Paths(TRAMPOLINE, TRAMPOLINE + 1) == Paths(TRAPFRAME, TRAPFRAME + 1) == High()
  {
    var none: set<Node> := {};
    assert Paths(TRAMPOLINE, TRAMPOLINE) == none && Paths(TRAPFRAME, TRAPFRAME) == none;
    assert Path(TRAMPOLINE) == High() == Path(TRAPFRAME);
  }

  /** An empty table lacks both, and then none. */
  lemma HighTables(T: Tables, T': Tables, free: seq<nat>, free': seq<nat>)
    requires T.Keys == {Root}
    ensures Lacking(T, High()) == 2
    ensures Added(T, free, T', free', High()) ==> Lacking(T', High()) == 0 && T'.Keys == {Root} + High()
    ensures Added(T, free, T', free', High()) ==> forall T2, free2: seq<nat> :: Added(T', free', T2, free2, High()) ==>
      T2.Keys == {Root} + High() && |free2| == |free| - 2
  {
    assert High() - T.Keys == High();
    if Added(T, free, T', free', High()) {
      assert High() - T'.Keys == {};
    }
  }

  /** proc_pagetable(): the trampoline and trapframe are mapped, or every page is back. It
      succeeds exactly when three pages are free. */
  method ProcPagetable(m: PhysMem, trampoline: nat, trapframe: nat) returns (root: nat, ghost T: Tables)
    requires m.Valid()
    modifies m
    ensures m.Valid() && |m.mem| == |old(m.mem)|
    ensures root != 0 <==> |old(m.free)| >= 3
    ensures root == 0 ==> Freed(old(m.free), {}, m.free)
    ensures root != 0 ==> ProcessSpace(m, root, T, 0) && Took(map[], old(m.free), T, m.free, {})
    ensures root != 0 ==> T.Keys == {Root} + High() && |m.free| == |old(m.free)| - 3
    ensures root != 0 ==> Lookup(m.mem, T, TRAMPOLINE) == MkPte(trampoline, PTE_V + PTE_R + PTE_X)
    ensures root != 0 ==> Lookup(m.mem, T, TRAPFRAME) == MkPte(trapframe, PTE_V + PTE_R + PTE_W)
    ensures forall p :: 0 <= p < |m.mem| && p !in old(m.free) ==> m.mem[p] == old(m.mem)[p]
  {
    hide Tree, Entry, Took, Freed, Untouched, MkPte, Lookup, RangeMapped, NoneMapped, RangeCleared, Owned, Lacking,
      Paths, Path, High, Added;
    HighPaths();
    ghost var free0 := m.free;
    root, T := UvmCreate(m);
    if root == 0 {
      FreedNone(free0);
      return;
    }
    ghost var mem1, T1, free1 := m.mem, T, m.free;
    var ok;
    ghost var k;
    NotYet(mem1, root, T1, TRAMPOLINE);
    ok, T, k := MapPages(m, root, T, TRAMPOLINE, 1, trampoline, PTE_R + PTE_X);
    GrewTrans(map[], free0, T1, free1, T, m.free);
    OutsideUntouched(free0, T1, free1, mem1, m.mem);
    ghost var mem2, T2, free2 := m.mem, T, m.free;
    HighTables(T1, T2, free1, free2);
    FirstMapped(mem1, T1, mem2, T2, if ok then 1 else 0, trampoline);
    if !ok {
      GiveBack(m, root, T, free0);
      root := 0;
      return;
    }
    ok, T, k := MapPages(m, root, T, TRAPFRAME, 1, trapframe, PTE_R + PTE_W);
    GrewTrans(map[], free0, T2, free2, T, m.free);
    OutsideUntouched(free0, T2, free2, mem2, m.mem);
    BothMapped(mem2, T2, m.mem, T, if ok then 1 else 0, trampoline, trapframe);
    if !ok {
      assert false;  // the second error exit: the tables on the way are there already
    }
    FreshSpace(m.lo, m.hi, m.mem, root, m.free, T);
  }

  lemma NotYet(mem: Mem, root: nat, T: Tables, v: nat)
    requires Tree(mem, root, T) && NoneMapped(mem, T, 0, MAXVPN) && v < MAXVPN
    ensures !Mapped(mem, T, v)
  {
    hide Tree, Entry;
    assert Lookup(mem, T, v) == 0;
  }

  /** Only the trampoline page translates. */
  ghost predicate OnlyTrampoline(mem: Mem, T: Tables, trampoline: nat) {
    && NoneMapped(mem, T, 0, TRAMPOLINE) && !Mapped(mem, T, TRAPFRAME)
    && Lookup(mem, T, TRAMPOLINE) == MkPte(trampoline, PTE_V + PTE_R + PTE_X)
  }

  lemma FirstMapped(mem: Mem, T: Tables, mem': Mem, T': Tables, k: nat, p: nat)
    requires NoneMapped(mem, T, 0, MAXVPN) && RangeMapped(mem, T, mem', T', TRAMPOLINE, k, p, WithV(PTE_R + PTE_X))
    requires k <= 1
    ensures k == 0 ==> NoneMapped(mem', T', 0, MAXVPN)
    ensures k == 1 ==> OnlyTrampoline(mem', T', p)
  {
    hide Entry, MkPte;
    assert Lookup(mem', T', TRAPFRAME) == 0;
  }

  lemma BothMapped(mem: Mem, T: Tables, mem': Mem, T': Tables, k: nat, trampoline: nat, trapframe: nat)
    requires OnlyTrampoline(mem, T, trampoline) && k <= 1
    requires RangeMapped(mem, T, mem', T', TRAPFRAME, k, trapframe, WithV(PTE_R + PTE_W))
    ensures k == 0 ==> OnlyTrampoline(mem', T', trampoline)
    ensures NoneMapped(mem', T', 0, TRAPFRAME)
    ensures Lookup(mem', T', TRAMPOLINE) == MkPte(trampoline, PTE_V + PTE_R + PTE_X)
    ensures k == 1 ==> Lookup(mem', T', TRAPFRAME) == MkPte(trapframe, PTE_V + PTE_R + PTE_W)
  {
    hide Entry, MkPte;
    assert k == 0 ==> Lookup(mem', T', TRAPFRAME) == 0;
  }

  lemma FreshSpace(lo: nat, hi: nat, mem: Mem, root: nat, free: seq<nat>, T: Tables)
    requires Tree(mem, root, T) && NoneMapped(mem, T, 0, TRAPFRAME)
    ensures Apart(mem, T) && Owned(lo, hi, mem, free, T, 0, 0)
  {
  }

  lemma FreedNone(free: seq<nat>)
    ensures Freed(free, {}, free)
  {
  }

  /** A table built from nothing touches only pages that were free. */
  lemma OutsideUntouched(free0: seq<nat>, T: Tables, free: seq<nat>, mem: Mem, mem': Mem)
    requires Took(map[], free0, T, free, {}) && Untouched(mem, T, free, mem')
    ensures |mem'| == |mem| && forall p :: 0 <= p < |mem| && p !in free0 ==> mem'[p] == mem[p]
  {
  }

  /** uvmfree(pagetable, 0) on a table that maps nothing: the free list is whole again. */
  method GiveBack(m: PhysMem, root: nat, ghost T: Tables, ghost free0: seq<nat>)
    requires m.Valid() && TableOk(m, root, T) && NoneMapped(m.mem, T, 0, MAXVPN)
    requires Took(map[], free0, T, m.free, {})
    modifies m
    ensures m.Valid() && Freed(free0, {}, m.free) && |m.mem| == |old(m.mem)|
    ensures forall p :: 0 <= p < |m.mem| && p !in free0 ==> m.mem[p] == old(m.mem)[p]
  {
    hide Tree, Lookup;
    assert PagesFor(0) == 0;
    var panic := UvmFree(m, root, T, 0);
    assert forall n :: n in T ==> T[n] in T.Values;
  }

  /** Where the user part of a process ends. */
  function UserTop(sz: nat): nat {
    Min(PagesFor(sz), TRAPFRAME)
  }

  /** proc_freepagetable(): every frame below PGROUNDUP(sz) and every table goes back to the
      free list, once each; the trampoline and trapframe pages do not. It panics exactly
      when sz is beyond MAXVA. */
  method ProcFreePagetable(m: PhysMem, root: nat, ghost T: Tables, sz: nat) returns (panic: bool)
    requires m.Valid() && ProcessSpace(m, root, T, UserTop(sz))
    modifies m
    ensures panic <==> PagesFor(sz) > MAXVPN
    ensures !panic ==> m.Valid() && |m.mem| == |old(m.mem)| && Apart(old(m.mem), T)
    ensures !panic ==> Freed(old(m.free), Frames(old(m.mem), T, 0, UserTop(sz)) + T.Values, m.free)
    ensures !panic ==> forall p :: 0 <= p < |m.mem| && p !in m.free ==> m.mem[p] == old(m.mem)[p]
  {
    hide NodeOk, PagesFor, MkPte, Entry, Owned, Frames, Tree;
    ghost var top := UserTop(sz);
    TreeIsApart(m.mem, root, T);
    StopAtMax(m.lo, m.hi, m.mem, m.free, T, false, TRAMPOLINE, TRAMPOLINE + 1);
    panic := UvmUnmap(m, root, T, TRAMPOLINE, 1, false);
    TreeIsApart(m.mem, root, T);
    KeepFrames(m.lo, m.hi, old(m.mem), m.free, T, m.mem, top);
    ghost var mem1 := m.mem;
    StopAtMax(m.lo, m.hi, m.mem, m.free, T, false, TRAPFRAME, TRAPFRAME + 1);
    panic := UvmUnmap(m, root, T, TRAPFRAME, 1, false);
    TreeIsApart(m.mem, root, T);
    KeepFrames(m.lo, m.hi, mem1, m.free, T, m.mem, top);
    HighCleared(m.lo, m.hi, m.mem, m.free, T, sz);
    panic := UvmFree(m, root, T, sz);
  }

  /** Once both high pages are gone, a size beyond them adds no frame. */
  lemma HighCleared(lo: nat, hi: nat, mem: Mem, free: seq<nat>, T: Tables, sz: nat)
    requires Apart(mem, T) && Owned(lo, hi, mem, free, T, 0, UserTop(sz)) && NoneMapped(mem, T, UserTop(sz), MAXVPN)
    ensures Owned(lo, hi, mem, free, T, 0, Min(PagesFor(sz), MAXVPN)) && NoneMapped(mem, T, PagesFor(sz), MAXVPN)
    ensures PagesFor(sz) <= MAXVPN ==> Frames(mem, T, 0, PagesFor(sz)) == Frames(mem, T, 0, UserTop(sz))
  {
    hide Entry, Ppn;
    var top := UserTop(sz);
    forall u | top <= u < MAXVPN ensures !Mapped(mem, T, u) {
      assert Lookup(mem, T, u) == 0;
    }
  }

  lemma KeepFrames(lo: nat, hi: nat, mem: Mem, free: seq<nat>, T: Tables, mem': Mem, top: nat)
    requires Apart(mem, T) && Apart(mem', T) && Owned(lo, hi, mem, free, T, 0, top)
    requires forall u :: 0 <= u < top ==> Lookup(mem', T, u) == Lookup(mem, T, u)
    ensures Owned(lo, hi, mem', free, T, 0, top) && Frames(mem', T, 0, top) == Frames(mem, T, 0, top)
  {
    hide Entry, Ppn;
    forall u | 0 <= u < top
      ensures Mapped(mem', T, u) <==> Mapped(mem, T, u)
      ensures Mapped(mem, T, u) ==> Entry(mem', T, u) == Entry(mem, T, u)
    {
      assert Lookup(mem', T, u) == Lookup(mem, T, u);
    }
  }
}
