/** kernel/vm.c, the user half: growing, shrinking, faulting in and copying the memory of a
    process, with every frame accounted for on success and on failure. */
module VmSpace {
  import opened Common
  import opened Sv39
  import opened Kalloc
  import opened Vm

  /** Every page outside a..b translates as before. */
  ghost predicate SameOutside(mem: Mem, T: Tables, mem': Mem, T': Tables, a: nat, b: nat) {
    && Apart(mem, T) && Apart(mem', T')
    && forall u :: 0 <= u < MAXVPN && !(a <= u < b) ==> Lookup(mem', T', u) == Lookup(mem, T, u)
  }

  /** Exactly the missing tables of `ns` and k other pages left the free list. */
  ghost predicate Spent(T: Tables, free: seq<nat>, T': Tables, free': seq<nat>, ns: set<Node>, k: nat) {
    T'.Keys == T.Keys + ns && |free'| == |free| - k - Lacking(T, ns)
  }

  lemma SpentNone(T: Tables, free: seq<nat>)
    ensures Spent(T, free, T, free, {}, 0) && Lacking(T, {}) == 0
    ensures forall a: nat :: Paths(a, a) == {}
  {
    AddedNone(T, free);
  }

  lemma SpentOne(T: Tables, free: seq<nat>, free1: seq<nat>, T': Tables, free': seq<nat>, ns: set<Node>)
    requires |free| == |free1| + 1 && Added(T, free1, T', free', ns)
    ensures Spent(T, free, T', free', ns, 1)
  {
  }

  lemma SpentMore(T: Tables, free: seq<nat>, T1: Tables, free1: seq<nat>, xs: set<Node>, k: nat, ys: set<Node>)
    requires Spent(T, free, T1, free1, xs, k)
    ensures |free1| > Lacking(T1, ys) <==> |free| > k + Lacking(T, xs + ys)
    ensures |free1| > 0 <==> |free| > k + Lacking(T, xs)
    ensures forall T2, free2: seq<nat>, j: nat :: Spent(T1, free1, T2, free2, ys, j) ==>
      Spent(T, free, T2, free2, xs + ys, k + j)
    ensures Lacking(T, xs) <= Lacking(T, xs + ys) && |free| >= k + Lacking(T, xs)
  {
    LackingAdd(T, T1, xs, ys);
  }

  /** Where mapping a fresh page panics: in walk() beyond MAXVA, or on a mapped page. */
  ghost predicate Clashes(mem: Mem, T: Tables, u: nat)
    requires Apart(mem, T)
  {
    u >= MAXVPN || Mapped(mem, T, u)
  }

  /** kalloc, fill, mappages, and kfree if mapping fails: the steps that uvmalloc, uvmcopy
      and vmfault each take for one page. */
  method MapFresh(m: PhysMem, root: nat, ghost T: Tables, v: nat, perm: nat, content: Page)
    returns (out: Outcome, f: nat, ghost T': Tables)
    requires m.Valid() && TableOk(m, root, T) && perm < 1024
    modifies m
    ensures Apart(old(m.mem), T) && (out == Panicked <==> Clashes(old(m.mem), T, v) && old(m.free) != [])
    ensures out == Done <==> !Clashes(old(m.mem), T, v) && |old(m.free)| > Lacking(T, Path(v))
    ensures out != Panicked ==> m.Valid() && TableOk(m, root, T') && Untouched(old(m.mem), T, old(m.free), m.mem)
    ensures out == Failed ==> SameLookups(old(m.mem), T, m.mem, T') && Took(T, old(m.free), T', m.free, {})
    ensures out == Done ==> Took(T, old(m.free), T', m.free, {f}) && m.lo <= f < m.hi
    ensures out == Done ==> RangeMapped(old(m.mem), T, m.mem, T', v, 1, f, WithV(perm))
    ensures out == Done ==> f < |m.mem| && m.mem[f] == content && Spent(T, old(m.free), T', m.free, Path(v), 1)
  {
    hide Tree, Took, Untouched, MkPte, WithV, RangeMapped, SameLookups, Entry, Added, Lacking, Path, Spent, Mapped;
    T', out := T, Failed;
    ghost var mem0, free0 := m.mem, m.free;
    Unchanged(mem0, root, T, free0);
    TreeIsApart(mem0, root, T);
    f := m.KallocFill(content);
    if f == 0 {
      return;
    }
    ghost var mem1, free1 := m.mem, m.free;
    FreshFrame(mem0, root, T, free0, f, content);
    if v >= MAXVPN {
      out := Panicked;
      return;
    }
    out, T' := MapPage(m, root, T, v, f, perm);
    MappedSame(mem0, mem1, T, v);
    if out == Panicked {
      return;
    }
    ghost var mem2 := m.mem;
    Relook(mem0, T, mem1, mem2, T', v, if out == Done then 1 else 0, f, WithV(perm));
    TookOne(T, free0, f, free1, T', m.free);
    FreshKept(mem0, T, free0, f, content, free1, mem2);
    if out == Failed {
      m.Kfree(f);
      TreeFrame(mem2, root, T', m.mem);
      RangeEmpty(mem0, T, mem2, T', m.mem, v, f, WithV(perm));
      UntouchedMore(mem0, T, free0, mem2, m.mem, f);
    } else {
      SpentOne(T, free0, free1, T', m.free, Path(v));
    }
  }

  lemma MappedSame(mem: Mem, mem1: Mem, T: Tables, v: nat)
    requires Apart(mem, T) && Apart(mem1, T) && forall u :: Entry(mem1, T, u) == Entry(mem, T, u)
    ensures Mapped(mem1, T, v) <==> Mapped(mem, T, v)
  {
    hide Entry;
    assert Entry(mem1, T, v) == Entry(mem, T, v);
  }

  lemma FreshFrame(mem: Mem, root: nat, T: Tables, free: seq<nat>, f: nat, content: Page)
    requires Tree(mem, root, T) && f < |mem| && f in free && forall n :: n in T ==> T[n] !in free
    ensures Apart(mem, T) && f !in T.Values && Tree(mem[f := content], root, T)
    ensures forall u :: Entry(mem[f := content], T, u) == Entry(mem, T, u)
  {
    hide NodeOk, Entry;
    TreeFrame(mem, root, T, mem[f := content]);
  }

  lemma FreshKept(mem: Mem, T: Tables, free: seq<nat>, f: nat, content: Page, free1: seq<nat>, mem2: Mem)
    requires f < |mem| && f !in T.Values && free == [f] + free1 && f !in free1
    requires Untouched(mem[f := content], T, free1, mem2)
    ensures Untouched(mem, T, free, mem2) && mem2[f] == content
  {
  }

  lemma UntouchedMore(mem: Mem, T: Tables, free: seq<nat>, mem2: Mem, mem3: Mem, f: nat)
    requires Untouched(mem, T, free, mem2) && f in free && |mem3| == |mem2|
    requires forall q :: 0 <= q < |mem3| && q != f ==> mem3[q] == mem2[q]
    ensures Untouched(mem, T, free, mem3)
  {
  }

  lemma Relook(mem: Mem, T: Tables, mem1: Mem, mem2: Mem, T': Tables, v: nat, k: nat, p: nat, flags: nat)
    requires Apart(mem, T) && RangeMapped(mem1, T, mem2, T', v, k, p, flags)
    requires forall u :: Entry(mem1, T, u) == Entry(mem, T, u)
    ensures RangeMapped(mem, T, mem2, T', v, k, p, flags)
  {
    hide Entry, MkPte;
    forall u | 0 <= u < MAXVPN ensures Lookup(mem1, T, u) == Lookup(mem, T, u) {
      assert Entry(mem1, T, u) == Entry(mem, T, u);
    }
  }

  lemma RangeEmpty(mem: Mem, T: Tables, mem2: Mem, T': Tables, mem3: Mem, v: nat, p: nat, flags: nat)
    requires RangeMapped(mem, T, mem2, T', v, 0, p, flags) && Apart(mem3, T')
    requires forall u :: Entry(mem3, T', u) == Entry(mem2, T', u)
    ensures SameLookups(mem, T, mem3, T')
  {
    hide Entry, MkPte;
    forall u | 0 <= u < MAXVPN ensures Lookup(mem3, T', u) == Lookup(mem, T, u) {
      assert Entry(mem3, T', u) == Entry(mem2, T', u);
    }
  }

  /** One page off the list, then only tables: either the page is kept or given back. */
  lemma TookOne(T: Tables, free: seq<nat>, f: nat, free1: seq<nat>, T': Tables, free2: seq<nat>)
    requires free == [f] + free1 && f !in free1 && Took(T, free1, T', free2, {}) && f !in T.Values
    ensures Took(T, free, T', free2, {f}) && Took(T, free, T', [f] + free2, {})
    ensures f !in T'.Values && f !in free2
  {
    assert forall n :: n in T ==> T[n] in T.Values;
  }

  /** A step that only takes free pages keeps every owned frame, its content included. */
  lemma OwnedKept(lo: nat, hi: nat, mem: Mem, free: seq<nat>, T: Tables, mem': Mem, free': seq<nat>, T': Tables,
                  xs: set<nat>, a: nat, b: nat)
    requires Apart(mem, T) && Apart(mem', T') && Owned(lo, hi, mem, free, T, a, b) && hi <= |mem|
    requires Took(T, free, T', free', xs) && Untouched(mem, T, free, mem')
    requires forall u :: a <= u < b ==> Lookup(mem', T', u) == Lookup(mem, T, u)
    ensures Owned(lo, hi, mem', free', T', a, b)
    ensures forall u :: a <= u < b ==> (Mapped(mem', T', u) <==> Mapped(mem, T, u))
    ensures forall u :: a <= u < b && Mapped(mem, T, u) ==> Entry(mem', T', u) == Entry(mem, T, u)
    ensures forall u :: a <= u < b && Mapped(mem, T, u) ==>
      var f := Ppn(Entry(mem, T, u)); f < |mem| && f !in xs && mem'[f] == mem[f]
    ensures Frames(mem', T', a, b) == Frames(mem, T, a, b)
  {
    hide Entry, Ppn;
    assert forall n :: n in T ==> T[n] in T.Values;
    forall u | a <= u < b
      ensures Mapped(mem', T', u) <==> Mapped(mem, T, u)
      ensures Mapped(mem, T, u) ==> Entry(mem', T', u) == Entry(mem, T, u)
    {
      assert Lookup(mem', T', u) == Lookup(mem, T, u);
    }
    forall u | a <= u < b && Mapped(mem, T, u) ensures Ppn(Entry(mem, T, u)) !in T'.Values {
      assert Ppn(Entry(mem, T, u)) !in free && Ppn(Entry(mem, T, u)) !in T.Values;
    }
  }

  /** Adding one fresh page at b to an owned range. */
  lemma OwnedGrows(lo: nat, hi: nat, mem: Mem, free: seq<nat>, T: Tables, mem': Mem, free': seq<nat>, T': Tables,
                   f: nat, flags: nat, a: nat, b: nat)
    requires Apart(mem, T) && Owned(lo, hi, mem, free, T, a, b) && hi <= |mem| && a <= b < MAXVPN
    requires Took(T, free, T', free', {f}) && Untouched(mem, T, free, mem') && lo <= f < hi
    requires RangeMapped(mem, T, mem', T', b, 1, f, flags) && flags < 1024 && IsValid(flags)
    ensures Owned(lo, hi, mem', free', T', a, b + 1)
    ensures Frames(mem', T', a, b + 1) == Frames(mem, T, a, b) + {f}
    ensures Mapped(mem', T', b) && Entry(mem', T', b) == MkPte(f, flags)
    ensures Ppn(Entry(mem', T', b)) == f && Flags(Entry(mem', T', b)) == flags
    ensures forall u :: a <= u < b ==> (Mapped(mem', T', u) <==> Mapped(mem, T, u))
    ensures forall u :: a <= u < b && Mapped(mem, T, u) ==> Entry(mem', T', u) == Entry(mem, T, u)
    ensures forall u :: a <= u < b && Mapped(mem, T, u) ==>
      var g := Ppn(Entry(mem, T, u)); g < |mem| && mem'[g] == mem[g]
  {
    hide Entry, Ppn, MkPte, Flags, Frames, Untouched;
    OwnedKept(lo, hi, mem, free, T, mem', free', T', {f}, a, b);
    PteRoundTrip(f, flags);
    assert Lookup(mem', T', b) == MkPte(f, flags);
    FramesStep(mem', T', a, b);
    OwnedLast(lo, hi, mem', free', T', a, b, T, free, f);
  }

  /** A fresh frame at page b, over a..b. */
  lemma OwnedLast(lo: nat, hi: nat, mem': Mem, free': seq<nat>, T': Tables, a: nat, b: nat, T: Tables, free: seq<nat>,
                  f: nat)
    requires Apart(mem', T') && Owned(lo, hi, mem', free', T', a, b) && a <= b && lo <= f < hi
    requires Took(T, free, T', free', {f}) && Mapped(mem', T', b) && Ppn(Entry(mem', T', b)) == f
    requires forall u :: a <= u < b && Mapped(mem', T', u) ==> Ppn(Entry(mem', T', u)) != f
    ensures Owned(lo, hi, mem', free', T', a, b + 1)
  {
    hide Entry, Ppn;
    assert f in {f};
  }

  /** A range a..b that grew from state 0: each of its pages maps a zeroed frame of its own
      with the given flags, those frames and new tables are all that left the free list,
      and everything else is as it was. */
  ghost predicate Grown(lo: nat, hi: nat, mem0: Mem, T0: Tables, free0: seq<nat>,
                        mem: Mem, T: Tables, free: seq<nat>, a: nat, b: nat, flags: nat) {
    && SameOutside(mem0, T0, mem, T, a, b) && hi <= |mem|
    && Owned(lo, hi, mem, free, T, a, b)
    && Took(T0, free0, T, free, Frames(mem, T, a, b))
    && Untouched(mem0, T0, free0, mem)
    && forall u :: a <= u < b ==>
         && Mapped(mem, T, u) && Flags(Entry(mem, T, u)) == flags
         && Ppn(Entry(mem, T, u)) < |mem| && mem[Ppn(Entry(mem, T, u))] == Filled(0)
  }

  lemma GrownNone(lo: nat, hi: nat, mem: Mem, root: nat, T: Tables, free: seq<nat>, a: nat, b: nat, flags: nat)
    requires Tree(mem, root, T) && b <= a && hi <= |mem|
    ensures Apart(mem, T) && Grown(lo, hi, mem, T, free, mem, T, free, a, b, flags)
  {
    Unchanged(mem, root, T, free);
    assert Frames(mem, T, a, b) == {};
  }

  lemma GrownNext(lo: nat, hi: nat, mem0: Mem, T0: Tables, free0: seq<nat>,
                  mem: Mem, T: Tables, free: seq<nat>, a: nat, b: nat, flags: nat)
    requires Grown(lo, hi, mem0, T0, free0, mem, T, free, a, b, flags) && b < MAXVPN
    ensures Apart(mem, T) && Owned(lo, hi, mem, free, T, a, b)
    ensures Mapped(mem0, T0, b) <==> Mapped(mem, T, b)
  {
    hide Entry, Took, Untouched, Owned, Flags, Ppn;
    assert Lookup(mem, T, b) == Lookup(mem0, T0, b);
  }

  lemma GrownOwned(lo: nat, hi: nat, mem0: Mem, T0: Tables, free0: seq<nat>,
                   mem: Mem, T: Tables, free: seq<nat>, a: nat, b: nat, flags: nat)
    requires Grown(lo, hi, mem0, T0, free0, mem, T, free, a, b, flags)
    ensures Apart(mem, T) && Owned(lo, hi, mem, free, T, a, b)
  {
  }

  /** One more page mapped. */
  lemma GrownStep(lo: nat, hi: nat, mem0: Mem, T0: Tables, free0: seq<nat>, mem: Mem, T: Tables, free: seq<nat>,
                  a: nat, b: nat, flags: nat, mem': Mem, T': Tables, free': seq<nat>, f: nat)
    requires Grown(lo, hi, mem0, T0, free0, mem, T, free, a, b, flags) && a <= b < MAXVPN
    requires Took(T, free, T', free', {f}) && Untouched(mem, T, free, mem') && lo <= f < hi
    requires RangeMapped(mem, T, mem', T', b, 1, f, flags) && flags < 1024 && IsValid(flags)
    requires f < |mem'| && mem'[f] == Filled(0)
    ensures Grown(lo, hi, mem0, T0, free0, mem', T', free', a, b + 1, flags)
  {
    hide Entry, Took, Untouched, Owned, Flags, Ppn, Filled, MkPte;
    var xs := Frames(mem, T, a, b);
    OwnedGrows(lo, hi, mem, free, T, mem', free', T', f, flags, a, b);
    UntouchedTrans(mem0, T0, free0, mem, T, free, xs, mem');
    TookTrans(T0, free0, T, free, T', free', xs, {f});
    assert |mem'| == |mem| by { UntouchedSize(mem, T, free, mem'); }
  }

  lemma UntouchedSize(mem: Mem, T: Tables, free: seq<nat>, mem': Mem)
    requires Untouched(mem, T, free, mem')
    ensures |mem'| == |mem|
  {
  }

  /** A page that could not be mapped. */
  lemma GrownStuck(lo: nat, hi: nat, mem0: Mem, T0: Tables, free0: seq<nat>, mem: Mem, T: Tables, free: seq<nat>,
                   a: nat, b: nat, flags: nat, mem': Mem, T': Tables, free': seq<nat>)
    requires Grown(lo, hi, mem0, T0, free0, mem, T, free, a, b, flags) && a <= b && (b <= MAXVPN || a == b)
    requires Took(T, free, T', free', {}) && Untouched(mem, T, free, mem') && SameLookups(mem, T, mem', T')
    ensures Grown(lo, hi, mem0, T0, free0, mem', T', free', a, b, flags)
  {
    hide Entry, Took, Untouched, Owned, Flags, Ppn, Filled;
    var xs := Frames(mem, T, a, b);
    OwnedKept(lo, hi, mem, free, T, mem', free', T', {}, a, b);
    UntouchedTrans(mem0, T0, free0, mem, T, free, xs, mem');
    TookTrans(T0, free0, T, free, T', free', xs, {});
    assert xs + {} == xs;
    UntouchedSize(mem, T, free, mem');
  }

  /** Unmapping and freeing the grown range restores every translation and every frame. */
  lemma GrownUndone(lo: nat, hi: nat, mem0: Mem, T0: Tables, free0: seq<nat>, mem: Mem, T: Tables, free: seq<nat>,
                    a: nat, b: nat, flags: nat, mem': Mem, free': seq<nat>)
    requires Grown(lo, hi, mem0, T0, free0, mem, T, free, a, b, flags) && Apart(mem0, T0) && Apart(mem, T)
    requires forall u :: a <= u < b ==> !Mapped(mem0, T0, u)
    requires RangeCleared(mem, T, mem', T, a, b) && Freed(free, Frames(mem, T, a, b), free') && |mem'| == |mem|
    requires forall p :: 0 <= p < |mem'| && p !in T.Values && p !in free' ==> mem'[p] == mem[p]
    ensures SameLookups(mem0, T0, mem', T) && Took(T0, free0, T, free', {}) && Untouched(mem0, T0, free0, mem')
  {
    hide Entry, Owned, Flags, Ppn, Filled;
    TookBack(T0, free0, T, free, Frames(mem, T, a, b), free');
    assert forall n :: n in T0 ==> T0[n] in T0.Values;
  }

  /** uvmdealloc(): shrinks the range of owned pages and frees their frames; it panics when
      the range reaches beyond MAXVA or to a frame that is not allocatable memory. */
  method UvmDealloc(m: PhysMem, root: nat, ghost T: Tables, oldsz: nat, newsz: nat) returns (panic: bool, sz: nat)
    requires m.Valid() && TableOk(m, root, T)
    requires newsz < oldsz ==>
      && Apart(m.mem, T) && PagesFor(newsz) <= PagesFor(oldsz)
      && Freeable(m, T, PagesFor(newsz), FirstStop(m.lo, m.hi, m.mem, T, true, PagesFor(newsz), PagesFor(oldsz)))
    modifies m
    ensures Apart(old(m.mem), T) && (newsz < oldsz ==> PagesFor(newsz) <= PagesFor(oldsz))
    ensures panic <==>
      && newsz < oldsz
      && FirstStop(m.lo, m.hi, old(m.mem), T, true, PagesFor(newsz), PagesFor(oldsz)) < PagesFor(oldsz)
    ensures !panic ==> m.Valid() && TableOk(m, root, T) && |m.mem| == |old(m.mem)|
    ensures !panic ==> sz == if newsz < oldsz then newsz else oldsz
    ensures !panic ==> RangeCleared(old(m.mem), T, m.mem, T, PagesFor(newsz), PagesFor(oldsz))
    ensures !panic ==> Freed(old(m.free), Frames(old(m.mem), T, PagesFor(newsz), PagesFor(oldsz)), m.free)
    ensures !panic ==> forall p :: 0 <= p < |m.mem| && p !in T.Values && p !in m.free ==> m.mem[p] == old(m.mem)[p]
  {
    hide Entry, Owned, Tree, FirstStop;
    TreeIsApart(m.mem, root, T);
    ghost var mem0 := m.mem;
    panic, sz := false, oldsz;
    if newsz < oldsz {
      PagesForMono(newsz, oldsz);
      sz := newsz;
      if PagesFor(newsz) < PagesFor(oldsz) {
        panic := UvmUnmap(m, root, T, PagesFor(newsz), PagesFor(oldsz) - PagesFor(newsz), true);
        return;
      }
      NoStop(m.lo, m.hi, m.mem, T, true, PagesFor(oldsz));
    } else {
      PagesForMono(oldsz, newsz);
    }
    assert Frames(m.mem, T, PagesFor(newsz), PagesFor(oldsz)) == {};
  }

  lemma NoStop(lo: nat, hi: nat, mem: Mem, T: Tables, doFree: bool, a: nat)
    requires Apart(mem, T)
    ensures FirstStop(lo, hi, mem, T, doFree, a, a) == a
  {
  }

  /** The first page of a..b at which growing panics, b for none. */
  ghost function FirstClash(mem: Mem, T: Tables, a: nat, b: nat): (r: nat)
    requires Apart(mem, T) && a <= b
    ensures a <= r <= b && (r < b ==> Clashes(mem, T, r))
    ensures (forall u :: a <= u < r ==> !Clashes(mem, T, u)) && (r > a ==> r <= MAXVPN)
    decreases b - a
  {
    if a == b || Clashes(mem, T, a) then a else FirstClash(mem, T, a + 1, b)
  }

  /** Pages that growing over a..b takes: a frame for each page, and the missing tables. */
  ghost function Need(T: Tables, a: nat, b: nat): nat
    requires a <= b
  {
    b - a + Lacking(T, Paths(a, b))
  }

  /** How growing over a..b ends with n pages free: it stops at the first page that clashes
      if memory lasts to there and one page more. */
  ghost function GrowOutcome(mem: Mem, T: Tables, n: nat, a: nat, b: nat): Outcome
    requires Apart(mem, T) && a <= b
  {
    var c := FirstClash(mem, T, a, b);
    if c < b then if n > Need(T, a, c) then Panicked else Failed
    else if n >= Need(T, a, b) then Done else Failed
  }

  lemma {:induction false} PathsFew(a: nat, b: nat)
    requires a <= b
    ensures |Paths(a, b)| <= 2 * (b - a)
    decreases b
  {
    if a < b {
      PathsFew(a, b - 1);
      UnionFew(Paths(a, b - 1), Path(b - 1));
    }
  }

  lemma UnionFew(x: set<Node>, y: set<Node>)
    ensures |x + y| <= |x| + |y|
  {
  }

  /** Growing over unmapped pages below MAXVA cannot fail with three free pages for each of them,
      and cannot succeed with less than one. */
  lemma GrowEnough(mem: Mem, T: Tables, n: nat, a: nat, b: nat)
    requires Apart(mem, T) && a <= b <= MAXVPN && forall u :: a <= u < b ==> !Mapped(mem, T, u)
    ensures n >= 3 * (b - a) ==> GrowOutcome(mem, T, n, a, b) == Done
    ensures n < b - a ==> GrowOutcome(mem, T, n, a, b) == Failed
  {
    hide Mapped, Paths;
    var c := FirstClash(mem, T, a, b);
    PathsFew(a, b);
    SubsetSize(Paths(a, b) - T.Keys, Paths(a, b));
  }

  /** What page a takes, and what that says about growing over a..b. */
  lemma GrowMore(mem: Mem, T: Tables, free0: seq<nat>, T1: Tables, free1: seq<nat>, start: nat, a: nat, c: nat, b: nat)
    requires Apart(mem, T) && start <= a <= c && a < b && c == FirstClash(mem, T, start, b)
    requires Spent(T, free0, T1, free1, Paths(start, a), a - start)
    ensures a == c <==> Clashes(mem, T, a)
    ensures |free1| > 0 <==> |free0| > Need(T, start, a)
    ensures a < c ==> Need(T, start, a + 1) <= Need(T, start, c)
    ensures |free1| > Lacking(T1, Path(a)) <==> |free0| >= Need(T, start, a + 1)
    ensures forall T2, free2: seq<nat> :: Spent(T1, free1, T2, free2, Path(a), 1) ==>
      Spent(T, free0, T2, free2, Paths(start, a + 1), a + 1 - start)
  {
    hide Clashes, Lacking, Path, Spent;
    SpentMore(T, free0, T1, free1, Paths(start, a), a - start, Path(a));
    if a < c {
      PathsMono(start, a + 1, c);
      LackingMore(T, Paths(start, a + 1), Paths(start, c));
    }
  }

  lemma GrowEnd(mem: Mem, T: Tables, free0: seq<nat>, T1: Tables, free1: seq<nat>, start: nat, b: nat)
    requires Apart(mem, T) && start <= b == FirstClash(mem, T, start, b)
    requires Spent(T, free0, T1, free1, Paths(start, b), b - start)
    ensures GrowOutcome(mem, T, |free0|, start, b) == Done
  {
    hide FirstClash;
    SpentMore(T, free0, T1, free1, Paths(start, b), b - start, {});
  }

  lemma OwnedCap(lo: nat, hi: nat, mem: Mem, free: seq<nat>, T: Tables, a: nat, b: nat)
    requires Apart(mem, T) && Owned(lo, hi, mem, free, T, a, b)
    ensures Owned(lo, hi, mem, free, T, a, if b < MAXVPN then b else MAXVPN)
  {
    hide Entry, Ppn;
  }

  lemma NotClashed(mem: Mem, T: Tables, start: nat, a: nat, b: nat)
    requires Apart(mem, T) && start <= a <= b && a <= FirstClash(mem, T, start, b)
    ensures forall u :: start <= u < a ==> !Mapped(mem, T, u)
  {
    hide Mapped;
    forall u: nat | start <= u < a ensures !Mapped(mem, T, u) { assert !Clashes(mem, T, u); }
  }

  /** uvmalloc(): on success the pages from PGROUNDUP(oldsz) up to newsz map zeroed frames
      of their own; on failure every translation is as before and all frames are back. */
  method UvmAlloc(m: PhysMem, root: nat, ghost T: Tables, oldsz: nat, newsz: nat, xperm: nat)
    returns (out: Outcome, sz: nat, ghost T': Tables)
    requires m.Valid() && TableOk(m, root, T) && xperm in {0, PTE_W, PTE_X, PTE_W + PTE_X}
    modifies m
    ensures newsz < oldsz ==> out == Done && sz == oldsz && T' == T && m.mem == old(m.mem) && m.free == old(m.free)
    ensures newsz >= oldsz ==>
      && Apart(old(m.mem), T) && PagesFor(oldsz) <= PagesFor(newsz)
      && out == GrowOutcome(old(m.mem), T, |old(m.free)|, PagesFor(oldsz), PagesFor(newsz))
    ensures out != Panicked ==> m.Valid() && TableOk(m, root, T') && Untouched(old(m.mem), T, old(m.free), m.mem)
    ensures out == Failed ==> sz == 0 && SameLookups(old(m.mem), T, m.mem, T') && Took(T, old(m.free), T', m.free, {})
    ensures newsz >= oldsz && out == Done ==>
      && sz == newsz
      && Grown(m.lo, m.hi, old(m.mem), T, old(m.free), m.mem, T', m.free,
               PagesFor(oldsz), PagesFor(newsz), PTE_V + PTE_R + PTE_U + xperm)
  {
    hide Tree, Took, Untouched, SameLookups, RangeMapped, Grown, Filled, Owned, Frames, PagesFor, Spent, Lacking,
      Path, FirstClash, Clashes, FirstStop, Mapped, Need, Paths;
    T', out, sz := T, Done, oldsz;
    var start := PagesFor(oldsz);
    var perm := PTE_R + PTE_U + xperm;
    Unchanged(m.mem, root, T, m.free);
    TreeIsApart(m.mem, root, T);
    if newsz < oldsz {
      return;
    }
    ghost var mem0, free0 := m.mem, m.free;
    GrownNone(m.lo, m.hi, m.mem, root, T, m.free, start, start, PTE_V + perm);
    PagesForMono(oldsz, newsz);
    ghost var c := FirstClash(m.mem, T, start, PagesFor(newsz));
    SpentNone(T, m.free);
    var a := start;
    PagesForBound(a, newsz);
    while a * PGSIZE < newsz
      invariant start <= a <= c && out == Done
      invariant a * PGSIZE < newsz <==> a < PagesFor(newsz)
      invariant m.Valid() && TableOk(m, root, T')
      invariant Grown(m.lo, m.hi, mem0, T, free0, m.mem, T', m.free, start, a, PTE_V + perm)
      invariant Spent(T, free0, T', m.free, Paths(start, a), a - start)
    {
      GrowMore(mem0, T, free0, T', m.free, start, a, c, PagesFor(newsz));
      out, T' := GrowPage(m, root, T, T', mem0, free0, start, a, perm);
      if out == Panicked {
        return;
      }
      if out == Failed {
        GrownOwned(m.lo, m.hi, mem0, T, free0, m.mem, T', m.free, start, a, PTE_V + perm);
        sz := 0;
        ghost var mem2, free2 := m.mem, m.free;
        PagesForBound(a, 0);
        PagesForBound(start, 0);
        OwnedCap(m.lo, m.hi, m.mem, m.free, T', start, a);
        StopAtMax(m.lo, m.hi, m.mem, m.free, T', true, start, a);
        var panic, back := UvmDealloc(m, root, T', a * PGSIZE, start * PGSIZE);
        NotClashed(mem0, T, start, a, PagesFor(newsz));
        GrownUndone(m.lo, m.hi, mem0, T, free0, mem2, T', free2, start, a, PTE_V + perm, m.mem, m.free);
        return;
      }
      a := a + 1;
      PagesForBound(a, newsz);
    }
    GrowEnd(mem0, T, free0, T', m.free, start, a);
    GrownUntouched(m.lo, m.hi, mem0, T, free0, m.mem, T', m.free, start, a, PTE_V + perm);
    sz := newsz;
  }

  /** One turn of uvmalloc's loop. */
  method GrowPage(m: PhysMem, root: nat, ghost T: Tables, ghost T1: Tables, ghost mem0: Mem, ghost free0: seq<nat>,
                  ghost start: nat, a: nat, perm: nat)
    returns (out: Outcome, ghost T': Tables)
    requires m.Valid() && TableOk(m, root, T1) && perm % 2 == 0 && perm < 1023 && start <= a
    requires (a <= MAXVPN || a == start)
    requires Grown(m.lo, m.hi, mem0, T, free0, m.mem, T1, m.free, start, a, PTE_V + perm) && Apart(mem0, T)
    modifies m
    ensures out == Panicked <==> Clashes(mem0, T, a) && old(m.free) != []
    ensures out == Done <==> !Clashes(mem0, T, a) && |old(m.free)| > Lacking(T1, Path(a))
    ensures out != Panicked ==> m.Valid() && TableOk(m, root, T')
    ensures out != Panicked ==>
      Grown(m.lo, m.hi, mem0, T, free0, m.mem, T', m.free, start, if out == Done then a + 1 else a, PTE_V + perm)
    ensures out == Done ==> Spent(T1, old(m.free), T', m.free, Path(a), 1)
  {
    hide Tree, Took, Untouched, SameLookups, RangeMapped, Grown, Filled, Owned, Frames, Spent, Lacking, Path, Mapped;
    if a < MAXVPN {
      GrownNext(m.lo, m.hi, mem0, T, free0, m.mem, T1, m.free, start, a, PTE_V + perm);
    }
    ghost var mem1, free1 := m.mem, m.free;
    var f;
    out, f, T' := MapFresh(m, root, T1, a, perm, Filled(0));
    if out == Done {
      GrownStep(m.lo, m.hi, mem0, T, free0, mem1, T1, free1, start, a, PTE_V + perm, m.mem, T', m.free, f);
    } else if out == Failed {
      GrownStuck(m.lo, m.hi, mem0, T, free0, mem1, T1, free1, start, a, PTE_V + perm, m.mem, T', m.free);
    }
  }

  lemma GrownUntouched(lo: nat, hi: nat, mem0: Mem, T0: Tables, free0: seq<nat>,
                       mem: Mem, T: Tables, free: seq<nat>, a: nat, b: nat, flags: nat)
    requires Grown(lo, hi, mem0, T0, free0, mem, T, free, a, b, flags)
    ensures Untouched(mem0, T0, free0, mem)
  {
  }

  /** Giving back exactly what was taken. */
  lemma TookBack(T: Tables, free: seq<nat>, T': Tables, free1: seq<nat>, xs: set<nat>, free2: seq<nat>)
    requires Took(T, free, T', free1, xs) && Freed(free1, xs, free2)
    ensures Took(T, free, T', free2, {})
  {
    assert forall n :: n in T' ==> T'[n] in T'.Values;
  }

  /** vmfault(): a page below sz that is not mapped yet gets a zeroed frame. It panics
      exactly when va is below sz but not below MAXVA. */
  method VmFault(m: PhysMem, root: nat, ghost T: Tables, va: nat, sz: nat) returns (panic: bool, f: nat,
                 ghost T': Tables)
    requires m.Valid() && TableOk(m, root, T)
    modifies m
    ensures panic <==> MAXVPN * PGSIZE <= va < sz
    ensures !panic ==>
      && Apart(old(m.mem), T)
      && (f != 0 <==> va < sz && !Mapped(old(m.mem), T, va / PGSIZE) && |old(m.free)| > Lacking(T, Path(va / PGSIZE)))
    ensures !panic ==> m.Valid() && TableOk(m, root, T') && Untouched(old(m.mem), T, old(m.free), m.mem)
    ensures !panic && f == 0 ==> SameLookups(old(m.mem), T, m.mem, T') && Took(T, old(m.free), T', m.free, {})
    ensures !panic && f != 0 ==>
      && Took(T, old(m.free), T', m.free, {f}) && m.lo <= f < m.hi && f < |m.mem| && m.mem[f] == Filled(0)
    ensures !panic && f != 0 ==>
      RangeMapped(old(m.mem), T, m.mem, T', va / PGSIZE, 1, f, PTE_V + PTE_R + PTE_W + PTE_U)
  {
    hide Took, SameLookups, RangeMapped, Filled, Tree, Lacking, Path, Spent;
    T', panic, f := T, false, 0;
    Unchanged(m.mem, root, T, m.free);
    TreeIsApart(m.mem, root, T);
    if va >= sz {
      return;
    }
    var v := va / PGSIZE;
    if v >= MAXVPN {
      panic := true;
      return;
    }
    var found, page, idx;
    ghost var T1;
    found, page, idx, T1 := Walk(m, root, T, v, false);  // ismapped()
    SlotIsEntry(m.mem, root, T, v, found, page, idx);
    if found && IsValid(m.mem[page].w[idx]) {
      return;
    }
    var out;
    out, f, T' := MapFresh(m, root, T, v, PTE_W + PTE_U + PTE_R, Filled(0));
    if out == Failed {
      f := 0;
    }
  }

  // ---------- fork ----------

  /** Parent and child share no table, and nothing the parent maps below b is free or a
      table of the child. */
  ghost predicate ParentOk(mem: Mem, P: Tables, C: Tables, free: seq<nat>, b: nat)
    requires Apart(mem, P)
  {
    && (forall n :: n in P ==> P[n] !in free && P[n] !in C.Values)
    && (forall u :: 0 <= u < b && Mapped(mem, P, u) ==>
          var f := Ppn(Entry(mem, P, u)); f < |mem| && f !in free && f !in C.Values)
  }

  /** The child after b pages: it maps what the parent maps, with the same flags and the
      same bytes, in frames of its own that came off the free list. */
  ghost predicate Copied(lo: nat, hi: nat, mem0: Mem, P: Tables, C0: Tables, free0: seq<nat>,
                         mem: Mem, C: Tables, free: seq<nat>, b: nat) {
    && Apart(mem0, P) && SameOutside(mem0, C0, mem, C, 0, b) && hi <= |mem|
    && Owned(lo, hi, mem, free, C, 0, b)
    && Took(C0, free0, C, free, Frames(mem, C, 0, b))
    && Untouched(mem0, C0, free0, mem)
    && forall u :: 0 <= u < b ==>
         && (Mapped(mem, C, u) <==> Mapped(mem0, P, u))
         && (Mapped(mem0, P, u) ==> PageCopied(mem0, Entry(mem0, P, u), mem, Entry(mem, C, u)))
  }

  ghost predicate PageCopied(mem0: Mem, pte0: nat, mem: Mem, pte: nat) {
    && Flags(pte) == Flags(pte0)
    && Ppn(pte) < |mem| && Ppn(pte0) < |mem0| && mem[Ppn(pte)] == mem0[Ppn(pte0)]
  }

  /** The parent's tree and frames are out of reach of the copy. */
  lemma ParentKept(lo: nat, hi: nat, mem0: Mem, rootP: nat, P: Tables, C0: Tables, free0: seq<nat>,
                   mem: Mem, C: Tables, free: seq<nat>, b: nat, top: nat)
    requires Copied(lo, hi, mem0, P, C0, free0, mem, C, free, b) && ParentOk(mem0, P, C0, free0, top)
    requires Tree(mem0, rootP, P)
    ensures Tree(mem, rootP, P) && forall u :: Entry(mem, P, u) == Entry(mem0, P, u)
    ensures forall n :: n in P ==> P[n] !in free
    ensures forall u :: 0 <= u < top && Mapped(mem0, P, u) ==>
      var f := Ppn(Entry(mem0, P, u)); f < |mem| && mem[f] == mem0[f]
  {
    hide Entry, Ppn, Owned, NodeOk;
    TreeFrame(mem0, rootP, P, mem);
  }

  lemma CopiedNone(lo: nat, hi: nat, mem: Mem, P: Tables, rootC: nat, C: Tables, free: seq<nat>)
    requires Tree(mem, rootC, C) && Apart(mem, P) && hi <= |mem|
    ensures Copied(lo, hi, mem, P, C, free, mem, C, free, 0)
  {
    Unchanged(mem, rootC, C, free);
    assert Frames(mem, C, 0, 0) == {};
  }

  lemma CopiedNext(lo: nat, hi: nat, mem0: Mem, P: Tables, C0: Tables, free0: seq<nat>,
                   mem: Mem, C: Tables, free: seq<nat>, b: nat)
    requires Copied(lo, hi, mem0, P, C0, free0, mem, C, free, b)
    ensures Apart(mem, C) && Owned(lo, hi, mem, free, C, 0, b)
    ensures b < MAXVPN ==> (Mapped(mem0, C0, b) <==> Mapped(mem, C, b))
  {
    hide Entry, Took, Untouched, Owned, Flags, Ppn;
    assert b < MAXVPN ==> Lookup(mem, C, b) == Lookup(mem0, C0, b);
  }

  /** A page the parent does not map. */
  lemma CopiedSkip(lo: nat, hi: nat, mem0: Mem, P: Tables, C0: Tables, free0: seq<nat>,
                   mem: Mem, C: Tables, free: seq<nat>, b: nat)
    requires Copied(lo, hi, mem0, P, C0, free0, mem, C, free, b) && b < MAXVPN
    requires !Mapped(mem0, P, b) && !Mapped(mem0, C0, b)
    ensures Copied(lo, hi, mem0, P, C0, free0, mem, C, free, b + 1)
  {
    CopiedNext(lo, hi, mem0, P, C0, free0, mem, C, free, b);
    hide Entry, Took, Untouched, Flags, Ppn, PageCopied, Owned;
    OwnedSkip(lo, hi, mem, free, C, b);
    FramesStep(mem, C, 0, b);
  }

  lemma OwnedSkip(lo: nat, hi: nat, mem: Mem, free: seq<nat>, C: Tables, b: nat)
    requires Apart(mem, C) && Owned(lo, hi, mem, free, C, 0, b) && b < MAXVPN && !Mapped(mem, C, b)
    ensures Owned(lo, hi, mem, free, C, 0, b + 1)
  {
    hide Entry;
  }

  /** A page the parent maps, copied into frame f. */
  lemma CopiedStep(lo: nat, hi: nat, mem0: Mem, P: Tables, C0: Tables, free0: seq<nat>, mem: Mem, C: Tables,
                   free: seq<nat>,
                   b: nat, mem': Mem, C': Tables, free': seq<nat>, f: nat)
    requires Copied(lo, hi, mem0, P, C0, free0, mem, C, free, b) && b < MAXVPN && Mapped(mem0, P, b)
    requires Took(C, free, C', free', {f}) && Untouched(mem, C, free, mem') && lo <= f < hi
    requires var pte := Entry(mem0, P, b);
      && RangeMapped(mem, C, mem', C', b, 1, f, Flags(pte)) && Ppn(pte) < |mem0|
      && f < |mem'| && mem'[f] == mem0[Ppn(pte)]
    ensures Copied(lo, hi, mem0, P, C0, free0, mem', C', free', b + 1)
  {
    hide Entry, Took, Untouched, Owned, Flags, Ppn, MkPte;
    var pte := Entry(mem0, P, b);
    FlagsValid(pte);
    var xs := Frames(mem, C, 0, b);
    OwnedGrows(lo, hi, mem, free, C, mem', free', C', f, Flags(pte), 0, b);
    UntouchedTrans(mem0, C0, free0, mem, C, free, xs, mem');
    TookTrans(C0, free0, C, free, C', free', xs, {f});
    UntouchedSize(mem, C, free, mem');
  }

  lemma CopiedStuck(lo: nat, hi: nat, mem0: Mem, P: Tables, C0: Tables, free0: seq<nat>, mem: Mem, C: Tables,
                    free: seq<nat>,
                    b: nat, mem': Mem, C': Tables, free': seq<nat>)
    requires Copied(lo, hi, mem0, P, C0, free0, mem, C, free, b) && b <= MAXVPN
    requires Took(C, free, C', free', {}) && Untouched(mem, C, free, mem') && SameLookups(mem, C, mem', C')
    ensures Copied(lo, hi, mem0, P, C0, free0, mem', C', free', b)
  {
    hide Entry, Took, Untouched, Owned, Flags, Ppn;
    var xs := Frames(mem, C, 0, b);
    OwnedKept(lo, hi, mem, free, C, mem', free', C', {}, 0, b);
    UntouchedTrans(mem0, C0, free0, mem, C, free, xs, mem');
    TookTrans(C0, free0, C, free, C', free', xs, {});
    assert xs + {} == xs;
    UntouchedSize(mem, C, free, mem');
  }

  lemma CopiedUndone(lo: nat, hi: nat, mem0: Mem, P: Tables, C0: Tables, free0: seq<nat>, mem: Mem, C: Tables,
                     free: seq<nat>,
                     b: nat, mem': Mem, free': seq<nat>)
    requires Copied(lo, hi, mem0, P, C0, free0, mem, C, free, b) && Apart(mem0, C0) && Apart(mem, C)
    requires forall u :: 0 <= u < b ==> !Mapped(mem0, C0, u)
    requires RangeCleared(mem, C, mem', C, 0, b) && Freed(free, Frames(mem, C, 0, b), free') && |mem'| == |mem|
    requires forall p :: 0 <= p < |mem'| && p !in C.Values && p !in free' ==> mem'[p] == mem[p]
    ensures SameLookups(mem0, C0, mem', C) && Took(C0, free0, C, free', {}) && Untouched(mem0, C0, free0, mem')
  {
    hide Entry, Owned, Flags, Ppn, PageCopied;
    TookBack(C0, free0, C, free, Frames(mem, C, 0, b), free');
    assert forall n :: n in C0 ==> C0[n] in C0.Values;
  }

  /** Where uvmcopy() panics: in walk() beyond MAXVA, or where both spaces map the page. */
  ghost predicate CopyClashes(mem: Mem, P: Tables, C: Tables, u: nat)
    requires Apart(mem, P) && Apart(mem, C)
  {
    u >= MAXVPN || (Mapped(mem, P, u) && Mapped(mem, C, u))
  }

  ghost function FirstCopyClash(mem: Mem, P: Tables, C: Tables, a: nat, b: nat): (r: nat)
    requires Apart(mem, P) && Apart(mem, C) && a <= b
    ensures a <= r <= b && (r < b ==> CopyClashes(mem, P, C, r))
    ensures (forall u :: a <= u < r ==> !CopyClashes(mem, P, C, u)) && (r > a ==> r <= MAXVPN)
    decreases b - a
  {
    if a == b || CopyClashes(mem, P, C, a) then a else FirstCopyClash(mem, P, C, a + 1, b)
  }

  /** The tables on the way to the pages below b that the parent maps, and their number. */
  ghost function CopyPaths(mem: Mem, P: Tables, b: nat): set<Node>
    requires Apart(mem, P)
  {
    if b == 0 then {} else CopyPaths(mem, P, b - 1) + if Mapped(mem, P, b - 1) then Path(b - 1) else {}
  }

  ghost function CopyPages(mem: Mem, P: Tables, b: nat): nat
    requires Apart(mem, P)
  {
    if b == 0 then 0 else CopyPages(mem, P, b - 1) + if Mapped(mem, P, b - 1) then 1 else 0
  }

  /** Pages that copying the first b pages takes. */
  ghost function CopyNeed(mem: Mem, P: Tables, C: Tables, b: nat): nat
    requires Apart(mem, P)
  {
    CopyPages(mem, P, b) + Lacking(C, CopyPaths(mem, P, b))
  }

  /** How copying b pages ends with n pages free. */
  ghost function CopyOutcome(mem: Mem, P: Tables, C: Tables, n: nat, b: nat): Outcome
    requires Apart(mem, P) && Apart(mem, C)
  {
    var c := FirstCopyClash(mem, P, C, 0, b);
    if c < b then
      if n > CopyNeed(mem, P, C, c) || (c >= MAXVPN && n == CopyNeed(mem, P, C, c)) then Panicked else Failed
    else if n >= CopyNeed(mem, P, C, b) then Done else Failed
  }

  ghost function MappedBelow(mem: Mem, P: Tables, b: nat): set<int>
    requires Apart(mem, P)
  {
    set u | 0 <= u < b && Mapped(mem, P, u)
  }

  lemma MappedNext(mem: Mem, P: Tables, b: nat)
    requires Apart(mem, P) && b > 0
    ensures |MappedBelow(mem, P, b)| == |MappedBelow(mem, P, b - 1)| + if Mapped(mem, P, b - 1) then 1 else 0
  {
    hide Mapped;
    assert MappedBelow(mem, P, b) == MappedBelow(mem, P, b - 1) + if Mapped(mem, P, b - 1) then {b - 1} else {};
  }

  lemma {:induction false} CopyPagesAre(mem: Mem, P: Tables, b: nat)
    requires Apart(mem, P)
    ensures CopyPages(mem, P, b) == |MappedBelow(mem, P, b)|
    ensures |CopyPaths(mem, P, b)| <= 2 * CopyPages(mem, P, b)
  {
    if b > 0 {
      CopyPagesAre(mem, P, b - 1);
      MappedNext(mem, P, b);
      hide Mapped, MappedBelow;
      UnionFew(CopyPaths(mem, P, b - 1), Path(b - 1));
    }
  }

  /** Copying into an empty space cannot fail with three free pages for each page the parent
      maps, and cannot succeed with less than one. */
  lemma CopyEnough(mem: Mem, P: Tables, C: Tables, n: nat, b: nat)
    requires Apart(mem, P) && Apart(mem, C) && b <= MAXVPN && forall u :: 0 <= u < b ==> !Mapped(mem, C, u)
    ensures n >= 3 * |MappedBelow(mem, P, b)| ==> CopyOutcome(mem, P, C, n, b) == Done
    ensures n < |MappedBelow(mem, P, b)| ==> CopyOutcome(mem, P, C, n, b) == Failed
  {
    CopyPagesAre(mem, P, b);
    hide Mapped, CopyPages, CopyPaths, MappedBelow;
    var c := FirstCopyClash(mem, P, C, 0, b);
    SubsetSize(CopyPaths(mem, P, b) - C.Keys, CopyPaths(mem, P, b));
  }

  lemma {:induction false} CopyNeedMono(mem: Mem, P: Tables, C: Tables, a: nat, b: nat)
    requires Apart(mem, P) && a <= b
    ensures CopyPaths(mem, P, a) <= CopyPaths(mem, P, b) && CopyPages(mem, P, a) <= CopyPages(mem, P, b)
    ensures CopyNeed(mem, P, C, a) <= CopyNeed(mem, P, C, b)
    decreases b
  {
    hide Lacking, Path;
    if a < b {
      CopyNeedMono(mem, P, C, a, b - 1);
    }
    LackingMore(C, CopyPaths(mem, P, a), CopyPaths(mem, P, b));
  }

  /** uvmcopy() */
  method UvmCopy(m: PhysMem, rootP: nat, ghost P: Tables, rootC: nat, ghost C: Tables, sz: nat)
    returns (out: Outcome, ghost C': Tables)
    requires m.Valid() && TableOk(m, rootP, P) && TableOk(m, rootC, C) && Apart(m.mem, P) && Apart(m.mem, C)
    requires ParentOk(m.mem, P, C, m.free, MAXVPN)
    requires forall u :: 0 <= u < MAXVPN && Mapped(m.mem, C, u) ==> Mapped(m.mem, P, u)
    modifies m
    ensures Apart(old(m.mem), P) && Apart(old(m.mem), C)
    ensures out == CopyOutcome(old(m.mem), P, C, |old(m.free)|, PagesFor(sz))
    ensures out != Panicked ==> m.Valid() && TableOk(m, rootC, C') && TableOk(m, rootP, P)
    ensures out == Done ==> Copied(m.lo, m.hi, old(m.mem), P, C, old(m.free), m.mem, C', m.free, PagesFor(sz))
    ensures out == Failed ==> SameLookups(old(m.mem), C, m.mem, C') && Took(C, old(m.free), C', m.free, {})
    ensures out != Panicked ==> Untouched(old(m.mem), C, old(m.free), m.mem)
  {
    hide Tree, Took, Untouched, SameLookups, Copied, Frames, ParentOk, PagesFor, Entry, Owned, Mapped, Lacking, Path,
      FirstCopyClash, CopyClashes, Spent, CopyPages, CopyPaths, CopyNeed, FirstStop;
    out, C' := Done, C;
    ghost var mem0, free0 := m.mem, m.free;
    ghost var c := FirstCopyClash(mem0, P, C, 0, PagesFor(sz));
    CopyStart(m.lo, m.hi, m.mem, P, rootC, C, m.free);
    var i := 0;
    PagesForBound(i, sz);
    while i * PGSIZE < sz
      invariant 0 <= i <= c && out == Done
      invariant i * PGSIZE < sz <==> i < PagesFor(sz)
      invariant m.Valid() && TableOk(m, rootC, C')
      invariant Copied(m.lo, m.hi, mem0, P, C, free0, m.mem, C', m.free, i)
      invariant Spent(C, free0, C', m.free, CopyPaths(mem0, P, i), CopyPages(mem0, P, i))
    {
      CopyMore(mem0, P, C, free0, C', m.free, i, c, PagesFor(sz));
      out, C' := CopyPage(m, rootP, P, rootC, C, C', mem0, free0, i);
      if out == Panicked {
        return;
      }
      if out == Failed {
        CopyFree(mem0, P, C, i, PagesFor(sz));
        UndoCopy(m, rootP, P, rootC, C, C', mem0, free0, i);
        return;
      }
      i := i + 1;
      PagesForBound(i, sz);
    }
    CopyEnd(mem0, P, C, free0, C', m.free, i);
    ParentKept(m.lo, m.hi, mem0, rootP, P, C, free0, m.mem, C', m.free, i, MAXVPN);
    CopiedUntouched(m.lo, m.hi, mem0, P, C, free0, m.mem, C', m.free, i);
  }

  /** uvmcopy()'s err exit. */
  method UndoCopy(m: PhysMem, rootP: nat, ghost P: Tables, rootC: nat, ghost C: Tables, ghost C': Tables,
                  ghost mem0: Mem, ghost free0: seq<nat>, i: nat)
    requires m.Valid() && TableOk(m, rootC, C') && Tree(mem0, rootP, P) && Apart(mem0, P) && Apart(mem0, C)
    requires ParentOk(mem0, P, C, free0, MAXVPN) && (forall n :: n in P ==> m.lo <= P[n] < m.hi)
    requires Copied(m.lo, m.hi, mem0, P, C, free0, m.mem, C', m.free, i) && i <= MAXVPN
    requires forall u :: 0 <= u < i ==> !Mapped(mem0, C, u)
    modifies m
    ensures m.Valid() && TableOk(m, rootC, C') && TableOk(m, rootP, P)
    ensures SameLookups(mem0, C, m.mem, C') && Took(C, free0, C', m.free, {}) && Untouched(mem0, C, free0, m.mem)
  {
    hide Tree, Took, Untouched, SameLookups, Copied, Frames, ParentOk, Entry, Owned, Mapped, FirstStop;
    CopiedNext(m.lo, m.hi, mem0, P, C, free0, m.mem, C', m.free, i);
    ghost var mem2, free2 := m.mem, m.free;
    StopAtMax(m.lo, m.hi, m.mem, m.free, C', true, 0, i);
    var panic := UvmUnmap(m, rootC, C', 0, i, true);
    CopiedUndone(m.lo, m.hi, mem0, P, C, free0, mem2, C', free2, i, m.mem, m.free);
    ParentAfterFailure(mem0, rootP, P, C, free0, C', m.mem, m.free, MAXVPN);
  }

  lemma CopyStart(lo: nat, hi: nat, mem: Mem, P: Tables, rootC: nat, C: Tables, free: seq<nat>)
    requires Tree(mem, rootC, C) && Apart(mem, P) && hi <= |mem|
    ensures Copied(lo, hi, mem, P, C, free, mem, C, free, 0)
    ensures Spent(C, free, C, free, CopyPaths(mem, P, 0), CopyPages(mem, P, 0))
  {
    CopiedNone(lo, hi, mem, P, rootC, C, free);
    SpentNone(C, free);
  }

  /** Below the first clash the child maps nothing yet. */
  lemma CopyFree(mem: Mem, P: Tables, C: Tables, i: nat, b: nat)
    requires Apart(mem, P) && Apart(mem, C) && i <= b && i <= FirstCopyClash(mem, P, C, 0, b)
    requires forall u :: 0 <= u < MAXVPN && Mapped(mem, C, u) ==> Mapped(mem, P, u)
    ensures forall u :: 0 <= u < i ==> !Mapped(mem, C, u)
  {
    hide Mapped;
    forall u: nat | u < i ensures !Mapped(mem, C, u) { assert !CopyClashes(mem, P, C, u); }
  }

  /** What page i takes, and what that says about the whole copy. */
  lemma CopyMore(mem: Mem, P: Tables, C: Tables, free0: seq<nat>, C1: Tables, free1: seq<nat>, i: nat, c: nat, b: nat)
    requires Apart(mem, P) && Apart(mem, C) && i <= c <= b && c == FirstCopyClash(mem, P, C, 0, b) && i < b
    requires Spent(C, free0, C1, free1, CopyPaths(mem, P, i), CopyPages(mem, P, i))
    ensures i == c <==> CopyClashes(mem, P, C, i)
    ensures |free1| > 0 <==> |free0| > CopyNeed(mem, P, C, i)
    ensures |free0| >= CopyNeed(mem, P, C, i)
    ensures i < c ==> CopyNeed(mem, P, C, i + 1) <= CopyNeed(mem, P, C, c)
    ensures Mapped(mem, P, i) ==> (|free1| > Lacking(C1, Path(i)) <==> |free0| >= CopyNeed(mem, P, C, i + 1))
    ensures Mapped(mem, P, i) ==> forall C2, free2: seq<nat> :: Spent(C1, free1, C2, free2, Path(i), 1) ==>
      Spent(C, free0, C2, free2, CopyPaths(mem, P, i + 1), CopyPages(mem, P, i + 1))
    ensures !Mapped(mem, P, i) ==> Spent(C, free0, C1, free1, CopyPaths(mem, P, i + 1), CopyPages(mem, P, i + 1))
  {
    hide Mapped, Lacking, Path, Spent;
    SpentMore(C, free0, C1, free1, CopyPaths(mem, P, i), CopyPages(mem, P, i), Path(i));
    assert !Mapped(mem, P, i) ==> CopyPaths(mem, P, i + 1) == CopyPaths(mem, P, i);
    if i < c {
      CopyNeedMono(mem, P, C, i + 1, c);
    }
  }

  lemma CopyEnd(mem: Mem, P: Tables, C: Tables, free0: seq<nat>, C1: Tables, free1: seq<nat>, b: nat)
    requires Apart(mem, P) && Apart(mem, C) && b == FirstCopyClash(mem, P, C, 0, b)
    requires Spent(C, free0, C1, free1, CopyPaths(mem, P, b), CopyPages(mem, P, b))
    ensures CopyOutcome(mem, P, C, |free0|, b) == Done
  {
    hide FirstCopyClash, CopyPaths, CopyPages;
    SpentMore(C, free0, C1, free1, CopyPaths(mem, P, b), CopyPages(mem, P, b), {});
  }

  /** One turn of uvmcopy's loop. */
  method CopyPage(m: PhysMem, rootP: nat, ghost P: Tables, rootC: nat, ghost C: Tables, ghost C1: Tables,
                  ghost mem0: Mem, ghost free0: seq<nat>, i: nat)
    returns (out: Outcome, ghost C': Tables)
    requires m.Valid() && TableOk(m, rootC, C1) && Tree(mem0, rootP, P) && Apart(mem0, P) && Apart(mem0, C)
    requires ParentOk(mem0, P, C, free0, MAXVPN) && (forall n :: n in P ==> m.lo <= P[n] < m.hi)
    requires Copied(m.lo, m.hi, mem0, P, C, free0, m.mem, C1, m.free, i)
    requires i < MAXVPN && Mapped(mem0, C, i) ==> Mapped(mem0, P, i)
    modifies m
    ensures out == Panicked <==> CopyClashes(mem0, P, C, i) && (i >= MAXVPN || old(m.free) != [])
    ensures out == Done <==>
      && !CopyClashes(mem0, P, C, i) && (Mapped(mem0, P, i) ==> |old(m.free)| > Lacking(C1, Path(i)))
    ensures out != Panicked ==> m.Valid() && TableOk(m, rootC, C')
    ensures out != Panicked ==>
      Copied(m.lo, m.hi, mem0, P, C, free0, m.mem, C', m.free, if out == Done then i + 1 else i)
    ensures out == Done ==>
      if Mapped(mem0, P, i) then Spent(C1, old(m.free), C', m.free, Path(i), 1) else C' == C1 && m.free == old(m.free)
  {
    hide Tree, Took, Untouched, SameLookups, RangeMapped, Copied, Owned, Frames, ParentOk, Flags, Ppn, Spent, Lacking,
      Path, Mapped, Entry;
    out, C' := Done, C1;
    if i >= MAXVPN {
      return Panicked, C1;
    }
    ParentKept(m.lo, m.hi, mem0, rootP, P, C, free0, m.mem, C', m.free, i, MAXVPN);
    CopiedNext(m.lo, m.hi, mem0, P, C, free0, m.mem, C', m.free, i);
    ghost var mem1, free1 := m.mem, m.free;
    var found, page, idx;
    ghost var P1;
    found, page, idx, P1 := Walk(m, rootP, P, i, false);
    SlotIsEntry(mem1, rootP, P, i, found, page, idx);
    MappedSame(mem0, mem1, P, i);
    if found && IsValid(m.mem[page].w[idx]) {
      var pte := m.mem[page].w[idx];
      ParentFrame(mem0, P, C, free0, MAXVPN, i);
      var f;
      FlagsValid(pte);
      out, f, C' := MapFresh(m, rootC, C', i, Flags(pte), m.mem[Ppn(pte)]);
      if out == Failed {
        CopiedStuck(m.lo, m.hi, mem0, P, C, free0, mem1, C1, free1, i, m.mem, C', m.free);
      } else if out == Done {
        CopiedStep(m.lo, m.hi, mem0, P, C, free0, mem1, C1, free1, i, m.mem, C', m.free, f);
      }
    } else {
      CopiedSkip(m.lo, m.hi, mem0, P, C, free0, m.mem, C', m.free, i);
    }
  }

  lemma SlotIsEntry(mem: Mem, root: nat, T: Tables, v: nat, found: bool, page: nat, idx: nat)
    requires Tree(mem, root, T) && (found <==> LeafOf(v) in T)
    requires found ==> page == T[LeafOf(v)] && idx == Px(0, v)
    ensures Apart(mem, T) && (found ==> page < |mem| && idx < ENTRIES && mem[page].w[idx] == Entry(mem, T, v))
    ensures Mapped(mem, T, v) <==> found && IsValid(mem[page].w[idx])
  {
  }

  lemma ParentFrame(mem: Mem, P: Tables, C: Tables, free: seq<nat>, b: nat, u: nat)
    requires Apart(mem, P) && ParentOk(mem, P, C, free, b) && u < b && Mapped(mem, P, u)
    ensures Ppn(Entry(mem, P, u)) < |mem|
  {
  }

  lemma FlagsValid(pte: nat)
    requires IsValid(pte)
    ensures Flags(pte) < 1024 && IsValid(Flags(pte)) && WithV(Flags(pte)) == Flags(pte)
  {
    LowBits(pte / 1024, pte % 1024);
  }

  lemma CopiedUntouched(lo: nat, hi: nat, mem0: Mem, P: Tables, C0: Tables, free0: seq<nat>,
                        mem: Mem, C: Tables, free: seq<nat>, b: nat)
    requires Copied(lo, hi, mem0, P, C0, free0, mem, C, free, b)
    ensures Untouched(mem0, C0, free0, mem)
  {
  }

  lemma ParentAfterFailure(mem0: Mem, rootP: nat, P: Tables, C0: Tables, free0: seq<nat>,
                           C: Tables, mem: Mem, free: seq<nat>, top: nat)
    requires Tree(mem0, rootP, P) && ParentOk(mem0, P, C0, free0, top)
    requires Untouched(mem0, C0, free0, mem) && Took(C0, free0, C, free, {})
    ensures Tree(mem, rootP, P) && forall n :: n in P ==> P[n] !in free
  {
    hide NodeOk, Entry;
    TreeFrame(mem0, rootP, P, mem);
  }

  /** Isolation: after a fork no page of the child shares a frame with a page of the parent,
      so a store through either one changes neither a byte seen through the other nor the
      other's translation. */
  lemma ForkIsolates(lo: nat, hi: nat, mem0: Mem, P: Tables, C0: Tables, free0: seq<nat>,
                     mem: Mem, C: Tables, free: seq<nat>, b: nat, rootP: nat, rootC: nat,
                     u: nat, w: nat, i: nat, x: nat)
    requires Copied(lo, hi, mem0, P, C0, free0, mem, C, free, b) && ParentOk(mem0, P, C0, free0, b)
    requires Tree(mem0, rootP, P) && Tree(mem, rootC, C)
    requires u < b && w < b && Mapped(mem, C, u) && Mapped(mem0, P, w) && i < ENTRIES
    ensures var fc, fp := Ppn(Entry(mem, C, u)), Ppn(Entry(mem0, P, w));
      && fc < |mem| && fp < |mem| && fc != fp
      && Poke(mem, fc, i, x)[fp] == mem[fp] && Poke(mem, fp, i, x)[fc] == mem[fc]
      && Tree(Poke(mem, fc, i, x), rootP, P) && Tree(Poke(mem, fp, i, x), rootC, C)
      && forall v :: 0 <= v < MAXVPN ==>
           && Lookup(Poke(mem, fc, i, x), P, v) == Lookup(mem0, P, v)
           && Lookup(Poke(mem, fp, i, x), C, v) == Lookup(mem, C, v)
  {
    hide Entry, Flags, Ppn, NodeOk;
    var fc, fp := Ppn(Entry(mem, C, u)), Ppn(Entry(mem0, P, w));
    assert fc in Frames(mem, C, 0, b);
    assert (forall n :: n in C ==> C[n] in C.Values) && forall n :: n in C0 ==> C0[n] in C0.Values;
    assert fp !in C.Values;
    TreeFrame(mem0, rootP, P, mem);
    TreeFrame(mem, rootP, P, Poke(mem, fc, i, x));
    TreeFrame(mem, rootC, C, Poke(mem, fp, i, x));
    SameEntries(mem0, P, mem);
    SameEntries(mem, P, Poke(mem, fc, i, x));
    SameEntries(mem, C, Poke(mem, fp, i, x));
  }

  lemma SameEntries(mem: Mem, T: Tables, mem': Mem)
    requires Apart(mem, T) && Apart(mem', T) && forall v :: Entry(mem', T, v) == Entry(mem, T, v)
    ensures forall v :: 0 <= v < MAXVPN ==> Lookup(mem', T, v) == Lookup(mem, T, v)
  {
    hide Entry;
    forall v | 0 <= v < MAXVPN ensures Lookup(mem', T, v) == Lookup(mem, T, v) {
      assert Entry(mem', T, v) == Entry(mem, T, v);
    }
  }
}
