/** The Sv39 page-table format of kernel/riscv.h:385-400 and kernel/vm.c over flat
    physical memory: three levels of 512-entry tables, seen both as the tree that walk()
    follows and as one map from virtual page to page-table entry. */
module Sv39 {

  const ENTRIES := 512
  const TOP := 256            // root indices that addresses below MAXVA reach
  const MAXVPN := 0x400_0000  // MAXVA / PGSIZE, 2^26 pages

  const PTE_V := 1
  const PTE_R := 2
  const PTE_W := 4
  const PTE_X := 8
  const PTE_U := 16

  /** A physical page as its 512 words of 64 bits; also a page-table page. */
  type Words = w: seq<nat> | |w| == ENTRIES witness seq(ENTRIES, _ => 0)

  datatype Page = Page(w: Words)

  /** Physical memory, indexed by physical page number. */
  type Mem = seq<Page>

  function Filled(x: nat): Page {
    Page(seq(ENTRIES, _ => x))
  }

  function Poke(mem: Mem, p: nat, i: nat, x: nat): Mem
    requires p < |mem| && i < ENTRIES
  {
    mem[p := Page(mem[p].w[i := x])]
  }

  // ---------- entries and indices ----------

  /** PA2PTE(pa) | flags, for flags below 2^10. */
  function MkPte(ppn: nat, flags: nat): nat { ppn * 1024 + flags }

  function Ppn(pte: nat): nat { pte / 1024 }        // PTE2PA(pte) / PGSIZE

  function Flags(pte: nat): nat { pte % 1024 }      // PTE_FLAGS(pte)

  predicate IsValid(pte: nat) { pte % 2 == 1 }      // pte & PTE_V

  /** flags | PTE_V */
  function WithV(flags: nat): nat { if flags % 2 == 1 then flags else flags + 1 }

  /** pte & (PTE_R|PTE_W|PTE_X) */
  predicate IsLeaf(pte: nat) { pte / 2 % 8 != 0 }

  lemma PteRoundTrip(ppn: nat, flags: nat)
    requires flags < 1024
    ensures Ppn(MkPte(ppn, flags)) == ppn && Flags(MkPte(ppn, flags)) == flags
    ensures MkPte(ppn, flags) - flags == 0x400 * ppn
    ensures IsValid(MkPte(ppn, flags)) <==> IsValid(flags)
    ensures IsLeaf(MkPte(ppn, flags)) <==> IsLeaf(flags)
  {
    LowBits(ppn, flags);
  }

  /** Which bit of an entry is which: V is bit 0, R, W and X the next three, U bit 4. */
  lemma FlagBits(v: nat, r: nat, w: nat, x: nat, u: nat, rest: nat)
    requires v < 2 && r < 2 && w < 2 && x < 2 && u < 2
    ensures var pte := v * PTE_V + r * PTE_R + w * PTE_W + x * PTE_X + u * PTE_U + 32 * rest;
      && (IsValid(pte) <==> v == 1) && (IsLeaf(pte) <==> r + w + x > 0) && (UserWritable(pte) <==> w == 1 && u == 1)
      && WithV(pte) == pte + 1 - v
  {
    var pte := v * PTE_V + r * PTE_R + w * PTE_W + x * PTE_X + u * PTE_U + 32 * rest;
    assert pte / 2 == r + 2 * (w + 2 * (x + 2 * (u + 2 * rest)));
    assert pte / 4 == w + 2 * (x + 2 * (u + 2 * rest)) && pte / 16 == u + 2 * rest;
  }

  /** The flag bits of an entry do not depend on its frame. */
  lemma LowBits(ppn: nat, flags: nat)
    requires flags < 1024
    ensures (ppn * 1024 + flags) / 1024 == ppn && (ppn * 1024 + flags) % 1024 == flags
    ensures (ppn * 1024 + flags) % 2 == flags % 2 && (ppn * 1024 + flags) / 2 % 8 == flags / 2 % 8
  {
    var half, bit := flags / 2, flags % 2;
    assert ppn * 1024 + flags == 2 * (ppn * 512 + half) + bit;
    assert (ppn * 1024 + flags) / 2 == ppn * 512 + half;
    EightDivides(ppn * 64, half);
  }

  lemma EightDivides(k: nat, r: nat)
    ensures (8 * k + r) % 8 == r % 8
  {
  }

  /** PX(level, va) for the page number v = va / PGSIZE. */
  function Px(level: nat, v: nat): (i: nat)
    requires level <= 2
    ensures i < ENTRIES
  {
    if level == 0 then v % 512 else if level == 1 then v / 512 % 512 else v / 262144 % 512
  }

  /** The three indices together determine the page. */
  lemma PxInjective(u: nat, v: nat)
    requires u < MAXVPN && v < MAXVPN
    requires Px(2, u) == Px(2, v) && Px(1, u) == Px(1, v) && Px(0, u) == Px(0, v)
    ensures u == v
  {
    ByIndices(u);
    ByIndices(v);
  }

  lemma ByIndices(v: nat)
    requires v < MAXVPN
    ensures v == Px(2, v) * 262144 + Px(1, v) * 512 + Px(0, v)
  {
    var q, k := v / 512, v % 512;
    var i, j := q / 512, q % 512;
    assert v == i * 262144 + (j * 512 + k) && j * 512 + k < 262144;
    assert v / 262144 == i;
  }

  /** And every triple of indices belongs to a page. */
  lemma PxSurjective(i: nat, j: nat, k: nat)
    requires i < TOP && j < ENTRIES && k < ENTRIES
    ensures var v := i * 262144 + j * 512 + k;
      v < MAXVPN && Px(2, v) == i && Px(1, v) == j && Px(0, v) == k
  {
    var v := i * 262144 + j * 512 + k;
    assert v / 512 == i * 512 + j && v / 262144 == i;
  }

  // ---------- the tree ----------

  /** A table by the indices that lead to it. */
  datatype Node = Root | Mid(i: nat) | Low(i: nat, j: nat)

  function Child(n: Node, i: nat): Node
    requires !n.Low?
  {
    match n
    case Root => Mid(i)
    case Mid(j) => Low(j, i)
  }

  /** The leaf table of page v. */
  function LeafOf(v: nat): Node { Low(Px(2, v), Px(1, v)) }

  /** Where each table of one page table lies in physical memory. */
  type Tables = map<Node, nat>

  ghost predicate EntryOk(e: nat, T: Tables, c: Node) {
    if c in T then e == MkPte(T[c], PTE_V) else !IsValid(e)
  }

  /** The entries of an upper-level table point to exactly the tables below it. */
  ghost predicate NodeOk(mem: Mem, T: Tables, n: Node)
    requires n in T && T[n] < |mem|
  {
    !n.Low? ==> forall i :: 0 <= i < ENTRIES ==> EntryOk(mem[T[n]].w[i], T, Child(n, i))
  }

  /** Table pages are real and no two tables share one. */
  ghost predicate Apart(mem: Mem, T: Tables) {
    && (forall n :: n in T ==> 0 < T[n] < |mem|)
    && (forall n, m :: n in T && m in T && T[n] == T[m] ==> n == m)
  }

  /** Every table hangs below another, at an index that some address below MAXVA has. */
  ghost predicate Closed(T: Tables) {
    && Root in T
    && (forall i: nat :: Mid(i) in T ==> i < TOP)
    && (forall i: nat, j: nat :: Low(i, j) in T ==> j < ENTRIES)
    && (forall i, j :: Low(i, j) in T ==> Mid(i) in T)
  }

  ghost predicate Tree(mem: Mem, root: nat, T: Tables) {
    && Apart(mem, T) && Closed(T) && T[Root] == root
    && forall n :: n in T ==> NodeOk(mem, T, n)
  }

  /** The page-table entry of virtual page v, 0 when there is no leaf table for it. */
  ghost function Entry(mem: Mem, T: Tables, v: nat): nat
    requires Apart(mem, T)
  {
    if LeafOf(v) in T then mem[T[LeafOf(v)]].w[Px(0, v)] else 0
  }

  ghost predicate Mapped(mem: Mem, T: Tables, v: nat)
    requires Apart(mem, T)
  {
    IsValid(Entry(mem, T, v))
  }

  /** The abstraction: what page v translates to, 0 standing for no translation. */
  ghost function Lookup(mem: Mem, T: Tables, v: nat): nat
    requires Apart(mem, T)
  {
    if Mapped(mem, T, v) then Entry(mem, T, v) else 0
  }

  /** Two trees translate every page below MAXVA alike. */
  ghost predicate SameLookups(mem: Mem, T: Tables, mem': Mem, T': Tables) {
    && Apart(mem, T) && Apart(mem', T')
    && forall v :: 0 <= v < MAXVPN ==> Lookup(mem', T', v) == Lookup(mem, T, v)
  }

  // ---------- the hardware's view ----------

  /** The page-table walk of section 4.3.2 of the RISC-V Privileged Architecture (version
      20211203), read off memory alone: the entry used and its level, or a page fault. */
  datatype Walked = Fault | Leaf(pte: nat, level: nat)

  function HwWalk(mem: Mem, table: nat, v: nat, level: nat): Walked
    requires level <= 2
    decreases level
  {
    if table >= |mem| then Fault
    else
      var pte := mem[table].w[Px(level, v)];
      if !IsValid(pte) then Fault
      else if IsLeaf(pte) then Leaf(pte, level)
      else if level == 0 then Fault
      else HwWalk(mem, Ppn(pte), v, level - 1)
  }

  /** The hardware, which sees only bytes, agrees with the tree. */
  lemma HardwareAgrees(mem: Mem, root: nat, T: Tables, v: nat)
    requires Tree(mem, root, T) && v < MAXVPN
    ensures HwWalk(mem, root, v, 2) ==
            if IsLeaf(Lookup(mem, T, v)) then Leaf(Lookup(mem, T, v), 0) else Fault
  {
    var e2 := mem[root].w[Px(2, v)];
    var m := Mid(Px(2, v));
    assert EntryOk(e2, T, Child(Root, Px(2, v)));
    if m in T {
      PteRoundTrip(T[m], PTE_V);
      var e1 := mem[T[m]].w[Px(1, v)];
      assert NodeOk(mem, T, m) && EntryOk(e1, T, Child(m, Px(1, v)));
      if LeafOf(v) in T {
        PteRoundTrip(T[LeafOf(v)], PTE_V);
        var e0 := mem[T[LeafOf(v)]].w[Px(0, v)];
        assert HwWalk(mem, T[LeafOf(v)], v, 0) == if IsValid(e0) && IsLeaf(e0) then Leaf(e0, 0) else Fault;
      }
    }
  }

  /** A user store goes through only entries with W and U set. */
  predicate UserWritable(pte: nat) { pte / 4 % 2 == 1 && pte / 16 % 2 == 1 }

  /** The MMU finds nothing in the upper half of the address space. */
  lemma UpperHalfFaults(mem: Mem, root: nat, T: Tables, v: nat)
    requires Tree(mem, root, T) && MAXVPN <= v < 2 * MAXVPN
    ensures HwWalk(mem, root, v, 2) == Fault
  {
    var i := Px(2, v);
    assert v / 262144 == i && i >= TOP;
    assert NodeOk(mem, T, Root) && EntryOk(mem[root].w[i], T, Mid(i));
  }

  lemma WritableBits(ppn: nat, flags: nat)
    ensures UserWritable(MkPte(ppn, flags)) <==> UserWritable(flags)
  {
    hide MkPte;
    ThirdBit(ppn, flags);
    FifthBit(ppn, flags);
  }

  lemma ThirdBit(ppn: nat, flags: nat)
    ensures MkPte(ppn, flags) / 4 % 2 == flags / 4 % 2
  {
    var q, r := flags / 4, flags % 4;
    assert ppn * 1024 + flags == 4 * (ppn * 256 + q) + r;
    assert (ppn * 1024 + flags) / 4 == ppn * 256 + q;
    TwoDivides(ppn * 128, q);
  }

  lemma FifthBit(ppn: nat, flags: nat)
    ensures MkPte(ppn, flags) / 16 % 2 == flags / 16 % 2
  {
    var q, r := flags / 16, flags % 16;
    assert ppn * 1024 + flags == 16 * (ppn * 64 + q) + r;
    assert (ppn * 1024 + flags) / 16 == ppn * 64 + q;
    TwoDivides(ppn * 32, q);
  }

  lemma TwoDivides(k: nat, r: nat)
    ensures (2 * k + r) % 2 == r % 2
  {
  }

  // ---------- what the updates of vm.c do to the tree ----------

  /** Writing one leaf entry changes that page's translation and no other. */
  lemma SetLeaf(mem: Mem, root: nat, T: Tables, v: nat, pte: nat)
    requires Tree(mem, root, T) && v < MAXVPN && LeafOf(v) in T
    ensures var mem' := Poke(mem, T[LeafOf(v)], Px(0, v), pte);
      && Tree(mem', root, T)
      && Entry(mem', T, v) == pte
      && forall u :: 0 <= u < MAXVPN && u != v ==> Entry(mem', T, u) == Entry(mem, T, u)
  {
    var mem' := Poke(mem, T[LeafOf(v)], Px(0, v), pte);
    forall n | n in T ensures NodeOk(mem', T, n) {
      assert NodeOk(mem, T, n);
    }
    forall u | 0 <= u < MAXVPN && u != v ensures Entry(mem', T, u) == Entry(mem, T, u) {
      if LeafOf(u) == LeafOf(v) && Px(0, u) == Px(0, v) { PxInjective(u, v); }
    }
  }

  /** A zeroed page hung below table n. */
  ghost function WithTable(mem: Mem, T: Tables, n: Node, i: nat, p: nat): Mem
    requires n in T && T[n] < |mem| && i < ENTRIES && p < |mem|
  {
    Poke(mem[p := Filled(0)], T[n], i, MkPte(p, PTE_V))
  }

  /** walk() adding a table changes no translation. */
  lemma AddTable(mem: Mem, root: nat, T: Tables, n: Node, i: nat, p: nat)
    requires Tree(mem, root, T) && n in T && !n.Low? && i < ENTRIES && Child(n, i) !in T
    requires 0 < p < |mem| && p !in T.Values && (n.Root? ==> i < TOP)
    ensures var mem', T' := WithTable(mem, T, n, i, p), T[Child(n, i) := p];
      Tree(mem', root, T') && SameLookups(mem, T, mem', T')
  {
    var c := Child(n, i);
    var mem', T' := WithTable(mem, T, n, i, p), T[c := p];
    assert forall m :: m in T ==> T[m] in T.Values;
    forall m | m in T' ensures NodeOk(mem', T', m) {
      if m != c { assert NodeOk(mem, T, m); }
    }
    hide NodeOk;
    assert Apart(mem', T');
    forall v | 0 <= v < MAXVPN ensures Lookup(mem', T', v) == Lookup(mem, T, v) {
      TableHidden(mem, T, n, i, p, v);
    }
  }

  /** The new table is empty, and no entry of another leaf table moved. */
  lemma TableHidden(mem: Mem, T: Tables, n: Node, i: nat, p: nat, v: nat)
    requires Apart(mem, T) && n in T && !n.Low? && i < ENTRIES && Child(n, i) !in T && v < MAXVPN
    requires 0 < p < |mem| && p !in T.Values && Apart(WithTable(mem, T, n, i, p), T[Child(n, i) := p])
    ensures Lookup(WithTable(mem, T, n, i, p), T[Child(n, i) := p], v) == Lookup(mem, T, v)
  {
    assert LeafOf(v) in T ==> T[LeafOf(v)] in T.Values;
  }
}
