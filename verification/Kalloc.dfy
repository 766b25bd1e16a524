/** kernel/kalloc.c: physical pages on a free list threaded through the pages themselves. */
module Kalloc {
  import opened Common
  import opened Sv39

  const JUNK_FREE := 0x0101_0101_0101_0101
  const JUNK_ALLOC := 0x0505_0505_0505_0505

  /** The chain of free pages from `head`, each page's first word naming the next. */
  ghost predicate Chain(mem: Mem, head: nat, free: seq<nat>)
    decreases |free|
  {
    if free == [] then head == 0
    else 0 < head < |mem| && head == free[0] && Chain(mem, mem[head].w[0], free[1..])
  }

  lemma {:induction false} ChainFrame(mem: Mem, mem': Mem, head: nat, free: seq<nat>)
    requires Chain(mem, head, free) && |mem| == |mem'|
    requires forall p :: p in free && p < |mem| ==> mem'[p] == mem[p]
    ensures Chain(mem', head, free)
    decreases |free|
  {
    if free != [] {
      assert free[0] in free;
      ChainFrame(mem, mem', mem[head].w[0], free[1..]);
    }
  }

  class PhysMem {
    const lo: nat         // first page after the kernel image
    const hi: nat         // PHYSTOP / PGSIZE
    var mem: Mem
    var freelist: nat     // page number of the first free page, 0 for none
    ghost var free: seq<nat>

    ghost predicate Valid()
      reads this
    {
      && 0 < lo <= hi <= |mem|
      && Chain(mem, freelist, free) && Distinct(free)
      && (forall p :: p in free ==> lo <= p < hi)
    }

    /** kinit: freerange over [lo, hi). */
    constructor (lo: nat, hi: nat, mem: Mem)
      requires 0 < lo <= hi <= |mem|
      ensures Valid() && this.lo == lo && this.hi == hi && |this.mem| == |mem|
      ensures forall p :: p in free <==> lo <= p < hi
      ensures forall p :: 0 <= p < |mem| && p !in free ==> this.mem[p] == mem[p]
    {
      this.lo, this.hi, this.mem := lo, hi, mem;
      freelist, free := 0, [];
      new;
      var p := lo;
      while p < hi
        invariant lo <= p <= hi <= |mem| == |this.mem|
        invariant Valid() && forall q :: q in free <==> lo <= q < p
        invariant forall q :: 0 <= q < |mem| && q !in free ==> this.mem[q] == mem[q]
      {
        Kfree(p);
        p := p + 1;
      }
    }

    method Kalloc() returns (p: nat)
      requires Valid()
      modifies this
      ensures Valid() && |mem| == |old(mem)|
      ensures p == 0 <==> old(free) == []
      ensures p == 0 ==> free == [] && mem == old(mem)
      ensures p != 0 ==> old(free) == [p] + free && p !in free && lo <= p < hi
      ensures p != 0 ==> mem == old(mem)[p := Filled(JUNK_ALLOC)]
    {
      p := freelist;
      if p != 0 {
        assert p == free[0] && p in free;
        freelist := mem[p].w[0];
        free := free[1..];
        assert old(free) == [p] + free;
        assert forall q :: q in free ==> q in old(free);
        mem := mem[p := Filled(JUNK_ALLOC)];
        ChainFrame(old(mem), mem, freelist, free);
      }
    }

    /** Storing a page, such as memset or memmove does, anywhere but on the free list. */
    method SetPage(p: nat, page: Page)
      requires Valid() && p < |mem| && p !in free
      modifies `mem
      ensures Valid() && mem == old(mem)[p := page]
    {
      mem := mem[p := page];
      ChainFrame(old(mem), mem, freelist, free);
    }

    /** Storing one word. */
    method Store(p: nat, i: nat, x: nat)
      requires Valid() && p < |mem| && p !in free && i < ENTRIES
      modifies `mem
      ensures Valid() && mem == Poke(old(mem), p, i, x)
    {
      SetPage(p, Page(mem[p].w[i := x]));
    }

    /** kalloc() followed by memset or memmove over the whole page. */
    method KallocFill(content: Page) returns (p: nat)
      requires Valid()
      modifies this
      ensures Valid()
      ensures p == 0 ==> old(free) == [] && free == [] && mem == old(mem)
      ensures p != 0 ==> old(free) == [p] + free && p !in free && lo <= p < hi && p in old(free)
      ensures p != 0 ==> p < |old(mem)| && mem == old(mem)[p := content]
    {
      p := Kalloc();
      if p != 0 {
        assert old(free)[0] == p;
        SetPage(p, content);
      }
    }

    method Kfree(p: nat)
      requires Valid() && lo <= p < hi && p !in free
      modifies this
      ensures Valid() && |mem| == |old(mem)|
      ensures free == [p] + old(free)
      ensures forall q :: 0 <= q < |mem| && q != p ==> mem[q] == old(mem)[q]
    {
      mem := mem[p := Page(Filled(JUNK_FREE).w[0 := freelist])];
      ChainFrame(old(mem), mem, freelist, free);
      freelist := p;
      free := [p] + free;
      assert free[1..] == old(free);
    }
  }
}
