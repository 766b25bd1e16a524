/** user/umalloc.c: the Kernighan and Ritchie allocator. Addresses count in units of one
    Header; a block of n units has its header in the first. */
module Umalloc {
  import opened Common

  const MINCORE := 4096

  /** A free block. */
  datatype Blk = Blk(addr: nat, size: nat) {
    function End(): nat { addr + size }
    predicate Has(u: int) { addr <= u < addr + size }
  }

  // ---------- the free list as data ----------

  /** Free blocks above `base` in address order, fully coalesced: no two touch. */
  ghost predicate ListOk(base: nat, L: seq<Blk>) {
    && (forall i :: 0 <= i < |L| ==> base < L[i].addr && L[i].size > 0)
    && (forall i, j :: 0 <= i < j < |L| ==> L[i].End() < L[j].addr)
  }

  ghost predicate InList(L: seq<Blk>, u: int) {
    exists i :: 0 <= i < |L| && L[i].Has(u)
  }

  ghost function Addrs(L: seq<Blk>): (A: seq<nat>)
    ensures |A| == |L| && forall i :: 0 <= i < |L| ==> A[i] == L[i].addr
  {
    seq(|L|, i requires 0 <= i < |L| => L[i].addr)
  }

  /** Addresses in ring order: base, then the blocks, then base again. */
  ghost function Ring(base: nat, A: seq<nat>): (w: seq<nat>)
    ensures |w| == |A| + 2 && w[0] == base && w[|A| + 1] == base
    ensures forall i {:trigger w[i]} :: 0 < i <= |A| ==> w[i] == A[i - 1]
  {
    [base] + A + [base]
  }

  ghost predicate RingOk(base: nat, A: seq<nat>, ptr: map<nat, nat>) {
    forall i :: 0 <= i <= |A| ==> Ring(base, A)[i] in ptr && ptr[Ring(base, A)[i]] == Ring(base, A)[i + 1]
  }

  ghost predicate SizesOk(L: seq<Blk>, sz: map<nat, nat>) {
    forall i :: 0 <= i < |L| ==> L[i].addr in sz && sz[L[i].addr] == L[i].size
  }

  /** The headers in memory form the circular list of L. */
  ghost predicate Linked(base: nat, L: seq<Blk>, ptr: map<nat, nat>, sz: map<nat, nat>) {
    base in sz && sz[base] == 0 && RingOk(base, Addrs(L), ptr) && SizesOk(L, sz)
  }

  lemma RingIndex(base: nat, A: seq<nat>, i: nat, hi: nat, xs: seq<nat>)
    requires i <= hi <= |A| && |xs| <= 1
    ensures var v, w, n := Ring(base, A[..i] + xs + A[hi..]), Ring(base, A), |xs|;
      && |v| == i + n + |A| - hi + 2
      && (forall k :: 0 <= k <= i ==> v[k] == w[k])
      && (forall k :: i + n < k < |v| ==> v[k] == w[k - n - i + hi])
      && (n > 0 ==> v[i + 1] == xs[0])
  {
  }

  /** Redirecting the ring at position i, past the blocks i..hi, through xs. */
  lemma RingSplice(base: nat, A: seq<nat>, ptr: map<nat, nat>, i: nat, hi: nat, xs: seq<nat>, ptr': map<nat, nat>)
    requires RingOk(base, A, ptr) && i <= hi <= |A| && |xs| <= 1
    requires (forall j :: 0 <= j < |A| ==> base < A[j]) && (forall j, k :: 0 <= j < k < |A| ==> A[j] < A[k])
    requires xs != [] ==> xs[0] !in A && xs[0] != base
    requires forall a :: a in ptr && a != Ring(base, A)[i] && a !in xs && (a == base || a in A) ==>
      && a in ptr' && ptr'[a] == ptr[a]
    requires Ring(base, A)[i] in ptr'
    requires xs == [] ==> ptr'[Ring(base, A)[i]] == Ring(base, A)[hi + 1]
    requires xs != [] ==> ptr'[Ring(base, A)[i]] == xs[0] && xs[0] in ptr' && ptr'[xs[0]] == Ring(base, A)[hi + 1]
    ensures RingOk(base, A[..i] + xs + A[hi..], ptr')
  {
    hide Ring;
    var A' := A[..i] + xs + A[hi..];
    var w, v := Ring(base, A), Ring(base, A');
    var n := |xs|;
    RingIndex(base, A, i, hi, xs);
    forall k | 0 <= k <= |A'| ensures v[k] in ptr' && ptr'[v[k]] == v[k + 1] {
      if k != i && !(n > 0 && k == i + 1) {
        var j := if k < i then k else k - n - i + hi;
        assert w[j] in ptr && ptr[w[j]] == w[j + 1];
        assert w[j] == base || w[j] in A;
      }
    }
  }

  /** Where a block at a belongs: after the first i blocks. */
  ghost predicate Between(L: seq<Blk>, i: nat, b: Blk) {
    && i <= |L|
    && (forall k :: 0 <= k < i ==> L[k].End() <= b.addr)
    && (forall k :: i <= k < |L| ==> b.End() <= L[k].addr)
  }

  ghost predicate JoinsLower(L: seq<Blk>, i: nat, b: Blk)
    requires i <= |L|
  {
    i > 0 && L[i - 1].End() == b.addr
  }

  ghost predicate JoinsUpper(L: seq<Blk>, i: nat, b: Blk)
    requires i <= |L|
  {
    i < |L| && b.End() == L[i].addr
  }

  /** The list with blocks lo..hi replaced by `mid`. */
  ghost function Splice(L: seq<Blk>, lo: nat, hi: nat, mid: seq<Blk>): seq<Blk>
    requires lo <= hi <= |L|
  {
    L[..lo] + mid + L[hi..]
  }

  /** b merged with the neighbours it touches. */
  ghost function Merged(L: seq<Blk>, i: nat, b: Blk): Blk
    requires i <= |L| && Between(L, i, b)
  {
    var addr := if JoinsLower(L, i, b) then L[i - 1].addr else b.addr;
    var end := if JoinsUpper(L, i, b) then L[i].End() else b.End();
    Blk(addr, end - addr)
  }

  /** The list with b inserted at i, fully coalesced. */
  ghost function Inserted(L: seq<Blk>, i: nat, b: Blk): seq<Blk>
    requires i <= |L| && Between(L, i, b)
  {
    var lo := if JoinsLower(L, i, b) then i - 1 else i;
    var hi := if JoinsUpper(L, i, b) then i + 1 else i;
    Splice(L, lo, hi, [Merged(L, i, b)])
  }

  lemma SpliceOk(base: nat, L: seq<Blk>, lo: nat, hi: nat, mid: seq<Blk>)
    requires ListOk(base, L) && lo <= hi <= |L| && |mid| <= 1
    requires mid != [] ==>
      && base < mid[0].addr && mid[0].size > 0
      && (forall k :: 0 <= k < lo ==> L[k].End() < mid[0].addr)
      && (forall k :: hi <= k < |L| ==> mid[0].End() < L[k].addr)
    ensures ListOk(base, Splice(L, lo, hi, mid))
  {
    hide Splice;
    var R := Splice(L, lo, hi, mid);
    SpliceAt(L, lo, hi, mid, R);
    forall i, j | 0 <= i < j < |R| ensures R[i].End() < R[j].addr {
      assert i < lo || (i == lo && mid != []) || R[i] == L[i - lo - |mid| + hi];
      assert j < lo || (j == lo && mid != []) || R[j] == L[j - lo - |mid| + hi];
    }
    forall i | 0 <= i < |R| ensures base < R[i].addr && R[i].size > 0 {
      assert i < lo || (i == lo && mid != []) || R[i] == L[i - lo - |mid| + hi];
    }
  }

  lemma SpliceAt(L: seq<Blk>, lo: nat, hi: nat, mid: seq<Blk>, R: seq<Blk>)
    requires lo <= hi <= |L| && |mid| <= 1 && R == Splice(L, lo, hi, mid)
    ensures |R| == lo + |mid| + |L| - hi
    ensures forall k :: 0 <= k < lo ==> R[k] == L[k]
    ensures mid != [] ==> R[lo] == mid[0]
    ensures forall k :: lo + |mid| <= k < |R| ==> R[k] == L[k - lo - |mid| + hi]
  {
  }

  lemma InListConcat(L: seq<Blk>, M: seq<Blk>, u: int)
    ensures InList(L + M, u) <==> InList(L, u) || InList(M, u)
  {
    if InList(L, u) { var k :| 0 <= k < |L| && L[k].Has(u); assert (L + M)[k].Has(u); }
    if InList(M, u) { var k :| 0 <= k < |M| && M[k].Has(u); assert (L + M)[|L| + k].Has(u); }
    if InList(L + M, u) {
      var k :| 0 <= k < |L + M| && (L + M)[k].Has(u);
      assert if k < |L| then L[k].Has(u) else M[k - |L|].Has(u);
    }
  }

  lemma SpliceCells(L: seq<Blk>, lo: nat, hi: nat, mid: seq<Blk>, u: int)
    requires lo <= hi <= |L|
    ensures InList(Splice(L, lo, hi, mid), u) <==> InList(L[..lo], u) || InList(mid, u) || InList(L[hi..], u)
    ensures InList(L, u) <==> InList(L[..lo], u) || InList(L[lo..hi], u) || InList(L[hi..], u)
  {
    hide InList;
    InListConcat(L[..lo] + mid, L[hi..], u);
    InListConcat(L[..lo], mid, u);
    assert L == L[..lo] + L[lo..hi] + L[hi..];
    InListConcat(L[..lo] + L[lo..hi], L[hi..], u);
    InListConcat(L[..lo], L[lo..hi], u);
  }

  lemma InsertedOk(base: nat, L: seq<Blk>, i: nat, b: Blk)
    requires ListOk(base, L) && Between(L, i, b) && base < b.addr && b.size > 0
    ensures ListOk(base, Inserted(L, i, b))
  {
    hide Splice;
    var lo := if JoinsLower(L, i, b) then i - 1 else i;
    var hi := if JoinsUpper(L, i, b) then i + 1 else i;
    SpliceOk(base, L, lo, hi, [Merged(L, i, b)]);
  }

  /** Inserting adds exactly the units of b. */
  lemma InsertedCells(base: nat, L: seq<Blk>, i: nat, b: Blk, u: int)
    requires ListOk(base, L) && Between(L, i, b) && base < b.addr && b.size > 0
    ensures InList(Inserted(L, i, b), u) <==> InList(L, u) || b.Has(u)
  {
    hide Splice, ListOk;
    var lo := if JoinsLower(L, i, b) then i - 1 else i;
    var hi := if JoinsUpper(L, i, b) then i + 1 else i;
    var m := [Merged(L, i, b)];
    SpliceCells(L, lo, hi, m, u);
    MergedCells(L, i, b, L[lo..hi], m, u);
  }

  /** The merged block has the units of b and of the neighbours it took in. */
  lemma MergedCells(L: seq<Blk>, i: nat, b: Blk, gone: seq<Blk>, m: seq<Blk>, u: int)
    requires i <= |L| && Between(L, i, b) && m == [Merged(L, i, b)] && b.size > 0
    requires gone == L[if JoinsLower(L, i, b) then i - 1 else i..if JoinsUpper(L, i, b) then i + 1 else i]
    ensures InList(m, u) <==> InList(gone, u) || b.Has(u)
  {
    var lower, upper := JoinsLower(L, i, b), JoinsUpper(L, i, b);
    assert InList(m, u) <==> m[0].Has(u);
    assert |gone| == (if lower then 1 else 0) + if upper then 1 else 0;
    assert lower ==> gone[0] == L[i - 1];
    assert upper ==> gone[|gone| - 1] == L[i];
    assert InList(gone, u) <==> (lower && L[i - 1].Has(u)) || (upper && L[i].Has(u)) by {
      if lower && L[i - 1].Has(u) { assert gone[0].Has(u); }
      if upper && L[i].Has(u) { assert gone[|gone| - 1].Has(u); }
    }
  }

  // ---------- what the pointer stores do ----------

  /** The stores of free() after its search stopped at p, for the block at bp. */
  function FreedPtr(ptr: map<nat, nat>, sz: map<nat, nat>, p: nat, bp: nat): map<nat, nat>
    requires p in ptr && p in sz && bp in sz && p != bp
    requires bp + sz[bp] == ptr[p] ==> ptr[p] in ptr
  {
    var ptr1 := if bp + sz[bp] == ptr[p] then ptr[bp := ptr[ptr[p]]] else ptr[bp := ptr[p]];
    if p + sz[p] == bp then ptr1[p := ptr1[bp]] else ptr1[p := bp]
  }

  function FreedSize(ptr: map<nat, nat>, sz: map<nat, nat>, p: nat, bp: nat): map<nat, nat>
    requires p in ptr && p in sz && bp in sz && p != bp
    requires bp + sz[bp] == ptr[p] ==> ptr[p] in sz
  {
    var sz1 := if bp + sz[bp] == ptr[p] then sz[bp := sz[bp] + sz[ptr[p]]] else sz;
    if p + sz[p] == bp then sz1[p := sz1[p] + sz1[bp]] else sz1
  }

  /** free()'s tests on addresses decide exactly the merges of Inserted. */
  lemma FreeTests(base: nat, L: seq<Blk>, ptr: map<nat, nat>, sz: map<nat, nat>, i: nat, b: Blk)
    requires ListOk(base, L) && Linked(base, L, ptr, sz) && Between(L, i, b) && base < b.addr && b.size > 0
    requires b.addr in sz && sz[b.addr] == b.size
    ensures var p := Ring(base, Addrs(L))[i];
      && p in ptr && p in sz && p != b.addr && ptr[p] in ptr && ptr[p] in sz
      && (b.addr + sz[b.addr] == ptr[p] <==> JoinsUpper(L, i, b))
      && (p + sz[p] == b.addr <==> JoinsLower(L, i, b))
      && b.addr !in Addrs(L)
  {
    var w := Ring(base, Addrs(L));
    assert w[i] in ptr && ptr[w[i]] == w[i + 1];
    assert i < |L| ==> w[i + 1] in ptr;
    assert w[0] in ptr;
  }

  lemma InsertedAddrs(L: seq<Blk>, i: nat, b: Blk)
    requires i <= |L| && Between(L, i, b)
    ensures var hi := if JoinsUpper(L, i, b) then i + 1 else i;
      Addrs(Inserted(L, i, b)) == Addrs(L)[..i] + (if JoinsLower(L, i, b) then [] else [b.addr]) + Addrs(L)[hi..]
  {
    var lo := if JoinsLower(L, i, b) then i - 1 else i;
    var hi := if JoinsUpper(L, i, b) then i + 1 else i;
    var m := Merged(L, i, b);
    AddrsSplice(L, lo, hi, m);
    if JoinsLower(L, i, b) {
      AddrsTake(L, i - 1);
      assert m.addr == L[i - 1].addr;
    }
    hide Splice, Between;
  }

  lemma AddrsSplice(L: seq<Blk>, lo: nat, hi: nat, m: Blk)
    requires lo <= hi <= |L|
    ensures Addrs(Splice(L, lo, hi, [m])) == Addrs(L)[..lo] + [m.addr] + Addrs(L)[hi..]
  {
  }

  lemma AddrsTake(L: seq<Blk>, k: nat)
    requires k < |L|
    ensures Addrs(L)[..k + 1] == Addrs(L)[..k] + [L[k].addr] == Addrs(L)[..k] + [L[k].addr] + []
  {
  }

  /** The relinked headers form the ring of the list with b inserted. */
  lemma FreeLinks(base: nat, L: seq<Blk>, ptr: map<nat, nat>, sz: map<nat, nat>, i: nat, b: Blk)
    requires ListOk(base, L) && Linked(base, L, ptr, sz) && Between(L, i, b) && base < b.addr && b.size > 0
    requires b.addr in sz && sz[b.addr] == b.size
    ensures var p := Ring(base, Addrs(L))[i];
      && p in ptr && p in sz && p != b.addr && ptr[p] in ptr && ptr[p] in sz
      && Linked(base, Inserted(L, i, b), FreedPtr(ptr, sz, p, b.addr), FreedSize(ptr, sz, p, b.addr))
  {
    FreeTests(base, L, ptr, sz, i, b);
    FreeRing(base, L, ptr, sz, i, b);
    FreeSizes(base, L, ptr, sz, i, b);
  }

  lemma FreeRing(base: nat, L: seq<Blk>, ptr: map<nat, nat>, sz: map<nat, nat>, i: nat, b: Blk)
    requires ListOk(base, L) && Linked(base, L, ptr, sz) && Between(L, i, b) && base < b.addr && b.size > 0
    requires b.addr in sz && sz[b.addr] == b.size
    ensures var p := Ring(base, Addrs(L))[i];
      && p in ptr && p in sz && p != b.addr && ptr[p] in ptr && ptr[p] in sz
      && RingOk(base, Addrs(Inserted(L, i, b)), FreedPtr(ptr, sz, p, b.addr))
  {
    hide Inserted, ListOk;
    FreeTests(base, L, ptr, sz, i, b);
    InsertedAddrs(L, i, b);
    var A := Addrs(L);
    var p := Ring(base, A)[i];
    var hi := if JoinsUpper(L, i, b) then i + 1 else i;
    assert ptr[p] == Ring(base, A)[i + 1];
    assert JoinsUpper(L, i, b) ==> ptr[ptr[p]] == Ring(base, A)[i + 2];
    AddrsSorted(base, L);
    RingSplice(base, A, ptr, i, hi, if JoinsLower(L, i, b) then [] else [b.addr], FreedPtr(ptr, sz, p, b.addr));
  }

  lemma AddrsSorted(base: nat, L: seq<Blk>)
    requires ListOk(base, L)
    ensures forall j :: 0 <= j < |L| ==> base < Addrs(L)[j]
    ensures forall j, k :: 0 <= j < k < |L| ==> Addrs(L)[j] < Addrs(L)[k]
  {
  }

  lemma FreeSizes(base: nat, L: seq<Blk>, ptr: map<nat, nat>, sz: map<nat, nat>, i: nat, b: Blk)
    requires ListOk(base, L) && Linked(base, L, ptr, sz) && Between(L, i, b) && base < b.addr && b.size > 0
    requires b.addr in sz && sz[b.addr] == b.size
    ensures var p := Ring(base, Addrs(L))[i];
      && p in ptr && p in sz && p != b.addr && ptr[p] in ptr && ptr[p] in sz
      && var sz' := FreedSize(ptr, sz, p, b.addr);
      SizesOk(Inserted(L, i, b), sz') && base in sz' && sz'[base] == 0
  {
    hide Splice, RingOk, ListOk;
    FreeTests(base, L, ptr, sz, i, b);
    PlaceApart(base, L, i, b);
    var lo := if JoinsLower(L, i, b) then i - 1 else i;
    var hi := if JoinsUpper(L, i, b) then i + 1 else i;
    var p, m := Ring(base, Addrs(L))[i], Merged(L, i, b);
    assert ptr[p] == Ring(base, Addrs(L))[i + 1] by {
      assert RingOk(base, Addrs(L), ptr);
      RingStep(base, Addrs(L), ptr, i);
    }
    var sz' := FreedSize(ptr, sz, p, b.addr);
    assert i > 0 ==> p == L[i - 1].addr;
    assert i == 0 ==> p == base;
    forall k | 0 <= k < lo || hi <= k < |L| ensures L[k].addr in sz' && sz'[L[k].addr] == L[k].size {
      assert L[k].addr != b.addr && (k < i - 1 || k >= i ==> L[k].addr != p);
    }
    SizesSplice(L, lo, hi, m, sz');
  }

  /** The header before a block's place is not that of any other block of the list. */
  lemma PlaceApart(base: nat, L: seq<Blk>, i: nat, b: Blk)
    requires ListOk(base, L) && Between(L, i, b) && base < b.addr && b.size > 0
    ensures forall k :: 0 <= k < |L| ==> L[k].addr != b.addr
    ensures forall k :: 0 <= k < |L| && k != i - 1 ==> L[k].addr != Ring(base, Addrs(L))[i]
  {
  }

  lemma RingStep(base: nat, A: seq<nat>, ptr: map<nat, nat>, i: nat)
    requires RingOk(base, A, ptr) && i <= |A|
    ensures Ring(base, A)[i] in ptr && ptr[Ring(base, A)[i]] == Ring(base, A)[i + 1]
  {
  }

  lemma SizesSplice(L: seq<Blk>, lo: nat, hi: nat, m: Blk, sz: map<nat, nat>)
    requires lo <= hi <= |L| && m.addr in sz && sz[m.addr] == m.size
    requires forall k :: 0 <= k < lo || hi <= k < |L| ==> L[k].addr in sz && sz[L[k].addr] == L[k].size
    ensures SizesOk(Splice(L, lo, hi, [m]), sz)
  {
    SpliceAt(L, lo, hi, [m], Splice(L, lo, hi, [m]));
    hide Splice;
    var R := Splice(L, lo, hi, [m]);
    forall k | 0 <= k < |R| ensures R[k].addr in sz && sz[R[k].addr] == R[k].size {
      assert k < lo || k == lo || R[k] == L[k - lo - 1 + hi];
    }
  }

  /** Exact fit: the block leaves the ring. */
  lemma TakeWhole(base: nat, L: seq<Blk>, ptr: map<nat, nat>, sz: map<nat, nat>, k: nat)
    requires ListOk(base, L) && Linked(base, L, ptr, sz) && k < |L|
    ensures var prev, a := Ring(base, Addrs(L))[k], L[k].addr;
      && prev in ptr && a in ptr && ptr[prev] == a
      && Linked(base, Splice(L, k, k + 1, []), ptr[prev := ptr[a]], sz)
      && ListOk(base, Splice(L, k, k + 1, []))
  {
    var A := Addrs(L);
    RingStep(base, A, ptr, k);
    RingStep(base, A, ptr, k + 1);
    AddrsSorted(base, L);
    var prev, a := Ring(base, A)[k], L[k].addr;
    RingSplice(base, A, ptr, k, k + 1, [], ptr[prev := ptr[a]]);
    var R := Splice(L, k, k + 1, []);
    SpliceAt(L, k, k + 1, [], R);
    SpliceOk(base, L, k, k + 1, []);
    assert Addrs(R) == A[..k] + [] + A[k + 1..];
  }

  /** Larger block: its tail is cut off, the rest stays. */
  lemma TakeTail(base: nat, L: seq<Blk>, ptr: map<nat, nat>, sz: map<nat, nat>, k: nat, n: nat)
    requires ListOk(base, L) && Linked(base, L, ptr, sz) && k < |L| && 0 < n < L[k].size
    ensures var rest := Blk(L[k].addr, L[k].size - n);
      && ListOk(base, L[k := rest])
      && Linked(base, L[k := rest], ptr, sz[rest.addr := rest.size][rest.End() := n])
  {
    var rest := Blk(L[k].addr, L[k].size - n);
    assert Addrs(L[k := rest]) == Addrs(L);
    hide RingOk;
  }

  lemma TakeWholeCells(base: nat, L: seq<Blk>, k: nat, u: int)
    requires ListOk(base, L) && k < |L|
    ensures InList(Splice(L, k, k + 1, []), u) <==> InList(L, u) && !L[k].Has(u)
  {
    SpliceCells(L, k, k + 1, [], u);
    assert L[k..k + 1] == [L[k]];
    assert InList([L[k]], u) <==> L[k].Has(u) by { assert [L[k]][0] == L[k]; }
    hide Splice;
    if L[k].Has(u) {
      assert !InList(L[..k], u) && !InList(L[k + 1..], u);
    }
  }

  lemma TakeTailCells(base: nat, L: seq<Blk>, k: nat, n: nat, u: int)
    requires ListOk(base, L) && k < |L| && 0 < n < L[k].size
    ensures var rest := Blk(L[k].addr, L[k].size - n);
      InList(L[k := rest], u) <==> InList(L, u) && !Blk(rest.End(), n).Has(u)
  {
    var rest := Blk(L[k].addr, L[k].size - n);
    var R := L[k := rest];
    if InList(R, u) {
      var i :| 0 <= i < |R| && R[i].Has(u);
      assert L[i].Has(u);
      assert i == k || L[i].End() < L[k].addr || L[k].End() < L[i].addr;
    }
    if InList(L, u) && !Blk(rest.End(), n).Has(u) {
      var i :| 0 <= i < |L| && L[i].Has(u);
      assert R[i].Has(u);
    }
  }

  // ---------- live blocks ----------

  ghost predicate InLive(live: map<nat, nat>, u: int) {
    exists a :: a in live && a <= u < a + live[a]
  }

  /** Live blocks have their size in their header and keep clear of the free list and of
      each other. */
  ghost predicate LiveOk(base: nat, L: seq<Blk>, sz: map<nat, nat>, live: map<nat, nat>, brk: nat) {
    && (forall a :: a in live ==> base < a && live[a] > 0 && a + live[a] <= brk && a in sz && sz[a] == live[a])
    && (forall i :: 0 <= i < |L| ==> L[i].End() <= brk)
    && (forall a, i :: a in live && 0 <= i < |L| ==> a + live[a] <= L[i].addr || L[i].End() <= a)
    && (forall a, c :: a in live && c in live && a != c ==> a + live[a] <= c || c + live[c] <= a)
  }

  /** Every unit got from sbrk is in a free or in a live block. */
  ghost predicate Conserved(L: seq<Blk>, live: map<nat, nat>, heap: set<nat>) {
    forall u: nat :: u in heap <==> InList(L, u) || InLive(live, u)
  }

  /** A block that keeps clear of every free block has its place in the order. */
  lemma FindSpot(base: nat, L: seq<Blk>, b: Blk) returns (i: nat)
    requires ListOk(base, L) && b.size > 0
    requires forall k :: 0 <= k < |L| ==> b.End() <= L[k].addr || L[k].End() <= b.addr
    ensures Between(L, i, b)
  {
    i := 0;
    while i < |L| && L[i].End() <= b.addr
      invariant i <= |L| && forall k :: 0 <= k < i ==> L[k].End() <= b.addr
    {
      i := i + 1;
    }
  }

  lemma LiveAfterFree(base: nat, L: seq<Blk>, sz: map<nat, nat>, live: map<nat, nat>, brk: nat, i: nat, b: Blk,
                      sz': map<nat, nat>)
    requires ListOk(base, L) && LiveOk(base, L, sz, live, brk) && b.addr in live && live[b.addr] == b.size
    requires Between(L, i, b)
    requires forall a :: a in live && a != b.addr ==> a in sz' && sz'[a] == sz[a]
    ensures LiveOk(base, Inserted(L, i, b), sz', live - {b.addr}, brk)
  {
    MergedClear(L, sz, live, brk, base, i, b);
    hide Splice, Merged, ListOk, Between, LiveOk;
    var lo := if JoinsLower(L, i, b) then i - 1 else i;
    var hi := if JoinsUpper(L, i, b) then i + 1 else i;
    LiveSplice(base, L, sz, live, brk, lo, hi, Merged(L, i, b), b.addr, sz');
  }

  lemma LiveSplice(base: nat, L: seq<Blk>, sz: map<nat, nat>, live: map<nat, nat>, brk: nat,
                   lo: nat, hi: nat, m: Blk, x: nat, sz': map<nat, nat>)
    requires LiveOk(base, L, sz, live, brk) && lo <= hi <= |L| && m.End() <= brk
    requires forall a :: a in live && a != x ==> a + live[a] <= m.addr || m.End() <= a
    requires forall a :: a in live && a != x ==> a in sz' && sz'[a] == sz[a]
    ensures LiveOk(base, Splice(L, lo, hi, [m]), sz', live - {x}, brk)
  {
    var R := Splice(L, lo, hi, [m]);
    SpliceAt(L, lo, hi, [m], R);
    hide Splice;
    forall k | 0 <= k < |R|
      ensures R[k].End() <= brk
      ensures forall a :: a in live && a != x ==> a + live[a] <= R[k].addr || R[k].End() <= a
    {
      assert k < lo || k == lo || R[k] == L[k - lo - 1 + hi];
    }
  }

  lemma MergedClear(L: seq<Blk>, sz: map<nat, nat>, live: map<nat, nat>, brk: nat, base: nat, i: nat, b: Blk)
    requires ListOk(base, L) && LiveOk(base, L, sz, live, brk) && b.addr in live && live[b.addr] == b.size
    requires Between(L, i, b)
    ensures Merged(L, i, b).End() <= brk
    ensures forall a :: a in live && a != b.addr ==> a + live[a] <= Merged(L, i, b).addr || Merged(L, i, b).End() <= a
  {
  }

  lemma ConservedAfterFree(base: nat, L: seq<Blk>, live: map<nat, nat>, heap: set<nat>, i: nat, b: Blk)
    requires ListOk(base, L) && Between(L, i, b) && base < b.addr && b.size > 0
    requires b.addr in live && live[b.addr] == b.size && Conserved(L, live, heap)
    ensures Conserved(Inserted(L, i, b), live - {b.addr}, heap)
  {
    forall u: nat ensures u in heap <==> InList(Inserted(L, i, b), u) || InLive(live - {b.addr}, u) {
      InsertedCells(base, L, i, b, u);
      if InLive(live, u) && !b.Has(u) {
        var a :| a in live && a <= u < a + live[a];
        assert a in live - {b.addr};
      }
    }
  }

  lemma LiveBlock(base: nat, L: seq<Blk>, sz: map<nat, nat>, live: map<nat, nat>, brk: nat, b: Blk)
    requires LiveOk(base, L, sz, live, brk) && b.addr in live && live[b.addr] == b.size
    ensures base < b.addr && b.size > 0 && b.addr in sz && sz[b.addr] == b.size
    ensures forall k :: 0 <= k < |L| ==> b.End() <= L[k].addr || L[k].End() <= b.addr
  {
  }

  /** Everything free() leaves behind. */
  lemma FreedState(base: nat, L: seq<Blk>, ptr: map<nat, nat>, sz: map<nat, nat>, live: map<nat, nat>, heap: set<nat>,
                   brk: nat, t: nat, b: Blk)
    requires ListOk(base, L) && Linked(base, L, ptr, sz) && LiveOk(base, L, sz, live, brk) && Conserved(L, live, heap)
    requires 0 < base < b.addr && b.addr in live && live[b.addr] == b.size && Between(L, t, b)
    ensures var p, R := Ring(base, Addrs(L))[t], Inserted(L, t, b);
      && p in ptr && p in sz && b.addr in sz && p != b.addr && ptr[p] in ptr && ptr[p] in sz && p != 0
      && ListOk(base, R) && Linked(base, R, FreedPtr(ptr, sz, p, b.addr), FreedSize(ptr, sz, p, b.addr))
      && LiveOk(base, R, FreedSize(ptr, sz, p, b.addr), live - {b.addr}, brk) && Conserved(R, live - {b.addr}, heap)
      && t <= |R| && p == Ring(base, Addrs(R))[t]
      && exists k :: 0 <= k < |R| && R[k].addr <= b.addr && b.End() <= R[k].End()
  {
    hide Conserved, Inserted, ListOk, Linked, LiveOk, FreedPtr, FreedSize, Ring;
    LiveBlock(base, L, sz, live, brk, b);
    FreeLinks(base, L, ptr, sz, t, b);
    OtherSizes(base, L, ptr, sz, live, brk, t, b);
    LiveAfterFree(base, L, sz, live, brk, t, b, FreedSize(ptr, sz, Ring(base, Addrs(L))[t], b.addr));
    ConservedAfterFree(base, L, live, heap, t, b);
    InsertedOk(base, L, t, b);
    InsertedHas(base, L, t, b);
    InsertedPlace(base, L, t, b);
    RingNonzero(base, L, t);
  }

  class Heap {
    const base: nat
    var ptr: map<nat, nat>      // s.ptr of each header
    var sz: map<nat, nat>       // s.size of each header
    var freep: nat              // 0 before the first malloc
    ghost var L: seq<Blk>
    ghost var fi: nat           // freep's place in the ring
    ghost var live: map<nat, nat>
    ghost var heap: set<nat>    // units that morecore has put to use
    ghost var got: set<nat>     // units that sbrk has added for them and not taken back
    ghost var brk: nat          // end of the last region put to use

    ghost predicate Valid()
      reads this
    {
      && 0 < base < brk && ListOk(base, L) && LiveOk(base, L, sz, live, brk) && Conserved(L, live, heap)
      && (forall u :: u in got ==> u < brk)
      && (freep == 0 ==> L == [] && live == map[])
      && (freep != 0 ==> Linked(base, L, ptr, sz) && fi <= |L| && freep == Ring(base, Addrs(L))[fi])
    }

    /** Every unit in use came from sbrk. */
    ghost predicate Backed()
      reads this
    {
      heap <= got
    }

    constructor (base: nat)
      requires base > 0
      ensures Valid() && freep == 0 && live == map[] && heap == {} && Backed() && this.base == base && brk == base + 1
    {
      this.base := base;
      ptr, sz, freep := map[], map[], 0;
      L, fi, live, heap, got, brk := [], 0, map[], {}, {}, base + 1;
    }

    /** free()'s search from freep round the ring for the place of the block at bp. */
    method Search(bp: nat, ghost b: Blk, ghost t: nat) returns (p: nat)
      requires ListOk(base, L) && Linked(base, L, ptr, sz) && fi <= |L| && freep == Ring(base, Addrs(L))[fi]
      requires Between(L, t, b) && base < b.addr == bp && b.size > 0
      ensures p == Ring(base, Addrs(L))[t]
    {
      hide ListOk, SizesOk;
      p := freep;
      ghost var pi := fi;
      SearchFacts(base, L, ptr, pi, t, b);
      while !(bp > p && bp < ptr[p])
        invariant 0 <= pi <= |L| && p == Ring(base, Addrs(L))[pi] && p in ptr && ptr[p] == Ring(base, Addrs(L))[pi + 1]
        invariant bp > p && bp < ptr[p] <==> pi == t && pi < |L|
        invariant p >= ptr[p] && (bp > p || bp < ptr[p]) <==> pi == t && pi == |L|
        decreases if pi <= t then t - pi else t + |L| + 1 - pi
      {
        if p >= ptr[p] && (bp > p || bp < ptr[p]) {
          break;
        }
        p := ptr[p];
        pi := if pi < |L| then pi + 1 else 0;
        SearchFacts(base, L, ptr, pi, t, b);
      }
    }

    /** free() */
    method Free(ap: nat)
      requires Valid() && freep != 0 && ap > 0 && ap - 1 in live
      modifies this
      ensures Valid() && freep != 0 && live == old(live) - {ap - 1}
      ensures heap == old(heap) && got == old(got) && brk == old(brk)
      ensures exists k :: 0 <= k < |L| && L[k].addr <= ap - 1 && ap - 1 + old(live)[ap - 1] <= L[k].End()
    {
      hide Conserved, Inserted, ListOk, Linked, LiveOk, Between, FreedPtr, FreedSize;
      var bp := ap - 1;
      ghost var b := Blk(bp, live[bp]);
      LiveBlock(base, L, sz, live, brk, b);
      ghost var t := FindSpot(base, L, b);
      var p := Search(bp, b, t);
      FreedState(base, L, ptr, sz, live, heap, brk, t, b);
      Relink(p, bp);
      L, fi, live := Inserted(L, t, b), t, live - {bp};
      freep := p;
    }

    /** free()'s tail: the stores that put bp back. */
    method Relink(p: nat, bp: nat)
      requires p in ptr && p in sz && bp in sz && p != bp && ptr[p] in ptr && ptr[p] in sz
      modifies `ptr, `sz
      ensures ptr == FreedPtr(old(ptr), old(sz), p, bp) && sz == FreedSize(old(ptr), old(sz), p, bp)
    {
      if bp + sz[bp] == ptr[p] {
        sz := sz[bp := sz[bp] + sz[ptr[p]]];
        ptr := ptr[bp := ptr[ptr[p]]];
      } else {
        ptr := ptr[bp := ptr[p]];
      }
      if p + sz[p] == bp {
        sz := sz[p := sz[p] + sz[bp]];
        ptr := ptr[p := ptr[bp]];
      } else {
        ptr := ptr[p := bp];
      }
    }

    /** morecore(): `grant` is what sbrk returned for it, at or above all that is in use. */
    method Morecore(nunits: nat, grant: Option<nat>) returns (ok: bool)
      requires Valid() && freep != 0 && nunits > 0 && (grant.Some? ==> grant.value >= brk)
      modifies this
      ensures Valid() && freep != 0 && fi <= |L| && live == old(live) && ok == grant.Some?
      ensures !ok ==> heap == old(heap) && L == old(L) && fi == old(fi) && ptr == old(ptr) && sz == old(sz)
      ensures !ok ==> freep == old(freep) && brk == old(brk) && got == old(got)
      ensures ok ==> Fits(L, nunits) && brk == grant.value + CoreUnits(nunits)
      ensures ok ==> heap == old(heap) + Granted(grant, nunits) && got == Received(old(got), grant, nunits)
      ensures ok && old(Backed()) ==> (Backed() <==> SbrkArg(nunits) == 16 * CoreUnits(nunits))
    {
      hide ListOk, RingOk, SizesOk, LiveOk, Conserved, SbrkArg, CoreUnits, Granted, Received;
      if grant.None? {
        return false;
      }
      var hp, nu := grant.value, CoreUnits(nunits);
      GrantFacts(heap, got, brk, grant, nunits);
      GrowFacts(base, L, ptr, sz, live, brk, heap, hp, nu);
      sz := sz[hp := nu];
      live, heap, got, brk := live[hp := nu], heap + Region(hp, nu), Received(got, grant, nunits), hp + nu;
      Free(hp + 1);
      assert live == old(live);
      ok := true;
    }

    /** malloc(): the header address plus one, or 0. sbrk is asked at most once, and only
        when no free block is large enough. */
    method Malloc(nbytes: nat, grant: Option<nat>) returns (r: nat, grew: bool)
      requires Valid() && nbytes < 0x1_0000_0000 && (grant.Some? ==> grant.value >= brk)
      modifies this
      ensures Valid()
      ensures r == 0 ==> live == old(live) && heap == old(heap) && grant.None? && !grew
      ensures r != 0 ==> r - 1 !in old(live) && live == old(live)[r - 1 := Units(nbytes)]
      ensures r != 0 ==> 16 * (live[r - 1] - 2) < nbytes <= 16 * (live[r - 1] - 1)
      ensures r != 0 ==> heap == old(heap) + if grew then Granted(grant, Units(nbytes)) else {}
      ensures grew || r == 0 ==> !Fits(old(L), Units(nbytes))
      ensures r != 0 && !grew ==> HighEnd(old(L), r - 1, Units(nbytes))
      ensures grew ==> grant.Some? && brk == grant.value + CoreUnits(Units(nbytes))
      ensures grew && old(Backed()) ==> (Backed() <==> nbytes <= 0x8000_0000 - 32)
      ensures if grew then got == Received(old(got), grant, Units(nbytes)) else brk == old(brk) && got == old(got)
    {
      hide Heap.Valid, HighEnd, Fits, Checked, SbrkArg, CoreUnits, Granted, Received, Units;
      SbrkArgFits(nbytes);
      var nunits := Units(nbytes);
      UnitsHold(nbytes);
      Start();
      grew := false;
      var prevp, p;
      ghost var pi: nat := fi;
      prevp := freep;
      Around(fi);
      p := ptr[prevp];
      CheckedNone(L, fi, nunits);
      while true
        invariant Valid() && freep != 0 && live == old(live) && pi <= |L| && fi <= |L|
        invariant heap == old(heap) + if grew then Granted(grant, nunits) else {}
        invariant prevp == Ring(base, Addrs(L))[pi] && p == Ring(base, Addrs(L))[pi + 1] && p in sz && prevp in ptr
        invariant p in ptr
        invariant Checked(L, fi, pi, nunits)
        invariant if grew then grant.Some? && Fits(L, nunits) && !Fits(old(L), nunits) else L == old(L)
        invariant if grew then brk == grant.value + CoreUnits(nunits) else brk == old(brk)
        invariant got == if grew then Received(old(got), grant, nunits) else old(got)
        invariant grew && old(Backed()) ==> (Backed() <==> nbytes <= 0x8000_0000 - 32)
        decreases !grew, if pi >= fi then |L| + 1 - (pi - fi) else fi - pi
      {
        if sz[p] >= nunits {
          r := Take(pi, prevp, p, nunits);
          return;
        }
        TooSmall(pi, p, nunits);
        if p == freep {
          assert !grew;
          var ok := Morecore(nunits, grant);
          if !ok {
            r := 0;
            return;
          }
          grew := true;
          p := freep;
          pi := fi;
          CheckedNone(L, fi, nunits);
        } else {
          pi := if pi < |L| then pi + 1 else 0;
        }
        Around(pi);
        prevp := p;
        p := ptr[p];
      }
    }

    /** malloc()'s first call makes the ring of base alone. */
    method Start()
      requires Valid()
      modifies `ptr, `sz, `freep, `fi
      ensures Valid() && freep != 0 && fi <= |L|
    {
      hide ListOk, RingOk, SizesOk, LiveOk, Conserved;
      if freep == 0 {
        ptr, sz, freep := ptr[base := base], sz[base := 0], base;
        fi := 0;
        FirstRing(base, ptr, sz, live, brk);
      }
    }

    lemma Around(i: nat)
      requires Valid() && freep != 0 && i <= |L|
      ensures fi <= |L| && freep == Ring(base, Addrs(L))[fi]
      ensures (i == |L| ==> Ring(base, Addrs(L))[0] == Ring(base, Addrs(L))[i + 1])
      ensures var w := Ring(base, Addrs(L));
        w[i] in ptr && ptr[w[i]] == w[i + 1] && w[i + 1] in ptr && w[i + 1] in sz && w[i] in sz
    {
      hide ListOk, RingOk, SizesOk, LiveOk, Conserved;
      RingAt(base, L, ptr, sz, i);
    }

    /** A block that is too small, and what it means to be back at freep. */
    lemma TooSmall(pi: nat, p: nat, n: nat)
      requires Valid() && freep != 0 && pi <= |L| && fi <= |L| && Checked(L, fi, pi, n)
      requires p == Ring(base, Addrs(L))[pi + 1] && p in sz && sz[p] < n
      ensures var next := if pi < |L| then pi + 1 else 0; p != freep ==> next != fi && Checked(L, fi, next, n)
      ensures p == freep ==> !Fits(L, n)
    {
      hide ListOk, RingOk, SizesOk, LiveOk, Conserved, Fits, Checked;
      CheckedStep(base, L, sz, fi, pi, p, n);
      if p == freep {
        AllChecked(base, L, fi, pi, p, n);
      }
    }

    /** malloc()'s found case: p fits and comes right after prevp. */
    method Take(ghost pi: nat, prevp: nat, p: nat, nunits: nat) returns (r: nat)
      requires Valid() && freep != 0 && nunits > 0 && pi <= |L|
      requires prevp == Ring(base, Addrs(L))[pi] && p == Ring(base, Addrs(L))[pi + 1]
      requires prevp in ptr && p in ptr && p in sz && sz[p] >= nunits
      modifies this
      ensures Valid() && r != 0 && r - 1 !in old(live) && live == old(live)[r - 1 := nunits]
      ensures heap == old(heap) && got == old(got) && brk == old(brk) && HighEnd(old(L), r - 1, nunits)
    {
      hide ListOk, RingOk, SizesOk, LiveOk, Conserved;
      FoundAt(base, L, ptr, sz, pi, p, nunits);
      assert HighEnd(L, p + sz[p] - nunits, nunits);
      hide HighEnd;
      RingNonzero(base, L, pi);
      var a := p;
      if sz[p] == nunits {
        TakeWhole(base, L, ptr, sz, pi);
        TakeWholeLive(base, L, sz, live, brk, heap, pi);
        KeepPlace(base, L, Splice(L, pi, pi + 1, []), pi);
        ptr := ptr[prevp := ptr[p]];
        L := Splice(L, pi, pi + 1, []);
      } else {
        TakeTail(base, L, ptr, sz, pi, nunits);
        TakeTailLive(base, L, sz, live, brk, heap, pi, nunits);
        KeepPlace(base, L, L[pi := Blk(p, sz[p] - nunits)], pi);
        L := L[pi := Blk(p, sz[p] - nunits)];
        sz := sz[p := sz[p] - nunits];
        a := p + sz[p];
        sz := sz[a := nunits];
      }
      live := live[a := nunits];
      freep, fi := prevp, pi;
      r := a + 1;
    }
  }

  function Units(nbytes: nat): (n: nat)
    ensures n > 0
  {
    (nbytes + 15) / 16 + 1
  }

  /** A block of that many units has room for nbytes behind its header, and one unit less
      would not have. */
  lemma UnitsHold(nbytes: nat)
    ensures 16 * (Units(nbytes) - 2) < nbytes <= 16 * (Units(nbytes) - 1)
  {
    var n := (nbytes + 15) / 16;
    assert 16 * n <= nbytes + 15 < 16 * n + 16;
  }

  /** What morecore asks sbrk for. */
  function CoreUnits(nunits: nat): nat { if nunits < MINCORE then MINCORE else nunits }

  /** The request in bytes as sbrk's int parameter holds it. */
  function SbrkArg(nunits: nat): int {
    (16 * CoreUnits(nunits) + 0x8000_0000) % 0x1_0000_0000 - 0x8000_0000
  }

  /** A request of at most 2^31 - 32 bytes makes sbrk add exactly what morecore then puts to
      use; for any larger one sbrk is asked for less, so the block morecore frees reaches
      past it. The largest request asks for 16 bytes. */
  lemma SbrkArgFits(nbytes: nat)
    requires nbytes < 0x1_0000_0000
    ensures nbytes <= 0x8000_0000 - 32 <==> SbrkArg(Units(nbytes)) == 16 * CoreUnits(Units(nbytes))
    ensures nbytes > 0x8000_0000 - 32 <==> SbrkArg(Units(nbytes)) < 16 * CoreUnits(Units(nbytes))
    ensures SbrkArg(Units(0xffff_ffff)) == 16
    ensures nbytes <= 0xfff0 ==> SbrkArg(Units(nbytes)) == 0x1_0000
  {
    var n := (nbytes + 15) / 16;
    assert 16 * n <= nbytes + 15 < 16 * n + 16;
  }

  ghost function Region(hp: nat, nu: nat): set<nat> {
    set u | hp <= u < hp + nu && Blk(hp, nu).Has(u)
  }

  /** The units that a successful morecore adds. */
  ghost function Granted(grant: Option<nat>, nunits: nat): set<nat> {
    if grant.Some? then Region(grant.value, CoreUnits(nunits)) else {}
  }

  /** What sbrk has granted after that call, all told: a positive argument adds units from the
      old end of the process; a negative one gives back units below it, unless it asks for
      more than the whole process. */
  ghost function Received(got: set<nat>, grant: Option<nat>, nunits: nat): set<nat> {
    if grant == None then got
    else if SbrkArg(nunits) >= 0 then got + Region(grant.value, SbrkArg(nunits) / 16)
    else if grant.value + SbrkArg(nunits) / 16 < 0 then got
    else set u | u in got && u < grant.value + SbrkArg(nunits) / 16
  }

  lemma GrantFacts(heap: set<nat>, got: set<nat>, brk: nat, grant: Option<nat>, nunits: nat)
    requires grant.Some? && brk <= grant.value && forall u :: u in got ==> u < brk
    ensures forall u :: u in Received(got, grant, nunits) ==> u < grant.value + CoreUnits(nunits)
    ensures Granted(grant, nunits) == Region(grant.value, CoreUnits(nunits)) && CoreUnits(nunits) > 0
    ensures nunits <= CoreUnits(nunits)
    ensures heap <= got ==>
      (heap + Granted(grant, nunits) <= Received(got, grant, nunits) <==> SbrkArg(nunits) == 16 * CoreUnits(nunits))
  {
    var last := grant.value + CoreUnits(nunits) - 1;
    assert last in Granted(grant, nunits);
    assert SbrkArg(nunits) <= 16 * CoreUnits(nunits) && SbrkArg(nunits) % 16 == 0;
    assert last in Received(got, grant, nunits) ==> SbrkArg(nunits) == 16 * CoreUnits(nunits);
  }

  /** The n units from a on are the high end of a free block. */
  ghost predicate HighEnd(L: seq<Blk>, a: int, n: nat) {
    exists k :: 0 <= k < |L| && L[k].size >= n && L[k].End() == a + n
  }

  ghost predicate Fits(L: seq<Blk>, n: nat) {
    exists k :: 0 <= k < |L| && L[k].size >= n
  }

  /** The blocks passed between freep and position pi of the ring are all too small. */
  ghost predicate Checked(L: seq<Blk>, fi: nat, pi: nat, n: nat) {
    forall k :: 0 <= k < |L| && (if fi <= pi then fi <= k < pi else k >= fi || k < pi) ==> L[k].size < n
  }

  lemma CheckedNone(L: seq<Blk>, fi: nat, n: nat)
    ensures Checked(L, fi, fi, n)
  {
  }

  lemma FirstRing(base: nat, ptr: map<nat, nat>, sz: map<nat, nat>, live: map<nat, nat>, brk: nat)
    requires base in ptr && ptr[base] == base && base in sz && sz[base] == 0
    ensures Linked(base, [], ptr, sz) && Ring(base, Addrs([]))[0] == base
    ensures live == map[] ==> LiveOk(base, [], sz, live, brk)
  {
    assert Addrs([]) == [];
  }

  lemma RingAt(base: nat, L: seq<Blk>, ptr: map<nat, nat>, sz: map<nat, nat>, i: nat)
    requires Linked(base, L, ptr, sz) && i <= |L|
    ensures var w := Ring(base, Addrs(L));
      w[i] in ptr && ptr[w[i]] == w[i + 1] && w[i + 1] in ptr && w[i + 1] in sz && w[i] in sz
  {
    RingStep(base, Addrs(L), ptr, i);
    RingStep(base, Addrs(L), ptr, 0);
    if i < |L| { RingStep(base, Addrs(L), ptr, i + 1); }
    assert i < |L| ==> Ring(base, Addrs(L))[i + 1] == L[i].addr;
    assert i > 0 ==> Ring(base, Addrs(L))[i] == L[i - 1].addr;
  }

  lemma CheckedStep(base: nat, L: seq<Blk>, sz: map<nat, nat>, fi: nat, pi: nat, p: nat, n: nat)
    requires Checked(L, fi, pi, n) && SizesOk(L, sz) && fi <= |L| && pi <= |L|
    requires p == Ring(base, Addrs(L))[pi + 1] && p in sz && sz[p] < n
    ensures var next := if pi < |L| then pi + 1 else 0; next != fi ==> Checked(L, fi, next, n)
    ensures pi < |L| ==> L[pi].size < n
  {
    assert pi < |L| ==> Ring(base, Addrs(L))[pi + 1] == L[pi].addr;
  }

  /** Back at freep with nothing found: no free block is large enough. */
  lemma AllChecked(base: nat, L: seq<Blk>, fi: nat, pi: nat, p: nat, n: nat)
    requires ListOk(base, L) && Checked(L, fi, pi, n) && fi <= |L| && pi <= |L| && (pi < |L| ==> L[pi].size < n)
    requires p == Ring(base, Addrs(L))[pi + 1] == Ring(base, Addrs(L))[fi]
    ensures !Fits(L, n)
  {
    RingPlaces(base, L, fi, pi);
  }

  /** Ring positions are distinct. */
  lemma RingPlaces(base: nat, L: seq<Blk>, fi: nat, pi: nat)
    requires ListOk(base, L) && fi <= |L| && pi <= |L|
    ensures Ring(base, Addrs(L))[pi + 1] == Ring(base, Addrs(L))[fi] <==> fi == if pi < |L| then pi + 1 else 0
  {
    AddrsSorted(base, L);
    assert pi < |L| ==> Ring(base, Addrs(L))[pi + 1] == L[pi].addr;
    assert fi > 0 ==> Ring(base, Addrs(L))[fi] == L[fi - 1].addr;
  }

  lemma FoundAt(base: nat, L: seq<Blk>, ptr: map<nat, nat>, sz: map<nat, nat>, pi: nat, p: nat, n: nat)
    requires Linked(base, L, ptr, sz) && pi <= |L| && p == Ring(base, Addrs(L))[pi + 1] && p in sz && sz[p] >= n > 0
    ensures pi < |L| && L[pi].addr == p && L[pi].size == sz[p]
  {
    assert pi < |L| ==> Ring(base, Addrs(L))[pi + 1] == L[pi].addr;
  }

  lemma KeepPlace(base: nat, L: seq<Blk>, R: seq<Blk>, i: nat)
    requires i <= |L| && i <= |R| && forall k :: 0 <= k < i ==> R[k].addr == L[k].addr
    ensures Ring(base, Addrs(R))[i] == Ring(base, Addrs(L))[i]
  {
  }

  lemma GrowFacts(base: nat, L: seq<Blk>, ptr: map<nat, nat>, sz: map<nat, nat>, live: map<nat, nat>, brk: nat,
                  heap: set<nat>, hp: nat, nu: nat)
    requires ListOk(base, L) && Linked(base, L, ptr, sz) && LiveOk(base, L, sz, live, brk) && Conserved(L, live, heap)
    requires base < brk <= hp && nu > 0
    ensures Linked(base, L, ptr, sz[hp := nu]) && hp !in live
    ensures LiveOk(base, L, sz[hp := nu], live[hp := nu], hp + nu)
    ensures Conserved(L, live[hp := nu], heap + Region(hp, nu))
  {
    hide RingOk;
    forall u: nat ensures u in heap + Region(hp, nu) <==> InList(L, u) || InLive(live[hp := nu], u) {
      LiveAdd(live, hp, nu, u);
    }
  }

  lemma LiveAdd(live: map<nat, nat>, a: nat, n: nat, u: int)
    requires a !in live
    ensures InLive(live[a := n], u) <==> InLive(live, u) || a <= u < a + n
  {
    if InLive(live, u) { var c :| c in live && c <= u < c + live[c]; assert c in live[a := n]; }
    if a <= u < a + n { assert a in live[a := n]; }
  }

  lemma TakeWholeLive(base: nat, L: seq<Blk>, sz: map<nat, nat>, live: map<nat, nat>, brk: nat, heap: set<nat>, k: nat)
    requires ListOk(base, L) && SizesOk(L, sz) && LiveOk(base, L, sz, live, brk) && Conserved(L, live, heap) && k < |L|
    ensures var a, n := L[k].addr, L[k].size;
      && a !in live && LiveOk(base, Splice(L, k, k + 1, []), sz, live[a := n], brk)
      && Conserved(Splice(L, k, k + 1, []), live[a := n], heap)
      && k <= |Splice(L, k, k + 1, [])| && forall j :: 0 <= j < k ==> Splice(L, k, k + 1, [])[j] == L[j]
  {
    var a, n, R := L[k].addr, L[k].size, Splice(L, k, k + 1, []);
    SpliceAt(L, k, k + 1, [], R);
    hide Splice;
    forall u: nat ensures u in heap <==> InList(R, u) || InLive(live[a := n], u) {
      TakeWholeCells(base, L, k, u);
      LiveAdd(live, a, n, u);
      if L[k].Has(u) { assert InList(L, u); }
    }
  }

  lemma TakeTailLive(base: nat, L: seq<Blk>, sz: map<nat, nat>, live: map<nat, nat>, brk: nat, heap: set<nat>, k: nat,
                     n: nat)
    requires ListOk(base, L) && SizesOk(L, sz) && LiveOk(base, L, sz, live, brk) && Conserved(L, live, heap)
    requires k < |L| && 0 < n < L[k].size
    ensures var rest := Blk(L[k].addr, L[k].size - n);
      && rest.End() !in live
      && LiveOk(base, L[k := rest], sz[rest.addr := rest.size][rest.End() := n], live[rest.End() := n], brk)
      && Conserved(L[k := rest], live[rest.End() := n], heap)
  {
    TakeTailConserved(base, L, live, heap, k, n);
    hide InList, InLive, Conserved;
  }

  lemma TakeTailConserved(base: nat, L: seq<Blk>, live: map<nat, nat>, heap: set<nat>, k: nat, n: nat)
    requires ListOk(base, L) && Conserved(L, live, heap) && k < |L| && 0 < n < L[k].size
    requires L[k].addr + L[k].size - n !in live
    ensures var rest := Blk(L[k].addr, L[k].size - n); Conserved(L[k := rest], live[rest.End() := n], heap)
  {
    var rest := Blk(L[k].addr, L[k].size - n);
    var a, R := rest.End(), L[k := rest];
    hide ListOk, InList, InLive;
    forall u: nat ensures u in heap <==> InList(R, u) || InLive(live[a := n], u) {
      TakeTailCells(base, L, k, n, u);
      LiveAdd(live, a, n, u);
      InTail(L, k, n, u);
    }
  }

  lemma InTail(L: seq<Blk>, k: nat, n: nat, u: int)
    requires k < |L| && 0 < n < L[k].size
    ensures Blk(L[k].addr + L[k].size - n, n).Has(u) ==> InList(L, u)
  {
    if Blk(L[k].addr + L[k].size - n, n).Has(u) { assert L[k].Has(u); }
  }

  /** free()'s search stops exactly at the place of b. */
  lemma SearchFacts(base: nat, L: seq<Blk>, ptr: map<nat, nat>, pi: nat, t: nat, b: Blk)
    requires ListOk(base, L) && RingOk(base, Addrs(L), ptr) && pi <= |L| && Between(L, t, b) && base < b.addr
    requires b.size > 0
    ensures var p := Ring(base, Addrs(L))[pi];
      && p in ptr && ptr[p] == Ring(base, Addrs(L))[pi + 1]
      && (b.addr > p && b.addr < ptr[p] <==> pi == t && pi < |L|)
      && (p >= ptr[p] && (b.addr > p || b.addr < ptr[p]) <==> pi == t && pi == |L|)
  {
    RingStep(base, Addrs(L), ptr, pi);
    assert pi > 0 ==> Ring(base, Addrs(L))[pi] == L[pi - 1].addr;
    assert pi < |L| ==> Ring(base, Addrs(L))[pi + 1] == L[pi].addr;
  }

  lemma RingNonzero(base: nat, L: seq<Blk>, i: nat)
    requires 0 < base && ListOk(base, L) && i <= |L|
    ensures Ring(base, Addrs(L))[i] >= base
  {
  }

  /** The stores of free() touch no header of another live block. */
  lemma OtherSizes(base: nat, L: seq<Blk>, ptr: map<nat, nat>, sz: map<nat, nat>, live: map<nat, nat>, brk: nat, i: nat,
                   b: Blk)
    requires ListOk(base, L) && Linked(base, L, ptr, sz) && LiveOk(base, L, sz, live, brk) && Between(L, i, b)
    requires b.addr in live && live[b.addr] == b.size
    ensures var p := Ring(base, Addrs(L))[i];
      && p in ptr && p in sz && p != b.addr && ptr[p] in ptr && ptr[p] in sz
      && var sz' := FreedSize(ptr, sz, p, b.addr);
      forall a :: a in live && a != b.addr ==> a in sz' && sz'[a] == sz[a]
  {
    FreeTests(base, L, ptr, sz, i, b);
    var p := Ring(base, Addrs(L))[i];
    FreedOnly(ptr, sz, p, b.addr);
    hide FreedSize;
    LowerNotLive(base, L, sz, live, brk, i, p);
  }

  lemma FreedOnly(ptr: map<nat, nat>, sz: map<nat, nat>, p: nat, bp: nat)
    requires p in ptr && p in sz && bp in sz && p != bp && (bp + sz[bp] == ptr[p] ==> ptr[p] in sz)
    ensures var sz' := FreedSize(ptr, sz, p, bp);
      forall a :: a in sz && a != bp && a != p ==> a in sz' && sz'[a] == sz[a]
  {
  }

  /** The header before the place of a freed block is no live block's. */
  lemma LowerNotLive(base: nat, L: seq<Blk>, sz: map<nat, nat>, live: map<nat, nat>, brk: nat, i: nat, p: nat)
    requires ListOk(base, L) && LiveOk(base, L, sz, live, brk) && i <= |L| && p == Ring(base, Addrs(L))[i]
    ensures p !in live
    ensures forall a :: a in live ==> a in sz
  {
    assert p == base || (i > 0 && p == L[i - 1].addr);
  }

  lemma InsertedHas(base: nat, L: seq<Blk>, i: nat, b: Blk)
    requires ListOk(base, L) && Between(L, i, b)
    ensures exists k ::
      && 0 <= k < |Inserted(L, i, b)|
      && Inserted(L, i, b)[k].addr <= b.addr && b.End() <= Inserted(L, i, b)[k].End()
  {
    var lo := if JoinsLower(L, i, b) then i - 1 else i;
    var hi := if JoinsUpper(L, i, b) then i + 1 else i;
    SpliceAt(L, lo, hi, [Merged(L, i, b)], Inserted(L, i, b));
    assert Inserted(L, i, b)[lo] == Merged(L, i, b);
  }

  /** The place where free() stopped keeps its place in the ring. */
  lemma InsertedPlace(base: nat, L: seq<Blk>, i: nat, b: Blk)
    requires ListOk(base, L) && Between(L, i, b)
    ensures i <= |Inserted(L, i, b)| && Ring(base, Addrs(Inserted(L, i, b)))[i] == Ring(base, Addrs(L))[i]
  {
    InsertedAddrs(L, i, b);
    hide Inserted;
    var A, A' := Addrs(L), Addrs(Inserted(L, i, b));
    assert i > 0 ==> A'[i - 1] == A[i - 1];
  }
}
