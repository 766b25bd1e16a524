/** kernel/virtio_disk.c: the descriptor table and the two rings shared with the device.
    The driver's critical sections under vdisk_lock, the device's fetches and completions
    and the interrupt handler are methods that may be called in any order; `Valid` is what
    every one of them keeps. The device follows section 2.6 of Virtio 1.1: it takes
    available entries in order and completes what it took in any order. */
module Virtio {
  import opened Common

  const NUM := 8
  const WRAP := 0x1_0000  // the ring indices are uint16

  /** What a descriptor's addr points to. */
  datatype Target = NoTarget | Header(i: nat) | Data(buf: nat) | Status(i: nat)

  /** hasNext and devWrites are the flags VRING_DESC_F_NEXT and VRING_DESC_F_WRITE. */
  datatype Desc = Desc(addr: Target, hasNext: bool, devWrites: bool, next: nat)

  /** struct virtio_blk_req */
  datatype Req = Req(write: bool, sector: nat)

  datatype Info = Info(b: Option<nat>, status: nat)

  /** A chain's way through the rings: published, taken by the device, completed, seen by
      the interrupt handler. */
  datatype Phase = Avail | Taken | Used | Seen

  /** A three-descriptor chain in flight, by its head. */
  datatype Chain = Chain(i1: nat, i2: nat, buf: nat, write: bool, blockno: nat, phase: Phase)

  /** blockno * (BSIZE / 512), computed in 32 bits. */
  function Sector(blockno: nat): nat {
    2 * blockno % 0x1_0000_0000
  }

  const BSIZE := 1024

  /** Below 2^31 the sector a block is told to the device by starts at the block's own first
      byte, so no two blocks share one; from 2^31 on the product wraps to another block's. */
  lemma SectorsApart(blockno: nat, other: nat)
    requires blockno < 0x1_0000_0000 && other < 0x8000_0000
    ensures 512 * Sector(blockno) == BSIZE * blockno <==> blockno < 0x8000_0000
    ensures blockno < other ==> 512 * Sector(blockno) + BSIZE <= 512 * Sector(other)
    ensures blockno >= 0x8000_0000 ==> Sector(blockno) == Sector(blockno - 0x8000_0000)
  {
    assert blockno < 0x8000_0000 ==> 2 * blockno % 0x1_0000_0000 == 2 * blockno;
    assert blockno >= 0x8000_0000 ==> 2 * blockno % 0x1_0000_0000 == 2 * (blockno - 0x8000_0000);
    assert 2 * other % 0x1_0000_0000 == 2 * other;
  }

  const ZERO := Desc(NoTarget, false, false, 0)

  lemma {:induction false} Pigeonhole(s: seq<nat>, n: nat)
    requires Distinct(s) && forall i :: 0 <= i < |s| ==> s[i] < n
    ensures |s| <= n
    decreases n
  {
    if s != [] {
      assert s[0] < n;
      if k :| 0 <= k < |s| && s[k] == n - 1 {
        Pigeonhole(s[..k] + s[k + 1..], n - 1);
      } else {
        Pigeonhole(s, n - 1);
      }
    }
  }

  /** Distinct numbers below NUM, none of them x: there is a ring slot left. */
  lemma RoomInRing(s: seq<nat>, x: nat)
    requires Distinct(s) && x < NUM && x !in s && forall i :: 0 <= i < |s| ==> s[i] < NUM
    ensures |s| < NUM
  {
    Pigeonhole(s + [x], NUM);
  }

  // ---------- invariants ----------

  /** The descriptors of chain c with head h lead from the header through the data to the
      status byte. */
  ghost predicate Formatted(desc: seq<Desc>, ops: seq<Req>, h: nat, c: Chain) {
    && |desc| == |ops| == NUM && h < NUM && c.i1 < NUM && c.i2 < NUM
    && desc[h] == Desc(Header(h), true, false, c.i1)
    && desc[c.i1] == Desc(Data(c.buf), true, !c.write, c.i2)
    && desc[c.i2] == Desc(Status(h), false, true, 0)
    && ops[h] == Req(c.write, Sector(c.blockno))
  }

  ghost predicate AllFormatted(desc: seq<Desc>, ops: seq<Req>, chains: map<nat, Chain>) {
    forall h :: h in chains ==> Formatted(desc, ops, h, chains[h])
  }

  ghost predicate Uses(h: nat, c: Chain, d: nat) {
    d == h || d == c.i1 || d == c.i2
  }

  ghost predicate ThreeDistinct(chains: map<nat, Chain>) {
    forall h :: h in chains ==>
      h < NUM && chains[h].i1 < NUM && chains[h].i2 < NUM &&
      h != chains[h].i1 && h != chains[h].i2 && chains[h].i1 != chains[h].i2
  }

  ghost predicate Disjoint(chains: map<nat, Chain>) {
    forall h, g, d :: h in chains && g in chains && Uses(h, chains[h], d) && Uses(g, chains[g], d) ==> h == g
  }

  ghost predicate InChain(chains: map<nat, Chain>, d: nat) {
    exists h :: h in chains && Uses(h, chains[h], d)
  }

  /** Each descriptor is free or in exactly one chain, once. */
  ghost predicate Partition(free: seq<bool>, chains: map<nat, Chain>) {
    && |free| == NUM && ThreeDistinct(chains) && Disjoint(chains)
    && (forall d: nat :: d < NUM ==> (free[d] <==> !InChain(chains, d)))
  }

  ghost predicate ThreeFree(free: seq<bool>)
    requires |free| == NUM
  {
    exists a, b, c :: 0 <= a < b < c < NUM && free[a] && free[b] && free[c]
  }

  /** `queue` lists exactly the heads in the given phase, in ring order from position n. */
  ghost predicate Queued(ring: seq<nat>, n: nat, queue: seq<nat>, chains: map<nat, Chain>, phase: Phase) {
    && |ring| == NUM && Distinct(queue)
    && (forall i :: 0 <= i < |queue| ==> queue[i] in chains && chains[queue[i]].phase == phase)
    && (forall h :: h in chains && chains[h].phase == phase ==> h in queue)
    && (forall i :: 0 <= i < |queue| ==> ring[(n + i) % NUM] == queue[i])
  }

  /** A ring with its 16-bit indices: `head` where the reader is, `tail` where the writer is. */
  ghost predicate Ring(ring: seq<nat>, head: nat, tail: nat, n: nat, queue: seq<nat>, chains: map<nat, Chain>,
                       phase: Phase) {
    Queued(ring, n, queue, chains, phase) && head == n % WRAP && tail == (n + |queue|) % WRAP
  }

  /** In-flight information: the buffer waits until the interrupt handler has seen it. */
  ghost predicate Waiting(info: seq<Info>, busy: set<nat>, chains: map<nat, Chain>) {
    && |info| == NUM
    && (forall h :: h in chains ==> h < NUM && info[h].b == Some(chains[h].buf))
    && (forall h :: h in chains ==> (chains[h].buf in busy <==> chains[h].phase != Seen))
    && (forall h :: h in chains && chains[h].phase == Used ==> info[h].status == 0)
    && (forall h, g :: h in chains && g in chains && h != g ==> chains[h].buf != chains[g].buf)
    && (forall b :: b in busy ==> HasChain(chains, b))
  }

  ghost predicate HasChain(chains: map<nat, Chain>, b: nat) {
    exists h :: h in chains && chains[h].buf == b
  }

  // ---------- the rings ----------

  /** 16-bit indices and unbounded counts pick the same slots. */
  lemma SlotOf(n: nat)
    ensures n % WRAP % NUM == n % NUM && (n % WRAP + 1) % WRAP == (n + 1) % WRAP
  {
    var q, r := n / WRAP, n % WRAP;
    SlotShift(r, 0x2000 * q);
  }

  lemma SlotShift(r: nat, k: nat)
    ensures (r + NUM * k) % NUM == r % NUM
  {
  }

  /** Fewer than WRAP entries apart, equal 16-bit indices mean equal counts. */
  lemma SameIndex(n: nat, k: nat)
    requires k <= NUM
    ensures (n + k) % WRAP == n % WRAP <==> k == 0
  {
  }

  /** A new head goes to the end of its queue; the slot it is written to holds no entry
      still waiting there. */
  lemma Enqueued(ring: seq<nat>, n: nat, queue: seq<nat>, chains: map<nat, Chain>, phase: Phase, h: nat, c: Chain)
    requires Queued(ring, n, queue, chains, phase)
    requires h < NUM && forall g :: g in chains ==> g < NUM
    requires h in chains ==> chains[h].phase != phase
    requires c.phase == phase
    ensures |queue| < NUM
    ensures Queued(ring[(n + |queue|) % NUM := h], n, queue + [h], chains[h := c], phase)
  {
    assert h !in queue;
    RoomInRing(queue, h);
    var r := ring[(n + |queue|) % NUM := h];
    var q := queue + [h];
    forall i | 0 <= i < |q| ensures r[(n + i) % NUM] == q[i] {
      if i < |queue| {
        assert (n + i) % NUM != (n + |queue|) % NUM;
      }
    }
    forall g | g in chains[h := c] && chains[h := c][g].phase == phase ensures g in q {
      if g != h {
        assert g in queue;
      } else {
        assert q[|queue|] == h;
      }
    }
  }

  /** Taking the oldest entry of a queue. */
  lemma Dequeued(ring: seq<nat>, n: nat, queue: seq<nat>, chains: map<nat, Chain>, phase: Phase, h: nat, c: Chain)
    requires Queued(ring, n, queue, chains, phase) && queue != [] && h == queue[0] && c.phase != phase
    ensures ring[n % NUM] == h
    ensures Queued(ring, n + 1, queue[1..], chains[h := c], phase)
  {
    assert ring[(n + 0) % NUM] == queue[0];
    var q := queue[1..];
    forall i | 0 <= i < |q| ensures ring[(n + 1 + i) % NUM] == q[i] {
      assert ring[(n + (i + 1)) % NUM] == queue[i + 1];
    }
    forall g | g in chains[h := c] && chains[h := c][g].phase == phase ensures g in q {
      assert g != h && g in queue;
      var i :| 0 <= i < |queue| && queue[i] == g;
      assert q[i - 1] == g;
    }
  }

  /** A change to a chain in another phase leaves a queue alone. */
  lemma OtherQueue(ring: seq<nat>, n: nat, queue: seq<nat>, chains: map<nat, Chain>, phase: Phase, h: nat, c: Chain)
    requires Queued(ring, n, queue, chains, phase) && c.phase != phase && (h in chains ==> chains[h].phase != phase)
    ensures Queued(ring, n, queue, chains[h := c], phase)
    ensures Queued(ring, n, queue, chains - {h}, phase)
  {
    assert h !in queue;
  }

  // ---------- the partition ----------

  lemma InChainAdd(chains: map<nat, Chain>, h: nat, c: Chain, d: nat)
    requires h !in chains
    ensures InChain(chains[h := c], d) <==> InChain(chains, d) || Uses(h, c, d)
  {
    var cs := chains[h := c];
    if g :| g in chains && Uses(g, chains[g], d) {
      assert g in cs && Uses(g, cs[g], d);
    }
    if Uses(h, c, d) {
      assert h in cs && Uses(h, cs[h], d);
    }
  }

  lemma DisjointAdd(chains: map<nat, Chain>, h: nat, c: Chain)
    requires Disjoint(chains) && h !in chains && forall d :: Uses(h, c, d) ==> !InChain(chains, d)
    ensures Disjoint(chains[h := c])
  {
  }

  lemma Added(free: seq<bool>, chains: map<nat, Chain>, h: nat, c: Chain)
    requires Partition(free, chains) && h < NUM && c.i1 < NUM && c.i2 < NUM
    requires h != c.i1 && h != c.i2 && c.i1 != c.i2 && free[h] && free[c.i1] && free[c.i2]
    ensures h !in chains
    ensures Partition(free[h := false][c.i1 := false][c.i2 := false], chains[h := c])
  {
    assert h in chains ==> Uses(h, chains[h], h);
    hide InChain, Disjoint;
    DisjointAdd(chains, h, c);
    var f, cs := free[h := false][c.i1 := false][c.i2 := false], chains[h := c];
    forall d: nat | d < NUM ensures f[d] <==> !InChain(cs, d) {
      InChainAdd(chains, h, c, d);
    }
  }

  lemma Removed(free: seq<bool>, chains: map<nat, Chain>, h: nat)
    requires Partition(free, chains) && h in chains
    ensures var c := chains[h]; Partition(free[h := true][c.i1 := true][c.i2 := true], chains - {h})
  {
    var c, cs := chains[h], chains - {h};
    var f := free[h := true][c.i1 := true][c.i2 := true];
    DisjointRemove(chains, h);
    hide InChain, Disjoint;
    assert cs[h := c] == chains;
    forall d: nat | d < NUM ensures f[d] <==> !InChain(cs, d) {
      InChainAdd(cs, h, c, d);
    }
  }

  lemma DisjointRemove(chains: map<nat, Chain>, h: nat)
    requires Disjoint(chains) && h in chains
    ensures Disjoint(chains - {h})
    ensures forall d :: Uses(h, chains[h], d) ==> !InChain(chains - {h}, d)
  {
    forall d | Uses(h, chains[h], d) ensures !InChain(chains - {h}, d) {
    }
  }

  lemma Moved(free: seq<bool>, chains: map<nat, Chain>, h: nat, phase: Phase)
    requires Partition(free, chains) && h in chains
    ensures Partition(free, chains[h := chains[h].(phase := phase)])
  {
    var c, cs := chains[h].(phase := phase), chains - {h};
    DisjointRemove(chains, h);
    assert forall d :: Uses(h, c, d) <==> Uses(h, chains[h], d);
    DisjointAdd(cs, h, c);
    hide InChain, Disjoint;
    assert cs[h := c] == chains[h := c] && cs[h := chains[h]] == chains;
    forall d: nat | d < NUM ensures free[d] <==> !InChain(chains[h := c], d) {
      InChainAdd(cs, h, c, d);
      InChainAdd(cs, h, chains[h], d);
    }
  }

  function FreeSet(free: seq<bool>): (r: set<nat>) {
    set d: nat | d < |free| && free[d]
  }

  function Below(n: nat): (r: set<nat>)
    ensures forall d :: d in r <==> 0 <= d < n
    ensures |r| == n
  {
    if n == 0 then {} else Below(n - 1) + {n - 1}
  }

  /** No descriptor is lost or shared: three for each chain in flight, the rest free. */
  lemma {:induction false} Conserved(free: seq<bool>, chains: map<nat, Chain>)
    requires Partition(free, chains)
    ensures |FreeSet(free)| + 3 * |chains| == 8
    decreases |chains|
  {
    hide Partition, FreeSet;
    UsedNotFree(free, chains);
    if chains == map[] {
      AllFree(free);
    } else {
      var h :| h in chains;
      var c := chains[h];
      Removed(free, chains, h);
      assert (chains - {h}).Keys == chains.Keys - {h};
      Conserved(free[h := true][c.i1 := true][c.i2 := true], chains - {h});
      FreeOne(free, h);
      FreeOne(free[h := true], c.i1);
      FreeOne(free[h := true][c.i1 := true], c.i2);
    }
  }

  lemma AllFree(free: seq<bool>)
    requires Partition(free, map[])
    ensures |FreeSet(free)| == NUM
  {
    assert FreeSet(free) == Below(NUM);
  }

  lemma FreeOne(free: seq<bool>, d: nat)
    requires d < |free| && !free[d]
    ensures |FreeSet(free[d := true])| == |FreeSet(free)| + 1
  {
    assert FreeSet(free[d := true]) == FreeSet(free) + {d};
  }

  /** Three descriptors can be had exactly when fewer than two requests are in flight. */
  lemma RoomForTwo(free: seq<bool>, chains: map<nat, Chain>)
    requires Partition(free, chains)
    ensures |chains| <= 2
    ensures ThreeFree(free) <==> |chains| < 2
  {
    Conserved(free, chains);
    ThreeCounted(free);
  }

  lemma ThreeCounted(free: seq<bool>)
    requires |free| == NUM
    ensures ThreeFree(free) <==> |FreeSet(free)| >= 3
  {
    var s := FreeSet(free);
    if a, b, c :| 0 <= a < b < c < NUM && free[a] && free[b] && free[c] {
      assert {a, b, c} <= s;
      SubsetSize({a, b, c}, s);
      assert |{a, b, c}| == 3;
    }
    if |s| >= 3 {
      PickThree(free);
    }
  }

  lemma PickThree(free: seq<bool>)
    requires |free| == NUM && |FreeSet(free)| >= 3
    ensures ThreeFree(free)
  {
    var s := FreeSet(free);
    hide ThreeFree;
    var i :| i in s;
    assert |s - {i}| == |s| - 1;
    var j :| j in s - {i};
    assert |s - {i} - {j}| == |s| - 2;
    var k :| k in s - {i} - {j};
    Three(free, i, j, k);
  }

  lemma UsedNotFree(free: seq<bool>, chains: map<nat, Chain>)
    requires Partition(free, chains)
    ensures |free| == NUM && ThreeDistinct(chains)
    ensures forall h :: h in chains ==> !free[h] && !free[chains[h].i1] && !free[chains[h].i2]
  {
    forall h | h in chains ensures !free[h] && !free[chains[h].i1] && !free[chains[h].i2] {
      assert Uses(h, chains[h], h) && Uses(h, chains[h], chains[h].i1) && Uses(h, chains[h], chains[h].i2);
    }
  }

  lemma HeadsBelow(free: seq<bool>, chains: map<nat, Chain>)
    requires Partition(free, chains)
    ensures forall g :: g in chains ==> g < NUM
  {
  }

  /** Descriptors that are free may change without touching a chain. */
  ghost predicate SameUsed(free: seq<bool>, desc: seq<Desc>, ops: seq<Req>, desc': seq<Desc>, ops': seq<Req>) {
    && |free| == |desc| == |ops| == |desc'| == |ops'| == NUM
    && (forall d :: 0 <= d < NUM && !free[d] ==> desc'[d] == desc[d] && ops'[d] == ops[d])
  }

  lemma FormattedOne(free: seq<bool>, desc: seq<Desc>, ops: seq<Req>, desc': seq<Desc>, ops': seq<Req>, h: nat,
                     c: Chain)
    requires SameUsed(free, desc, ops, desc', ops') && Formatted(desc, ops, h, c)
    requires !free[h] && !free[c.i1] && !free[c.i2]
    ensures Formatted(desc', ops', h, c)
  {
  }

  lemma StillFormatted(free: seq<bool>, desc: seq<Desc>, ops: seq<Req>, desc': seq<Desc>, ops': seq<Req>,
                       chains: map<nat, Chain>)
    requires Partition(free, chains) && AllFormatted(desc, ops, chains) && SameUsed(free, desc, ops, desc', ops')
    ensures AllFormatted(desc', ops', chains)
  {
    UsedNotFree(free, chains);
    hide Partition, SameUsed, Formatted;
    forall g | g in chains ensures Formatted(desc', ops', g, chains[g]) {
      FormattedOne(free, desc, ops, desc', ops', g, chains[g]);
    }
  }

  lemma FormattedAdd(desc: seq<Desc>, ops: seq<Req>, chains: map<nat, Chain>, h: nat, c: Chain)
    requires AllFormatted(desc, ops, chains) && Formatted(desc, ops, h, c)
    ensures AllFormatted(desc, ops, chains[h := c])
  {
    hide Formatted;
  }

  lemma HasChainMore(chains: map<nat, Chain>, h: nat, c: Chain, b: nat)
    requires HasChain(chains, b) && (h in chains ==> chains[h].buf == c.buf)
    ensures HasChain(chains[h := c], b)
  {
    var g :| g in chains && chains[g].buf == b;
    assert g in chains[h := c] && chains[h := c][g].buf == b;
  }

  lemma WaitingAdd(info: seq<Info>, busy: set<nat>, chains: map<nat, Chain>, h: nat, c: Chain)
    requires Waiting(info, busy, chains) && h < NUM && h !in chains && c.phase == Avail
    requires forall g :: g in chains ==> chains[g].buf != c.buf
    ensures Waiting(info[h := Info(Some(c.buf), 0xff)], busy + {c.buf}, chains[h := c])
  {
    var cs := chains[h := c];
    forall b | b in busy + {c.buf} ensures HasChain(cs, b) {
      if b == c.buf {
        assert cs[h].buf == b;
      } else {
        HasChainMore(chains, h, c, b);
      }
    }
  }

  // ---------- moving a request on ----------

  /** The 16-bit indices agree exactly when nothing is queued. */
  lemma RingEmpty(free: seq<bool>, ring: seq<nat>, head: nat, tail: nat, n: nat, queue: seq<nat>, chains: map<nat,
                  Chain>, phase: Phase)
    requires Partition(free, chains) && Ring(ring, head, tail, n, queue, chains, phase)
    ensures head == tail <==> queue == []
    ensures queue != [] ==> queue[0] in chains && queue[0] < NUM && chains[queue[0]].phase == phase
  {
    HeadsBelow(free, chains);
    hide Partition;
    Pigeonhole(queue, NUM);
    SameIndex(n, |queue|);
  }

  /** Writing at the tail. */
  lemma RingPut(ring: seq<nat>, head: nat, tail: nat, n: nat, queue: seq<nat>, chains: map<nat, Chain>, phase: Phase,
                h: nat, c: Chain)
    requires Ring(ring, head, tail, n, queue, chains, phase) && |ring| == NUM
    requires h < NUM && (forall g :: g in chains ==> g < NUM) && (h in chains ==> chains[h].phase != phase)
    requires c.phase == phase
    ensures Ring(ring[tail % NUM := h], head, (tail + 1) % WRAP, n, queue + [h], chains[h := c], phase)
  {
    Enqueued(ring, n, queue, chains, phase, h, c);
    SlotOf(n + |queue|);
    hide Queued;
  }

  /** Reading at the head. */
  lemma RingTake(ring: seq<nat>, head: nat, tail: nat, n: nat, queue: seq<nat>, chains: map<nat, Chain>, phase: Phase,
                 c: Chain)
    requires Ring(ring, head, tail, n, queue, chains, phase) && |ring| == NUM && queue != [] && c.phase != phase
    ensures ring[head % NUM] == queue[0]
    ensures Ring(ring, (head + 1) % WRAP, tail, n + 1, queue[1..], chains[queue[0] := c], phase)
  {
    Dequeued(ring, n, queue, chains, phase, queue[0], c);
    SlotOf(n);
    hide Queued;
  }

  lemma RingOther(ring: seq<nat>, head: nat, tail: nat, n: nat, queue: seq<nat>, chains: map<nat, Chain>, phase: Phase,
                  h: nat, c: Chain)
    requires Ring(ring, head, tail, n, queue, chains, phase) && c.phase != phase
    requires (h in chains ==> chains[h].phase != phase)
    ensures Ring(ring, head, tail, n, queue, chains[h := c], phase)
    ensures Ring(ring, head, tail, n, queue, chains - {h}, phase)
  {
    OtherQueue(ring, n, queue, chains, phase, h, c);
  }

  lemma FormattedMoved(desc: seq<Desc>, ops: seq<Req>, chains: map<nat, Chain>, h: nat, phase: Phase)
    requires AllFormatted(desc, ops, chains) && h in chains
    ensures AllFormatted(desc, ops, chains[h := chains[h].(phase := phase)])
  {
    assert Formatted(desc, ops, h, chains[h]);
  }

  lemma FormattedOf(desc: seq<Desc>, ops: seq<Req>, chains: map<nat, Chain>, h: nat)
    requires AllFormatted(desc, ops, chains) && h in chains
    ensures Formatted(desc, ops, h, chains[h]) && AllFormatted(desc, ops, chains - {h})
  {
  }

  /** Every buffer that waited still has its chain. */
  lemma StillOwned(busy: set<nat>, chains: map<nat, Chain>, h: nat, c: Chain)
    requires h in chains && c.buf == chains[h].buf && forall b :: b in busy ==> HasChain(chains, b)
    ensures forall b :: b in busy ==> HasChain(chains[h := c], b)
  {
    forall b | b in busy ensures HasChain(chains[h := c], b) {
      HasChainMore(chains, h, c, b);
    }
  }

  lemma WaitingMoved(info: seq<Info>, busy: set<nat>, chains: map<nat, Chain>, h: nat, phase: Phase)
    requires Waiting(info, busy, chains) && h in chains && chains[h].phase != Seen && (phase == Avail || phase == Taken)
    ensures Waiting(info, busy, chains[h := chains[h].(phase := phase)])
  {
    StillOwned(busy, chains, h, chains[h].(phase := phase));
    hide HasChain;
  }

  lemma WaitingUsed(info: seq<Info>, busy: set<nat>, chains: map<nat, Chain>, h: nat)
    requires Waiting(info, busy, chains) && h in chains && chains[h].phase == Taken
    ensures h < |info| && Waiting(info[h := info[h].(status := 0)], busy, chains[h := chains[h].(phase := Used)])
  {
    StillOwned(busy, chains, h, chains[h].(phase := Used));
    hide HasChain;
  }

  lemma WaitingSeen(info: seq<Info>, busy: set<nat>, chains: map<nat, Chain>, h: nat)
    requires Waiting(info, busy, chains) && h in chains && chains[h].phase == Used
    ensures h < |info| && info[h] == Info(Some(chains[h].buf), 0) && chains[h].buf in busy
    ensures Waiting(info, busy - {chains[h].buf}, chains[h := chains[h].(phase := Seen)])
  {
    StillOwned(busy, chains, h, chains[h].(phase := Seen));
    hide HasChain;
  }

  lemma WaitingDone(info: seq<Info>, busy: set<nat>, chains: map<nat, Chain>, h: nat)
    requires Waiting(info, busy, chains) && h in chains && chains[h].buf !in busy
    ensures chains[h].phase == Seen
    ensures h < |info| && Waiting(info[h := info[h].(b := None)], busy, chains - {h})
  {
    forall b | b in busy ensures HasChain(chains - {h}, b) {
      var g :| g in chains && chains[g].buf == b;
      assert g in chains - {h} && (chains - {h})[g].buf == b;
    }
  }

  /** The chains after the handler has run: every completed one is seen. */
  ghost function AllSeen(chains: map<nat, Chain>): map<nat, Chain> {
    map h | h in chains :: if chains[h].phase == Used then chains[h].(phase := Seen) else chains[h]
  }

  /** The buffers that still wait then: those of requests that are not complete. */
  ghost function StillBusy(busy: set<nat>, chains: map<nat, Chain>): set<nat> {
    set b | b in busy && forall h :: h in chains && chains[h].phase == Used ==> chains[h].buf != b
  }

  lemma RetireOne(ring: seq<nat>, head: nat, tail: nat, n: nat, queue: seq<nat>, info: seq<Info>, busy: set<nat>,
                  chains: map<nat, Chain>)
    requires Ring(ring, head, tail, n, queue, chains, Used) && queue != [] && Waiting(info, busy, chains)
    ensures queue[0] in chains
    ensures var h := queue[0]; var cs := chains[h := chains[h].(phase := Seen)];
      AllSeen(cs) == AllSeen(chains) && StillBusy(busy - {chains[h].buf}, cs) == StillBusy(busy, chains)
  {
    var h := queue[0];
    assert h in chains && chains[h].phase == Used;
    hide Ring;
    var cs := chains[h := chains[h].(phase := Seen)];
    forall b ensures b in StillBusy(busy - {chains[h].buf}, cs) <==> b in StillBusy(busy, chains) {
      if b in StillBusy(busy - {chains[h].buf}, cs) {
        forall g | g in chains && chains[g].phase == Used ensures chains[g].buf != b {
          assert g != h ==> cs[g] == chains[g];
        }
      }
      if b in StillBusy(busy, chains) {
        forall g | g in cs && cs[g].phase == Used ensures cs[g].buf != b {
          assert cs[g] == chains[g];
        }
      }
    }
  }

  lemma NothingUsed(ring: seq<nat>, head: nat, tail: nat, n: nat, queue: seq<nat>, busy: set<nat>, chains: map<nat,
                    Chain>)
    requires Ring(ring, head, tail, n, queue, chains, Used) && queue == []
    ensures AllSeen(chains) == chains && StillBusy(busy, chains) == busy
  {
  }

  class Disk {
    var free: seq<bool>
    var desc: seq<Desc>
    var ops: seq<Req>
    var info: seq<Info>
    var availRing: seq<nat>
    var availIdx: nat           // avail->idx
    var usedRing: seq<nat>
    var usedIdx: nat            // used->idx, written by the device
    var seenIdx: nat            // disk.used_idx
    var busy: set<nat>          // buffers with b->disk == 1
    ghost var chains: map<nat, Chain>
    var takenIdx: nat           // the device's own place in the available ring
    ghost var fetched: nat      // available entries the device has taken
    ghost var availQ: seq<nat>  // published heads not yet taken
    ghost var seen: nat         // used entries the handler has processed
    ghost var usedQ: seq<nat>   // completed heads not yet seen

    ghost predicate Sized()
      reads this
    {
      |free| == |desc| == |ops| == |info| == |availRing| == |usedRing| == NUM
    }

    ghost predicate Valid()
      reads this
    {
      && Sized() && Partition(free, chains) && AllFormatted(desc, ops, chains)
      && Ring(availRing, takenIdx, availIdx, fetched, availQ, chains, Avail)
      && Ring(usedRing, seenIdx, usedIdx, seen, usedQ, chains, Used)
      && Waiting(info, busy, chains)
    }

    /** All descriptors free, both rings empty. */
    constructor ()
      ensures Valid() && chains == map[] && busy == {}
    {
      free, desc := seq(NUM, _ => true), seq(NUM, _ => ZERO);
      ops, info := seq(NUM, _ => Req(false, 0)), seq(NUM, _ => Info(None, 0));
      availRing, availIdx, usedRing, usedIdx, seenIdx, takenIdx := seq(NUM, _ => 0), 0, seq(NUM, _ => 0), 0, 0, 0;
      busy, chains, fetched, availQ, seen, usedQ := {}, map[], 0, [], 0, [];
    }

    /** alloc_desc(): the first free descriptor, or NUM for none. */
    method AllocDesc() returns (i: nat)
      requires |free| == NUM
      modifies `free
      ensures i <= NUM && (i == NUM ==> free == old(free) && forall d :: 0 <= d < NUM ==> !free[d])
      ensures i < NUM ==> old(free)[i] && free == old(free)[i := false]
    {
      i := 0;
      while i < NUM
        invariant 0 <= i <= NUM && free == old(free) && forall d :: 0 <= d < i ==> !free[d]
      {
        if free[i] {
          free := free[i := false];
          return;
        }
        i := i + 1;
      }
    }

    /** free_desc(): its callers never free a free descriptor. */
    method FreeDesc(i: nat)
      requires |free| == |desc| == NUM && i < NUM && !free[i]
      modifies `free, `desc
      ensures free == old(free)[i := true] && desc == old(desc)[i := ZERO]
    {
      desc := desc[i := ZERO];
      free := free[i := true];
    }

    /** alloc3_desc(): three descriptors, or none and every one it took is back. */
    method Alloc3() returns (ok: bool, idx: seq<nat>)
      requires |free| == |desc| == NUM
      modifies `free, `desc
      ensures |desc| == NUM && |free| == NUM
      ensures forall d :: 0 <= d < NUM && !old(free)[d] ==> desc[d] == old(desc)[d]
      ensures !ok ==> free == old(free)
      ensures ok ==> |idx| == 3 && Distinct(idx) && forall k :: 0 <= k < 3 ==> idx[k] < NUM && old(free)[idx[k]]
      ensures ok ==> desc == old(desc) && free == old(free)[idx[0] := false][idx[1] := false][idx[2] := false]
      ensures ok <==> ThreeFree(old(free))
    {
      idx := [];
      var i := AllocDesc();
      if i == NUM {
        return false, idx;
      }
      var j := AllocDesc();
      if j == NUM {
        FreeDesc(i);
        assert free == old(free);
        return false, idx;
      }
      var k := AllocDesc();
      if k == NUM {
        FreeDesc(i);
        FreeDesc(j);
        assert free == old(free);
        return false, idx;
      }
      Three(old(free), i, j, k);
      return true, [i, j, k];
    }

    /** free_chain(): follows the next links and frees exactly the three descriptors. */
    method FreeChain(h: nat, ghost c: Chain)
      requires |free| == NUM && Formatted(desc, ops, h, c) && h != c.i1 && h != c.i2 && c.i1 != c.i2
      requires !free[h] && !free[c.i1] && !free[c.i2]
      modifies `free, `desc
      ensures free == old(free)[h := true][c.i1 := true][c.i2 := true]
      ensures desc == old(desc)[h := ZERO][c.i1 := ZERO][c.i2 := ZERO]
    {
      var i := h;
      ghost var n := 0;
      while true
        invariant 0 <= n <= 2 && i == (if n == 0 then h else if n == 1 then c.i1 else c.i2)
        invariant |free| == |desc| == NUM
        invariant free ==
          if n == 0 then old(free) else if n == 1 then old(free)[h := true] else old(free)[h := true][c.i1 := true]
        invariant desc ==
          if n == 0 then old(desc) else if n == 1 then old(desc)[h := ZERO] else old(desc)[h := ZERO][c.i1 := ZERO]
        decreases 3 - n
      {
        var more, next := desc[i].hasNext, desc[i].next;
        FreeDesc(i);
        if !more {
          break;
        }
        i := next;
        n := n + 1;
      }
    }

    /** virtio_disk_rw(b, write) up to the notification. It has to sleep exactly when two
        requests are in flight, and then nothing is taken; otherwise the request is
        published behind the earlier ones, whose ring entries all stay. The caller holds
        b's sleep-lock, so b is in no other request. */
    method Submit(b: nat, blockno: nat, write: bool) returns (ok: bool, h: nat)
      requires Valid() && forall g :: g in chains ==> chains[g].buf != b
      modifies this
      ensures Valid() && fetched == old(fetched) && seen == old(seen) && usedQ == old(usedQ)
      ensures ok <==> |old(chains)| < 2
      ensures !ok ==> chains == old(chains) && availQ == old(availQ) && busy == old(busy) && free == old(free)
      ensures ok ==> h !in old(chains) && h in chains && chains == old(chains)[h := chains[h]]
      ensures ok ==>
        && chains[h].buf == b && chains[h].write == write && chains[h].blockno == blockno && chains[h].phase == Avail
      ensures ok ==> availQ == old(availQ) + [h] && busy == old(busy) + {b}
    {
      hide Ring, Partition, Waiting, AllFormatted, Formatted, ThreeFree, Distinct;
      RoomForTwo(free, chains);
      UsedNotFree(free, chains);
      var idx;
      ok, idx := Alloc3();
      h := 0;
      if ok {
        assert idx[0] != idx[1] && idx[0] != idx[2] && idx[1] != idx[2];
        h := idx[0];
        Request(h, idx[1], idx[2], b, write, blockno, old(free));
      } else {
        StillFormatted(free, old(desc), ops, desc, ops, chains);
      }
    }

    /** The part of virtio_disk_rw that fills in and publishes the request. */
    method Request(i0: nat, i1: nat, i2: nat, b: nat, write: bool, blockno: nat, ghost was: seq<bool>)
      requires Sized() && Partition(was, chains) && AllFormatted(desc, ops, chains) && Waiting(info, busy, chains)
      requires Ring(availRing, takenIdx, availIdx, fetched, availQ, chains, Avail)
      requires Ring(usedRing, seenIdx, usedIdx, seen, usedQ, chains, Used)
      requires i0 < NUM && i1 < NUM && i2 < NUM && i0 != i1 && i0 != i2 && i1 != i2
      requires |was| == NUM && was[i0] && was[i1] && was[i2] && free == was[i0 := false][i1 := false][i2 := false]
      requires forall g :: g in chains ==> chains[g].buf != b
      modifies `desc, `ops, `info, `busy, `availRing, `availIdx, `chains, `availQ
      ensures Valid() && i0 !in old(chains) && chains == old(chains)[i0 := Chain(i1, i2, b, write, blockno, Avail)]
      ensures availQ == old(availQ) + [i0] && busy == old(busy) + {b}
    {
      hide Ring, Partition, Waiting, AllFormatted;
      ghost var c := Chain(i1, i2, b, write, blockno, Avail);
      Added(was, chains, i0, c);
      HeadsBelow(was, chains);
      FormatNew(i0, i1, i2, b, write, blockno, was);
      Announce(i0, b, c);
    }

    /** A formatted request joins the queue. */
    method Announce(h: nat, b: nat, ghost c: Chain)
      requires Sized() && Waiting(info, busy, chains) && h < NUM && h !in chains && c.phase == Avail && c.buf == b
      requires Ring(availRing, takenIdx, availIdx, fetched, availQ, chains, Avail)
      requires Ring(usedRing, seenIdx, usedIdx, seen, usedQ, chains, Used)
      requires forall g :: g in chains ==> g < NUM && chains[g].buf != b
      modifies `info, `busy, `availRing, `availIdx, `chains, `availQ
      ensures Sized() && Waiting(info, busy, chains)
      ensures Ring(availRing, takenIdx, availIdx, fetched, availQ, chains, Avail)
      ensures Ring(usedRing, seenIdx, usedIdx, seen, usedQ, chains, Used)
      ensures chains == old(chains)[h := c] && availQ == old(availQ) + [h] && busy == old(busy) + {b}
    {
      hide Ring, Waiting;
      WaitingAdd(info, busy, chains, h, c);
      RingPut(availRing, takenIdx, availIdx, fetched, availQ, chains, Avail, h, c);
      RingOther(usedRing, seenIdx, usedIdx, seen, usedQ, chains, Used, h, c);
      Publish(h, b);
      chains, availQ := chains[h := c], availQ + [h];
    }

    /** Formatting three descriptors that were free disturbs no other request. */
    method FormatNew(i0: nat, i1: nat, i2: nat, b: nat, write: bool, blockno: nat, ghost was: seq<bool>)
      requires |desc| == |ops| == |was| == NUM && i0 < NUM && i1 < NUM && i2 < NUM && i0 != i1 && i0 != i2 && i1 != i2
      requires was[i0] && was[i1] && was[i2] && Partition(was, chains) && AllFormatted(desc, ops, chains)
      modifies `desc, `ops
      ensures |desc| == |ops| == NUM
      ensures AllFormatted(desc, ops, chains[i0 := Chain(i1, i2, b, write, blockno, Avail)])
    {
      hide Partition, AllFormatted, Formatted, SameUsed;
      Format(i0, i1, i2, b, write, blockno, was);
      StillFormatted(was, old(desc), old(ops), desc, ops, chains);
      FormattedAdd(desc, ops, chains, i0, Chain(i1, i2, b, write, blockno, Avail));
    }

    /** Record the buffer and put the head into the available ring. */
    method Publish(h: nat, b: nat)
      requires Sized() && h < NUM
      modifies `info, `busy, `availRing, `availIdx
      ensures info == old(info)[h := Info(Some(b), 0xff)] && busy == old(busy) + {b}
      ensures availRing == old(availRing)[old(availIdx) % NUM := h] && availIdx == (old(availIdx) + 1) % WRAP
    {
      info := info[h := Info(Some(b), 0xff)];
      busy := busy + {b};
      availRing := availRing[availIdx % NUM := h];
      availIdx := (availIdx + 1) % WRAP;
    }

    /** Fill in the request header and the three descriptors. */
    method Format(i0: nat, i1: nat, i2: nat, b: nat, write: bool, blockno: nat, ghost was: seq<bool>)
      requires |desc| == |ops| == |was| == NUM && i0 < NUM && i1 < NUM && i2 < NUM && i0 != i1 && i0 != i2 && i1 != i2
      modifies `desc, `ops
      ensures |desc| == |ops| == NUM
      ensures Formatted(desc, ops, i0, Chain(i1, i2, b, write, blockno, Avail))
      ensures was[i0] && was[i1] && was[i2] ==> SameUsed(was, old(desc), old(ops), desc, ops)
    {
      ops := ops[i0 := Req(write, Sector(blockno))];
      desc := desc[i0 := Desc(Header(i0), true, false, i1)];
      desc := desc[i1 := Desc(Data(b), true, !write, i2)];
      desc := desc[i2 := Desc(Status(i0), false, true, 0)];
    }

    // ---------- the device ----------

    /** The device takes the next available entry, if there is one, and reads the request by
        walking its descriptors: it is the one that was submitted, of the whole block, and the
        device may write the data of a read and the status byte, and nothing else. */
    method DeviceFetch() returns (r: Option<nat>, req: Req, walk: seq<Desc>)
      requires Valid()
      modifies this
      ensures Valid() && busy == old(busy) && free == old(free) && usedQ == old(usedQ)
      ensures r == None <==> old(availQ) == []
      ensures r == None ==> chains == old(chains)
      ensures r.Some? ==> r.value in old(chains) && old(chains)[r.value].phase == Avail
      ensures r.Some? ==> r.value == old(availQ)[0] && availQ == old(availQ)[1..]
      ensures r.Some? ==> chains == old(chains)[r.value := old(chains)[r.value].(phase := Taken)]
      ensures r.Some? ==> req == Req(old(chains)[r.value].write, Sector(old(chains)[r.value].blockno))
      ensures r.Some? && old(chains)[r.value].blockno < 0x8000_0000 ==>
        512 * req.sector == BSIZE * old(chains)[r.value].blockno
      ensures r.Some? ==> |walk| == 3 && walk[0].addr == Header(r.value) && !walk[0].devWrites
      ensures r.Some? ==> walk[1].addr == Data(old(chains)[r.value].buf)
      ensures r.Some? ==> (walk[1].devWrites <==> !old(chains)[r.value].write)
      ensures r.Some? ==> walk[2].addr == Status(r.value) && walk[2].devWrites
    {
      hide Partition, Waiting, AllFormatted, Ring;
      r, req, walk := None, Req(false, 0), [];
      RingEmpty(free, availRing, takenIdx, availIdx, fetched, availQ, chains, Avail);
      if takenIdx == availIdx {
        return;
      }
      FormattedOf(desc, ops, chains, availQ[0]);
      var h := Take();
      req, walk := ReadRequest(h, chains[h]);
      if chains[h].blockno < 0x8000_0000 { SectorsApart(chains[h].blockno, 0); }
      r := Some(h);
    }

    /** The device takes the oldest entry off the available ring. */
    method Take() returns (h: nat)
      requires Valid() && availQ != [] && availQ[0] in chains && chains[availQ[0]].phase == Avail
      modifies `takenIdx, `chains, `fetched, `availQ
      ensures Valid() && h == old(availQ)[0] && availQ == old(availQ)[1..]
      ensures chains == old(chains)[h := old(chains)[h].(phase := Taken)]
    {
      hide Partition, Waiting, AllFormatted, Ring;
      ghost var c := chains[availQ[0]].(phase := Taken);
      RingTake(availRing, takenIdx, availIdx, fetched, availQ, chains, Avail, c);
      RingOther(usedRing, seenIdx, usedIdx, seen, usedQ, chains, Used, availQ[0], c);
      Moved(free, chains, availQ[0], Taken);
      WaitingMoved(info, busy, chains, availQ[0], Taken);
      FormattedMoved(desc, ops, chains, availQ[0], Taken);
      h := availRing[takenIdx % NUM];
      takenIdx := (takenIdx + 1) % WRAP;
      chains, fetched, availQ := chains[h := c], fetched + 1, availQ[1..];
    }

    /** What the device finds by following the chain from its head as far as it goes on. */
    method ReadRequest(h: nat, ghost c: Chain) returns (req: Req, walk: seq<Desc>)
      requires Formatted(desc, ops, h, c)
      ensures req == Req(c.write, Sector(c.blockno)) && |walk| == 3
      ensures walk[0] == desc[h] && walk[0].addr == Header(h) && !walk[0].devWrites
      ensures walk[1].addr == Data(c.buf) && walk[1].devWrites == !c.write
      ensures walk[2].addr == Status(h) && walk[2].devWrites
    {
      var d := desc[h];
      req, walk := ops[d.addr.i], [d];
      while d.hasNext
        invariant 1 <= |walk| <= 3 && d == walk[|walk| - 1] && walk[0] == desc[h]
        invariant |walk| > 1 ==> walk[1] == desc[c.i1]
        invariant |walk| > 2 ==> walk[2] == desc[c.i2]
        decreases 3 - |walk|
      {
        d := desc[d.next];
        walk := walk + [d];
      }
    }

    /** The device completes a request it took, in any order: status 0 and a used entry. */
    method DeviceComplete(h: nat)
      requires Valid() && h in chains && chains[h].phase == Taken
      modifies this
      ensures Valid() && busy == old(busy) && free == old(free) && availQ == old(availQ)
      ensures chains == old(chains)[h := old(chains)[h].(phase := Used)] && usedQ == old(usedQ) + [h]
    {
      hide Partition, Waiting, Ring, AllFormatted;
      HeadsBelow(free, chains);
      ghost var c := chains[h].(phase := Used);
      RingPut(usedRing, seenIdx, usedIdx, seen, usedQ, chains, Used, h, c);
      RingOther(availRing, takenIdx, availIdx, fetched, availQ, chains, Avail, h, c);
      Moved(free, chains, h, Used);
      WaitingUsed(info, busy, chains, h);
      FormattedMoved(desc, ops, chains, h, Used);
      info := info[h := info[h].(status := 0)];
      usedRing := usedRing[usedIdx % NUM := h];
      usedIdx := (usedIdx + 1) % WRAP;
      chains, usedQ := chains[h := c], usedQ + [h];
    }

    // ---------- the interrupt handler and the waiting requester ----------

    /** virtio_disk_intr(): every completion not seen yet is handled, in order; the status
        panic is not reached, and exactly the completed buffers stop waiting. */
    method Intr()
      requires Valid()
      modifies this
      ensures Valid() && usedQ == [] && free == old(free) && availQ == old(availQ) && seen == old(seen) + |old(usedQ)|
      ensures chains == AllSeen(old(chains)) && busy == StillBusy(old(busy), old(chains))
    {
      hide Partition, Waiting, Ring, AllFormatted, AllSeen, StillBusy;
      RingEmpty(free, usedRing, seenIdx, usedIdx, seen, usedQ, chains, Used);
      while seenIdx != usedIdx
        invariant Valid() && free == old(free) && availQ == old(availQ) && seen + |usedQ| == old(seen) + |old(usedQ)|
        invariant AllSeen(chains) == AllSeen(old(chains))
        invariant StillBusy(busy, chains) == StillBusy(old(busy), old(chains))
        invariant seenIdx == usedIdx <==> usedQ == []
        decreases |usedQ|
      {
        RetireOne(usedRing, seenIdx, usedIdx, seen, usedQ, info, busy, chains);
        Retire();
        RingEmpty(free, usedRing, seenIdx, usedIdx, seen, usedQ, chains, Used);
      }
      NothingUsed(usedRing, seenIdx, usedIdx, seen, usedQ, busy, chains);
    }

    /** One pass of the handler's loop. */
    method Retire()
      requires Valid() && seenIdx != usedIdx
      modifies this
      ensures Valid() && old(usedQ) != [] && old(usedQ)[0] in old(chains)
      ensures chains == old(chains)[old(usedQ)[0] := old(chains)[old(usedQ)[0]].(phase := Seen)]
      ensures old(chains)[old(usedQ)[0]].buf in old(busy) && busy == old(busy) - {old(chains)[old(usedQ)[0]].buf}
      ensures usedQ == old(usedQ)[1..] && seen == old(seen) + 1 && free == old(free) && availQ == old(availQ)
    {
      hide Partition, Waiting, AllFormatted, Ring;
      RingEmpty(free, usedRing, seenIdx, usedIdx, seen, usedQ, chains, Used);
      ghost var h, c := usedQ[0], chains[usedQ[0]].(phase := Seen);
      RingTake(usedRing, seenIdx, usedIdx, seen, usedQ, chains, Used, c);
      RingOther(availRing, takenIdx, availIdx, fetched, availQ, chains, Avail, h, c);
      Moved(free, chains, h, Seen);
      FormattedMoved(desc, ops, chains, h, Seen);
      WaitingSeen(info, busy, chains, h);
      var id := usedRing[seenIdx % NUM];
      assert info[id].status == 0; // otherwise panic
      busy := busy - {info[id].b.value};
      seenIdx := (seenIdx + 1) % WRAP;
      chains, seen, usedQ := chains[h := c], seen + 1, usedQ[1..];
    }

    /** virtio_disk_rw after its wait: b->disk is 0 again, so the request is complete and
        seen; its three descriptors go back and no other request changes. */
    method Finish(h: nat)
      requires Valid() && h in chains && chains[h].buf !in busy
      modifies this
      ensures Valid() && old(chains)[h].phase == Seen && chains == old(chains) - {h} && busy == old(busy)
      ensures availQ == old(availQ) && usedQ == old(usedQ) && fetched == old(fetched) && seen == old(seen)
      ensures var c := old(chains)[h]; free == old(free)[h := true][c.i1 := true][c.i2 := true]
    {
      hide Partition, Ring, Waiting, AllFormatted, Formatted;
      UsedNotFree(free, chains);
      ghost var c := chains[h];
      FormattedOf(desc, ops, chains, h);
      WaitingDone(info, busy, chains, h);
      RingOther(availRing, takenIdx, availIdx, fetched, availQ, chains, Avail, h, c);
      RingOther(usedRing, seenIdx, usedIdx, seen, usedQ, chains, Used, h, c);
      info := info[h := info[h].(b := None)];
      Removed(free, chains, h);
      FreeChain(h, c);
      StillFormatted(free, old(desc), ops, desc, ops, chains - {h});
      chains := chains - {h};
    }
  }

  lemma Three(free: seq<bool>, i: nat, j: nat, k: nat)
    requires |free| == NUM && i < NUM && j < NUM && k < NUM && i != j && i != k && j != k
    requires free[i] && free[j] && free[k]
    ensures ThreeFree(free)
  {
    var a := if i < j && i < k then i else if j < k then j else k;
    var c := if i > j && i > k then i else if j > k then j else k;
    var b := i + j + k - a - c;
    assert 0 <= a < b < c < NUM && free[a] && free[b] && free[c];
  }
}
