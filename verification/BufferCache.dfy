/** kernel/bio.c: the buffer cache. The buffers hang in one doubly linked ring through a list
    head, most recently released first. */
module BufferCache {

  datatype Key = Key(dev: nat, blockno: nat)

  datatype Buf<D> = Buf(valid: bool, key: Key, refcnt: nat, data: D)

  // ---------- the ring ----------

  /** The ring from the head (node n) through `order` and back. */
  ghost function Walk(n: nat, order: seq<nat>): seq<nat> {
    [n] + order + [n]
  }

  ghost predicate Ring(n: nat, next: seq<nat>, prev: seq<nat>, order: seq<nat>) {
    && |next| == |prev| == n + 1
    && (forall i :: 0 <= i < |order| ==> order[i] < n)
    && (forall i, j :: 0 <= i < j < |order| ==> order[i] != order[j])
    && forall i :: 0 <= i <= |order| ==>
         next[Walk(n, order)[i]] == Walk(n, order)[i + 1] && prev[Walk(n, order)[i + 1]] == Walk(n, order)[i]
  }

  ghost function Without(order: seq<nat>, k: nat): seq<nat>
    requires k < |order|
  {
    order[..k] + order[k + 1..]
  }

  lemma WithoutFacts(order: seq<nat>, k: nat)
    requires k < |order|
    ensures |Without(order, k)| == |order| - 1
    ensures forall i :: 0 <= i < |order| - 1 ==> Without(order, k)[i] == order[if i < k then i else i + 1]
  {
  }

  /** Taking the k-th buffer out of the ring: its two neighbours are linked to each other. */
  lemma Unlinked(n: nat, next: seq<nat>, prev: seq<nat>, order: seq<nat>, k: nat)
    requires Ring(n, next, prev, order) && k < |order|
    ensures var b := order[k];
      && next[b] <= n && prev[b] <= n
      && Ring(n, next[prev[b] := next[b]], prev[next[b] := prev[b]], Without(order, k))
      && b !in Without(order, k)
  {
    hide Without;
    WithoutFacts(order, k);
    var b, w := order[k], Walk(n, order);
    assert w[k + 1] == b;
    assert next[w[k]] == w[k + 1] && prev[w[k + 1]] == w[k];
    assert next[w[k + 1]] == w[k + 2] && prev[w[k + 2]] == w[k + 1];
    var rest := Without(order, k);
    var v := Walk(n, rest);
    var next', prev' := next[prev[b] := next[b]], prev[next[b] := prev[b]];
    assert forall i :: 0 <= i <= k ==> v[i] == w[i];
    assert forall i :: k < i < |v| ==> v[i] == w[i + 1];
    forall i | 0 <= i <= |rest| ensures next'[v[i]] == v[i + 1] && prev'[v[i + 1]] == v[i] {
      var j := if i <= k then i else i + 1;
      assert next[w[j]] == w[j + 1] && prev[w[j + 1]] == w[j];
    }
  }

  /** Relinking b right behind the head. */
  lemma Pushed(n: nat, next: seq<nat>, prev: seq<nat>, order: seq<nat>, b: nat)
    requires Ring(n, next, prev, order) && b < n && b !in order
    ensures next[n] <= n && Ring(n, next[b := next[n]][n := b], prev[b := n][next[n] := b], [b] + order)
  {
    var w := Walk(n, order);
    assert next[w[0]] == w[1];
    var v := Walk(n, [b] + order);
    var next', prev' := next[b := next[n]][n := b], prev[b := n][next[n] := b];
    assert forall i :: 1 < i < |v| ==> v[i] == w[i - 1];
    forall i | 0 <= i <= |order| + 1 ensures next'[v[i]] == v[i + 1] && prev'[v[i + 1]] == v[i] {
      if i > 0 { assert next[w[i - 1]] == w[i] && prev[w[i]] == w[i - 1]; }
    }
  }

  /** All buffers are in the ring, in the order in which they were put behind the head. */
  ghost predicate Sorted(n: nat, order: seq<nat>, stamp: seq<nat>, clock: nat) {
    && |order| == |stamp| == n
    && (forall b :: 0 <= b < n ==> b in order && stamp[b] <= clock)
    && (forall i :: 0 <= i < n ==> order[i] < n)
    && (forall i, j :: 0 <= i < j < n ==> stamp[order[i]] > stamp[order[j]])
  }

  lemma SortedMoved(n: nat, order: seq<nat>, stamp: seq<nat>, clock: nat, k: nat)
    requires Sorted(n, order, stamp, clock) && k < n
    ensures Sorted(n, [order[k]] + Without(order, k), stamp[order[k] := clock + 1], clock + 1)
  {
    hide Without;
    WithoutFacts(order, k);
    var b, rest := order[k], Without(order, k);
    var moved := [b] + rest;
    forall c | 0 <= c < n ensures c in moved {
      assert c in order;
      var i :| 0 <= i < n && order[i] == c;
      assert i == k || moved[if i < k then i + 1 else i] == c;
    }
    assert forall i :: 0 < i < n ==> moved[i] == order[if i - 1 < k then i - 1 else i];
  }

  /** What brelse's six pointer stores do to the ring. */
  lemma MovedToFront(n: nat, next: seq<nat>, prev: seq<nat>, order: seq<nat>, stamp: seq<nat>, clock: nat, b: nat)
    returns (k: nat)
    requires Ring(n, next, prev, order) && Sorted(n, order, stamp, clock) && b < n
    ensures |next| == |prev| == n + 1 && |stamp| == n && next[b] <= n && prev[b] <= n
    ensures k < |order| && order[k] == b
    ensures var next1, prev1 := next[prev[b] := next[b]], prev[next[b] := prev[b]];
      && next1[n] <= n
      && Ring(n, next1[b := next1[n]][n := b], prev1[b := n][next1[n] := b], [b] + Without(order, k))
    ensures Sorted(n, [b] + Without(order, k), stamp[b := clock + 1], clock + 1)
    ensures forall c :: 0 <= c < n ==> stamp[c] <= clock
  {
    hide Walk;
    assert b in order;
    k :| 0 <= k < |order| && order[k] == b;
    Unlinked(n, next, prev, order, k);
    Pushed(n, next[prev[b] := next[b]], prev[next[b] := prev[b]], Without(order, k), b);
    SortedMoved(n, order, stamp, clock, k);
  }

  // ---------- the cache as one block map ----------

  predicate Caches<D>(buf: seq<Buf<D>>, b: nat, k: Key) {
    b < |buf| && buf[b].valid && buf[b].key == k
  }

  /** At most one buffer per block; dev 0 is what unused buffers start with. */
  ghost predicate Unique<D>(buf: seq<Buf<D>>) {
    forall b, c :: 0 <= b < c < |buf| && buf[b].key.dev != 0 ==> buf[b].key != buf[c].key
  }

  /** A buffer nobody refers to holds what the disk holds. */
  ghost predicate Clean<D>(buf: seq<Buf<D>>, disk: map<Key, D>) {
    forall b :: 0 <= b < |buf| && buf[b].valid ==>
      buf[b].key in disk && (buf[b].refcnt == 0 ==> buf[b].data == disk[buf[b].key])
  }

  /** The content of block k as the rest of the kernel sees it. */
  ghost function Content<D>(buf: seq<Buf<D>>, disk: map<Key, D>, k: Key): D
    requires k in disk
  {
    if exists b: nat :: Caches(buf, b, k) then
      var b: nat :| Caches(buf, b, k);
      buf[b].data
    else disk[k]
  }

  lemma ContentCached<D>(buf: seq<Buf<D>>, disk: map<Key, D>, k: Key, b: nat)
    requires Unique(buf) && k in disk && k.dev != 0 && Caches(buf, b, k)
    ensures Content(buf, disk, k) == buf[b].data
  {
    forall c: nat | Caches(buf, c, k) ensures c == b {}
  }

  /** Both caches show every block alike, except block k, which the second shows as d. */
  ghost predicate ViewBut<D>(buf: seq<Buf<D>>, disk: map<Key, D>, buf': seq<Buf<D>>, disk': map<Key, D>, k: Key, d: D) {
    && disk'.Keys == disk.Keys
    && forall j :: j in disk && j.dev != 0 ==>
         Content(buf', disk', j) == if j == k then d else Content(buf, disk, j)
  }

  ghost predicate SameView<D>(buf: seq<Buf<D>>, disk: map<Key, D>, buf': seq<Buf<D>>, disk': map<Key, D>) {
    && disk'.Keys == disk.Keys
    && forall j :: j in disk && j.dev != 0 ==> Content(buf', disk', j) == Content(buf, disk, j)
  }

  /** Replacing one buffer whose old content, if any, is on disk, by one that shows what
      was visible before. */
  lemma ReplacedView<D>(buf: seq<Buf<D>>, disk: map<Key, D>, b: nat, x: Buf<D>, disk': map<Key, D>)
    requires b < |buf| && Unique(buf) && Unique(buf[b := x]) && disk'.Keys == disk.Keys
    requires forall j :: j in disk && !(buf[b].valid && j == buf[b].key) && !(x.valid && j == x.key) ==>
      disk'[j] == disk[j]
    requires buf[b].valid && (!x.valid || x.key != buf[b].key) && buf[b].key in disk ==>
      disk'[buf[b].key] == buf[b].data
    ensures forall j :: j in disk && j.dev != 0 && !(x.valid && j == x.key) ==>
      Content(buf[b := x], disk', j) == Content(buf, disk, j)
    ensures x.valid && x.key in disk && x.key.dev != 0 ==> Content(buf[b := x], disk', x.key) == x.data
  {
    var buf' := buf[b := x];
    forall j | j in disk && j.dev != 0 && !(x.valid && j == x.key)
      ensures Content(buf', disk', j) == Content(buf, disk, j)
    {
      if c: nat :| Caches(buf', c, j) {
        ContentCached(buf', disk', j, c);
        ContentCached(buf, disk, j, c);
      } else if c: nat :| Caches(buf, c, j) {
        if c != b { assert Caches(buf', c, j); }
        ContentCached(buf, disk, j, c);
      } else {
        assert !Caches(buf, b, j);
      }
    }
    if x.valid && x.key in disk && x.key.dev != 0 {
      ContentCached(buf', disk', x.key, b);
    }
  }

  lemma RingNone(n: nat)
    ensures Ring(n, seq(n + 1, _ => n), seq(n + 1, _ => n), [])
  {
  }

  lemma NothingCached<D>(n: nat, disk: map<Key, D>, zero: D)
    ensures var buf := seq(n, _ => Buf(false, Key(0, 0), 0, zero)); Unique(buf) && Clean(buf, disk)
  {
  }

  class BCache<D> {
    const n: nat
    var buf: seq<Buf<D>>
    var next: seq<nat>
    var prev: seq<nat>
    var disk: map<Key, D>
    ghost var order: seq<nat>   // the buffers in ring order, head.next first
    ghost var stamp: seq<nat>   // when each buffer was last put behind the head
    ghost var clock: nat

    ghost predicate RingOk()
      reads this
    {
      |buf| == n && Ring(n, next, prev, order) && Sorted(n, order, stamp, clock)
    }

    ghost predicate Valid()
      reads this
    {
      RingOk() && Unique(buf) && Clean(buf, disk)
    }

    /** bget's first loop. */
    method FindCached(k: Key) returns (b: nat)
      requires RingOk()
      ensures b <= n
      ensures b < n ==> buf[b].key == k
      ensures b == n ==> forall c :: 0 <= c < n ==> buf[c].key != k
    {
      ghost var w := Walk(n, order);
      ghost var i := 1;
      b := next[n];
      assert next[w[0]] == w[1];
      assert |order| > 0 ==> w[1] == order[0] < n;
      while b != n
        invariant 1 <= i <= |order| + 1 && b == w[i] && (b == n <==> i == |order| + 1)
        invariant forall j :: 0 <= j < i - 1 ==> buf[order[j]].key != k
        decreases |order| + 1 - i
      {
        assert b == order[i - 1];
        if buf[b].key == k {
          return;
        }
        assert next[w[i]] == w[i + 1];
        b := next[b];
        i := i + 1;
        assert i <= |order| ==> w[i] == order[i - 1] < n;
      }
      forall c | 0 <= c < n ensures buf[c].key != k {
        assert c in order;
        var j :| 0 <= j < |order| && order[j] == c;
      }
    }

    /** bget's second loop: from the least recently released end. */
    method FindLru() returns (b: nat)
      requires RingOk()
      ensures b <= n
      ensures b < n ==> buf[b].refcnt == 0 && forall c :: 0 <= c < n && buf[c].refcnt == 0 ==> stamp[b] <= stamp[c]
      ensures b == n ==> forall c :: 0 <= c < n ==> buf[c].refcnt != 0
    {
      ghost var w := Walk(n, order);
      ghost var i := |order|;
      b := prev[n];
      assert prev[w[i + 1]] == w[i];
      assert i > 0 ==> w[i] == order[i - 1] < n;
      while b != n
        invariant 0 <= i <= |order| && b == w[i] && (b == n <==> i == 0)
        invariant forall j :: i <= j < |order| ==> buf[order[j]].refcnt != 0
        decreases i
      {
        assert b == order[i - 1];
        if buf[b].refcnt == 0 {
          forall c | 0 <= c < n && buf[c].refcnt == 0 ensures stamp[b] <= stamp[c] {
            assert c in order;
            var j :| 0 <= j < |order| && order[j] == c;
          }
          return;
        }
        assert prev[w[i]] == w[i - 1];
        b := prev[b];
        i := i - 1;
        assert i > 0 ==> w[i] == order[i - 1] < n;
      }
      forall c | 0 <= c < n ensures buf[c].refcnt != 0 {
        assert c in order;
        var j :| 0 <= j < |order| && order[j] == c;
      }
    }

    /** binit(): an empty cache in front of `disk`. */
    constructor (n: nat, disk: map<Key, D>, zero: D)
      ensures Valid() && this.n == n && this.disk == disk
      ensures forall b :: 0 <= b < n ==> buf[b] == Buf(false, Key(0, 0), 0, zero)
    {
      this.n, this.disk := n, disk;
      buf := seq(n, _ => Buf(false, Key(0, 0), 0, zero));
      next, prev := seq(n + 1, _ => n), seq(n + 1, _ => n);
      order, stamp, clock := [], seq(n, _ => 0), 0;
      new;
      hide Ring, Unique, Clean;
      RingNone(n);
      var b := 0;
      while b < n
        invariant 0 <= b <= n && |order| == b == clock && |stamp| == n
        invariant Ring(n, next, prev, order)
        invariant forall c :: 0 <= c < n ==> (c in order <==> c < b)
        invariant forall i :: 0 <= i < b ==> stamp[order[i]] == b - i
        invariant forall c :: 0 <= c < n ==> stamp[c] <= b
        invariant this.disk == disk && buf == seq(n, _ => Buf(false, Key(0, 0), 0, zero))
      {
        Pushed(n, next, prev, order, b);
        prev := prev[b := n][next[n] := b];
        next := next[b := next[n]][n := b];
        order := [b] + order;
        clock := clock + 1;
        stamp := stamp[b := clock];
        b := b + 1;
      }
      NothingCached(n, disk, zero);
    }

    /** bget(): the cached buffer of block k, or the least recently released free buffer
        recycled for it, or n (panic "bget: no buffers") when every buffer is in use. */
    method Bget(k: Key) returns (b: nat)
      requires Valid() && k in disk && k.dev != 0
      modifies `buf
      ensures Valid() && b <= n && SameView(old(buf), disk, buf, disk)
      ensures b == n <==> forall c :: 0 <= c < n ==> old(buf)[c].key != k && old(buf)[c].refcnt != 0
      ensures b == n ==> buf == old(buf)
      ensures b < n && old(buf)[b].key == k ==> buf == old(buf)[b := old(buf)[b].(refcnt := old(buf)[b].refcnt + 1)]
      ensures b < n && old(buf)[b].key != k ==>
        && (forall c :: 0 <= c < n ==> old(buf)[c].key != k)
        && old(buf)[b].refcnt == 0
        && (forall c :: 0 <= c < n && old(buf)[c].refcnt == 0 ==> stamp[b] <= stamp[c])
        && buf == old(buf)[b := Buf(false, k, 1, old(buf)[b].data)]
    {
      hide Ring;
      b := FindCached(k);
      if b < n {
        var x := buf[b].(refcnt := buf[b].refcnt + 1);
        ReplacedView(buf, disk, b, x, disk);
        if buf[b].valid { ContentCached(buf, disk, k, b); }
        buf := buf[b := x];
        return;
      }
      b := FindLru();
      if b < n {
        var x := Buf(false, k, 1, buf[b].data);
        ReplacedView(buf, disk, b, x, disk);
        buf := buf[b := x];
      }
    }

    /** bread() */
    method Bread(k: Key) returns (b: nat)
      requires Valid() && k in disk && k.dev != 0
      modifies `buf
      ensures Valid() && b <= n && SameView(old(buf), disk, buf, disk)
      ensures b == n <==> forall c :: 0 <= c < n ==> old(buf)[c].key != k && old(buf)[c].refcnt != 0
      ensures b < n ==> Caches(buf, b, k) && buf[b].data == Content(buf, disk, k)
      ensures b < n ==> buf[b].refcnt == if old(buf)[b].key == k then old(buf)[b].refcnt + 1 else 1
      ensures b < n && old(buf)[b].key != k ==>
        old(buf)[b].refcnt == 0 && forall c :: 0 <= c < n ==> old(buf)[c].key != k
      ensures forall c :: 0 <= c < n && c != b ==> buf[c] == old(buf)[c]
    {
      hide Ring;
      b := Bget(k);
      if b < n {
        if !buf[b].valid {
          var x := buf[b].(valid := true, data := disk[k]);
          ReplacedView(buf, disk, b, x, disk);
          NotCached(buf, disk, k, b);
          buf := buf[b := x];
        }
        ContentCached(buf, disk, k, b);
      }
    }

    /** The holder of a buffer stores into it. */
    method Modify(b: nat, data: D)
      requires Valid() && b < n && buf[b].valid && buf[b].refcnt > 0 && buf[b].key.dev != 0
      modifies `buf
      ensures Valid() && ViewBut(old(buf), disk, buf, disk, buf[b].key, data)
      ensures buf == old(buf)[b := old(buf)[b].(data := data)]
    {
      hide Ring;
      var x := buf[b].(data := data);
      ReplacedView(buf, disk, b, x, disk);
      buf := buf[b := x];
    }

    /** bwrite() */
    method Bwrite(b: nat)
      requires Valid() && b < n && buf[b].valid && buf[b].refcnt > 0 && buf[b].key.dev != 0
      modifies `disk
      ensures Valid() && SameView(buf, old(disk), buf, disk)
      ensures disk == old(disk)[buf[b].key := buf[b].data]
    {
      hide Ring;
      var disk' := disk[buf[b].key := buf[b].data];
      assert disk'.Keys == disk.Keys;
      assert buf[b := buf[b]] == buf;
      ReplacedView(buf, disk, b, buf[b], disk');
      ContentCached(buf, disk, buf[b].key, b);
      disk := disk';
    }

    /** brelse(): dropping the last reference moves the buffer behind the head. Its holder
        has written or pinned what it changed. */
    method Brelse(b: nat)
      requires Valid() && b < n && buf[b].refcnt > 0
      requires buf[b].refcnt == 1 && buf[b].valid ==> buf[b].data == disk[buf[b].key]
      modifies `buf, `next, `prev, `order, `stamp, `clock
      ensures Valid() && SameView(old(buf), disk, buf, disk)
      ensures buf == old(buf)[b := old(buf)[b].(refcnt := old(buf)[b].refcnt - 1)]
      ensures buf[b].refcnt > 0 ==> order == old(order) && stamp == old(stamp)
      ensures buf[b].refcnt == 0 ==> order != [] && order[0] == b
      ensures buf[b].refcnt == 0 ==> forall c :: 0 <= c < n && c != b ==> stamp[c] == old(stamp)[c] < stamp[b]
    {
      hide Ring, Sorted, Unique, Clean, SameView, Without;
      Recount(b, buf[b].refcnt - 1);
      if buf[b].refcnt == 0 {
        ghost var k := MovedToFront(n, next, prev, order, stamp, clock, b);
        var nx, pv := next[b], prev[b];
        prev := prev[nx := pv];
        next := next[pv := nx];
        var first := next[n];
        next := next[b := first];
        prev := prev[b := n];
        prev := prev[first := b];
        next := next[n := b];
        order := [b] + Without(order, k);
        clock := clock + 1;
        stamp := stamp[b := clock];
      }
    }

    /** Changing a reference count leaves the view alone. */
    method Recount(b: nat, r: nat)
      requires Valid() && b < n && (r == 0 && buf[b].valid ==> buf[b].data == disk[buf[b].key])
      modifies `buf
      ensures Valid() && SameView(old(buf), disk, buf, disk) && buf == old(buf)[b := old(buf)[b].(refcnt := r)]
    {
      hide Ring;
      var x := buf[b].(refcnt := r);
      ReplacedView(buf, disk, b, x, disk);
      if buf[b].valid && buf[b].key.dev != 0 { ContentCached(buf, disk, buf[b].key, b); }
      buf := buf[b := x];
    }

    /** bpin() */
    method Bpin(b: nat)
      requires Valid() && b < n
      modifies `buf
      ensures Valid() && SameView(old(buf), disk, buf, disk)
      ensures buf == old(buf)[b := old(buf)[b].(refcnt := old(buf)[b].refcnt + 1)]
    {
      Recount(b, buf[b].refcnt + 1);
    }

    /** bunpin(), by a caller that holds another reference. */
    method Bunpin(b: nat)
      requires Valid() && b < n && buf[b].refcnt > 1
      modifies `buf
      ensures Valid() && SameView(old(buf), disk, buf, disk)
      ensures buf == old(buf)[b := old(buf)[b].(refcnt := old(buf)[b].refcnt - 1)]
    {
      Recount(b, buf[b].refcnt - 1);
    }
  }

  lemma NotCached<D>(buf: seq<Buf<D>>, disk: map<Key, D>, k: Key, b: nat)
    requires Unique(buf) && k in disk && k.dev != 0 && b < |buf| && buf[b].key == k && !buf[b].valid
    ensures Content(buf, disk, k) == disk[k]
  {
    forall c: nat ensures !Caches(buf, c, k) {}
  }
}
