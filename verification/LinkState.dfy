/** LinkState_routing's LinkStateDatabase.getShortestPath: unit-weight Dijkstra over the
    stored link-state advertisements, with parent pointers read back into a router list. */
module LinkState {

  const INF := 1_000_000_000  // (int)(1e9)

  /** Stored advertisements: router to the link IDs it advertises. */
  type Store = map<string, seq<string>>

  datatype Pair = Pair(dist: nat, router: string)

  /** The exception is the one a missing map key causes on unboxing or dereference. */
  datatype Result = Ok(path: string) | NullPointer

  // ---------- paths ----------

  /** A route along stored links through stored routers. */
  ghost predicate IsPath(store: Store, p: seq<string>) {
    && p != []
    && (forall i :: 0 <= i < |p| ==> p[i] in store)
    && (forall i :: 0 <= i < |p| - 1 ==> p[i + 1] in store[p[i]])
  }

  /** A route from src to dest with fewer hops than the initial distance of 10^9. */
  ghost predicate Route(store: Store, src: string, dest: string, p: seq<string>) {
    IsPath(store, p) && p[0] == src && p[|p| - 1] == dest && |p| <= INF
  }

  ghost predicate Reachable(store: Store, src: string, dest: string) {
    exists p :: Route(store, src, dest, p)
  }

  /** Some router on a route from src advertises a link to a router that is not stored. */
  ghost predicate Dangling(store: Store, src: string) {
    exists u :: Missing(store, u) && Reachable(store, src, u)
  }

  ghost predicate Missing(store: Store, u: string) {
    u in store && exists a :: a in store[u] && a !in store
  }

  // ---------- the invariant of the search ----------

  /** All of u's links are stored and within one hop of u's distance. */
  ghost predicate Settled(store: Store, dist: map<string, nat>, u: string)
    requires u in store && dist.Keys == store.Keys
  {
    forall a :: a in store[u] ==> a in store && dist[a] <= dist[u] + 1
  }

  ghost predicate TreeOk(store: Store, src: string, dist: map<string, nat>, parent: map<string, string>) {
    && src in store && dist.Keys == store.Keys && parent.Keys == store.Keys
    && dist[src] == 0 && parent[src] == src
    && forall v :: v in store ==>
         && dist[v] <= INF
         && (dist[v] == INF ==> parent[v] == v)
         && (dist[v] < INF && v != src ==>
               parent[v] in store && v in store[parent[v]] && dist[parent[v]] < dist[v] && parent[v] != v)
  }

  ghost predicate QueueOk(store: Store, dist: map<string, nat>, pq: seq<Pair>)
    requires dist.Keys == store.Keys
  {
    forall e :: e in pq ==> e.router in store && dist[e.router] <= e.dist < INF
  }

  /** Every router with a distance is settled, or queued with that distance, or just popped
      with it. */
  ghost predicate Frontier(store: Store, dist: map<string, nat>, pq: seq<Pair>, popped: set<Pair>)
    requires dist.Keys == store.Keys
  {
    forall u :: u in store && dist[u] < INF ==>
      Pair(dist[u], u) in pq || Pair(dist[u], u) in popped || Settled(store, dist, u)
  }

  /** The sum of all distances, which every update lowers. */
  ghost function Total(m: map<string, nat>): nat
    decreases |m|
  {
    if m == map[] then 0
    else
      var k :| k in m;
      m[k] + Total(m - {k})
  }

  lemma {:induction false} TotalRemove(m: map<string, nat>, k: string)
    requires k in m
    ensures Total(m) == m[k] + Total(m - {k})
    decreases |m|
  {
    var j :| j in m && Total(m) == m[j] + Total(m - {j});
    if j != k {
      TotalRemove(m - {j}, k);
      TotalRemove(m - {k}, j);
      assert m - {j} - {k} == m - {k} - {j};
    }
  }

  lemma TotalLower(m: map<string, nat>, k: string, v: nat)
    requires k in m && v < m[k]
    ensures Total(m[k := v]) < Total(m)
  {
    TotalRemove(m, k);
    TotalRemove(m[k := v], k);
    assert m[k := v] - {k} == m - {k};
  }

  // ---------- what the invariant gives ----------

  /** The parents of a router with a distance lead back to the source in that many hops. */
  lemma {:induction false} TreePath(store: Store, src: string, dist: map<string, nat>, parent: map<string, string>,
                                    v: string)
    returns (p: seq<string>)
    requires TreeOk(store, src, dist, parent) && v in store && dist[v] < INF
    ensures IsPath(store, p) && p[0] == src && p[|p| - 1] == v && |p| <= dist[v] + 1
    decreases dist[v]
  {
    if v == src {
      p := [src];
    } else {
      var q := TreePath(store, src, dist, parent, parent[v]);
      p := q + [v];
    }
  }

  /** With everything settled, no route is shorter than the distance. */
  lemma {:induction false} Bounded(store: Store, src: string, dist: map<string, nat>, p: seq<string>)
    requires dist.Keys == store.Keys && src in store && dist[src] == 0
    requires forall u :: u in store && dist[u] < INF ==> Settled(store, dist, u)
    requires IsPath(store, p) && p[0] == src && |p| <= INF
    ensures dist[p[|p| - 1]] <= |p| - 1
    decreases |p|
  {
    if |p| > 1 {
      var q := p[..|p| - 1];
      Bounded(store, src, dist, q);
      assert Settled(store, dist, q[|q| - 1]);
      assert p[|p| - 1] in store[q[|q| - 1]];
    }
  }

  /** The routers joined with "->". */
  function Join(path: seq<string>): string {
    if path == [] then "" else if |path| == 1 then path[0] else path[0] + "->" + Join(path[1..])
  }

  lemma {:induction false} JoinSnoc(path: seq<string>, s: string)
    requires path != []
    ensures Join(path + [s]) == Join(path) + "->" + s
  {
    if |path| == 1 {
      assert Join((path + [s])[1..]) == s by { assert (path + [s])[1..] == [s]; }
    } else {
      assert (path + [s])[1..] == path[1..] + [s];
      JoinSnoc(path[1..], s);
      assert path[0] + "->" + (Join(path[1..]) + "->" + s) == path[0] + "->" + Join(path[1..]) + "->" + s;
    }
  }

  /** An arrow stands at position i. */
  predicate ArrowAt(s: string, i: nat) { i + 1 < |s| && s[i] == '-' && s[i + 1] == '>' }

  ghost predicate Plain(name: string) { forall i: nat :: !ArrowAt(name, i) }

  /** One router alone is its own name; of more, the first name ends at the first arrow and
      the rest is behind it. */
  lemma FirstArrow(path: seq<string>)
    requires path != [] && Plain(path[0])
    ensures |path| == 1 ==> Join(path) == path[0]
    ensures |path| > 1 ==>
      && ArrowAt(Join(path), |path[0]|) && (forall i: nat :: i < |path[0]| ==> !ArrowAt(Join(path), i))
      && Join(path)[..|path[0]|] == path[0] && Join(path)[|path[0]| + 2..] == Join(path[1..])
  {
    var n, t := |path[0]|, Join(path);
    if |path| > 1 {
      assert t == path[0] + "->" + Join(path[1..]);
      forall i: nat | i < n ensures !ArrowAt(t, i) {
        assert t[i] == path[0][i] && !ArrowAt(path[0], i);
        assert i + 1 < n ==> t[i + 1] == path[0][i + 1];
      }
    }
  }

  /** The text determines the route, when no name has an arrow in it. */
  lemma {:induction false} JoinInjective(p: seq<string>, q: seq<string>)
    requires p != [] && q != [] && (forall x :: x in p || x in q ==> Plain(x)) && Join(p) == Join(q)
    ensures p == q
    decreases |p|
  {
    hide Join, ArrowAt;
    FirstArrow(p);
    FirstArrow(q);
    if |p| > 1 && |q| > 1 {
      assert |p[0]| == |q[0]|;
      JoinInjective(p[1..], q[1..]);
      assert p == [p[0]] + p[1..] && q == [q[0]] + q[1..];
    }
  }

  // ---------- the code ----------

  /** One update: dist, parent and queue after a shorter way to a through node. */
  lemma RelaxOne(store: Store, src: string, node: string, dis: nat, dist: map<string, nat>, parent: map<string, string>,
                 pq: seq<Pair>, a: string)
    requires TreeOk(store, src, dist, parent) && QueueOk(store, dist, pq)
    requires Frontier(store, dist, pq, {Pair(dis, node)})
    requires node in store && dist[node] <= dis && a in store[node] && a in store && dis + 1 < dist[a]
    ensures var dist', parent', pq' := dist[a := dis + 1], parent[a := node], pq + [Pair(dis + 1, a)];
      && TreeOk(store, src, dist', parent') && QueueOk(store, dist', pq')
      && Frontier(store, dist', pq', {Pair(dis, node)})
      && dist'[node] == dist[node] && Total(dist') < Total(dist)
  {
    hide Total, Frontier, Settled, TreeOk, QueueOk;
    TreeOne(store, src, node, dis, dist, parent, a);
    TotalLower(dist, a, dis + 1);
    FrontierOne(store, dist, pq, {Pair(dis, node)}, a, dis + 1);
    QueueOne(store, dist, pq, a, dis + 1);
  }

  lemma TreeOne(store: Store, src: string, node: string, dis: nat, dist: map<string, nat>, parent: map<string, string>,
                a: string)
    requires TreeOk(store, src, dist, parent) && node in store && dist[node] <= dis
    requires a in store[node] && a in store && dis + 1 < dist[a]
    ensures a in dist && dist.Keys == store.Keys && node != a && dist[a] <= INF
    ensures TreeOk(store, src, dist[a := dis + 1], parent[a := node])
  {
    var dist', parent' := dist[a := dis + 1], parent[a := node];
    assert dist'.Keys == dist.Keys && parent'.Keys == parent.Keys;
  }

  lemma QueueOne(store: Store, dist: map<string, nat>, pq: seq<Pair>, a: string, d: nat)
    requires dist.Keys == store.Keys && QueueOk(store, dist, pq) && a in store && d < dist[a] <= INF
    ensures dist[a := d].Keys == store.Keys && QueueOk(store, dist[a := d], pq + [Pair(d, a)])
  {
    assert dist[a := d].Keys == dist.Keys;
  }

  lemma FrontierOne(store: Store, dist: map<string, nat>, pq: seq<Pair>, popped: set<Pair>, a: string, d: nat)
    requires dist.Keys == store.Keys && Frontier(store, dist, pq, popped) && a in store && d < dist[a]
    ensures dist[a := d].Keys == store.Keys && Frontier(store, dist[a := d], pq + [Pair(d, a)], popped)
  {
    var dist', pq' := dist[a := d], pq + [Pair(d, a)];
    assert dist'.Keys == dist.Keys;
    forall u | u in store && dist'[u] < INF
      ensures Pair(dist'[u], u) in pq' || Pair(dist'[u], u) in popped || Settled(store, dist', u)
    {
      if u != a && Settled(store, dist, u) { assert Settled(store, dist', u); }
    }
  }

  /** Relaxing the links of one popped router; false when a link target is not stored. */
  method Relax(store: Store, src: string, node: string, dis: nat,
               dist0: map<string, nat>, parent0: map<string, string>, pq0: seq<Pair>)
    returns (ok: bool, dist: map<string, nat>, parent: map<string, string>, pq: seq<Pair>)
    requires TreeOk(store, src, dist0, parent0) && node in store && dist0[node] <= dis < INF
    requires QueueOk(store, dist0, pq0) && Frontier(store, dist0, pq0, {Pair(dis, node)})
    ensures ok <==> !Missing(store, node)
    ensures ok ==> TreeOk(store, src, dist, parent) && QueueOk(store, dist, pq) && Frontier(store, dist, pq, {})
    ensures ok ==> Total(dist) < Total(dist0) || (Total(dist) == Total(dist0) && pq == pq0)
  {
    hide Frontier, QueueOk, TreeOk, Total;
    ok, dist, parent, pq := true, dist0, parent0, pq0;
    var links := store[node];
    TreeKeys(store, src, dist, parent);
    for i := 0 to |links|
      invariant ok && dist.Keys == store.Keys == parent.Keys && dist[node] == dist0[node]
      invariant TreeOk(store, src, dist, parent) && QueueOk(store, dist, pq)
      invariant Frontier(store, dist, pq, {Pair(dis, node)})
      invariant forall j :: 0 <= j < i ==> links[j] in store && dist[links[j]] <= dis + 1
      invariant Total(dist) < Total(dist0) || (Total(dist) == Total(dist0) && pq == pq0)
    {
      var a := links[i];
      if a !in dist {
        ok := false;
        return;
      }
      if dis + 1 < dist[a] {
        RelaxOne(store, src, node, dis, dist, parent, pq, a);
        dist, pq, parent := dist[a := dis + 1], pq + [Pair(dis + 1, a)], parent[a := node];
      }
    }
    PoppedSettled(store, dist, pq, node, dis);
  }

  lemma TreeKeys(store: Store, src: string, dist: map<string, nat>, parent: map<string, string>)
    requires TreeOk(store, src, dist, parent)
    ensures dist.Keys == store.Keys == parent.Keys
  {
  }

  lemma PoppedSettled(store: Store, dist: map<string, nat>, pq: seq<Pair>, node: string, dis: nat)
    requires dist.Keys == store.Keys && node in store && Frontier(store, dist, pq, {Pair(dis, node)})
    requires forall j :: 0 <= j < |store[node]| ==> store[node][j] in store && dist[store[node][j]] <= dis + 1
    ensures Frontier(store, dist, pq, {})
  {
    if dist[node] == dis { assert Settled(store, dist, node); }
  }

  /** The queue's head: some entry of least distance. */
  method Pop(pq: seq<Pair>) returns (e: Pair, rest: seq<Pair>)
    requires pq != []
    ensures e in pq && forall x :: x in pq ==> e.dist <= x.dist
    ensures |rest| == |pq| - 1
    ensures forall x :: x in rest ==> x in pq
    ensures forall x :: x in pq && x != e ==> x in rest
  {
    var k := 0;
    for i := 1 to |pq|
      invariant 0 <= k < |pq| && forall j :: 0 <= j < i ==> pq[k].dist <= pq[j].dist
    {
      if pq[i].dist < pq[k].dist {
        k := i;
      }
    }
    e, rest := pq[k], pq[..k] + pq[k + 1..];
    assert pq == pq[..k] + [e] + pq[k + 1..];
  }

  /** The Dijkstra loop: distances and parents, or false on a missing router. */
  method Search(store: Store, src: string) returns (ok: bool, dist: map<string, nat>, parent: map<string, string>)
    requires src in store
    ensures ok <==> !Dangling(store, src)
    ensures ok ==> TreeOk(store, src, dist, parent)
    ensures ok ==> forall u :: u in store && dist[u] < INF ==> Settled(store, dist, u)
  {
    hide Total, Settled, TreeOk, QueueOk, Frontier, Dangling;
    dist := map s | s in store :: INF;
    parent := map s | s in store :: s;
    dist := dist[src := 0];
    var pq := [Pair(0, src)];
    ok := true;
    SearchStart(store, src);
    TreeFacts(store, src, dist, parent);
    while pq != []
      invariant TreeOk(store, src, dist, parent) && src in dist && dist.Keys == store.Keys && dist[src] == 0
      invariant QueueOk(store, dist, pq) && Frontier(store, dist, pq, {})
      decreases Total(dist), |pq|
    {
      var e, rest := Pop(pq);
      Popped(store, src, dist, parent, pq, e, rest);
      ok, dist, parent, pq := Relax(store, src, e.router, e.dist, dist, parent, rest);
      if !ok {
        DanglingAt(store, src, e.router);
        return;
      }
      TreeFacts(store, src, dist, parent);
    }
    QueueDone(store, dist);
    NothingDangling(store, src, dist);
  }

  lemma SearchStart(store: Store, src: string)
    requires src in store
    ensures var dist, parent := (map s | s in store :: INF)[src := 0], map s | s in store :: s;
      && TreeOk(store, src, dist, parent) && QueueOk(store, dist, [Pair(0, src)])
      && Frontier(store, dist, [Pair(0, src)], {})
  {
    var dist, pq := (map s | s in store :: INF)[src := 0], [Pair(0, src)];
    assert dist.Keys == store.Keys;
    assert pq[0] in pq;
  }

  lemma TreeFacts(store: Store, src: string, dist: map<string, nat>, parent: map<string, string>)
    requires TreeOk(store, src, dist, parent)
    ensures src in store && dist.Keys == store.Keys && dist[src] == 0
  {
  }

  /** A popped pair has a route to its router. */
  lemma Popped(store: Store, src: string, dist: map<string, nat>, parent: map<string, string>, pq: seq<Pair>, e: Pair,
               rest: seq<Pair>)
    requires TreeOk(store, src, dist, parent) && QueueOk(store, dist, pq) && Frontier(store, dist, pq, {}) && e in pq
    requires (forall x :: x in rest ==> x in pq) && forall x :: x in pq && x != e ==> x in rest
    ensures e.router in store && dist[e.router] <= e.dist < INF && Reachable(store, src, e.router)
    ensures QueueOk(store, dist, rest) && Frontier(store, dist, rest, {e})
  {
    hide Settled;
    ghost var p := TreePath(store, src, dist, parent, e.router);
    assert Route(store, src, e.router, p);
  }

  lemma DanglingAt(store: Store, src: string, u: string)
    requires Missing(store, u) && Reachable(store, src, u)
    ensures Dangling(store, src)
  {
  }

  lemma QueueDone(store: Store, dist: map<string, nat>)
    requires dist.Keys == store.Keys && Frontier(store, dist, [], {})
    ensures forall u :: u in store && dist[u] < INF ==> Settled(store, dist, u)
  {
  }

  lemma NothingDangling(store: Store, src: string, dist: map<string, nat>)
    requires dist.Keys == store.Keys && src in store && dist[src] == 0
    requires forall u :: u in store && dist[u] < INF ==> Settled(store, dist, u)
    ensures !Dangling(store, src)
  {
    forall u, p | Missing(store, u) && Route(store, src, u, p) ensures false {
      Bounded(store, src, dist, p);
    }
  }

  /** getShortestPath: the routers of a shortest route and their rendering. A destination
      that no route reaches yields the source alone. */
  method GetShortestPath(store: Store, src: string, dest: string) returns (r: Result, path: seq<string>)
    requires src in store
    ensures r.NullPointer? <==> dest !in store || Dangling(store, src)
    ensures r.Ok? ==> r.path == Join(path)
    ensures r.Ok? && Reachable(store, src, dest) ==>
      && Route(store, src, dest, path)
      && forall p :: Route(store, src, dest, p) ==> |path| <= |p|
    ensures r.Ok? && !Reachable(store, src, dest) ==> path == [src]
  {
    path := [];
    var ok, dist, parent := Search(store, src);
    if !ok || dest !in parent {
      return NullPointer, path;
    }
    var back := ReadBack(store, src, dest, dist, parent);
    path := Reversed(back + [src]);
    var text := Render(path);
    r := Ok(text);
    if dist[dest] == INF {
      forall p | Route(store, src, dest, p) ensures false { Bounded(store, src, dist, p); }
    } else {
      assert Route(store, src, dest, path);
      forall p | Route(store, src, dest, p) ensures |path| <= |p| { Bounded(store, src, dist, p); }
    }
  }

  function Reversed(s: seq<string>): (r: seq<string>)
    ensures |r| == |s| && forall i :: 0 <= i < |s| ==> r[i] == s[|s| - 1 - i]
  {
    seq(|s|, i requires 0 <= i < |s| => s[|s| - 1 - i])
  }

  /** The loop along the parents, from the destination down to the source's child. */
  method ReadBack(store: Store, src: string, dest: string, dist: map<string, nat>, parent: map<string, string>)
    returns (back: seq<string>)
    requires TreeOk(store, src, dist, parent) && dest in store
    requires forall u :: u in store && dist[u] < INF ==> Settled(store, dist, u)
    ensures dist[dest] == INF ==> back == []
    ensures dist[dest] < INF ==> |back| == dist[dest]
    ensures dist[dest] < INF ==> var p := Reversed(back + [src]); IsPath(store, p) && p[0] == src && p[|p| - 1] == dest
  {
    hide IsPath, TreeOk, Settled;
    back := [];
    var v := dest;
    ghost var p := [dest];
    StartPath(store, dest);
    ParentOf(store, src, dist, parent, dest);
    while parent[v] != v
      invariant v in store && v in parent && v in dist && dest in dist
      invariant (parent[v] == v ==> dist[v] == INF || v == src)
      invariant dist[dest] == INF ==> v == dest && back == []
      invariant dist[dest] < INF ==> dist[v] < INF && dist[v] + |back| == dist[dest]
      invariant p == Reversed(back + [v]) && IsPath(store, p) && p[0] == v && p[|p| - 1] == dest
      decreases dist[v]
    {
      ParentOf(store, src, dist, parent, v);
      var u := parent[v];
      ParentOf(store, src, dist, parent, u);
      SettledStep(store, src, dist, parent, u, v);
      ExtendPath(store, u, p);
      p := [u] + p;
      ReversedSnoc(back + [v], u);
      back := back + [v];
      v := u;
    }
    ParentOf(store, src, dist, parent, v);
  }

  lemma ParentOf(store: Store, src: string, dist: map<string, nat>, parent: map<string, string>, v: string)
    requires TreeOk(store, src, dist, parent) && v in store
    ensures v in dist && v in parent && parent[v] in store && dist[v] <= INF && (dist[v] == INF ==> parent[v] == v)
    ensures parent[v] != v ==> dist[v] < INF && v in store[parent[v]] && parent[v] in dist && dist[parent[v]] < dist[v]
    ensures parent[v] == v ==> dist[v] == INF || (v == src && dist[v] == 0)
  {
  }

  lemma SettledStep(store: Store, src: string, dist: map<string, nat>, parent: map<string, string>, u: string,
                    v: string)
    requires TreeOk(store, src, dist, parent) && u in store && v in store[u]
    requires forall w :: w in store && dist[w] < INF ==> Settled(store, dist, w)
    ensures dist[u] < INF ==> v in dist && dist[v] <= dist[u] + 1
  {
    assert dist[u] < INF ==> Settled(store, dist, u);
  }

  lemma ReversedSnoc(s: seq<string>, u: string)
    ensures Reversed(s + [u]) == [u] + Reversed(s)
  {
  }

  lemma StartPath(store: Store, v: string)
    requires v in store
    ensures IsPath(store, [v])
  {
  }

  lemma ExtendPath(store: Store, u: string, p: seq<string>)
    requires IsPath(store, p) && u in store && p[0] in store[u]
    ensures IsPath(store, [u] + p)
  {
  }

  /** The loop that concatenates the routers with "->". */
  method Render(path: seq<string>) returns (result: string)
    ensures result == Join(path)
  {
    result := "";
    for i := 0 to |path|
      invariant result == Join(path[..i]) + if 0 < i < |path| then "->" else ""
    {
      assert path[..i + 1] == path[..i] + [path[i]];
      if i > 0 { JoinSnoc(path[..i], path[i]); }
      result := result + path[i];
      if i < |path| - 1 {
        result := result + "->";
      }
    }
    assert path[..|path|] == path;
  }
}
