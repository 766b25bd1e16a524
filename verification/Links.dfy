/** kernel/sysfile.c and the directory part of kernel/fs.c: link counts over create, link
    and unlink. An inode carries its type, its count and, for a directory, its slots; an
    operation's directory is the one nameiparent() found for it, locked. sys_link counts
    its link before it writes the entry and releases the inode in between, so `pending`
    holds the links counted but not yet entered. */
module Links {
  import opened Common

  const ROOT := 1
  const MAXSLOTS := 17152  // MAXFILE * BSIZE / sizeof(struct dirent)

  datatype Kind = Free | Dir | File | Device
  datatype Dirent = Dirent(inum: nat, name: string)
  datatype Inode = Inode(kind: Kind, nlink: int, entries: seq<Dirent>)

  const EMPTY := Dirent(0, "")
  const UNUSED := Inode(Free, 0, [])

  /** nlink is a C short. */
  function Short(x: int): int {
    (x + 0x8000) % 0x1_0000 - 0x8000
  }

  lemma ShortFits(x: int)
    requires -0x8000 <= x < 0x8000
    ensures Short(x) == x
  {
  }

  // ---------- counting ----------

  function Hit(e: Dirent, i: nat): nat {
    if e.inum == i && e.name != "." then 1 else 0
  }

  function Tally(es: seq<Dirent>, i: nat): nat {
    if es == [] then 0 else Tally(es[..|es| - 1], i) + Hit(es[|es| - 1], i)
  }

  predicate IsLinked(x: Inode) {
    x.kind == Dir && x.nlink > 0
  }

  function Contrib(x: Inode, i: nat): nat {
    if IsLinked(x) then Tally(x.entries, i) else 0
  }

  /** How many entries other than "." in linked directories name inode i. */
  function Count(ns: seq<Inode>, i: nat): nat {
    if ns == [] then 0 else Count(ns[..|ns| - 1], i) + Contrib(ns[|ns| - 1], i)
  }

  lemma {:induction false} TallyUpdate(es: seq<Dirent>, k: nat, e: Dirent, i: nat)
    requires k < |es|
    ensures Tally(es[k := e], i) + Hit(es[k], i) == Tally(es, i) + Hit(e, i)
  {
    var n := |es| - 1;
    if k < n {
      TallyUpdate(es[..n], k, e, i);
      assert es[k := e][..n] == es[..n][k := e];
    } else {
      assert es[k := e][..n] == es[..n];
    }
  }

  lemma {:induction false} TallyHit(es: seq<Dirent>, k: nat, i: nat)
    requires k < |es| && es[k].inum == i && es[k].name != "."
    ensures Tally(es, i) >= 1
  {
    if k < |es| - 1 {
      TallyHit(es[..|es| - 1], k, i);
    }
  }

  lemma {:induction false} TallyNone(es: seq<Dirent>, i: nat)
    requires forall k :: 0 <= k < |es| ==> Hit(es[k], i) == 0
    ensures Tally(es, i) == 0
  {
    if es != [] {
      TallyNone(es[..|es| - 1], i);
    }
  }

  /** One slot alone hits. */
  lemma TallyOne(es: seq<Dirent>, k: nat, i: nat)
    requires k < |es| && es[k].inum == i && es[k].name != "."
    requires forall l :: 0 <= l < |es| && l != k ==> Hit(es[l], i) == 0
    ensures Tally(es, i) == 1
  {
    var rest := es[k := Dirent(i, ".")];
    TallyNone(rest, i);
    TallyUpdate(es, k, Dirent(i, "."), i);
  }

  lemma {:induction false} CountUpdate(ns: seq<Inode>, d: nat, x: Inode, i: nat)
    requires d < |ns|
    ensures Count(ns[d := x], i) + Contrib(ns[d], i) == Count(ns, i) + Contrib(x, i)
  {
    var n := |ns| - 1;
    if d < n {
      CountUpdate(ns[..n], d, x, i);
      assert ns[d := x][..n] == ns[..n][d := x];
    } else {
      assert ns[d := x][..n] == ns[..n];
    }
  }

  lemma {:induction false} CountAtLeast(ns: seq<Inode>, d: nat, i: nat)
    requires d < |ns|
    ensures Count(ns, i) >= Contrib(ns[d], i)
  {
    if d < |ns| - 1 {
      CountAtLeast(ns[..|ns| - 1], d, i);
    }
  }

  lemma {:induction false} CountNone(ns: seq<Inode>, i: nat)
    requires forall d :: 0 <= d < |ns| ==> Contrib(ns[d], i) == 0
    ensures Count(ns, i) == 0
  {
    if ns != [] {
      CountNone(ns[..|ns| - 1], i);
    }
  }

  /** One directory alone contributes. */
  lemma CountOnly(ns: seq<Inode>, d: nat, i: nat)
    requires d < |ns| && forall e :: 0 <= e < |ns| && e != d ==> Contrib(ns[e], i) == 0
    ensures Count(ns, i) == Contrib(ns[d], i)
  {
    CountNone(ns[d := UNUSED], i);
    CountUpdate(ns, d, UNUSED, i);
  }

  // ---------- the invariant ----------

  predicate Linked(ns: seq<Inode>, d: nat) {
    d < |ns| && IsLinked(ns[d])
  }

  /** Slot k of linked directory d is in use. */
  predicate InUse(ns: seq<Inode>, d: nat, k: nat) {
    Linked(ns, d) && k < |ns[d].entries| && ns[d].entries[k].inum != 0
  }

  function Parent(x: Inode): nat
  {
    if |x.entries| < 2 then 0 else x.entries[1].inum
  }

  ghost predicate Unique(es: seq<Dirent>) {
    forall k, l :: 0 <= k < l < |es| && es[k].inum != 0 && es[l].inum != 0 ==> es[k].name != es[l].name
  }

  ghost predicate OnlyDots(es: seq<Dirent>) {
    forall k :: 2 <= k < |es| ==> es[k].inum == 0
  }

  /** What holds of each inode by itself: "." and ".." in the first two slots of a
      directory, unique names, nothing else in a directory that is no longer linked. */
  ghost predicate Local(x: Inode, d: nat) {
    && (x.kind == Free ==> x == UNUSED) && (d == 0 ==> x.kind == Free)
    && (x.kind != Dir ==> x.entries == [])
    && (x.kind == Dir ==>
          && |x.entries| >= 2 && x.entries[0] == Dirent(d, ".")
          && x.entries[1].name == ".." && x.entries[1].inum != 0)
    && Unique(x.entries)
    && (x.kind == Dir && x.nlink <= 0 ==> OnlyDots(x.entries))
  }

  /** An entry of a linked directory names an allocated inode; if that is a directory, its
      ".." leads back. */
  ghost predicate EntryOk(ns: seq<Inode>, d: nat, k: nat)
    requires InUse(ns, d, k)
  {
    var i := ns[d].entries[k].inum;
    && i < |ns| && ns[i].kind != Free
    && (k >= 2 && ns[i].kind == Dir ==> i != ROOT && Parent(ns[i]) == d)
  }

  /** Slot k of d is the entry for c. */
  ghost predicate IsEntry(ns: seq<Inode>, d: nat, k: nat, c: nat) {
    InUse(ns, d, k) && k >= 2 && ns[d].entries[k].inum == c
  }

  ghost predicate UpOk(ns: seq<Inode>, depth: seq<nat>, c: nat)
    requires Linked(ns, c) && |depth| == |ns|
  {
    var d := Parent(ns[c]);
    Linked(ns, d) && depth[c] == depth[d] + 1 && exists k: nat :: IsEntry(ns, d, k, c)
  }

  ghost predicate CountOk(ns: seq<Inode>, pending: seq<nat>, i: nat)
    requires i < |ns| == |pending|
  {
    && (ns[i].kind != Free ==> ns[i].nlink == Count(ns, i) + pending[i])
    && (pending[i] > 0 ==> ns[i].kind == File || ns[i].kind == Device)
  }

  ghost predicate Locals(ns: seq<Inode>) {
    forall d :: 0 <= d < |ns| ==> Local(ns[d], d)
  }

  ghost predicate Entries(ns: seq<Inode>) {
    && (forall d: nat, k: nat :: InUse(ns, d, k) ==> EntryOk(ns, d, k))
    && (forall d: nat, k: nat, l: nat, c: nat ::
          IsEntry(ns, d, k, c) && IsEntry(ns, d, l, c) && c < |ns| && ns[c].kind == Dir ==> k == l)
  }

  ghost predicate Ups(ns: seq<Inode>, depth: seq<nat>) {
    && |depth| == |ns| && Linked(ns, ROOT) && Parent(ns[ROOT]) == ROOT
    && (forall c: nat :: Linked(ns, c) && c != ROOT ==> UpOk(ns, depth, c))
  }

  ghost predicate Counts(ns: seq<Inode>, pending: seq<nat>) {
    |ns| == |pending| && forall i :: 0 <= i < |ns| ==> CountOk(ns, pending, i)
  }

  ghost predicate Consistent(ns: seq<Inode>, pending: seq<nat>, depth: seq<nat>) {
    Locals(ns) && Entries(ns) && Ups(ns, depth) && Counts(ns, pending)
  }

  // ---------- what the invariant says about single slots ----------

  /** A slot that dirlink() may write: past the end or empty. */
  predicate Vacant(es: seq<Dirent>, k: nat) {
    k == |es| || (k < |es| && es[k].inum == 0)
  }

  /** The one that it takes: the first empty slot, or past the end. */
  function SlotFor(es: seq<Dirent>): (k: nat)
    ensures k <= |es| && Vacant(es, k) && forall l :: 0 <= l < k ==> es[l].inum != 0
  {
    if es == [] || es[0].inum == 0 then 0 else 1 + SlotFor(es[1..])
  }

  function Place(es: seq<Dirent>, k: nat, e: Dirent): (r: seq<Dirent>)
    requires k <= |es|
  {
    if k < |es| then es[k := e] else es + [e]
  }

  predicate HasHole(es: seq<Dirent>) {
    exists k :: 0 <= k < |es| && es[k].inum == 0
  }

  predicate Present(es: seq<Dirent>, name: string) {
    exists k :: 0 <= k < |es| && es[k].inum != 0 && es[k].name == name
  }

  lemma TallyPlace(es: seq<Dirent>, k: nat, e: Dirent, i: nat)
    requires Vacant(es, k) && i != 0
    ensures Tally(Place(es, k, e), i) == Tally(es, i) + Hit(e, i)
  {
    if k < |es| {
      TallyUpdate(es, k, e, i);
    } else {
      assert (es + [e])[..|es|] == es;
    }
  }

  /** An entry in use beyond "." is counted. */
  lemma Counted(ns: seq<Inode>, pending: seq<nat>, d: nat, k: nat)
    requires Locals(ns) && Counts(ns, pending) && InUse(ns, d, k) && k >= 1
    ensures var i := ns[d].entries[k].inum; Contrib(ns[d], i) >= 1 && Count(ns, i) >= 1
    ensures var i := ns[d].entries[k].inum; i < |ns| && ns[i].kind != Free ==> ns[i].nlink >= 1
  {
    var i := ns[d].entries[k].inum;
    assert Local(ns[d], d);
    TallyHit(ns[d].entries, k, i);
    CountAtLeast(ns, d, i);
    assert i < |ns| ==> CountOk(ns, pending, i);
  }

  /** No linked directory names a free inode. */
  lemma FreeUncounted(ns: seq<Inode>, i: nat)
    requires Entries(ns) && 0 < i < |ns| && ns[i].kind == Free
    ensures Count(ns, i) == 0
    ensures forall d: nat, k: nat :: InUse(ns, d, k) ==> ns[d].entries[k].inum != i
  {
    forall d | 0 <= d < |ns| ensures Contrib(ns[d], i) == 0 {
      if IsLinked(ns[d]) {
        forall k | 0 <= k < |ns[d].entries| ensures Hit(ns[d].entries[k], i) == 0 {
          assert ns[d].entries[k].inum == i ==> InUse(ns, d, k);
        }
        TallyNone(ns[d].entries, i);
      }
    }
    CountNone(ns, i);
  }

  lemma {:induction false} CountTwo(ns: seq<Inode>, a: nat, b: nat, i: nat)
    requires a < |ns| && b < |ns| && a != b
    ensures Count(ns, i) >= Contrib(ns[a], i) + Contrib(ns[b], i)
  {
    var n := |ns| - 1;
    if a == n {
      CountAtLeast(ns[..n], b, i);
    } else if b == n {
      CountAtLeast(ns[..n], a, i);
    } else {
      CountTwo(ns[..n], a, b, i);
    }
  }

  // ---------- entering a name ----------

  /** Directory x with a new entry for i in vacant slot k, and its new count. */
  function Entered(x: Inode, k: nat, i: nat, name: string, nlink: int): (r: Inode)
    requires k <= |x.entries|
  {
    x.(entries := Place(x.entries, k, Dirent(i, name)), nlink := nlink)
  }

  lemma EnteredLocal(x: Inode, d: nat, k: nat, i: nat, name: string, nlink: int)
    requires Local(x, d) && x.kind == Dir && Vacant(x.entries, k) && !Present(x.entries, name) && nlink > 0
    ensures 2 <= k && name != "." && Parent(Entered(x, k, i, name, nlink)) == Parent(x)
    ensures Local(Entered(x, k, i, name, nlink), d)
  {
    assert x.entries[0].inum != 0;
  }

  /** A directory that is no longer linked takes no entry. */
  lemma EnteredDead(x: Inode, d: nat, k: nat, i: nat, name: string, nlink: int)
    requires Local(x, d) && x.kind == Dir && Vacant(x.entries, k) && nlink <= 0 && i != 0
    ensures !Local(Entered(x, k, i, name, nlink), d)
  {
    assert x.entries[0].inum != 0;
    assert Entered(x, k, i, name, nlink).entries[k].inum == i;
  }

  lemma EnteredContrib(x: Inode, d: nat, k: nat, i: nat, name: string, nlink: int, j: nat)
    requires Local(x, d) && IsLinked(x) && Vacant(x.entries, k) && !Present(x.entries, name) && nlink > 0 && j != 0
    ensures Contrib(Entered(x, k, i, name, nlink), j) == Contrib(x, j) + if i == j then 1 else 0
  {
    EnteredLocal(x, d, k, i, name, nlink);
    TallyPlace(x.entries, k, Dirent(i, name), j);
  }

  // ---------- sys_link ----------

  function LinkResult(ns: seq<Inode>, d: nat, k: nat, i: nat, name: string): (r: seq<Inode>)
    requires d < |ns| && k <= |ns[d].entries|
  {
    ns[d := Entered(ns[d], k, i, name, ns[d].nlink)]
  }

  ghost predicate CanEnter(ns: seq<Inode>, d: nat, k: nat, name: string) {
    d < |ns| && ns[d].kind == Dir && Vacant(ns[d].entries, k) && !Present(ns[d].entries, name)
  }

  lemma LinkEntries(ns: seq<Inode>, d: nat, k: nat, i: nat, name: string)
    requires Locals(ns) && Entries(ns) && CanEnter(ns, d, k, name) && Linked(ns, d)
    requires 0 < i < |ns| && ns[i].kind != Free && ns[i].kind != Dir
    ensures Entries(LinkResult(ns, d, k, i, name))
  {
    var r := LinkResult(ns, d, k, i, name);
    assert Local(ns[d], d);
    EnteredLocal(ns[d], d, k, i, name, ns[d].nlink);
    forall e: nat, l: nat | InUse(r, e, l) ensures EntryOk(r, e, l) {
      if e != d || l != k {
        assert InUse(ns, e, l) && EntryOk(ns, e, l);
      }
    }
    forall e: nat, l: nat, m: nat, c: nat | IsEntry(r, e, l, c) && IsEntry(r, e, m, c) && c < |r| && r[c].kind == Dir
      ensures l == m
    {
      assert IsEntry(ns, e, l, c) && IsEntry(ns, e, m, c);
    }
  }

  lemma LinkUps(ns: seq<Inode>, depth: seq<nat>, d: nat, k: nat, i: nat, name: string)
    requires Locals(ns) && Ups(ns, depth) && CanEnter(ns, d, k, name) && Linked(ns, d)
    ensures Ups(LinkResult(ns, d, k, i, name), depth)
  {
    var r := LinkResult(ns, d, k, i, name);
    assert Local(ns[d], d);
    EnteredLocal(ns[d], d, k, i, name, ns[d].nlink);
    forall c: nat | Linked(r, c) && c != ROOT ensures UpOk(r, depth, c) {
      assert Linked(ns, c) && UpOk(ns, depth, c);
      var p := Parent(ns[c]);
      var l: nat :| IsEntry(ns, p, l, c);
      assert IsEntry(r, p, l, c);
    }
  }

  lemma LinkCounts(ns: seq<Inode>, pending: seq<nat>, d: nat, k: nat, i: nat, name: string)
    requires Locals(ns) && Counts(ns, pending) && CanEnter(ns, d, k, name) && Linked(ns, d)
    requires 0 < i < |ns| && pending[i] > 0
    ensures Counts(LinkResult(ns, d, k, i, name), pending[i := pending[i] - 1])
  {
    var r, pend := LinkResult(ns, d, k, i, name), pending[i := pending[i] - 1];
    assert Local(ns[d], d) && Local(ns[0], 0);
    forall j | 0 <= j < |r| ensures CountOk(r, pend, j) {
      assert CountOk(ns, pending, j);
      if j != 0 {
        EnteredContrib(ns[d], d, k, i, name, ns[d].nlink, j);
        CountUpdate(ns, d, r[d], j);
      }
    }
  }

  /** sys_link's second half keeps the invariant exactly when the directory is still
      linked. */
  lemma LinkKeeps(ns: seq<Inode>, pending: seq<nat>, depth: seq<nat>, d: nat, k: nat, i: nat, name: string)
    requires Consistent(ns, pending, depth) && CanEnter(ns, d, k, name) && i < |ns| && pending[i] > 0
    ensures Consistent(LinkResult(ns, d, k, i, name), pending[i := pending[i] - 1], depth) <==> Linked(ns, d)
  {
    var r := LinkResult(ns, d, k, i, name);
    assert Local(ns[d], d) && Local(ns[i], i) && CountOk(ns, pending, i);
    if Linked(ns, d) {
      EnteredLocal(ns[d], d, k, i, name, ns[d].nlink);
      LinkEntries(ns, d, k, i, name);
      LinkUps(ns, depth, d, k, i, name);
      LinkCounts(ns, pending, d, k, i, name);
    } else {
      LinkBreaks(ns, pending, depth, d, k, i, name, pending[i := pending[i] - 1], depth);
    }
  }

  /** An entry in a directory without links breaks it for good: no choice of pending links and
      depths explains the result. */
  lemma LinkBreaks(ns: seq<Inode>, pending: seq<nat>, depth: seq<nat>, d: nat, k: nat, i: nat, name: string,
                   pending': seq<nat>, depth': seq<nat>)
    requires Consistent(ns, pending, depth) && CanEnter(ns, d, k, name) && 0 < i && !Linked(ns, d)
    ensures !Consistent(LinkResult(ns, d, k, i, name), pending', depth')
  {
    var r := LinkResult(ns, d, k, i, name);
    assert Local(ns[d], d);
    EnteredDead(ns[d], d, k, i, name, ns[d].nlink);
    assert !Local(r[d], d);
  }

  /** So does counting a link too many for the 16-bit count. */
  lemma CountOverflows(ns: seq<Inode>, i: nat, pending': seq<nat>, depth': seq<nat>)
    requires i < |ns| && ns[i].kind != Free && ns[i].nlink == 0x7fff
    ensures !Consistent(CountedUp(ns, i), pending', depth')
  {
    NegativeCount(CountedUp(ns, i), pending', depth', i);
  }

  // ---------- create ----------

  function Fresh(kind: Kind, i: nat, d: nat): (r: Inode) {
    Inode(kind, 1, if kind == Dir then [Dirent(i, "."), Dirent(d, "..")] else [])
  }

  /** A new directory's ".." counts as a link to its parent. */
  function Raised(kind: Kind, nlink: int): int {
    if kind == Dir then Short(nlink + 1) else nlink
  }

  function CreateResult(ns: seq<Inode>, kind: Kind, d: nat, k: nat, i: nat, name: string): (r: seq<Inode>)
    requires d < |ns| && i < |ns| && k <= |ns[d].entries|
  {
    ns[i := Fresh(kind, i, d)][d := Entered(ns[d], k, i, name, Raised(kind, ns[d].nlink))]
  }

  ghost predicate CanCreate(ns: seq<Inode>, kind: Kind, d: nat, k: nat, i: nat, name: string) {
    CanEnter(ns, d, k, name) && 0 < i < |ns| && ns[i].kind == Free && kind != Free
  }

  ghost predicate RoomToCount(ns: seq<Inode>, kind: Kind, d: nat) {
    Linked(ns, d) && (kind == Dir ==> ns[d].nlink < 0x7fff)
  }

  lemma CreateLocals(ns: seq<Inode>, kind: Kind, d: nat, k: nat, i: nat, name: string)
    requires Locals(ns) && CanCreate(ns, kind, d, k, i, name) && ns[d].nlink > 0 && RoomToCount(ns, kind, d)
    ensures Locals(CreateResult(ns, kind, d, k, i, name))
  {
    var r := CreateResult(ns, kind, d, k, i, name);
    assert Local(ns[d], d) && Local(ns[0], 0);
    EnteredLocal(ns[d], d, k, i, name, Raised(kind, ns[d].nlink));
    assert Local(r[i], i);
  }

  lemma CreateEntry(ns: seq<Inode>, kind: Kind, d: nat, k: nat, i: nat, name: string, e: nat, l: nat)
    requires Locals(ns) && Entries(ns) && Linked(ns, ROOT)
    requires CanCreate(ns, kind, d, k, i, name) && RoomToCount(ns, kind, d)
    requires InUse(CreateResult(ns, kind, d, k, i, name), e, l)
    ensures EntryOk(CreateResult(ns, kind, d, k, i, name), e, l)
    ensures e != i && (e != d || l != k) ==>
      && InUse(ns, e, l) && ns[e].entries[l] == CreateResult(ns, kind, d, k, i, name)[e].entries[l]
    ensures e != i && (e != d || l != k) ==> ns[e].entries[l].inum != i
    ensures e == i ==> l < 2
  {
    assert Local(ns[d], d);
    EnteredLocal(ns[d], d, k, i, name, Raised(kind, ns[d].nlink));
    FreeUncounted(ns, i);
    hide Local, Locals, Count, Present, Short;
    if e != i && (e != d || l != k) {
      assert InUse(ns, e, l) && EntryOk(ns, e, l);
    }
  }

  lemma CreateEntries(ns: seq<Inode>, kind: Kind, d: nat, k: nat, i: nat, name: string)
    requires Locals(ns) && Entries(ns) && Linked(ns, ROOT)
    requires CanCreate(ns, kind, d, k, i, name) && RoomToCount(ns, kind, d)
    ensures Entries(CreateResult(ns, kind, d, k, i, name))
  {
    hide Local, Locals, Count, Present, Short, EntryOk;
    var r := CreateResult(ns, kind, d, k, i, name);
    forall e: nat, l: nat | InUse(r, e, l) ensures EntryOk(r, e, l) {
      CreateEntry(ns, kind, d, k, i, name, e, l);
    }
    forall e: nat, l: nat, m: nat, c: nat | IsEntry(r, e, l, c) && IsEntry(r, e, m, c) && c < |r| && r[c].kind == Dir
      ensures l == m
    {
      CreateEntry(ns, kind, d, k, i, name, e, l);
      CreateEntry(ns, kind, d, k, i, name, e, m);
      if c != i {
        assert IsEntry(ns, e, l, c) && IsEntry(ns, e, m, c);
      }
    }
  }

  lemma CreateUps(ns: seq<Inode>, depth: seq<nat>, kind: Kind, d: nat, k: nat, i: nat, name: string)
    requires Locals(ns) && Ups(ns, depth) && CanCreate(ns, kind, d, k, i, name) && RoomToCount(ns, kind, d)
    ensures Ups(CreateResult(ns, kind, d, k, i, name), depth[i := depth[d] + 1])
  {
    var r, dep := CreateResult(ns, kind, d, k, i, name), depth[i := depth[d] + 1];
    assert Local(ns[d], d);
    EnteredLocal(ns[d], d, k, i, name, Raised(kind, ns[d].nlink));
    hide Local, Locals, Present, Place, Short, UpOk;
    forall c: nat | Linked(r, c) && c != ROOT ensures UpOk(r, dep, c) {
      if c == i {
        CreateUpNew(ns, depth, kind, d, k, i, name);
      } else {
        assert Linked(ns, c) && UpOk(ns, depth, c);
        CreateUpOld(ns, depth, kind, d, k, i, name, c);
      }
    }
  }

  lemma CreateUpNew(ns: seq<Inode>, depth: seq<nat>, kind: Kind, d: nat, k: nat, i: nat, name: string)
    requires CanCreate(ns, kind, d, k, i, name) && RoomToCount(ns, kind, d) && |depth| == |ns| && 2 <= k
    requires Linked(CreateResult(ns, kind, d, k, i, name), i)
    ensures UpOk(CreateResult(ns, kind, d, k, i, name), depth[i := depth[d] + 1], i)
  {
    assert IsEntry(CreateResult(ns, kind, d, k, i, name), d, k, i);
  }

  lemma CreateUpOld(ns: seq<Inode>, depth: seq<nat>, kind: Kind, d: nat, k: nat, i: nat, name: string, c: nat)
    requires CanCreate(ns, kind, d, k, i, name) && RoomToCount(ns, kind, d) && |depth| == |ns| && 2 <= k && c != i
    requires Parent(Entered(ns[d], k, i, name, Raised(kind, ns[d].nlink))) == Parent(ns[d])
    requires Linked(ns, c) && UpOk(ns, depth, c) && Linked(CreateResult(ns, kind, d, k, i, name), c)
    ensures UpOk(CreateResult(ns, kind, d, k, i, name), depth[i := depth[d] + 1], c)
  {
    var r := CreateResult(ns, kind, d, k, i, name);
    var p := Parent(ns[c]);
    var l: nat :| IsEntry(ns, p, l, c);
    hide Present, Parent, Raised;
    assert IsEntry(r, p, l, c);
  }

  lemma FreshContrib(kind: Kind, i: nat, d: nat, j: nat)
    ensures Contrib(Fresh(kind, i, d), j) == if kind == Dir && d == j then 1 else 0
  {
    var dot, es := [Dirent(i, ".")], [Dirent(i, "."), Dirent(d, "..")];
    assert es[..1] == dot && dot[..0] == [];
    assert Tally(es, j) == Tally(dot, j) + Hit(es[1], j) && Tally(dot, j) == Tally([], j) + Hit(dot[0], j);
  }

  /** What create does to the count of inode j. */
  lemma CreateCount(ns: seq<Inode>, kind: Kind, d: nat, k: nat, i: nat, name: string, j: nat)
    requires Locals(ns) && CanCreate(ns, kind, d, k, i, name) && RoomToCount(ns, kind, d) && j != 0
    ensures Count(CreateResult(ns, kind, d, k, i, name), j) ==
      Count(ns, j) + (if j == i then 1 else 0) + if kind == Dir && j == d then 1 else 0
  {
    var r := CreateResult(ns, kind, d, k, i, name);
    var mid := ns[i := Fresh(kind, i, d)];
    assert Local(ns[d], d);
    hide Local, Locals, Count, Present, Vacant;
    FreshContrib(kind, i, d, j);
    EnteredContrib(ns[d], d, k, i, name, Raised(kind, ns[d].nlink), j);
    CountUpdate(ns, i, mid[i], j);
    CountUpdate(mid, d, r[d], j);
  }

  lemma CreateCounts(ns: seq<Inode>, pending: seq<nat>, kind: Kind, d: nat, k: nat, i: nat, name: string)
    requires Locals(ns) && Entries(ns) && Counts(ns, pending)
    requires CanCreate(ns, kind, d, k, i, name) && RoomToCount(ns, kind, d)
    ensures Counts(CreateResult(ns, kind, d, k, i, name), pending)
  {
    var r := CreateResult(ns, kind, d, k, i, name);
    assert Local(ns[0], 0);
    FreeUncounted(ns, i);
    hide Local, Locals, Entries, Count, Present, Vacant;
    forall j: nat | j < |r| ensures CountOk(r, pending, j) {
      assert CountOk(ns, pending, j);
      if j != 0 {
        CreateCount(ns, kind, d, k, i, name, j);
      }
    }
  }

  /** create() breaks the count of a directory that is full, and brings an unlinked one
      back without its parent: no choice of pending links and depths explains the result. */
  lemma CreateBreaks(ns: seq<Inode>, pending: seq<nat>, depth: seq<nat>, kind: Kind, d: nat, k: nat, i: nat,
                     name: string,
                     pending': seq<nat>, depth': seq<nat>)
    requires Consistent(ns, pending, depth) && CanCreate(ns, kind, d, k, i, name) && !RoomToCount(ns, kind, d)
    requires ns[d].nlink < 0x8000
    ensures !Consistent(CreateResult(ns, kind, d, k, i, name), pending', depth')
  {
    var r := CreateResult(ns, kind, d, k, i, name);
    assert Local(ns[d], d) && CountOk(ns, pending, d);
    if !Linked(ns, d) && kind == Dir {
      assert ns[d].nlink == 0 && d != ROOT && Linked(r, d);
      if |depth'| == |ns| { NotBack(ns, pending, r, depth', d, i); }
    } else if !Linked(ns, d) {
      EnteredDead(ns[d], d, k, i, name, ns[d].nlink);
      assert !Local(r[d], d);
    } else {
      assert r[d].nlink < 0;
      assert |r| == |pending'| ==> !CountOk(r, pending', d);
    }
  }

  /** Nothing names d, so no parent can vouch for it. */
  lemma NotBack(ns: seq<Inode>, pending: seq<nat>, r: seq<Inode>, depth: seq<nat>, d: nat, i: nat)
    requires Locals(ns) && Counts(ns, pending) && Linked(r, d) && d != ROOT && d < |ns| && |r| == |depth|
    requires ns[d].kind == Dir && ns[d].nlink == 0 && i < |ns| == |r| && i != d
    requires |r[i].entries| <= 2 && forall e :: 0 <= e < |ns| && e != i && e != d ==> r[e] == ns[e]
    ensures !UpOk(r, depth, d)
  {
    var p := Parent(r[d]);
    forall l: nat | Linked(r, p) && depth[d] == depth[p] + 1 ensures !IsEntry(r, p, l, d) {
      if p != i && InUse(ns, p, l) && l >= 2 {
        Counted(ns, pending, p, l);
      }
    }
  }

  /** create() keeps the invariant exactly when the directory is still linked and, for a
      new directory, its count does not overflow. */
  lemma CreateKeeps(ns: seq<Inode>, pending: seq<nat>, depth: seq<nat>, kind: Kind, d: nat, k: nat, i: nat,
                    name: string)
    requires Consistent(ns, pending, depth) && CanCreate(ns, kind, d, k, i, name) && ns[d].nlink < 0x8000
    ensures Consistent(CreateResult(ns, kind, d, k, i, name), pending, depth[i := depth[d] + 1]) <==>
      RoomToCount(ns, kind, d)
  {
    hide Locals, Entries, Counts;
    if RoomToCount(ns, kind, d) {
      CreateLocals(ns, kind, d, k, i, name);
      CreateEntries(ns, kind, d, k, i, name);
      CreateUps(ns, depth, kind, d, k, i, name);
      CreateCounts(ns, pending, kind, d, k, i, name);
    } else {
      CreateBreaks(ns, pending, depth, kind, d, k, i, name, pending, depth[i := depth[d] + 1]);
    }
  }

  // ---------- sys_unlink ----------

  /** Directory x without the entry in slot k, and its new count. */
  function Erased(x: Inode, k: nat, nlink: int): (r: Inode)
    requires k < |x.entries|
  {
    x.(entries := x.entries[k := EMPTY], nlink := nlink)
  }

  function UnlinkResult(ns: seq<Inode>, d: nat, k: nat, i: nat): (r: seq<Inode>)
    requires d < |ns| && k < |ns[d].entries| && i < |ns| && i != d
  {
    var dlink := if ns[i].kind == Dir then Short(ns[d].nlink - 1) else ns[d].nlink;
    ns[d := Erased(ns[d], k, dlink)][i := ns[i].(nlink := Short(ns[i].nlink - 1))]
  }

  lemma ErasedContrib(x: Inode, d: nat, k: nat, nlink: int, j: nat)
    requires Local(x, d) && IsLinked(x) && 2 <= k < |x.entries| && x.entries[k].inum != 0 && nlink > 0 && j != 0
    ensures Local(Erased(x, k, nlink), d) && Parent(Erased(x, k, nlink)) == Parent(x)
    ensures Contrib(x, j) == Contrib(Erased(x, k, nlink), j) + if x.entries[k].inum == j then 1 else 0
  {
    assert x.entries[0].name != x.entries[k].name;
    TallyUpdate(x.entries, k, EMPTY, j);
  }

  /** What unlink may remove: an entry beyond ".." for a file or an empty directory. */
  ghost predicate CanUnlink(ns: seq<Inode>, d: nat, k: nat, i: nat) {
    && IsEntry(ns, d, k, i) && i < |ns| && (ns[i].kind == Dir ==> OnlyDots(ns[i].entries))
    && ns[i].nlink < 0x8000 && ns[d].nlink < 0x8000
  }

  /** The only counted entry of an empty directory is the one in its parent, so unlink
      leaves it without links; the parent keeps a link of its own. */
  lemma EmptyDirCounts(ns: seq<Inode>, pending: seq<nat>, depth: seq<nat>, d: nat, k: nat, i: nat)
    requires Consistent(ns, pending, depth) && CanUnlink(ns, d, k, i) && ns[i].kind == Dir
    ensures i != d && ns[i].nlink == 1 && Parent(ns[i]) == d && ns[d].nlink >= 2
  {
    assert EntryOk(ns, d, k) && Local(ns[i], i) && Local(ns[d], d);
    assert CountOk(ns, pending, i) && CountOk(ns, pending, d);
    assert ns[d].entries[k].inum != 0 && !OnlyDots(ns[d].entries);
    Counted(ns, pending, d, k);
    OneParent(ns, depth, d, k, i);
    TwoNames(ns, pending, depth, d, i);
  }

  lemma OneParent(ns: seq<Inode>, depth: seq<nat>, d: nat, k: nat, i: nat)
    requires Locals(ns) && Entries(ns) && Ups(ns, depth) && CanUnlink(ns, d, k, i) && ns[i].kind == Dir && i != d
    ensures Count(ns, i) == 1
  {
    assert EntryOk(ns, d, k) && Local(ns[d], d);
    forall e: nat, l: nat | InUse(ns, e, l) && l >= 1 && ns[e].entries[l].inum == i ensures e == d && l == k {
      if l == 1 {
        NoChild(ns, depth, e, i);
      } else {
        assert EntryOk(ns, e, l) && IsEntry(ns, e, l, i);
      }
    }
    forall e | 0 <= e < |ns| && e != d ensures Contrib(ns[e], i) == 0 {
      NoHit(ns, e, i);
    }
    forall l: nat | l < |ns[d].entries| && l != k ensures Hit(ns[d].entries[l], i) == 0 {
      assert l >= 1 && ns[d].entries[l].inum == i ==> InUse(ns, d, l);
    }
    assert ns[d].entries[0].name != ns[d].entries[k].name;
    TallyOne(ns[d].entries, k, i);
    CountOnly(ns, d, i);
  }

  lemma NoHit(ns: seq<Inode>, e: nat, i: nat)
    requires Locals(ns) && e < |ns| && i != 0
    requires forall l: nat :: InUse(ns, e, l) && l >= 1 ==> ns[e].entries[l].inum != i
    ensures Contrib(ns[e], i) == 0
  {
    assert Local(ns[e], e);
    if IsLinked(ns[e]) {
      forall l: nat | l < |ns[e].entries| ensures Hit(ns[e].entries[l], i) == 0 {
        assert l >= 1 && ns[e].entries[l].inum == i ==> InUse(ns, e, l);
      }
      TallyNone(ns[e].entries, i);
    }
  }

  /** An empty directory other than the root is nobody's "..". */
  lemma NoChild(ns: seq<Inode>, depth: seq<nat>, e: nat, i: nat)
    requires Ups(ns, depth) && Linked(ns, e) && i < |ns| && i != ROOT && OnlyDots(ns[i].entries)
    ensures Parent(ns[e]) != i
  {
    if e != ROOT {
      assert UpOk(ns, depth, e);
      var l: nat :| IsEntry(ns, Parent(ns[e]), l, e);
    }
  }

  lemma TwoNames(ns: seq<Inode>, pending: seq<nat>, depth: seq<nat>, d: nat, i: nat)
    requires Consistent(ns, pending, depth) && Linked(ns, d) && Linked(ns, i) && i != d && i != ROOT
    requires Parent(ns[i]) == d && OnlyDots(ns[i].entries)
    ensures Count(ns, d) >= 2
  {
    assert Local(ns[i], i) && Local(ns[ROOT], ROOT);
    assert InUse(ns, i, 1);
    Counted(ns, pending, i, 1);
    if d == ROOT {
      assert InUse(ns, ROOT, 1);
      Counted(ns, pending, ROOT, 1);
      CountTwo(ns, i, ROOT, d);
    } else {
      assert UpOk(ns, depth, d);
      var p := Parent(ns[d]);
      var l: nat :| IsEntry(ns, p, l, d);
      Counted(ns, pending, p, l);
      CountTwo(ns, i, p, d);
    }
  }

  lemma UnlinkEntries(ns: seq<Inode>, d: nat, k: nat, i: nat, r: seq<Inode>, x: Inode, y: Inode)
    requires Entries(ns) && IsEntry(ns, d, k, i) && i < |ns| && i != d && r == ns[d := x][i := y]
    requires x == Erased(ns[d], k, x.nlink) && y == ns[i].(nlink := y.nlink) && (y.nlink > 0 ==> ns[i].nlink > 0)
    ensures Entries(r)
  {
    forall e: nat, l: nat | InUse(r, e, l) ensures EntryOk(r, e, l) {
      assert InUse(ns, e, l) && EntryOk(ns, e, l);
    }
    forall e: nat, l: nat, m: nat, c: nat | IsEntry(r, e, l, c) && IsEntry(r, e, m, c) && c < |r| && r[c].kind == Dir
      ensures l == m
    {
      assert IsEntry(ns, e, l, c) && IsEntry(ns, e, m, c);
    }
  }

  lemma UnlinkUps(ns: seq<Inode>, depth: seq<nat>, d: nat, k: nat, i: nat, r: seq<Inode>, x: Inode, y: Inode)
    requires Ups(ns, depth) && IsEntry(ns, d, k, i) && i < |ns| && i != d && i != ROOT && r == ns[d := x][i := y]
    requires x == Erased(ns[d], k, x.nlink) && x.nlink > 0 && y == ns[i].(nlink := y.nlink)
    requires ns[i].kind == Dir ==> OnlyDots(ns[i].entries) && y.nlink == 0
    ensures Ups(r, depth)
  {
    forall c: nat | Linked(r, c) && c != ROOT ensures UpOk(r, depth, c) {
      assert Linked(ns, c) && UpOk(ns, depth, c);
      var p := Parent(ns[c]);
      var l: nat :| IsEntry(ns, p, l, c);
      assert IsEntry(r, p, l, c);
    }
  }

  lemma EmptyContrib(x: Inode, i: nat, j: nat)
    requires Local(x, i) && IsLinked(x) && OnlyDots(x.entries) && j != 0
    ensures Contrib(x, j) == if Parent(x) == j then 1 else 0
  {
    if Parent(x) == j {
      TallyOne(x.entries, 1, j);
    } else {
      TallyNone(x.entries, j);
    }
  }

  /** What unlink does to the count of inode j. */
  lemma UnlinkCount(ns: seq<Inode>, d: nat, k: nat, i: nat, j: nat)
    requires Locals(ns) && CanUnlink(ns, d, k, i) && i != d && ns[i].kind != Free && ns[i].nlink >= 1 && j != 0
    requires ns[i].kind == Dir ==> ns[i].nlink == 1 && Parent(ns[i]) == d && ns[d].nlink >= 2
    ensures Count(ns, j) ==
      Count(UnlinkResult(ns, d, k, i), j) + (if j == i then 1 else 0) + if ns[i].kind == Dir && j == d then 1 else 0
  {
    var r := UnlinkResult(ns, d, k, i);
    var mid := ns[d := r[d]];
    assert Local(ns[d], d) && Local(ns[i], i);
    hide Local, Locals, Count;
    ErasedContrib(ns[d], d, k, r[d].nlink, j);
    CountUpdate(ns, d, r[d], j);
    CountUpdate(mid, i, r[i], j);
    if ns[i].kind == Dir {
      EmptyContrib(ns[i], i, j);
    }
  }

  lemma UnlinkCounts(ns: seq<Inode>, pending: seq<nat>, d: nat, k: nat, i: nat)
    requires Locals(ns) && Counts(ns, pending) && CanUnlink(ns, d, k, i) && i != d && ns[i].kind != Free
    requires ns[i].nlink >= 1
    requires ns[i].kind == Dir ==> ns[i].nlink == 1 && Parent(ns[i]) == d && ns[d].nlink >= 2
    ensures Counts(UnlinkResult(ns, d, k, i), pending)
  {
    var r := UnlinkResult(ns, d, k, i);
    assert Local(ns[0], 0);
    hide Local, Locals, Count;
    forall j: nat | j < |r| ensures CountOk(r, pending, j) {
      assert CountOk(ns, pending, j);
      if j != 0 {
        UnlinkCount(ns, d, k, i, j);
      }
    }
  }

  /** sys_unlink keeps the invariant; the panic on nlink < 1 is not reached, and a
      directory it removes is left without links. */
  lemma UnlinkKeeps(ns: seq<Inode>, pending: seq<nat>, depth: seq<nat>, d: nat, k: nat, i: nat)
    requires Consistent(ns, pending, depth) && CanUnlink(ns, d, k, i)
    ensures i != d && ns[i].kind != Free && ns[i].nlink >= 1 && (ns[i].kind == Dir ==> ns[i].nlink == 1)
    ensures Consistent(UnlinkResult(ns, d, k, i), pending, depth)
  {
    UnlinkTarget(ns, pending, depth, d, k, i);
    var r := UnlinkResult(ns, d, k, i);
    hide Local, Entries, Ups, Counts, Count, EntryOk;
    ErasedContrib(ns[d], d, k, r[d].nlink, 1);
    UnlinkEntries(ns, d, k, i, r, r[d], r[i]);
    UnlinkUps(ns, depth, d, k, i, r, r[d], r[i]);
    UnlinkCounts(ns, pending, d, k, i);
    CountOnlyLocal(ns[i], i, r[i].nlink);
  }

  lemma UnlinkTarget(ns: seq<Inode>, pending: seq<nat>, depth: seq<nat>, d: nat, k: nat, i: nat)
    requires Consistent(ns, pending, depth) && CanUnlink(ns, d, k, i)
    ensures i != d && ns[i].kind != Free && ns[i].nlink >= 1 && (ns[i].kind == Dir ==> ns[i].nlink == 1)
    ensures EntryOk(ns, d, k) && Local(ns[d], d) && Local(ns[i], i) && UnlinkResult(ns, d, k, i)[d].nlink > 0
  {
    hide Ups, Count;
    assert EntryOk(ns, d, k) && Local(ns[d], d) && Local(ns[i], i);
    Counted(ns, pending, d, k);
    hide Entries, Counts;
    if ns[i].kind == Dir {
      EmptyDirCounts(ns, pending, depth, d, k, i);
    }
  }

  lemma CountOnlyLocal(x: Inode, i: nat, nlink: int)
    requires Local(x, i) && x.kind != Free && (x.kind == Dir ==> OnlyDots(x.entries))
    ensures Local(x.(nlink := nlink), i)
  {
  }

  // ---------- inodes without links ----------

  /** Nothing in a linked directory names an inode whose count is 0. */
  lemma Unnamed(ns: seq<Inode>, pending: seq<nat>, i: nat, d: nat, k: nat)
    requires Locals(ns) && Counts(ns, pending) && i < |ns| && ns[i].kind != Free && ns[i].nlink <= 0 && InUse(ns, d, k)
    ensures ns[d].entries[k].inum != i
  {
    assert Local(ns[d], d);
    if k >= 1 {
      Counted(ns, pending, d, k);
    }
  }

  /** iput() of the last reference to an inode without links frees it, and the invariant
      stays: no entry is left naming a free inode. */
  lemma ReclaimKeeps(ns: seq<Inode>, pending: seq<nat>, depth: seq<nat>, i: nat)
    requires Consistent(ns, pending, depth) && i < |ns| && ns[i].kind != Free && ns[i].nlink == 0
    ensures Consistent(ns[i := UNUSED], pending, depth)
  {
    var r := ns[i := UNUSED];
    assert CountOk(ns, pending, i);
    forall e: nat, l: nat | InUse(r, e, l) ensures EntryOk(r, e, l) {
      assert InUse(ns, e, l) && EntryOk(ns, e, l);
      Unnamed(ns, pending, i, e, l);
    }
    forall e: nat, l: nat, m: nat, c: nat | IsEntry(r, e, l, c) && IsEntry(r, e, m, c) && c < |r| && r[c].kind == Dir
      ensures l == m
    {
      assert IsEntry(ns, e, l, c) && IsEntry(ns, e, m, c);
    }
    forall c: nat | Linked(r, c) && c != ROOT ensures UpOk(r, depth, c) {
      assert Linked(ns, c) && UpOk(ns, depth, c);
      var l: nat :| IsEntry(ns, Parent(ns[c]), l, c);
      assert IsEntry(r, Parent(ns[c]), l, c);
    }
    forall j: nat | j < |r| ensures CountOk(r, pending, j) {
      assert CountOk(ns, pending, j);
      CountUpdate(ns, i, UNUSED, j);
    }
  }

  /** Changing the count of a file together with what is pending. */
  lemma RecountKeeps(ns: seq<Inode>, pending: seq<nat>, depth: seq<nat>, i: nat, nlink: int, n: nat)
    requires Consistent(ns, pending, depth) && i < |ns| && ns[i].kind != Free && ns[i].kind != Dir
    ensures Consistent(ns[i := ns[i].(nlink := nlink)], pending[i := n], depth) <==>
      nlink - n == ns[i].nlink - pending[i]
  {
    var r, pend := ns[i := ns[i].(nlink := nlink)], pending[i := n];
    assert CountOk(ns, pending, i);
    forall j: nat | j < |r| ensures (j == i ==> Count(r, j) == Count(ns, j)) && (j != i ==> CountOk(r, pend, j)) {
      assert CountOk(ns, pending, j);
      CountUpdate(ns, i, r[i], j);
    }
    assert CountOk(r, pend, i) <==> nlink - n == ns[i].nlink - pending[i];
    hide Count, CountOk, Entries, Ups;
    RecountEntries(ns, i, nlink);
    RecountUps(ns, depth, i, nlink);
    assert forall j: nat :: j < |r| && j != i ==> Local(r[j], j) && Local(ns[j], j);
    assert Local(ns[i], i);
  }

  lemma RecountEntries(ns: seq<Inode>, i: nat, nlink: int)
    requires Entries(ns) && i < |ns| && ns[i].kind != Free && ns[i].kind != Dir
    ensures Entries(ns[i := ns[i].(nlink := nlink)])
  {
    var r := ns[i := ns[i].(nlink := nlink)];
    forall e: nat, l: nat | InUse(r, e, l) ensures EntryOk(r, e, l) {
      assert InUse(ns, e, l) && EntryOk(ns, e, l);
    }
    forall e: nat, l: nat, m: nat, c: nat | IsEntry(r, e, l, c) && IsEntry(r, e, m, c) && c < |r| && r[c].kind == Dir
      ensures l == m
    {
      assert IsEntry(ns, e, l, c) && IsEntry(ns, e, m, c);
    }
  }

  lemma RecountUps(ns: seq<Inode>, depth: seq<nat>, i: nat, nlink: int)
    requires Ups(ns, depth) && i < |ns| && ns[i].kind != Dir
    ensures Ups(ns[i := ns[i].(nlink := nlink)], depth)
  {
    var r := ns[i := ns[i].(nlink := nlink)];
    forall c: nat | Linked(r, c) && c != ROOT ensures UpOk(r, depth, c) {
      assert Linked(ns, c) && UpOk(ns, depth, c);
      var l: nat :| IsEntry(ns, Parent(ns[c]), l, c);
      assert IsEntry(r, Parent(ns[c]), l, c);
    }
  }

  /** Inode i with one link more, as a short holds the count. */
  function CountedUp(ns: seq<Inode>, i: nat): (r: seq<Inode>)
    requires i < |ns|
  {
    ns[i := ns[i].(nlink := Short(ns[i].nlink + 1))]
  }

  /** A whole sys_link, of which nothing stays pending, keeps the invariant exactly when the
      directory is still linked and the count has room. */
  lemma WholeLinkKeeps(ns: seq<Inode>, pending: seq<nat>, depth: seq<nat>, d: nat, k: nat, i: nat, name: string)
    requires Consistent(ns, pending, depth) && CanEnter(ns, d, k, name) && i < |ns| && ns[i].nlink < 0x8000
    requires ns[i].kind != Free && ns[i].kind != Dir
    ensures Consistent(LinkResult(CountedUp(ns, i), d, k, i, name), pending, depth) <==>
      Linked(ns, d) && ns[i].nlink < 0x7fff
  {
    At(ns, pending, depth, i);
    assert ns[i].nlink >= 0 && k <= |CountedUp(ns, i)[d].entries|;
    hide Consistent, CountOk, Local, Vacant, Present;
    if ns[i].nlink < 0x7fff {
      LinkFits(ns, pending, depth, d, k, i, name);
    } else {
      NegativeCount(LinkResult(CountedUp(ns, i), d, k, i, name), pending, depth, i);
    }
  }

  /** A whole sys_unlink, with the iput that frees an inode which loses its last link. */
  lemma WholeUnlinkKeeps(ns: seq<Inode>, pending: seq<nat>, depth: seq<nat>, d: nat, k: nat, i: nat, freed: bool)
    requires Consistent(ns, pending, depth) && Shorts(ns) && CanUnlink(ns, d, k, i) && (freed ==> ns[i].nlink == 1)
    ensures i != d
    ensures var r := if freed then UnlinkResult(ns, d, k, i)[i := UNUSED] else UnlinkResult(ns, d, k, i);
      Consistent(r, pending, depth) && Shorts(r)
  {
    UnlinkKeeps(ns, pending, depth, d, k, i);
    UnlinkShorts(ns, d, k, i);
    var r := UnlinkResult(ns, d, k, i);
    hide Consistent, CanUnlink, Erased;
    if freed {
      ShortFits(0);
      assert r[i].kind != Free && r[i].nlink == 0;
      ReclaimKeeps(r, pending, depth, i);
      ShortsSet(r, i, UNUSED);
    }
  }

  lemma LinkFits(ns: seq<Inode>, pending: seq<nat>, depth: seq<nat>, d: nat, k: nat, i: nat, name: string)
    requires Consistent(ns, pending, depth) && CanEnter(ns, d, k, name) && i < |ns| && 0 <= ns[i].nlink < 0x7fff
    requires ns[i].kind != Free && ns[i].kind != Dir
    ensures Consistent(LinkResult(CountedUp(ns, i), d, k, i, name), pending, depth) <==> Linked(ns, d)
  {
    At(ns, pending, depth, i);
    hide Consistent, CountOk, Local, Vacant, Present;
    ShortFits(ns[i].nlink + 1);
    var up := pending[i := pending[i] + 1];
    RecountKeeps(ns, pending, depth, i, ns[i].nlink + 1, pending[i] + 1);
    LinkKeeps(CountedUp(ns, i), up, depth, d, k, i, name);
    assert up[i := up[i] - 1] == pending;
  }

  lemma NegativeCount(ns: seq<Inode>, pending: seq<nat>, depth: seq<nat>, i: nat)
    requires i < |ns| && ns[i].kind != Free && ns[i].nlink < 0
    ensures !Consistent(ns, pending, depth)
  {
    assert |ns| == |pending| ==> !CountOk(ns, pending, i);
  }

  // ---------- what the invariant gives a reader of the disk ----------

  predicate FirstNamed(es: seq<Dirent>, name: string, k: int)
    requires 0 <= k < |es|
  {
    && es[k].inum != 0 && es[k].name == name
    && forall l :: 0 <= l < k ==> es[l].inum == 0 || es[l].name != name
  }

  lemma {:induction false} LookupFirst(es: seq<Dirent>, name: string, k: nat)
    requires k < |es| && FirstNamed(es, name, k)
    ensures Lookup(es, name) == Some(es[k].inum) && Present(es, name)
  {
    if k > 0 {
      LookupFirst(es[1..], name, k - 1);
    }
  }

  /** dirlookup(): the first used slot with that name. */
  function Lookup(es: seq<Dirent>, name: string): (r: Option<nat>)
    ensures r.Some? ==> exists k :: 0 <= k < |es| && es[k].inum == r.value && FirstNamed(es, name, k)
    ensures r == None <==> !Present(es, name)
  {
    if es == [] then None
    else
      assert forall k :: 0 < k < |es| ==> es[k] == es[1..][k - 1];
      assert forall k :: 0 <= k < |es[1..]| ==> es[1..][k] == es[k + 1];
      if es[0].inum != 0 && es[0].name == name then Some(es[0].inum)
      else Lookup(es[1..], name)
  }

  /** namex() from directory d: one lookup for each path element. */
  function Resolve(ns: seq<Inode>, d: nat, path: seq<string>): (r: Option<nat>)
    decreases |path|
  {
    if path == [] then Some(d)
    else if d >= |ns| || ns[d].kind != Dir then None
    else
      var next := Lookup(ns[d].entries, path[0]);
      if next == None then None else Resolve(ns, next.value, path[1..])
  }

  ghost predicate HasPath(ns: seq<Inode>, i: nat) {
    exists path :: Resolve(ns, ROOT, path) == Some(i)
  }

  lemma {:induction false} ResolveSnoc(ns: seq<Inode>, d: nat, path: seq<string>, name: string, e: nat, i: nat)
    requires Resolve(ns, d, path) == Some(e) && e < |ns| && ns[e].kind == Dir && Lookup(ns[e].entries, name) == Some(i)
    ensures Resolve(ns, d, path + [name]) == Some(i)
    decreases |path|
  {
    if path == [] {
      assert Resolve(ns, i, (path + [name])[1..]) == Some(i);
    } else {
      var next := Lookup(ns[d].entries, path[0]).value;
      assert (path + [name])[1..] == path[1..] + [name];
      ResolveSnoc(ns, next, path[1..], name, e, i);
    }
  }

  lemma LookupSlot(x: Inode, d: nat, k: nat)
    requires Local(x, d) && k < |x.entries| && x.entries[k].inum != 0
    ensures Lookup(x.entries, x.entries[k].name) == Some(x.entries[k].inum)
  {
    assert Present(x.entries, x.entries[k].name);
  }

  /** Every linked directory is found from the root by some path. */
  lemma {:induction false} DirectoryHasPath(ns: seq<Inode>, pending: seq<nat>, depth: seq<nat>, c: nat)
    requires Consistent(ns, pending, depth) && Linked(ns, c)
    ensures HasPath(ns, c)
    decreases depth[c]
  {
    if c == ROOT {
      assert Resolve(ns, ROOT, []) == Some(ROOT);
    } else {
      assert UpOk(ns, depth, c);
      var d := Parent(ns[c]);
      var k: nat :| IsEntry(ns, d, k, c);
      DirectoryHasPath(ns, pending, depth, d);
      EntryHasPath(ns, d, k);
    }
  }

  lemma EntryHasPath(ns: seq<Inode>, d: nat, k: nat)
    requires Locals(ns) && InUse(ns, d, k) && HasPath(ns, d)
    ensures HasPath(ns, ns[d].entries[k].inum)
  {
    var path :| Resolve(ns, ROOT, path) == Some(d);
    assert Local(ns[d], d);
    LookupSlot(ns[d], d, k);
    ResolveSnoc(ns, ROOT, path, ns[d].entries[k].name, d, ns[d].entries[k].inum);
  }

  lemma {:induction false} CountedSomewhere(ns: seq<Inode>, i: nat)
    requires Count(ns, i) > 0 && i != 0
    ensures exists d: nat, k: nat :: InUse(ns, d, k) && ns[d].entries[k].inum == i
  {
    if d: nat :| d < |ns| && Contrib(ns[d], i) > 0 {
      if k: nat :| k < |ns[d].entries| && Hit(ns[d].entries[k], i) > 0 {
        assert InUse(ns, d, k);
      } else {
        TallyNone(ns[d].entries, i);
      }
    } else {
      CountNone(ns, i);
    }
  }

  /** A file or directory can be reached by a path from the root exactly when its count
      exceeds the links still pending. */
  lemma ReachableIffLinked(ns: seq<Inode>, pending: seq<nat>, depth: seq<nat>, i: nat)
    requires Consistent(ns, pending, depth) && 0 < i < |ns| && ns[i].kind != Free
    ensures HasPath(ns, i) <==> ns[i].nlink > pending[i]
  {
    assert CountOk(ns, pending, i) && CountOk(ns, pending, ROOT) && Linked(ns, ROOT);
    hide Locals, Entries, Ups, Counts, Count;
    if ns[i].nlink > pending[i] {
      CountedSomewhere(ns, i);
      var d: nat, k: nat :| InUse(ns, d, k) && ns[d].entries[k].inum == i;
      DirectoryHasPath(ns, pending, depth, d);
      EntryHasPath(ns, d, k);
    }
    if path :| Resolve(ns, ROOT, path) == Some(i) {
      ResolvedIsLinked(ns, pending, ROOT, path, i);
    }
  }

  /** Lookups from a linked directory only lead to inodes that are counted. */
  lemma {:induction false} ResolvedIsLinked(ns: seq<Inode>, pending: seq<nat>, d: nat, path: seq<string>, i: nat)
    requires Locals(ns) && Entries(ns) && Counts(ns, pending) && d < |ns| && Resolve(ns, d, path) == Some(i)
    requires ns[d].kind != Free && ns[d].nlink > pending[d]
    ensures i < |ns| && ns[i].kind != Free && ns[i].nlink > pending[i]
    decreases |path|
  {
    if path != [] {
      var next := Lookup(ns[d].entries, path[0]).value;
      var k: nat :| k < |ns[d].entries| && ns[d].entries[k].inum == next && next != 0;
      assert InUse(ns, d, k) && EntryOk(ns, d, k) && Local(ns[d], d) && CountOk(ns, pending, next);
      if k >= 1 {
        Counted(ns, pending, d, k);
      }
      ResolvedIsLinked(ns, pending, next, path[1..], i);
    }
  }

  /** The name is that of a directory with entries of its own. */
  ghost predicate NamesFullDir(ns: seq<Inode>, d: nat, name: string) {
    exists k: nat :: InUse(ns, d, k) && ns[d].entries[k].name == name && ns[d].entries[k].inum < |ns|
      && ns[ns[d].entries[k].inum].kind == Dir && !OnlyDots(ns[ns[d].entries[k].inum].entries)
  }

  /** The end of an unlink: the entry with that name is gone and the inode lost one link;
      it is freed if that was the last and nobody holds it. */
  ghost predicate UnlinkEnd(ns: seq<Inode>, d: nat, k: nat, i: nat, name: string, last: bool, r: seq<Inode>)
    requires CanUnlink(ns, d, k, i)
  {
    && i != d && ns[d].entries[k].name == name && ns[i].nlink >= 1
    && r == if last && ns[i].nlink == 1 then UnlinkResult(ns, d, k, i)[i := UNUSED] else UnlinkResult(ns, d, k, i)
  }

  /** A name that may be unlinked is not that of a full directory. */
  lemma NotFull(ns: seq<Inode>, d: nat, k: nat, i: nat)
    requires Locals(ns) && CanUnlink(ns, d, k, i)
    ensures !NamesFullDir(ns, d, ns[d].entries[k].name)
  {
    assert Local(ns[d], d);
  }

  /** The dirlinks of create() find the room they need. */
  predicate HasRoom(ns: seq<Inode>, d: nat, kind: Kind, room: seq<bool>)
    requires d < |ns| && |room| == 3
  {
    && (kind == Dir ==> room[0] && room[1])
    && (HasHole(ns[d].entries) || (room[2] && |ns[d].entries| < MAXSLOTS))
  }

  /** An inode that loses the link counted for an entry that could not be made, and with its
      last link and its last reference everything. */
  function Uncounted(x: Inode, last: bool): Inode {
    if last && x.nlink == 1 then UNUSED else x.(nlink := x.nlink - 1)
  }

  ghost predicate Shorts(ns: seq<Inode>) {
    forall i :: 0 <= i < |ns| ==> -0x8000 <= ns[i].nlink < 0x8000
  }

  lemma At(ns: seq<Inode>, pending: seq<nat>, depth: seq<nat>, i: nat)
    requires Consistent(ns, pending, depth) && i < |ns|
    ensures |ns| == |pending| == |depth| && Local(ns[i], i) && CountOk(ns, pending, i)
  {
  }

  lemma AllLocal(ns: seq<Inode>, pending: seq<nat>, depth: seq<nat>)
    requires Consistent(ns, pending, depth)
    ensures Locals(ns)
  {
  }

  lemma FreeIsUnused(x: Inode, i: nat)
    requires Local(x, i) && x.kind == Free
    ensures x == UNUSED
  {
  }

  lemma FoundFile(ns: seq<Inode>, d: nat, k: nat)
    requires d < |ns| && k < |ns[d].entries| && ns[d].entries[k].inum != 0
    ensures Present(ns[d].entries, ns[d].entries[k].name)
  {
  }

  /** A slot with a name of its own is an entry of a linked directory. */
  lemma UsedSlot(ns: seq<Inode>, d: nat, k: nat)
    requires Locals(ns) && Entries(ns) && d < |ns| && ns[d].kind == Dir && k < |ns[d].entries|
    requires ns[d].entries[k].inum != 0
    requires ns[d].entries[k].name != "." && ns[d].entries[k].name != ".."
    ensures IsEntry(ns, d, k, ns[d].entries[k].inum) && ns[d].entries[k].inum < |ns|
  {
    assert Local(ns[d], d);
    assert k >= 2;
    assert InUse(ns, d, k) && EntryOk(ns, d, k);
  }

  lemma ShortsSet(ns: seq<Inode>, i: nat, x: Inode)
    requires Shorts(ns) && i < |ns| && -0x8000 <= x.nlink < 0x8000
    ensures -0x8000 <= ns[i].nlink < 0x8000 && Shorts(ns[i := x])
  {
  }

  lemma UnlinkShorts(ns: seq<Inode>, d: nat, k: nat, i: nat)
    requires Shorts(ns) && d < |ns| && k < |ns[d].entries| && i < |ns| && i != d
    ensures Shorts(UnlinkResult(ns, d, k, i))
  {
  }

  // ---------- the first tree ----------

  const SLOTS := 64   // BSIZE / sizeof(struct dirent)

  /** The root directory as mkfs writes it: two entries in a block of slots. */
  function Root(): Inode {
    Inode(Dir, 1, [Dirent(ROOT, "."), Dirent(ROOT, "..")] + seq(SLOTS - 2, _ => EMPTY))
  }

  function Made(n: nat): seq<Inode>
    requires n >= 2
  {
    seq(n, _ => UNUSED)[ROOT := Root()]
  }

  lemma MadeConsistent(n: nat)
    requires n >= 2
    ensures Consistent(Made(n), seq(n, _ => 0), seq(n, _ => 0)) && Shorts(Made(n))
  {
    var ns, es := Made(n), Root().entries;
    assert |es| == SLOTS && es[0] == Dirent(ROOT, ".") && es[1] == Dirent(ROOT, "..");
    assert forall k :: 2 <= k < |es| ==> es[k] == EMPTY;
    TallyOne(es, 1, ROOT);
    CountOnly(ns, ROOT, ROOT);
    assert forall d: nat, k: nat :: InUse(ns, d, k) ==> d == ROOT && k < 2;
  }

  // ---------- the operations ----------

  class Tree {
    var ns: seq<Inode>
    ghost var pending: seq<nat>
    ghost var depth: seq<nat>

    ghost predicate Sound()
      reads this
    {
      Consistent(ns, pending, depth) && Shorts(ns)
    }

    /** The tree that mkfs leaves: n inodes of which the root directory is in use. */
    constructor (n: nat)
      requires n >= 2
      ensures Sound() && ns == Made(n)
    {
      ns, pending, depth := Made(n), seq(n, _ => 0), seq(n, _ => 0);
      MadeConsistent(n);
    }

    /** dirlookup(): the first used slot with the name, or one past the end. */
    method DirLookup(d: nat, name: string) returns (k: nat)
      requires d < |ns|
      ensures k <= |ns[d].entries|
      ensures k < |ns[d].entries| ==> ns[d].entries[k].inum != 0 && ns[d].entries[k].name == name
      ensures k < |ns[d].entries| <==> Present(ns[d].entries, name)
      ensures k < |ns[d].entries| ==> Lookup(ns[d].entries, name) == Some(ns[d].entries[k].inum)
    {
      k := 0;
      while k < |ns[d].entries|
        invariant k <= |ns[d].entries|
        invariant forall l :: 0 <= l < k ==> ns[d].entries[l].inum == 0 || ns[d].entries[l].name != name
      {
        if ns[d].entries[k].inum != 0 && ns[d].entries[k].name == name {
          LookupFirst(ns[d].entries, name, k);
          return;
        }
        k := k + 1;
      }
    }

    /** dirlink()'s search for an empty slot. */
    method FreeSlot(d: nat) returns (k: nat)
      requires d < |ns|
      ensures k == SlotFor(ns[d].entries)
    {
      k := 0;
      while k < |ns[d].entries| && ns[d].entries[k].inum != 0
        invariant k <= |ns[d].entries|
        invariant forall l :: 0 <= l < k ==> ns[d].entries[l].inum != 0
      {
        k := k + 1;
      }
    }

    /** dirlink(): the name must be new, and a directory without an empty slot must be
        able to grow; otherwise nothing changes. */
    method DirLink(d: nat, name: string, inum: nat, room: bool) returns (ok: bool, k: nat)
      requires d < |ns|
      modifies `ns
      ensures !ok ==> ns == old(ns)
      ensures ok <==>
        && !Present(old(ns)[d].entries, name)
        && (HasHole(old(ns)[d].entries) || (room && |old(ns)[d].entries| < MAXSLOTS))
      ensures ok ==> k == SlotFor(old(ns)[d].entries)
      ensures ok ==> ns == old(ns)[d := old(ns)[d].(entries := Place(old(ns)[d].entries, k, Dirent(inum, name)))]
    {
      k := DirLookup(d, name);
      if k < |ns[d].entries| {
        return false, k;
      }
      k := FreeSlot(d);
      if k == |ns[d].entries| && (!room || k >= MAXSLOTS) {
        return false, k;
      }
      ns := ns[d := ns[d].(entries := Place(ns[d].entries, k, Dirent(inum, name)))];
      ok := true;
    }

    /** isdirempty(): looks behind the first two slots. */
    method IsDirEmpty(i: nat) returns (r: bool)
      requires i < |ns|
      ensures r <==> OnlyDots(ns[i].entries)
    {
      var k := 2;
      while k < |ns[i].entries|
        invariant 2 <= k && forall l :: 2 <= l < k && l < |ns[i].entries| ==> ns[i].entries[l].inum == 0
      {
        if ns[i].entries[k].inum != 0 {
          return false;
        }
        k := k + 1;
      }
      return true;
    }

    /** ialloc()'s search: the first free inode, 0 for none. */
    method FreeInode() returns (i: nat)
      ensures i == 0 <==> forall j :: 1 <= j < |ns| ==> ns[j].kind != Free
      ensures i != 0 ==> i < |ns| && ns[i].kind == Free && forall j :: 1 <= j < i ==> ns[j].kind != Free
    {
      i := 1;
      while i < |ns|
        invariant 1 <= i && forall j :: 1 <= j < i && j < |ns| ==> ns[j].kind != Free
      {
        if ns[i].kind == Free {
          return;
        }
        i := i + 1;
      }
      i := 0;
    }

    /** iput() of a reference; `last` says that no other is held. */
    method Iput(i: nat, last: bool)
      requires i < |ns| && ns[i].kind != Free
      modifies `ns
      ensures ns == if last && old(ns)[i].nlink == 0 then old(ns)[i := UNUSED] else old(ns)
      ensures old(Sound()) ==> Sound()
    {
      if last && ns[i].nlink == 0 {
        if Sound() {
          ReclaimKeeps(ns, pending, depth, i);
        }
        ns := ns[i := UNUSED];
      }
    }

    /** sys_link up to the release of the inode: counts the link to come. It keeps the
        invariant exactly when the 16-bit count has room. */
    method LinkStart(i: nat) returns (ok: bool)
      requires Sound() && i < |ns| && ns[i].kind != Free
      modifies `ns, `pending
      ensures ok <==> old(ns)[i].kind != Dir
      ensures !ok ==> ns == old(ns) && pending == old(pending)
      ensures ok ==>
        && ns == old(ns)[i := old(ns)[i].(nlink := Short(old(ns)[i].nlink + 1))]
        && pending == old(pending)[i := old(pending)[i] + 1]
      ensures ok ==> (Sound() <==> old(ns)[i].nlink < 0x7fff)
    {
      if ns[i].kind == Dir {
        return false;
      }
      RecountKeeps(ns, pending, depth, i, Short(ns[i].nlink + 1), pending[i] + 1);
      ns, pending := ns[i := ns[i].(nlink := Short(ns[i].nlink + 1))], pending[i := pending[i] + 1];
      ok := true;
    }

    /** sys_link from nameiparent() on; None is a missing parent or another device. The
        entry is made, or the count is taken back; the invariant is kept unless the entry
        went into a directory that has lost its links. */
    method LinkFinish(i: nat, parent: Option<nat>, name: string, room: bool, last: bool) returns (ok: bool)
      requires Sound() && i < |ns| && pending[i] > 0
      requires (parent.Some? ==> parent.value < |ns| && ns[parent.value].kind == Dir)
      modifies `ns, `pending
      ensures pending == old(pending)[i := old(pending)[i] - 1]
      ensures ok ==> parent.Some? && (Sound() <==> Linked(old(ns), parent.value))
      ensures ok ==>
        && !Present(old(ns)[parent.value].entries, name)
        && ns == LinkResult(old(ns), parent.value, SlotFor(old(ns)[parent.value].entries), i, name)
      ensures !ok ==> Sound() && ns == old(ns)[i := Uncounted(old(ns)[i], last)]
      ensures ok <==> parent.Some? && var es := old(ns)[parent.value].entries;
        !Present(es, name) && (HasHole(es) || (room && |es| < MAXSLOTS))
    {
      hide Consistent, Vacant, Present;
      At(ns, pending, depth, i);
      ok := false;
      var k := 0;
      if parent.Some? {
        ok, k := DirLink(parent.value, name, i, room);
      }
      if ok {
        LinkKeeps(old(ns), pending, depth, parent.value, k, i, name);
        assert ns == LinkResult(old(ns), parent.value, k, i, name);
        pending := pending[i := pending[i] - 1];
        Iput(i, last);
      } else {
        LinkBad(i, last);
      }
    }

    /** sys_link's bad exit. */
    method LinkBad(i: nat, last: bool)
      requires Sound() && i < |ns| == |pending| && pending[i] > 0
      modifies `ns, `pending
      ensures Sound() && pending == old(pending)[i := old(pending)[i] - 1]
      ensures ns == old(ns)[i := Uncounted(old(ns)[i], last)]
    {
      hide Tree.Sound;
      Uncount(i);
      Iput(i, last);
    }

    /** The inode loses the link that was counted for the failed entry. */
    method Uncount(i: nat)
      requires Sound() && i < |ns| == |pending| && pending[i] > 0
      modifies `ns, `pending
      ensures Sound() && pending == old(pending)[i := old(pending)[i] - 1]
      ensures ns == old(ns)[i := old(ns)[i].(nlink := old(ns)[i].nlink - 1)] && ns[i].kind != Free
    {
      At(ns, pending, depth, i);
      ShortsSet(ns, i, ns[i].(nlink := ns[i].nlink - 1));
      ShortFits(ns[i].nlink - 1);
      hide Consistent, Short, Shorts, CountOk, Local;
      RecountKeeps(ns, pending, depth, i, Short(ns[i].nlink - 1), pending[i] - 1);
      ns, pending := ns[i := ns[i].(nlink := Short(ns[i].nlink - 1))], pending[i := pending[i] - 1];
    }

    /** create(): an existing file is handed back, a failure leaves nothing behind, and a
        new inode keeps the invariant exactly when the directory is still linked (and, for
        a new directory, has room in its count). `room` is for the three dirlinks. */
    method Create(d: nat, name: string, kind: Kind, room: seq<bool>) returns (r: Option<nat>)
      requires Sound() && d < |ns| && ns[d].kind == Dir && kind != Free && |room| == 3
      modifies `ns, `depth
      ensures r == None ==> ns == old(ns) && depth == old(depth)
      ensures !Present(old(ns)[d].entries, name) ==>
        (r.Some? <==>
          (exists j :: 1 <= j < |old(ns)| && old(ns)[j].kind == Free) && HasRoom(old(ns), d, kind, room))
      ensures Present(old(ns)[d].entries, name) ==> ns == old(ns) && depth == old(depth)
      ensures Present(old(ns)[d].entries, name) ==>
        var i := Lookup(old(ns)[d].entries, name).value;
        r == if kind == File && i < |ns| && (ns[i].kind == File || ns[i].kind == Device) then Some(i) else None
      ensures !Present(old(ns)[d].entries, name) && r.Some? ==>
        && 1 <= r.value < |ns| == |old(ns)| && (forall j :: 1 <= j < r.value ==> old(ns)[j].kind != Free)
        && (Sound() <==> RoomToCount(old(ns), kind, d))
      ensures !Present(old(ns)[d].entries, name) && r.Some? ==>
        var k := SlotFor(old(ns)[d].entries);
        CanCreate(old(ns), kind, d, k, r.value, name) && ns == CreateResult(old(ns), kind, d, k, r.value, name)
    {
      hide Consistent, Present, Vacant, Local;
      var k := DirLookup(d, name);
      if k < |ns[d].entries| {
        FoundFile(ns, d, k);
        var found := ns[d].entries[k].inum;
        var isFile := found < |ns| && (ns[found].kind == File || ns[found].kind == Device);
        r := if kind == File && isFile then Some(found) else None;
        return;
      }
      var i := FreeInode();
      if i == 0 {
        return None;
      }
      At(ns, pending, depth, i);
      FreeIsUnused(ns[i], i);
      var ok;
      ok, k := NewInode(d, name, kind, i, room);
      if !ok {
        ns := ns[i := UNUSED];
        return None;
      }
      if kind == Dir {
        ns := ns[d := ns[d].(nlink := Short(ns[d].nlink + 1))];
      }
      CreateKeeps(old(ns), pending, depth, kind, d, k, i, name);
      assert ns == CreateResult(old(ns), kind, d, k, i, name);
      depth := depth[i := depth[d] + 1];
      r := Some(i);
    }

    /** The part of create() from ialloc() to the last dirlink. On failure only inode i
        has changed. */
    method NewInode(d: nat, name: string, kind: Kind, i: nat, room: seq<bool>) returns (ok: bool, k: nat)
      requires d < |ns| && i < |ns| && i != d && i != 0 && |room| == 3 && !Present(ns[d].entries, name)
      modifies `ns
      ensures |ns| == |old(ns)| && (!ok ==> ns == old(ns)[i := ns[i]])
      ensures ok <==> HasRoom(old(ns), d, kind, room)
      ensures ok ==> k == SlotFor(old(ns)[d].entries)
      ensures ok ==>
        ns == old(ns)[i := Fresh(kind, i, d)]
                     [d := old(ns)[d].(entries := Place(old(ns)[d].entries, k, Dirent(i, name)))]
    {
      ns := ns[i := Inode(kind, 1, [])];
      ok, k := true, 0;
      if kind == Dir {
        ok := Dots(i, d, room[0], room[1]);
        if !ok {
          return;
        }
      }
      ok, k := DirLink(d, name, i, room[2]);
    }

    /** The entries of a new directory. */
    method Dots(i: nat, d: nat, room0: bool, room1: bool) returns (ok: bool)
      requires i < |ns| && i != 0 && ns[i].entries == []
      modifies `ns
      ensures ok <==> room0 && room1
      ensures !ok ==> |ns| == |old(ns)| && ns == old(ns)[i := ns[i]]
      ensures ok ==> ns == old(ns)[i := old(ns)[i].(entries := [Dirent(i, "."), Dirent(d, "..")])]
    {
      var k;
      ok, k := DirLink(i, ".", i, room0);
      if ok {
        assert ns[i].entries == [Dirent(i, ".")];
        ok, k := DirLink(i, "..", d, room1);
        assert ok ==> ns[i].entries == [Dirent(i, "."), Dirent(d, "..")];
      }
    }

    /** sys_unlink(): removes an entry other than "." and ".." for a file or an empty
        directory; keeps the invariant in every case. */
    method Unlink(d: nat, name: string, last: bool) returns (ok: bool, i: nat)
      requires Sound() && d < |ns| && ns[d].kind == Dir
      modifies `ns
      ensures Sound() && (!ok ==> ns == old(ns))
      ensures !ok <==>
        || name == "." || name == ".." || !Present(old(ns)[d].entries, name) || NamesFullDir(old(ns), d, name)
      ensures ok ==> exists k: nat :: CanUnlink(old(ns), d, k, i) && UnlinkEnd(old(ns), d, k, i, name, last, ns)
    {
      i := 0;
      if name == "." || name == ".." {
        return false, i;
      }
      var k := DirLookup(d, name);
      if k == |ns[d].entries| {
        return false, i;
      }
      i := ns[d].entries[k].inum;
      UsedSlot(ns, d, k);
      hide Consistent;
      var empty := true;
      if ns[i].kind == Dir {
        empty := IsDirEmpty(i);
      }
      if !empty {
        return false, i;
      }
      NotFull(ns, d, k, i);
      Remove(d, k, i, last);
      ok := true;
    }

    /** The part of sys_unlink that takes the entry out. */
    method Remove(d: nat, k: nat, i: nat, last: bool)
      requires Sound() && CanUnlink(ns, d, k, i)
      modifies `ns
      ensures Sound() && UnlinkEnd(old(ns), d, k, i, old(ns)[d].entries[k].name, last, ns)
    {
      hide Tree.Sound, CanUnlink;
      RemoveFacts(d, k, i);
      EraseEntry(d, k, i);
      Iput(i, last);
    }

    lemma RemoveFacts(d: nat, k: nat, i: nat)
      requires Sound() && CanUnlink(ns, d, k, i)
      ensures d < |ns| && i < |ns| && d != i && k < |ns[d].entries| && ns[i].kind != Free && ns[i].nlink >= 1
      ensures Short(ns[i].nlink - 1) == ns[i].nlink - 1
    {
      UnlinkKeeps(ns, pending, depth, d, k, i);
      ShortFits(ns[i].nlink - 1);
    }

    /** The writes of sys_unlink. */
    method EraseEntry(d: nat, k: nat, i: nat)
      requires Sound() && CanUnlink(ns, d, k, i) && d < |ns| && i < |ns| && d != i && k < |ns[d].entries|
      modifies `ns
      ensures Sound() && ns == UnlinkResult(old(ns), d, k, i)
    {
      UnlinkKeeps(ns, pending, depth, d, k, i);
      UnlinkShorts(ns, d, k, i);
      hide Consistent, Shorts, CanUnlink, Short;
      assert ns[i].nlink >= 1; // otherwise panic
      ns := ns[d := Erased(ns[d], k, ns[d].nlink)];
      if ns[i].kind == Dir {
        ns := ns[d := ns[d].(nlink := Short(ns[d].nlink - 1))];
      }
      ns := ns[i := ns[i].(nlink := Short(ns[i].nlink - 1))];
      assert ns == UnlinkResult(old(ns), d, k, i);
    }

    /** ireclaim(): at boot, inodes without links go back; after it every allocated inode
        can be reached from the root. */
    method IReclaim()
      requires Sound() && forall i :: 0 <= i < |pending| ==> pending[i] == 0
      modifies `ns
      ensures Sound() && |ns| == |old(ns)|
      ensures forall i :: 0 <= i < |ns| ==> ns[i] == if old(ns)[i].nlink == 0 then UNUSED else old(ns)[i]
      ensures forall i: nat :: i < |ns| && ns[i].kind != Free ==> HasPath(ns, i)
    {
      assert Local(ns[0], 0);
      var i := 1;
      while i < |ns|
        invariant 1 <= i <= |ns| == |old(ns)| && Sound()
        invariant forall j :: i <= j < |ns| ==> ns[j] == old(ns)[j]
        invariant forall j :: 0 <= j < i ==> ns[j] == if old(ns)[j].nlink == 0 then UNUSED else old(ns)[j]
      {
        assert Local(ns[i], i);
        if ns[i].kind != Free && ns[i].nlink == 0 {
          Iput(i, true);
        }
        i := i + 1;
      }
      forall j: nat | j < |ns| && ns[j].kind != Free ensures HasPath(ns, j) {
        assert Local(ns[0], 0) && CountOk(ns, pending, j);
        ReachableIffLinked(ns, pending, depth, j);
      }
    }
  }

  /** A process stays in a new directory while another removes it. */
  method MakeAndRemove(t: Tree) returns (d: nat)
    requires t.Sound() && t.ns == Made(4)
    modifies t
    ensures t.Sound() && Abandoned(t.ns, d)
  {
    hide Consistent, Present, Made, NamesFullDir, CreateResult, CanUnlink, UnlinkEnd;
    FirstNames();
    var r := t.Create(ROOT, "a", Dir, [true, true, true]);
    d := r.value;
    ghost var made := t.ns;
    ghost var k: nat :| CanCreate(Made(4), Dir, ROOT, k, d, "a") && made == CreateResult(Made(4), Dir, ROOT, k, d, "a");
    NewIsEmpty(d, k, made);
    var ok, f := t.Unlink(ROOT, "a", false);
    k :| CanUnlink(made, ROOT, k, f) && UnlinkEnd(made, ROOT, k, f, "a", false, t.ns);
    RemovedIsDead(made, d, k, f, t.ns);
  }

  /** create() in such a directory: the result is not a tree, whatever is taken to be pending. */
  method CreateInRemoved(t: Tree, kind: Kind) returns (d: nat, f: nat)
    requires t.Sound() && t.ns == Made(4) && kind != Free
    modifies t
    ensures forall pending, depth :: !Consistent(t.ns, pending, depth)
  {
    hide Consistent, Present, Made, CreateResult;
    d := MakeAndRemove(t);
    ghost var gone, pending0, depth0 := t.ns, t.pending, t.depth;
    var r := t.Create(d, "b", kind, [true, true, true]);
    f := r.value;
    ghost var k: nat :| CanCreate(gone, kind, d, k, f, "b") && t.ns == CreateResult(gone, kind, d, k, f, "b");
    forall pending, depth ensures !Consistent(t.ns, pending, depth) {
      CreateBreaks(gone, pending0, depth0, kind, d, k, f, "b", pending, depth);
    }
  }

  /** link() of a file of the root into such a directory: likewise. */
  method LinkInRemoved(t: Tree) returns (d: nat, f: nat)
    requires t.Sound() && t.ns == Made(4)
    modifies t
    ensures forall pending, depth :: !Consistent(t.ns, pending, depth)
  {
    hide Consistent, Present, Made, CreateResult, Shorts;
    d := MakeAndRemove(t);
    ghost var gone := t.ns;
    RootIsLinked(gone, t.pending, t.depth);
    var r := t.Create(ROOT, "f", File, [true, true, true]);
    f := r.value;
    ghost var k: nat :| CanCreate(gone, File, ROOT, k, f, "f") && t.ns == CreateResult(gone, File, ROOT, k, f, "f");
    StillAbandoned(gone, d, k, f, t.ns);
    var ok := t.LinkStart(f);
    ghost var before, pending0, depth0 := t.ns, t.pending, t.depth;
    ok := t.LinkFinish(f, Some(d), "b", true, false);
    k :| Vacant(before[d].entries, k) && t.ns == LinkResult(before, d, k, f, "b");
    forall pending, depth ensures !Consistent(t.ns, pending, depth) {
      LinkBreaks(before, pending0, depth0, d, k, f, "b", pending, depth);
    }
  }

  lemma RootIsLinked(ns: seq<Inode>, pending: seq<nat>, depth: seq<nat>)
    requires Consistent(ns, pending, depth)
    ensures Linked(ns, ROOT) && |ns| == |pending|
  {
  }

  /** Directory d has no links and only dots; the root has room for "f", and an inode is free. */
  ghost predicate Abandoned(ns: seq<Inode>, d: nat) {
    && |ns| == 4 && 2 <= d < 4 && ns[d] == Fresh(Dir, d, ROOT).(nlink := 0)
    && ns[5 - d].kind == Free && !Present(ns[d].entries, "b")
    && ns[ROOT].kind == Dir && !Present(ns[ROOT].entries, "f") && |ns[ROOT].entries| < MAXSLOTS
  }

  lemma StillAbandoned(gone: seq<Inode>, d: nat, k: nat, f: nat, ns: seq<Inode>)
    requires Abandoned(gone, d) && CanCreate(gone, File, ROOT, k, f, "f")
    requires ns == CreateResult(gone, File, ROOT, k, f, "f")
    ensures |ns| == 4 && f == 5 - d && ns[f] == Inode(File, 1, []) && ns[d] == gone[d]
  {
  }

  lemma FirstNames()
    ensures var ns := Made(4);
      && |ns| == 4 && ns[ROOT] == Root() && Linked(ns, ROOT) && ns[2].kind == Free && ns[3].kind == Free
      && |Root().entries| == SLOTS && !Present(Root().entries, "a") && !Present(Root().entries, "f")
  {
  }

  /** Directory d is new and empty, "a" in the root names it alone, and an inode is free. */
  ghost predicate OneNewDir(ns: seq<Inode>, d: nat) {
    && |ns| == 4 && 2 <= d < 4 && ns[5 - d] == UNUSED && ns[d] == Fresh(Dir, d, ROOT) && ns[ROOT].kind == Dir
    && ns[ROOT].nlink == 2 && Present(ns[ROOT].entries, "a") && !NamesFullDir(ns, ROOT, "a")
    && !Present(ns[ROOT].entries, "f") && |ns[ROOT].entries| < MAXSLOTS
    && forall k: nat :: InUse(ns, ROOT, k) && ns[ROOT].entries[k].name == "a" ==> ns[ROOT].entries[k].inum == d
  }

  lemma NewIsEmpty(d: nat, k: nat, made: seq<Inode>)
    requires CanCreate(Made(4), Dir, ROOT, k, d, "a") && made == CreateResult(Made(4), Dir, ROOT, k, d, "a")
    ensures OneNewDir(made, d)
  {
    FirstNames();
    assert made[ROOT].entries[k] == Dirent(d, "a");
  }

  lemma RemovedIsDead(made: seq<Inode>, d: nat, k: nat, i: nat, gone: seq<Inode>)
    requires OneNewDir(made, d) && CanUnlink(made, ROOT, k, i) && UnlinkEnd(made, ROOT, k, i, "a", false, gone)
    ensures Abandoned(gone, d)
  {
    assert i == d;
  }
}
