/** Directories as file content: struct dirent of kernel/fs.h, sixteen bytes to an entry, and
    what storing one into the file does to the entries. */
module DirFormat {
  import opened FsOps
  import opened Links

  const DIRSIZ := 14

  /** A path element as skipelem() cuts it: at most DIRSIZ bytes, none of them NUL. */
  predicate Legal(name: string) {
    0 < |name| <= DIRSIZ && forall i :: 0 <= i < |name| ==> 0 < name[i] as int < 0x100
  }

  /** strncpy(de.name, name, DIRSIZ). */
  function NameBytes(name: string): (b: seq<nat>)
    requires Legal(name)
    ensures |b| == DIRSIZ
  {
    seq(DIRSIZ, i requires 0 <= i => if i < |name| then name[i] as nat else 0)
  }

  /** de.inum, little-endian, and the name. */
  function Encode(inum: nat, name: string): (b: seq<nat>)
    requires inum < 0x1_0000 && Legal(name)
    ensures |b| == DIRENT
  {
    [inum % 0x100, inum / 0x100] + NameBytes(name)
  }

  /** Where the bytes of struct dirent are: inum low byte first, the name behind it, NULs. */
  lemma DirentBytes(inum: nat, name: string, i: nat)
    requires inum < 0x1_0000 && Legal(name) && i < DIRSIZ
    ensures var b := Encode(inum, name);
      && b[0] == inum % 0x100 && b[0] + 0x100 * b[1] == inum && b[1] < 0x100
      && b[2 + i] == if i < |name| then name[i] as nat else 0
  {
    assert Encode(inum, name)[2 + i] == NameBytes(name)[i];
  }

  /** Where a name ends: at the first NUL, or after DIRSIZ bytes. */
  function NameEnd(b: seq<nat>, i: nat): (n: nat)
    requires i <= |b|
    ensures i <= n <= |b|
    decreases |b| - i
  {
    if i == |b| || b[i] == 0 then i else NameEnd(b, i + 1)
  }

  function NameOf(b: seq<nat>): string {
    seq(NameEnd(b, 0), i requires 0 <= i < |b| => (b[i] % 0x100) as char)
  }

  function Decode(b: seq<nat>): (e: Dirent)
    requires |b| == DIRENT
  {
    Dirent(b[0] + 0x100 * b[1], NameOf(b[2..]))
  }

  lemma {:induction false} NameEndsAt(b: seq<nat>, i: nat, n: nat)
    requires i <= n <= |b| && (n < |b| ==> b[n] == 0) && forall k :: i <= k < n ==> b[k] != 0
    ensures NameEnd(b, i) == n
    decreases n - i
  {
    if i < n {
      NameEndsAt(b, i + 1, n);
    }
  }

  lemma NameRoundTrip(name: string)
    requires Legal(name)
    ensures NameOf(NameBytes(name)) == name
  {
    var b := NameBytes(name);
    NameEndsAt(b, 0, |name|);
    hide NameEnd;
    forall i | 0 <= i < |name| ensures NameOf(b)[i] == name[i] {
      assert b[i] == name[i] as nat;
    }
  }

  lemma DirentRoundTrip(inum: nat, name: string)
    requires inum < 0x1_0000 && Legal(name)
    ensures Decode(Encode(inum, name)) == Dirent(inum, name)
  {
    hide NameOf, NameBytes;
    NameRoundTrip(name);
    assert Encode(inum, name)[2..] == NameBytes(name);
  }

  /** sys_unlink's zeros make an empty slot. */
  lemma ZeroDirent()
    ensures Decode(NoEntry()) == EMPTY
  {
  }

  /** The entries of a directory whose content is c. */
  function Slots(c: seq<nat>): (es: seq<Dirent>)
    ensures |es| == |c| / DIRENT
  {
    seq(|c| / DIRENT, k requires 0 <= k < |c| / DIRENT => Decode(c[k * DIRENT..(k + 1) * DIRENT]))
  }

  /** Writing an entry at slot k of the file is placing it there. */
  lemma SlotsPut(c: seq<nat>, k: nat, de: seq<nat>)
    requires |c| % DIRENT == 0 && k <= |c| / DIRENT && |de| == DIRENT
    ensures var c' := Overwrite(c, k * DIRENT, de);
      |c'| % DIRENT == 0 && Slots(c') == Place(Slots(c), k, Decode(de))
  {
    hide Decode, Overwrite;
    OneLonger(c, k, de);
    var es, es' := Slots(c), Slots(Overwrite(c, k * DIRENT, de));
    forall j: nat | j < |es'| ensures es'[j] == Place(es, k, Decode(de))[j] {
      SlotPut(c, k, de, j);
    }
  }

  lemma OneLonger(c: seq<nat>, k: nat, de: seq<nat>)
    requires |c| % DIRENT == 0 && k <= |c| / DIRENT && |de| == DIRENT
    ensures var n, m := |c| / DIRENT, |Overwrite(c, k * DIRENT, de)|;
      m % DIRENT == 0 && m / DIRENT == if k == n then n + 1 else n
  {
    var n := |c| / DIRENT;
    assert |c| == n * DIRENT && |Overwrite(c, k * DIRENT, de)| == (if k == n then n + 1 else n) * DIRENT;
  }

  lemma SlotPut(c: seq<nat>, k: nat, de: seq<nat>, j: nat)
    requires |c| % DIRENT == 0 && k <= |c| / DIRENT && |de| == DIRENT
    requires j == k || j < |c| / DIRENT
    ensures j < |Slots(Overwrite(c, k * DIRENT, de))|
    ensures Slots(Overwrite(c, k * DIRENT, de))[j] == if j == k then Decode(de) else Slots(c)[j]
  {
    OneLonger(c, k, de);
    hide Decode, Overwrite;
    SliceAt(c, k, de, j);
  }

  lemma SliceAt(c: seq<nat>, k: nat, de: seq<nat>, j: nat)
    requires |de| == DIRENT && k * DIRENT <= |c| && (j == k || (j + 1) * DIRENT <= |c|)
    ensures (j + 1) * DIRENT <= |Overwrite(c, k * DIRENT, de)|
    ensures Overwrite(c, k * DIRENT, de)[j * DIRENT..(j + 1) * DIRENT] ==
            if j == k then de else c[j * DIRENT..(j + 1) * DIRENT]
  {
    var c', lo, hi := Overwrite(c, k * DIRENT, de), j * DIRENT, (j + 1) * DIRENT;
    var want := if j == k then de else c[lo..hi];
    forall i | 0 <= i < DIRENT ensures c'[lo..hi][i] == want[i] {
      assert c'[lo..hi][i] == c'[lo + i];
    }
  }

  /** The content of a new directory. */
  lemma SlotsDots(dot: seq<nat>, dotdot: seq<nat>)
    requires |dot| == |dotdot| == DIRENT
    ensures Slots(dot + dotdot) == [Decode(dot), Decode(dotdot)]
  {
    var c := dot + dotdot;
    assert c[0 * DIRENT..(0 + 1) * DIRENT] == dot && c[1 * DIRENT..(1 + 1) * DIRENT] == dotdot;
  }
}
