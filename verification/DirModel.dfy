/** Directories of fs.c: 16-byte entries in a file's bytes, and the finite map from names they stand for. */
module DirModel {
  import opened FsModel
  import opened FsImpl

  const DIRSIZ: nat := 14
  const DESIZE: nat := 16

  /** A name as the kernel passes it: its bytes, without the terminator. */
  type Name = seq<byte>

  datatype Dirent = Dirent(inum: nat, name: seq<byte>)

  // ---------------------------------------------------------------- names

  /** Byte i of a string, reading the terminator at its end. */
  function At(s: Name, i: nat): (b: byte) { if i < |s| then s[i] else 0 }

  /** Where s ends for strncmp with DIRSIZ: at a NUL or after DIRSIZ bytes. */
  function CutLen(s: Name, k: nat): (n: nat)
    requires k <= DIRSIZ && k <= |s|
    ensures k <= n <= DIRSIZ && n <= |s| && (n < DIRSIZ ==> At(s, n) == 0)
    decreases DIRSIZ - k
  {
    if k == DIRSIZ || At(s, k) == 0 then k else CutLen(s, k + 1)
  }

  /** The name a directory distinguishes: cut at a NUL and to DIRSIZ bytes. */
  function Cut(s: Name): (r: Name) { s[..CutLen(s, 0)] }

  lemma {:induction false} CutLenAfter(s: Name, k: nat, i: nat)
    requires k <= i <= DIRSIZ && i <= |s| && forall j :: k <= j < i ==> At(s, j) != 0
    ensures CutLen(s, k) == CutLen(s, i)
    decreases i - k
  {
    if k < i { CutLenAfter(s, k + 1, i); }
  }

  /** namecmp() is strncmp over DIRSIZ bytes: zero exactly for names that are equal when cut. */
  method Namecmp(p: Name, q: Name) returns (r: int)
    ensures r == 0 <==> Cut(p) == Cut(q)
  {
    var i := 0;
    while i < DIRSIZ && At(p, i) != 0 && At(p, i) == At(q, i)
      invariant i <= DIRSIZ && i <= |p| && i <= |q|
      invariant forall j :: 0 <= j < i ==> At(p, j) == At(q, j) && At(p, j) != 0
    {
      i := i + 1;
    }
    r := if i == DIRSIZ then 0 else At(p, i) as int - At(q, i) as int;
    Compared(p, q, i);
  }

  /** Where strncmp stops decides whether the cut names are equal. */
  lemma Compared(p: Name, q: Name, i: nat)
    requires i <= DIRSIZ && i <= |p| && i <= |q|
    requires forall j :: 0 <= j < i ==> At(p, j) == At(q, j) && At(p, j) != 0
    requires i == DIRSIZ || At(p, i) == 0 || At(p, i) != At(q, i)
    ensures (i == DIRSIZ || At(p, i) == At(q, i)) <==> Cut(p) == Cut(q)
  {
    CutLenAfter(p, 0, i);
    CutLenAfter(q, 0, i);
    if i == DIRSIZ || At(p, i) == At(q, i) {
      SamePrefix(p, q, i);
      assert Cut(p) == p[..i] && Cut(q) == q[..i];
    } else {
      CutDiffer(p, q, i);
    }
  }

  lemma SamePrefix(p: Name, q: Name, i: nat)
    requires i <= |p| && i <= |q| && forall j :: 0 <= j < i ==> At(p, j) == At(q, j)
    ensures p[..i] == q[..i]
  {
    forall j | 0 <= j < i ensures p[j] == q[j] { assert At(p, j) == At(q, j); }
  }

  lemma CutDiffer(p: Name, q: Name, i: nat)
    requires i < DIRSIZ && i <= |p| && i <= |q| && At(p, i) != At(q, i)
    requires CutLen(p, 0) == CutLen(p, i) && CutLen(q, 0) == CutLen(q, i)
    ensures Cut(p) != Cut(q)
  {
    if At(p, i) == 0 {
      assert |Cut(p)| == i < |Cut(q)|;
    } else if At(q, i) == 0 {
      assert |Cut(q)| == i < |Cut(p)|;
    } else {
      assert Cut(p)[i] != Cut(q)[i];
    }
  }

  /** The name field strncpy fills: the name cut to DIRSIZ bytes, padded with NULs. */
  function Field(s: Name): (f: seq<byte>)
    ensures |f| == DIRSIZ
  {
    Cut(s) + seq<byte>(DIRSIZ - |Cut(s)|, _ => 0)
  }

  lemma CutFirst(s: Name, n: nat)
    requires n <= DIRSIZ && n <= |s| && (forall j :: 0 <= j < n ==> s[j] != 0) && (n < DIRSIZ ==> At(s, n) == 0)
    ensures Cut(s) == s[..n]
  {
    CutLenAfter(s, 0, n);
  }

  lemma {:induction false} CutNonzero(s: Name, k: nat)
    requires k <= DIRSIZ && k <= |s|
    ensures forall j :: k <= j < CutLen(s, k) ==> s[j] != 0
    decreases DIRSIZ - k
  {
    if k < DIRSIZ && At(s, k) != 0 { CutNonzero(s, k + 1); }
  }

  /** What strncpy stored reads back as the cut name. */
  lemma FieldCut(s: Name)
    ensures Cut(Field(s)) == Cut(s)
  {
    CutNonzero(s, 0);
    CutFirst(Field(s), |Cut(s)|);
  }

  // -------------------------------------------------------------- entries

  function Encode(de: Dirent): (r: seq<byte>)
    requires de.inum < 0x1_0000 && |de.name| == DIRSIZ
    ensures |r| == DESIZE
  {
    [de.inum % 256, de.inum / 256] + de.name
  }

  function EntryAt(s: seq<byte>, k: nat): (de: Dirent)
    requires DESIZE * k + DESIZE <= |s|
    ensures de.inum < 0x1_0000 && |de.name| == DIRSIZ
  {
    var b0: nat, b1: nat := s[DESIZE * k], s[DESIZE * k + 1];
    Dirent(b0 + 256 * b1, s[DESIZE * k + 2..DESIZE * k + DESIZE])
  }

  /** A directory's bytes as entries. */
  function Decode(s: seq<byte>): (d: seq<Dirent>)
    ensures |d| == |s| / DESIZE && forall k :: 0 <= k < |d| ==> d[k] == EntryAt(s, k)
  {
    seq(|s| / DESIZE, k requires 0 <= k < |s| / DESIZE => EntryAt(s, k))
  }

  lemma EncodeDecode(de: Dirent)
    requires de.inum < 0x1_0000 && |de.name| == DIRSIZ
    ensures EntryAt(Encode(de), 0) == de
  {
    assert Encode(de)[2..16] == de.name;
  }

  /** Writing an entry in place, or behind the last one. */
  lemma SpliceEntry(s: seq<byte>, k: nat, de: Dirent)
    requires |s| % DESIZE == 0 && DESIZE * k <= |s| && de.inum < 0x1_0000 && |de.name| == DIRSIZ
    ensures var t := Splice(s, DESIZE * k, Encode(de));
      |t| % DESIZE == 0 && Decode(t) == if k < |Decode(s)| then Decode(s)[k := de] else Decode(s) + [de]
  {
    var t := Splice(s, DESIZE * k, Encode(de));
    ReadBack(s, DESIZE * k, Encode(de));
    EncodeDecode(de);
    forall j | 0 <= j < |Decode(t)| && j != k ensures Decode(t)[j] == EntryAt(s, j) {
      assert t[DESIZE * j + 2..DESIZE * j + DESIZE] == s[DESIZE * j + 2..DESIZE * j + DESIZE];
    }
    if k < |Decode(t)| {
      assert t[DESIZE * k..DESIZE * k + DESIZE] == Encode(de);
      assert t[DESIZE * k + 2..DESIZE * k + DESIZE] == t[DESIZE * k..DESIZE * k + DESIZE][2..DESIZE];
    }
  }

  // ------------------------------------------------------------------ map

  predicate Live(d: seq<Dirent>, k: nat)
    requires k < |d|
  {
    d[k].inum != 0
  }

  ghost predicate NamesDiffer(d: seq<Dirent>, i: nat, j: nat)
    requires i < |d| && j < |d|
  {
    Live(d, i) && Live(d, j) ==> Cut(d[i].name) != Cut(d[j].name)
  }

  /** No two live entries have the same name. */
  ghost predicate Unique(d: seq<Dirent>) {
    forall i: nat, j: nat :: i < j < |d| ==> NamesDiffer(d, i, j)
  }

  /** The map from names to inode numbers that the entries stand for. */
  function Names(d: seq<Dirent>): (m: map<Name, nat>) {
    if d == [] then map[]
    else
      var n := |d| - 1;
      if d[n].inum == 0 then Names(d[..n]) else Names(d[..n])[Cut(d[n].name) := d[n].inum]
  }

  ghost predicate Names1(d: seq<Dirent>, m: map<Name, nat>, k: nat)
    requires k < |d|
  {
    Live(d, k) ==> Cut(d[k].name) in m && m[Cut(d[k].name)] == d[k].inum
  }

  ghost predicate HasEntry(d: seq<Dirent>, s: Name) {
    exists k: nat :: k < |d| && Live(d, k) && Cut(d[k].name) == s
  }

  /** On unique names, the map holds exactly the live entries. */
  lemma {:induction false} NamesSpec(d: seq<Dirent>)
    requires Unique(d)
    ensures forall k: nat :: k < |d| ==> Names1(d, Names(d), k)
    ensures forall s :: s in Names(d) ==> HasEntry(d, s)
    decreases |d|
  {
    if d != [] {
      var n := |d| - 1;
      var c := d[..n];
      forall i: nat, j: nat | i < j < |c| ensures NamesDiffer(c, i, j) { assert NamesDiffer(d, i, j); }
      NamesSpec(c);
      forall k: nat | k < |d| ensures Names1(d, Names(d), k) {
        if k < n { assert Names1(c, Names(c), k) && NamesDiffer(d, k, n); }
      }
      forall s | s in Names(d) ensures HasEntry(d, s) {
        if Live(d, n) && s == Cut(d[n].name) {
        } else {
          assert HasEntry(c, s);
          var k: nat :| k < |c| && Live(c, k) && Cut(c[k].name) == s;
          assert d[k] == c[k];
        }
      }
    }
  }

  /** A map with the right entries is the map. */
  lemma NamesAre(d: seq<Dirent>, m: map<Name, nat>)
    requires Unique(d) && (forall k: nat :: k < |d| ==> Names1(d, m, k)) && forall s :: s in m ==> HasEntry(d, s)
    ensures Names(d) == m
  {
    NamesSpec(d);
    forall s ensures (s in m <==> s in Names(d)) && (s in m ==> m[s] == Names(d)[s]) {
      if HasEntry(d, s) {
        var k: nat :| k < |d| && Live(d, k) && Cut(d[k].name) == s;
        assert Names1(d, m, k) && Names1(d, Names(d), k);
      }
    }
  }

  // ----------------------------------------------------------- operations

  /** The first live entry with this name, or -1. */
  function Lookup(d: seq<Dirent>, name: Name, k: nat): (r: int)
    requires k <= |d|
    ensures -1 <= r < |d|
    decreases |d| - k
  {
    if k == |d| then -1
    else if Live(d, k) && Cut(name) == Cut(d[k].name) then k
    else Lookup(d, name, k + 1)
  }

  lemma {:induction false} LookupFrom(d: seq<Dirent>, name: Name, k: nat)
    requires k <= |d|
    ensures var r := Lookup(d, name, k);
      if r == -1 then forall j: nat :: k <= j < |d| && Live(d, j) ==> Cut(d[j].name) != Cut(name)
      else r >= k && Live(d, r) && Cut(d[r].name) == Cut(name)
    decreases |d| - k
  {
    if k < |d| && !(Live(d, k) && Cut(name) == Cut(d[k].name)) { LookupFrom(d, name, k + 1); }
  }

  /** dirlookup finds a name exactly when the map has it, and then the map's inode. */
  lemma LookupSpec(d: seq<Dirent>, name: Name)
    requires Unique(d)
    ensures var r := Lookup(d, name, 0);
      (r != -1 <==> Cut(name) in Names(d)) && (r != -1 ==> d[r].inum == Names(d)[Cut(name)])
  {
    LookupFrom(d, name, 0);
    NamesSpec(d);
    var r := Lookup(d, name, 0);
    if r != -1 { assert Names1(d, Names(d), r); }
    if Cut(name) in Names(d) { assert HasEntry(d, Cut(name)); }
  }

  /** The first empty entry, or the end. */
  function FreeSlot(d: seq<Dirent>, k: nat): (r: nat)
    requires k <= |d|
    ensures k <= r <= |d| && (r < |d| ==> !Live(d, r))
    decreases |d| - k
  {
    if k == |d| || !Live(d, k) then k else FreeSlot(d, k + 1)
  }

  function Put(d: seq<Dirent>, k: nat, de: Dirent): (r: seq<Dirent>)
    requires k <= |d|
    ensures |r| >= |d| && k < |r| && r[k] == de && forall j :: 0 <= j < |r| && j != k ==> j < |d| && r[j] == d[j]
  {
    if k < |d| then d[k := de] else d + [de]
  }

  /** Filling an empty slot adds one name to the map; an inum that is 0 in 16 bits adds none. */
  lemma PutSpec(d: seq<Dirent>, k: nat, name: Name, inum: nat)
    requires Unique(d) && k <= |d| && (k < |d| ==> !Live(d, k)) && Cut(name) !in Names(d)
    ensures var r := Put(d, k, Dirent(inum, Field(name)));
      Unique(r) && Names(r) == if inum == 0 then Names(d) else Names(d)[Cut(name) := inum]
  {
    var r := Put(d, k, Dirent(inum, Field(name)));
    FieldCut(name);
    NamesSpec(d);
    forall i: nat, j: nat | i < j < |r| ensures NamesDiffer(r, i, j) {
      if i != k && j != k { assert NamesDiffer(d, i, j); }
      if i != k { assert Names1(d, Names(d), i); }
      if j != k { assert Names1(d, Names(d), j); }
    }
    var m := if inum == 0 then Names(d) else Names(d)[Cut(name) := inum];
    forall i: nat | i < |r| ensures Names1(r, m, i) { if i != k { assert Names1(d, Names(d), i); } }
    forall s | s in m ensures HasEntry(r, s) {
      if inum != 0 && s == Cut(name) { assert Live(r, k); } else {
        assert HasEntry(d, s);
        var i: nat :| i < |d| && Live(d, i) && Cut(d[i].name) == s;
        assert r[i] == d[i];
      }
    }
    NamesAre(r, m);
  }

  /** Zeroing the entry of a name removes that name from the map. */
  lemma EraseSpec(d: seq<Dirent>, k: nat, de: Dirent)
    requires Unique(d) && k < |d| && Live(d, k) && de.inum == 0
    ensures Unique(d[k := de]) && Names(d[k := de]) == Names(d) - {Cut(d[k].name)}
  {
    var r, m := d[k := de], Names(d) - {Cut(d[k].name)};
    NamesSpec(d);
    forall i: nat, j: nat | i < j < |r| ensures NamesDiffer(r, i, j) { assert NamesDiffer(d, i, j); }
    forall i: nat | i < |r| ensures Names1(r, m, i) {
      assert Names1(d, Names(d), i);
      if i < k { assert NamesDiffer(d, i, k); } else if k < i { assert NamesDiffer(d, k, i); }
    }
    forall s | s in m ensures HasEntry(r, s) {
      assert HasEntry(d, s);
      var i: nat :| i < |d| && Live(d, i) && Cut(d[i].name) == s;
      assert r[i] == d[i];
    }
    NamesAre(r, m);
  }
}
