/** dirlookup and dirlink of fs.c, and unlink's erasing of an entry, on the bytes of a directory inode. */
module DirImpl {
  import opened FsModel
  import opened FsSteps
  import opened FsImpl
  import opened DirModel

  const T_DIR: int := 1

  ghost function Entries(fs: Fs, dp: Inode): (d: seq<Dirent>)
    requires dp.inum < |fs.ino|
    reads fs, dp
  {
    Decode(Content(fs.View(dp), dp.inum))
  }

  /** A directory inode in its resting state: whole entries, distinct names, and the disk copy up to date. */
  ghost predicate DirOk(fs: Fs, dp: Inode)
    reads fs, dp
  {
    && fs.Valid(dp) && HoleFree(fs.View(dp), dp.inum) && dp.d.typ == T_DIR && dp.d.size % DESIZE == 0
    && dp.d == fs.ino[dp.inum] && Unique(Entries(fs, dp))
  }

  lemma ReadEntry(s: seq<byte>, k: nat, piece: seq<byte>)
    requires DESIZE * k + DESIZE <= |s| && piece == s[DESIZE * k..DESIZE * k + DESIZE]
    ensures EntryAt(piece, 0) == Decode(s)[k]
  {
    assert piece[2..DESIZE] == s[DESIZE * k + 2..DESIZE * k + DESIZE];
  }

  /** readi() of one entry. */
  method ReadDirent(fs: Fs, dp: Inode, k: nat) returns (de: Dirent)
    requires DirOk(fs, dp) && DESIZE * k < dp.d.size
    modifies fs`blk, fs`bk, dp`d
    ensures dp.d == old(dp.d) && fs.blk == old(fs.blk) && fs.bk == old(fs.bk) && fs.View(dp) == old(fs.View(dp))
    ensures k < |Entries(fs, dp)| && de == Entries(fs, dp)[k]
  {
    ghost var v := fs.View(dp);
    var r, piece := fs.Readi(dp, DESIZE * k, DESIZE);
    assert fs.View(dp) == v;
    ReadEntry(Content(v, dp.inum), k, piece);
    de := EntryAt(piece, 0);
  }

  /** dirlookup(): the inode the map gives the name, with its entry's place, or 0. */
  method Dirlookup(fs: Fs, dp: Inode, name: Name) returns (inum: nat, k: nat)
    requires DirOk(fs, dp)
    modifies fs`blk, fs`bk, dp`d
    ensures dp.d == old(dp.d) && fs.blk == old(fs.blk) && fs.bk == old(fs.bk) && fs.View(dp) == old(fs.View(dp))
    ensures inum == 0 <==> Cut(name) !in Names(Entries(fs, dp))
    ensures inum != 0 ==> inum == Names(Entries(fs, dp))[Cut(name)]
    ensures inum != 0 ==> k < |Entries(fs, dp)| && Live(Entries(fs, dp), k) && Cut(Entries(fs, dp)[k].name) == Cut(name)
  {
    ghost var v := fs.View(dp);
    ghost var d := Entries(fs, dp);
    k := 0;
    while DESIZE * k < dp.d.size
      invariant dp.d == old(dp.d) && fs.blk == old(fs.blk) && fs.bk == old(fs.bk) && fs.View(dp) == v
      invariant k <= |d| && Lookup(d, name, 0) == Lookup(d, name, k)
      decreases |d| - k
    {
      inum := Match(fs, dp, k, name);
      if inum != 0 {
        LookupSpec(d, name);
        return;
      }
      k := k + 1;
    }
    LookupSpec(d, name);
    return 0, 0;
  }

  /** Entry k's inode if it is live and has the name, or 0. */
  method Match(fs: Fs, dp: Inode, k: nat, name: Name) returns (inum: nat)
    requires DirOk(fs, dp) && DESIZE * k < dp.d.size
    modifies fs`blk, fs`bk, dp`d
    ensures dp.d == old(dp.d) && fs.blk == old(fs.blk) && fs.bk == old(fs.bk) && fs.View(dp) == old(fs.View(dp))
    ensures k < |Entries(fs, dp)|
    ensures inum != 0 <==> Live(Entries(fs, dp), k) && Cut(name) == Cut(Entries(fs, dp)[k].name)
    ensures inum != 0 ==> inum == Entries(fs, dp)[k].inum
  {
    var de := ReadDirent(fs, dp, k);
    inum := 0;
    if de.inum != 0 {
      var c := Namecmp(name, de.name);
      if c == 0 { inum := de.inum; }
    }
  }

  /** writei() of one entry, at a place in the directory or behind its end. */
  method WriteDirent(fs: Fs, dp: Inode, k: nat, de: Dirent) returns (r: int, ok: bool)
    requires DirOk(fs, dp) && DESIZE * k <= dp.d.size && de.inum < 0x1_0000 && |de.name| == DIRSIZ
    requires Unique(Put(Entries(fs, dp), k, de))
    modifies fs`blk, fs`bk, fs`ino, dp`d
    ensures r == DESIZE || r == -1
    ensures r == -1 ==> ok && DESIZE * k + DESIZE > MAXFILE * BSIZE
    ensures !ok ==> fs.Full() && DESIZE * k == old(dp.d.size)
    ensures ok && r != -1 ==> DirOk(fs, dp) && Entries(fs, dp) == old(Put(Entries(fs, dp), k, de))
    ensures ok && r != -1 ==> OthersSame(old(fs.View(dp)), fs.View(dp), dp.inum)
    ensures ok && r != -1 ==> dp.d == old(dp.d).(size := dp.d.size, addrs := dp.d.addrs)
  {
    ghost var s := Content(fs.View(dp), dp.inum);
    var w := Encode(de);
    assert w[..DESIZE] == w;
    r, ok := fs.Writei(dp, w, DESIZE * k, DESIZE);
    if ok && r != -1 { Spliced(s, k, de, w, Content(fs.View(dp), dp.inum)); }
  }

  lemma Spliced(s: seq<byte>, k: nat, de: Dirent, w: seq<byte>, c: seq<byte>)
    requires |s| % DESIZE == 0 && DESIZE * k <= |s| && de.inum < 0x1_0000 && |de.name| == DIRSIZ
    requires w == Encode(de) && c == Splice(s, DESIZE * k, w)
    ensures |c| % DESIZE == 0 && Decode(c) == Put(Decode(s), k, de)
  {
    SpliceEntry(s, k, de);
  }

  /** The second loop of dirlink: the first empty entry, or the end of the directory. */
  method FindEmpty(fs: Fs, dp: Inode) returns (k: nat)
    requires DirOk(fs, dp)
    modifies fs`blk, fs`bk, dp`d
    ensures dp.d == old(dp.d) && fs.blk == old(fs.blk) && fs.bk == old(fs.bk) && fs.View(dp) == old(fs.View(dp))
    ensures k == FreeSlot(Entries(fs, dp), 0)
  {
    ghost var v := fs.View(dp);
    ghost var d := Entries(fs, dp);
    ghost var goal := FreeSlot(d, 0);
    k := 0;
    while DESIZE * k < dp.d.size
      invariant dp.d == old(dp.d) && fs.blk == old(fs.blk) && fs.bk == old(fs.bk) && fs.View(dp) == v
      invariant k <= |d| && FreeSlot(d, k) == goal
      decreases |d| - k
    {
      var de := ReadDirent(fs, dp, k);
      var next := k + 1;
      SlotStep(d, k, next);
      if de.inum == 0 { return; }
      k := next;
    }
    assert k == |d|;
  }

  lemma SlotStep(d: seq<Dirent>, k: nat, next: nat)
    requires k < |d| && next == k + 1
    ensures FreeSlot(d, k) == if Live(d, k) then FreeSlot(d, next) else k
  {
  }

  /** The map with a name added; inode numbers are 16 bits, and 0 is no entry. */
  function Linked(m: map<Name, nat>, name: Name, inum: nat): (r: map<Name, nat>) {
    if inum % 0x1_0000 == 0 then m else m[Cut(name) := inum % 0x1_0000]
  }

  /** e is d with an entry put into its first empty place. */
  ghost predicate Filled(d: seq<Dirent>, e: seq<Dirent>) {
    |e| > FreeSlot(d, 0) && e == Put(d, FreeSlot(d, 0), e[FreeSlot(d, 0)])
  }

  /** dirlink(): refused exactly when the map has the name; otherwise the map gains it. !ok stands for a panic. */
  method Dirlink(fs: Fs, dp: Inode, name: Name, inum: nat) returns (r: int, ok: bool)
    requires DirOk(fs, dp)
    modifies fs`blk, fs`bk, fs`ino, dp`d
    ensures r == 0 || r == -1
    ensures r == -1 <==> Cut(name) in old(Names(Entries(fs, dp)))
    ensures r == -1 ==> ok && dp.d == old(dp.d) && fs.blk == old(fs.blk) && fs.ino == old(fs.ino) && fs.bk == old(fs.bk)
    ensures r == 0 && ok ==> DirOk(fs, dp) && OthersSame(old(fs.View(dp)), fs.View(dp), dp.inum)
    ensures r == 0 && ok ==> dp.d == old(dp.d).(size := dp.d.size, addrs := dp.d.addrs)
    ensures r == 0 && ok ==> Names(Entries(fs, dp)) == Linked(old(Names(Entries(fs, dp))), name, inum)
    ensures r == 0 && ok ==> Filled(old(Entries(fs, dp)), Entries(fs, dp))
    ensures !ok ==> fs.Full() || old(dp.d.size) + DESIZE > MAXFILE * BSIZE
  {
    ghost var v := fs.View(dp);
    ghost var d := Entries(fs, dp);
    var found, at := Dirlookup(fs, dp, name);
    if found != 0 { return -1, true; }
    var k := FindEmpty(fs, dp);
    PutSpec(d, k, name, inum % 0x1_0000);
    var w;
    w, ok := WriteDirent(fs, dp, k, Dirent(inum % 0x1_0000, Field(name)));
    r := 0;
    if w != DESIZE { ok := false; }
  }

  /** The entry unlink writes: all zero. */
  function Blankent(): (de: Dirent)
    ensures de.inum == 0 && |de.name| == DIRSIZ
  {
    Dirent(0, seq<byte>(DIRSIZ, _ => 0))
  }

  /** unlink's erasing of the entry found at k: the map loses its name. */
  method Erase(fs: Fs, dp: Inode, k: nat)
    requires DirOk(fs, dp) && k < |Entries(fs, dp)| && Live(Entries(fs, dp), k)
    modifies fs`blk, fs`bk, fs`ino, dp`d
    ensures DirOk(fs, dp) && OthersSame(old(fs.View(dp)), fs.View(dp), dp.inum)
    ensures dp.d == old(dp.d).(size := dp.d.size, addrs := dp.d.addrs)
    ensures Names(Entries(fs, dp)) == old(Names(Entries(fs, dp)) - {Cut(Entries(fs, dp)[k].name)})
    ensures Entries(fs, dp) == old(Entries(fs, dp))[k := Blankent()]
  {
    EraseSpec(Entries(fs, dp), k, Blankent());
    var r, ok := WriteDirent(fs, dp, k, Blankent());
  }

  const DOT: Name := [46]
  const DOTDOT: Name := [46, 46]

  /** The first two entries are "." and "..". */
  ghost predicate HasDots(d: seq<Dirent>) {
    |d| >= 2 && Live(d, 0) && Live(d, 1) && Cut(d[0].name) == DOT && Cut(d[1].name) == DOTDOT
  }

  ghost predicate NoneFrom(d: seq<Dirent>, k: nat) {
    forall j: nat :: 2 <= j < k && j < |d| ==> !Live(d, j)
  }

  ghost predicate Only(m: map<Name, nat>, a: Name, b: Name) {
    forall s :: s in m ==> s == a || s == b
  }

  lemma OnlyNone(d: seq<Dirent>, a: Name, b: Name, j: nat)
    requires Unique(d) && |d| >= 2 && Live(d, 0) && Live(d, 1) && a == Cut(d[0].name) && b == Cut(d[1].name)
    requires Only(Names(d), a, b) && 2 <= j < |d|
    ensures !Live(d, j)
  {
    NamesSpec(d);
    assert Names1(d, Names(d), j);
    assert NamesDiffer(d, 0, j) && NamesDiffer(d, 1, j);
  }

  lemma NoneOnly(d: seq<Dirent>, a: Name, b: Name, s: Name)
    requires Unique(d) && |d| >= 2 && a == Cut(d[0].name) && b == Cut(d[1].name) && NoneFrom(d, |d|) && s in Names(d)
    ensures s == a || s == b
  {
    NamesSpec(d);
    assert HasEntry(d, s);
    var k: nat :| k < |d| && Live(d, k) && Cut(d[k].name) == s;
    assert !(2 <= k);
    if k == 0 { assert s == a; } else { assert k == 1 && s == b; }
  }

  /** With two live entries in front, no live entry behind them means that the map has their names alone. */
  lemma EmptyMap(d: seq<Dirent>, a: Name, b: Name)
    requires Unique(d) && |d| >= 2 && Live(d, 0) && Live(d, 1) && a == Cut(d[0].name) && b == Cut(d[1].name)
    ensures NoneFrom(d, |d|) <==> Only(Names(d), a, b)
  {
    if Only(Names(d), a, b) {
      forall j: nat | 2 <= j < |d| ensures !Live(d, j) { OnlyNone(d, a, b, j); }
    }
    if NoneFrom(d, |d|) {
      forall s | s in Names(d) ensures s == a || s == b { NoneOnly(d, a, b, s); }
    }
  }

  lemma NoneNext(d: seq<Dirent>, k: nat, next: nat)
    requires NoneFrom(d, k) && next == k + 1 && (k < |d| ==> !Live(d, k))
    ensures NoneFrom(d, next)
  {
  }

  /** isdirempty(): the loop starts behind the two dot entries. */
  method Isdirempty(fs: Fs, dp: Inode) returns (r: bool)
    requires DirOk(fs, dp) && HasDots(Entries(fs, dp))
    modifies fs`blk, fs`bk, dp`d
    ensures dp.d == old(dp.d) && fs.blk == old(fs.blk) && fs.bk == old(fs.bk) && fs.View(dp) == old(fs.View(dp))
    ensures r <==> Only(Names(Entries(fs, dp)), DOT, DOTDOT)
  {
    ghost var v := fs.View(dp);
    ghost var d := Entries(fs, dp);
    EmptyMap(d, DOT, DOTDOT);
    var k := 2;
    while DESIZE * k < dp.d.size
      invariant dp.d == old(dp.d) && fs.blk == old(fs.blk) && fs.bk == old(fs.bk) && fs.View(dp) == v
      invariant 2 <= k <= |d| && NoneFrom(d, k)
      decreases |d| - k
    {
      var de := ReadDirent(fs, dp, k);
      if de.inum != 0 {
        assert Live(d, k) && !NoneFrom(d, |d|);
        return false;
      }
      var next := k + 1;
      NoneNext(d, k, next);
      k := next;
    }
    assert k == |d|;
    return true;
  }
}
