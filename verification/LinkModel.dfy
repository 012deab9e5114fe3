/**
  Link counts and the shape of the directory tree under create, link, unlink
  and the final iput of sysfile.c and fs.c.  Directories are the finite maps
  of DirModel; a path has already been resolved to a directory and a name.
 */
module LinkModel {
  import F = FsModel

  const T_DIR: int := 1
  const T_FILE: int := 2
  const ROOT: nat := 1

  /** A name in a directory: ".", ".." or any other. */
  datatype Name = Dot | DotDot | Word(text: seq<F.byte>)

  datatype Key = Key(dir: nat, name: Name)

  datatype Node = Node(typ: int, nlink: int)

  /** ent maps directory and name to an inode; place remembers the name of a directory in its parent. */
  datatype Tree = Tree(ino: seq<Node>, ent: map<Key, nat>, place: map<nat, Name>)

  predicate IsDir(s: Tree, d: nat) { d < |s.ino| && s.ino[d].typ == T_DIR }

  /** A directory that some entry of another linked directory (or the root) still reaches. */
  predicate Linked(s: Tree, d: nat) { IsDir(s, d) && s.ino[d].nlink >= 1 }

  /** Entry k counts for inode i: it names i, is not ".", and lies in a linked directory. */
  predicate Counts(s: Tree, i: nat, k: Key) { k in s.ent && k.name != Dot && Linked(s, k.dir) && s.ent[k] == i }

  /** The entries other than "." that name inode i in linked directories. */
  function Naming(s: Tree, i: nat): (r: set<Key>) {
    set k | k in s.ent && Counts(s, i, k)
  }

  predicate Dotty(x: Name) { !x.Word? }

  // ------------------------------------------------------------ invariant

  ghost predicate CountOk(s: Tree, i: nat)
    requires i < |s.ino|
  {
    s.ino[i].nlink == |Naming(s, i)| && (s.ino[i].typ == 0 ==> s.ino[i].nlink == 0)
  }

  ghost predicate EntryOk(s: Tree, k: Key)
    requires k in s.ent
  {
    && IsDir(s, k.dir) && s.ent[k] < |s.ino| && (if Linked(s, k.dir) then s.ino[s.ent[k]].typ != 0 else Dotty(k.name))
    && (!Dotty(k.name) && Linked(s, k.dir) && IsDir(s, s.ent[k]) ==>
          Linked(s, s.ent[k]) && s.ent[k] != ROOT &&
          Key(s.ent[k], DotDot) in s.ent && s.ent[Key(s.ent[k], DotDot)] == k.dir &&
          s.ent[k] in s.place && s.place[s.ent[k]] == k.name)
  }

  ghost predicate DirOk(s: Tree, d: nat)
    requires Linked(s, d)
  {
    && Key(d, Dot) in s.ent && s.ent[Key(d, Dot)] == d && Key(d, DotDot) in s.ent
    && (d != ROOT ==>
          var p := s.ent[Key(d, DotDot)];
          Linked(s, p) && d in s.place && !Dotty(s.place[d]) &&
          Key(p, s.place[d]) in s.ent && s.ent[Key(p, s.place[d])] == d)
  }

  ghost predicate Dots(s: Tree, d: nat) { Key(d, Dot) in s.ent && Key(d, DotDot) in s.ent }

  /** Every inode's link count is the number of entries that name it. */
  ghost predicate Counted(s: Tree) { forall i: nat :: i < |s.ino| ==> CountOk(s, i) }

  ghost predicate Inv(s: Tree) {
    && Linked(s, ROOT) && Key(ROOT, DotDot) in s.ent && s.ent[Key(ROOT, DotDot)] == ROOT
    && Counted(s)
    && (forall k {:trigger EntryOk(s, k)} :: k in s.ent ==> EntryOk(s, k))
    && (forall d: nat {:trigger DirOk(s, d)} :: Linked(s, d) ==> DirOk(s, d))
    && (forall d: nat {:trigger Dots(s, d)} :: IsDir(s, d) ==> Dots(s, d))
  }

  // ---------------------------------------------------------------- steps

  datatype Event =
    | Create(dp: nat, name: Name, typ: int, ip: nat)
    | Link(ip: nat, dp: nat, name: Name)
    | LinkNowhere(ip: nat)
    | Unlink(dp: nat, name: Name)
    | Free(ip: nat)

  function Bump(s: Tree, i: nat, n: int): (r: Tree)
    requires i < |s.ino|
  {
    s.(ino := s.ino[i := s.ino[i].(nlink := s.ino[i].nlink + n)])
  }

  /** isdirempty: nothing but the two dot entries. */
  predicate Empty(ent: map<Key, nat>, d: nat) {
    forall k :: k in ent && k.dir == d ==> Dotty(k.name)
  }

  /** sys_link's success path. */
  function DoLink(s: Tree, ip: nat, dp: nat, name: Name): (r: Tree)
    requires ip < |s.ino|
  {
    var t := Bump(s, ip, 1);
    t.(ent := t.ent[Key(dp, name) := ip])
  }

  /** sys_unlink once it has found an entry it may remove. */
  function DoUnlink(s: Tree, dp: nat, name: Name): (r: Tree)
    requires Key(dp, name) in s.ent && s.ent[Key(dp, name)] < |s.ino| && dp < |s.ino|
  {
    var ip := s.ent[Key(dp, name)];
    var t := s.(ent := s.ent - {Key(dp, name)});
    var u := if s.ino[ip].typ == T_DIR then Bump(t, dp, -1) else t;
    Bump(u, ip, -1)
  }

  /** create of a new inode ip. */
  function DoCreate(s: Tree, dp: nat, name: Name, typ: int, ip: nat): (r: Tree)
    requires ip < |s.ino| && dp < |s.ino|
  {
    var t := s.(ino := s.ino[ip := Node(typ, 1)]);
    var u := if typ == T_DIR
             then Bump(t, dp, 1).(ent := t.ent[Key(ip, Dot) := ip][Key(ip, DotDot) := dp], place := t.place[ip := name])
             else t;
    u.(ent := u.ent[Key(dp, name) := ip])
  }

  function DoFree(s: Tree, ip: nat): (r: Tree)
    requires ip < |s.ino|
  {
    s.(ino := s.ino[ip := s.ino[ip].(typ := 0)], ent := map k | k in s.ent && k.dir != ip :: s.ent[k])
  }

  /** What path resolution and ialloc give the calls: a directory, linked or not, and an inode in use or a free one. */
  ghost predicate Enabled(s: Tree, e: Event) {
    match e
    case Create(dp, name, typ, ip) =>
      IsDir(s, dp) && typ != 0 && ip < |s.ino| && s.ino[ip].typ == 0
    case Link(ip, dp, name) => ip < |s.ino| && s.ino[ip].typ != 0 && IsDir(s, dp)
    case LinkNowhere(ip) => ip < |s.ino| && s.ino[ip].typ != 0
    case Unlink(dp, name) => IsDir(s, dp)
    case Free(ip) => ip < |s.ino| && s.ino[ip].typ != 0 && s.ino[ip].nlink == 0
  }

  ghost function Next(s: Tree, e: Event): (r: Tree)
    requires Enabled(s, e)
  {
    match e
    case Create(dp, name, typ, ip) => if Key(dp, name) in s.ent then s else DoCreate(s, dp, name, typ, ip)
    case Link(ip, dp, name) =>
      if s.ino[ip].typ == T_DIR then s
      else if Key(dp, name) in s.ent then Bump(Bump(s, ip, 1), ip, -1)
      else DoLink(s, ip, dp, name)
    case LinkNowhere(ip) => if s.ino[ip].typ == T_DIR then s else Bump(Bump(s, ip, 1), ip, -1)
    case Unlink(dp, name) =>
      if Dotty(name) || Key(dp, name) !in s.ent || s.ent[Key(dp, name)] >= |s.ino| then s
      else
        var ip := s.ent[Key(dp, name)];
        if s.ino[ip].typ == T_DIR && !Empty(s.ent, ip) then s else DoUnlink(s, dp, name)
    case Free(ip) => DoFree(s, ip)
  }

  /** The hypothesis on calls: an entry is added only to a linked directory. */
  predicate Safe(s: Tree, e: Event) {
    match e
    case Create(dp, name, _, _) => Key(dp, name) in s.ent || Linked(s, dp)
    case Link(ip, dp, name) => (ip < |s.ino| && s.ino[ip].typ == T_DIR) || Key(dp, name) in s.ent || Linked(s, dp)
    case _ => true
  }

  // --------------------------------------------------------------- proofs

  /** A name that is not in a directory is neither "." nor "..". */
  lemma FreshName(s: Tree, dp: nat, name: Name)
    requires Inv(s) && IsDir(s, dp) && Key(dp, name) !in s.ent
    ensures !Dotty(name)
  {
    assert Dots(s, dp);
  }

  lemma Added(s: Tree, t: Tree, i: nat, k: Key)
    requires Counts(t, i, k) && !Counts(s, i, k) && forall q :: q != k ==> Counts(t, i, q) == Counts(s, i, q)
    ensures |Naming(t, i)| == |Naming(s, i)| + 1
  {
    assert Naming(t, i) == Naming(s, i) + {k};
  }

  lemma Same(s: Tree, t: Tree, i: nat)
    requires forall q :: Counts(t, i, q) == Counts(s, i, q)
    ensures Naming(t, i) == Naming(s, i)
  {
  }

  lemma LinkCount(s: Tree, ip: nat, dp: nat, name: Name, i: nat)
    requires Inv(s) && Linked(s, dp) && ip < |s.ino| && s.ino[ip].typ != 0 && s.ino[ip].typ != T_DIR
    requires Key(dp, name) !in s.ent && name != Dot && i < |s.ino|
    ensures CountOk(DoLink(s, ip, dp, name), i)
  {
    var t := DoLink(s, ip, dp, name);
    assert CountOk(s, i);
    forall q ensures Counts(t, i, q) == (Counts(s, i, q) || (i == ip && q == Key(dp, name))) { }
    if i == ip { Added(s, t, i, Key(dp, name)); } else { Same(s, t, i); }
  }

  lemma LinkInv(s: Tree, ip: nat, dp: nat, name: Name)
    requires Inv(s) && Linked(s, dp) && ip < |s.ino| && s.ino[ip].typ != 0 && s.ino[ip].typ != T_DIR
    requires Key(dp, name) !in s.ent
    ensures Inv(DoLink(s, ip, dp, name))
  {
    var t := DoLink(s, ip, dp, name);
    FreshName(s, dp, name);
    assert forall d: nat :: Linked(t, d) == Linked(s, d);
    forall i: nat | i < |t.ino| ensures CountOk(t, i) { LinkCount(s, ip, dp, name, i); }
    forall k | k in t.ent ensures EntryOk(t, k) { if k != Key(dp, name) { assert EntryOk(s, k); } }
    forall d: nat | Linked(t, d) ensures DirOk(t, d) { assert DirOk(s, d); }
    forall d: nat | IsDir(t, d) ensures Dots(t, d) { assert Dots(s, d); }
  }

  /** A free inode has no entries and is named by none. */
  lemma FreeInode(s: Tree, ip: nat)
    requires Inv(s) && ip < |s.ino| && s.ino[ip].typ == 0
    ensures Naming(s, ip) == {} && forall k :: k in s.ent ==> k.dir != ip && !Counts(s, ip, k)
  {
    assert CountOk(s, ip);
    forall k | k in s.ent ensures k.dir != ip && !Counts(s, ip, k) {
      assert EntryOk(s, k);
      assert k !in Naming(s, ip);
    }
  }

  lemma CreateFileCount(s: Tree, dp: nat, name: Name, typ: int, ip: nat, i: nat)
    requires Inv(s) && Enabled(s, Create(dp, name, typ, ip)) && Linked(s, dp) && typ != T_DIR
    requires Key(dp, name) !in s.ent && name != Dot
    requires i < |s.ino|
    ensures CountOk(DoCreate(s, dp, name, typ, ip), i)
  {
    var t := DoCreate(s, dp, name, typ, ip);
    FreeInode(s, ip);
    assert CountOk(s, i);
    forall q ensures Counts(t, i, q) == (Counts(s, i, q) || (i == ip && q == Key(dp, name))) { }
    if i == ip { Added(s, t, i, Key(dp, name)); } else { Same(s, t, i); }
  }

  lemma CreateFileInv(s: Tree, dp: nat, name: Name, typ: int, ip: nat)
    requires Inv(s) && Enabled(s, Create(dp, name, typ, ip)) && Linked(s, dp) && typ != T_DIR && Key(dp, name) !in s.ent
    ensures Inv(DoCreate(s, dp, name, typ, ip))
  {
    var t := DoCreate(s, dp, name, typ, ip);
    FreshName(s, dp, name);
    assert CountOk(s, ip);
    assert forall d: nat :: Linked(t, d) == Linked(s, d);
    forall i: nat | i < |t.ino| ensures CountOk(t, i) { CreateFileCount(s, dp, name, typ, ip, i); }
    forall k | k in t.ent ensures EntryOk(t, k) { if k != Key(dp, name) { assert EntryOk(s, k); } }
    forall d: nat | Linked(t, d) ensures DirOk(t, d) { assert DirOk(s, d); }
    forall d: nat | IsDir(t, d) ensures Dots(t, d) { assert Dots(s, d); }
  }

  lemma CreateDirCount(s: Tree, dp: nat, name: Name, ip: nat, i: nat)
    requires Inv(s) && Enabled(s, Create(dp, name, T_DIR, ip)) && Linked(s, dp) && Key(dp, name) !in s.ent
    requires !Dotty(name) && i < |s.ino|
    ensures CountOk(DoCreate(s, dp, name, T_DIR, ip), i)
  {
    var t := DoCreate(s, dp, name, T_DIR, ip);
    FreeInode(s, ip);
    assert CountOk(s, i);
    forall q ensures Counts(t, i, q) ==
      (Counts(s, i, q) || (i == ip && q == Key(dp, name)) || (i == dp && q == Key(ip, DotDot))) { }
    if i == ip { Added(s, t, i, Key(dp, name)); }
    else if i == dp { Added(s, t, i, Key(ip, DotDot)); }
    else { Same(s, t, i); }
  }

  lemma CreateDirEntry(s: Tree, dp: nat, name: Name, ip: nat, k: Key)
    requires Inv(s) && Enabled(s, Create(dp, name, T_DIR, ip)) && Linked(s, dp) && Key(dp, name) !in s.ent
    requires !Dotty(name)
    requires k in DoCreate(s, dp, name, T_DIR, ip).ent
    ensures EntryOk(DoCreate(s, dp, name, T_DIR, ip), k)
  {
    FreeInode(s, ip);
    if k in s.ent {
      assert EntryOk(s, k);
      assert Linked(s, k.dir) ==> s.ent[k] != ip;
    }
  }

  lemma CreateDirInv(s: Tree, dp: nat, name: Name, ip: nat)
    requires Inv(s) && Enabled(s, Create(dp, name, T_DIR, ip)) && Linked(s, dp) && Key(dp, name) !in s.ent
    ensures Inv(DoCreate(s, dp, name, T_DIR, ip))
  {
    var t := DoCreate(s, dp, name, T_DIR, ip);
    FreshName(s, dp, name);
    forall i: nat | i < |t.ino| ensures CountOk(t, i) { CreateDirCount(s, dp, name, ip, i); }
    forall k | k in t.ent ensures EntryOk(t, k) { CreateDirEntry(s, dp, name, ip, k); }
    forall d: nat | Linked(t, d) ensures DirOk(t, d) { CreateDirDir(s, dp, name, ip, d); }
    assert Linked(t, ROOT) && t.ent[Key(ROOT, DotDot)] == ROOT by { FreeInode(s, ip); }
    forall d: nat | IsDir(t, d) ensures Dots(t, d) { if d != ip { assert Dots(s, d); } }
  }

  lemma CreateDirDir(s: Tree, dp: nat, name: Name, ip: nat, d: nat)
    requires Inv(s) && Enabled(s, Create(dp, name, T_DIR, ip)) && Linked(s, dp) && Key(dp, name) !in s.ent
    requires !Dotty(name)
    requires Linked(DoCreate(s, dp, name, T_DIR, ip), d)
    ensures DirOk(DoCreate(s, dp, name, T_DIR, ip), d)
  {
    FreeInode(s, ip);
    if d != ip { assert DirOk(s, d); }
  }

  // --------------------------------------------------------------- unlink

  lemma Dropped(s: Tree, t: Tree, i: nat, k: Key)
    requires Counts(s, i, k) && !Counts(t, i, k) && forall q :: q != k ==> Counts(t, i, q) == Counts(s, i, q)
    ensures |Naming(t, i)| == |Naming(s, i)| - 1
  {
    assert Naming(t, i) == Naming(s, i) - {k};
  }

  lemma UnlinkFileCount(s: Tree, dp: nat, name: Name, i: nat)
    requires Inv(s) && Linked(s, dp) && !Dotty(name) && Key(dp, name) in s.ent && i < |s.ino|
    requires s.ent[Key(dp, name)] < |s.ino| && s.ino[s.ent[Key(dp, name)]].typ != T_DIR
    ensures CountOk(DoUnlink(s, dp, name), i)
  {
    var t := DoUnlink(s, dp, name);
    assert CountOk(s, i) && EntryOk(s, Key(dp, name));
    forall q ensures Counts(t, i, q) == (Counts(s, i, q) && q != Key(dp, name)) { }
    if i == s.ent[Key(dp, name)] { Dropped(s, t, i, Key(dp, name)); } else { Same(s, t, i); }
  }

  lemma UnlinkFileInv(s: Tree, dp: nat, name: Name)
    requires Inv(s) && Linked(s, dp) && !Dotty(name) && Key(dp, name) in s.ent
    requires s.ent[Key(dp, name)] < |s.ino| && s.ino[s.ent[Key(dp, name)]].typ != T_DIR
    ensures Inv(DoUnlink(s, dp, name))
  {
    var t, ip := DoUnlink(s, dp, name), s.ent[Key(dp, name)];
    assert EntryOk(s, Key(dp, name));
    assert forall d: nat :: Linked(t, d) == Linked(s, d);
    forall i: nat | i < |t.ino| ensures CountOk(t, i) { UnlinkFileCount(s, dp, name, i); }
    forall k | k in t.ent ensures EntryOk(t, k) { assert EntryOk(s, k); }
    forall d: nat | Linked(t, d) ensures DirOk(t, d) { assert DirOk(s, d); }
    forall d: nat | IsDir(t, d) ensures Dots(t, d) { assert Dots(s, d); }
  }

  /** The panic "unlink: nlink < 1" is not reached: what a name other than the dots stands for is in use and linked. */
  lemma NlinkPositive(s: Tree, dp: nat, name: Name)
    requires Inv(s) && IsDir(s, dp) && !Dotty(name) && Key(dp, name) in s.ent
    ensures s.ent[Key(dp, name)] < |s.ino| && s.ino[s.ent[Key(dp, name)]].nlink >= 1
    ensures s.ino[s.ent[Key(dp, name)]].typ != 0
    ensures Linked(s, dp)
  {
    assert EntryOk(s, Key(dp, name));
    var ip := s.ent[Key(dp, name)];
    assert CountOk(s, ip) && Counts(s, ip, Key(dp, name));
    assert {Key(dp, name)} <= Naming(s, ip);
    SubsetSize({Key(dp, name)}, Naming(s, ip));
  }

  /** An empty directory is named once, by the entry to be removed. */
  lemma EmptyDirNamedOnce(s: Tree, dp: nat, name: Name)
    requires Inv(s) && Linked(s, dp) && !Dotty(name) && Key(dp, name) in s.ent
    requires IsDir(s, s.ent[Key(dp, name)]) && Empty(s.ent, s.ent[Key(dp, name)])
    ensures var ip := s.ent[Key(dp, name)];
      && ip != dp && ip != ROOT && Linked(s, ip) && s.ino[ip].nlink == 1 && Naming(s, ip) == {Key(dp, name)}
      && Key(ip, DotDot) in s.ent && s.ent[Key(ip, DotDot)] == dp
  {
    var ip := s.ent[Key(dp, name)];
    assert EntryOk(s, Key(dp, name)) && CountOk(s, ip);
    forall k | k in Naming(s, ip) ensures k == Key(dp, name) {
      assert EntryOk(s, k) && DirOk(s, k.dir);
      assert k.name == DotDot ==> k.dir != ROOT || ip == ROOT;
    }
    assert Naming(s, ip) == {Key(dp, name)};
  }

  /** A directory with a linked subdirectory is named twice or more. */
  lemma ParentNamedTwice(s: Tree, dp: nat, ip: nat)
    requires Inv(s) && Linked(s, dp) && Linked(s, ip) && ip != dp && ip != ROOT
    requires Key(ip, DotDot) in s.ent && s.ent[Key(ip, DotDot)] == dp
    ensures s.ino[dp].nlink >= 2 && Key(ip, DotDot) in Naming(s, dp)
  {
    assert CountOk(s, dp) && DirOk(s, dp);
    var k := if dp == ROOT then Key(ROOT, DotDot) else Key(s.ent[Key(dp, DotDot)], s.place[dp]);
    assert k in Naming(s, dp) && Key(ip, DotDot) in Naming(s, dp) && k != Key(ip, DotDot);
    assert {k, Key(ip, DotDot)} <= Naming(s, dp);
    SubsetSize({k, Key(ip, DotDot)}, Naming(s, dp));
  }

  lemma {:induction false} SubsetSize(a: set<Key>, b: set<Key>)
    requires a <= b
    ensures |a| <= |b|
  {
    if a != {} {
      var x :| x in a;
      SubsetSize(a - {x}, b - {x});
    }
  }

  /** t is s after unlinking the empty directory ip, found at k in dp. */
  ghost predicate DirGone(s: Tree, t: Tree, dp: nat, ip: nat, k: Key) {
    && |t.ino| == |s.ino| && t.ent == s.ent - {k} && t.place == s.place
    && (forall d: nat :: Linked(t, d) == (Linked(s, d) && d != ip))
    && (forall i: nat :: i < |s.ino| ==>
          t.ino[i].typ == s.ino[i].typ && t.ino[i].nlink == s.ino[i].nlink - if i == ip || i == dp then 1 else 0)
  }

  lemma UnlinkDirForm(s: Tree, dp: nat, name: Name)
    requires Inv(s) && Linked(s, dp) && !Dotty(name) && Key(dp, name) in s.ent
    requires IsDir(s, s.ent[Key(dp, name)]) && Empty(s.ent, s.ent[Key(dp, name)])
    ensures DirGone(s, DoUnlink(s, dp, name), dp, s.ent[Key(dp, name)], Key(dp, name))
  {
    var ip := s.ent[Key(dp, name)];
    EmptyDirNamedOnce(s, dp, name);
    ParentNamedTwice(s, dp, ip);
  }

  lemma GoneCounts(s: Tree, t: Tree, dp: nat, name: Name, ip: nat, i: nat, q: Key)
    requires DirGone(s, t, dp, ip, Key(dp, name)) && Key(dp, name) in s.ent && Empty(s.ent, ip)
    requires Key(ip, DotDot) in s.ent && s.ent[Key(ip, DotDot)] == dp && ip != dp
    ensures Counts(t, i, q) == (Counts(s, i, q) && q != Key(dp, name) && q != Key(ip, DotDot))
  {
    if q in s.ent { assert q.dir == ip ==> Dotty(q.name); }
  }

  lemma GoneCount(s: Tree, t: Tree, dp: nat, name: Name, ip: nat, i: nat)
    requires DirGone(s, t, dp, ip, Key(dp, name)) && Key(dp, name) in s.ent && s.ent[Key(dp, name)] == ip
    requires Empty(s.ent, ip)
    requires Key(ip, DotDot) in s.ent && s.ent[Key(ip, DotDot)] == dp && ip != dp && i < |s.ino| && CountOk(s, i)
    requires Counts(s, ip, Key(dp, name)) && Counts(s, dp, Key(ip, DotDot)) && IsDir(s, ip) && IsDir(s, dp)
    ensures CountOk(t, i)
  {
    forall q ensures Counts(t, i, q) == (Counts(s, i, q) && q != Key(dp, name) && q != Key(ip, DotDot)) {
      GoneCounts(s, t, dp, name, ip, i, q);
    }
    if i == ip { Dropped(s, t, i, Key(dp, name)); }
    else if i == dp { Dropped(s, t, i, Key(ip, DotDot)); }
    else { Same(s, t, i); }
  }

  lemma UnlinkDirCounts(s: Tree, dp: nat, name: Name)
    requires Inv(s) && Linked(s, dp) && !Dotty(name) && Key(dp, name) in s.ent
    requires IsDir(s, s.ent[Key(dp, name)]) && Empty(s.ent, s.ent[Key(dp, name)])
    ensures var t := DoUnlink(s, dp, name); var ip := s.ent[Key(dp, name)];
      && DirGone(s, t, dp, ip, Key(dp, name)) && t.ino[ip].nlink == 0 && forall i: nat :: i < |t.ino| ==> CountOk(t, i)
  {
    var t, ip := DoUnlink(s, dp, name), s.ent[Key(dp, name)];
    EmptyDirNamedOnce(s, dp, name);
    UnlinkDirForm(s, dp, name);
    forall i: nat | i < |t.ino| ensures CountOk(t, i) {
      assert CountOk(s, i);
      GoneCount(s, t, dp, name, ip, i);
    }
  }

  lemma UnlinkDirInv(s: Tree, dp: nat, name: Name)
    requires Inv(s) && Linked(s, dp) && !Dotty(name) && Key(dp, name) in s.ent
    requires IsDir(s, s.ent[Key(dp, name)]) && Empty(s.ent, s.ent[Key(dp, name)])
    ensures Inv(DoUnlink(s, dp, name))
  {
    var t, ip := DoUnlink(s, dp, name), s.ent[Key(dp, name)];
    EmptyDirNamedOnce(s, dp, name);
    UnlinkDirCounts(s, dp, name);
    forall k | k in t.ent ensures EntryOk(t, k) {
      assert EntryOk(s, k);
      assert !Dotty(k.name) && Linked(s, k.dir) && s.ent[k] == ip ==> k in Naming(s, ip);
    }
    forall d: nat | Linked(t, d) ensures DirOk(t, d) {
      assert DirOk(s, d);
      assert d != ROOT ==> s.ent[Key(d, DotDot)] != ip;
    }
    forall d: nat | IsDir(t, d) ensures Dots(t, d) { assert Dots(s, d); }
  }

  lemma FreeInv(s: Tree, ip: nat)
    requires Inv(s) && ip < |s.ino| && s.ino[ip].typ != 0 && s.ino[ip].nlink == 0
    ensures Inv(DoFree(s, ip))
  {
    var t := DoFree(s, ip);
    assert forall d: nat :: Linked(t, d) == Linked(s, d);
    assert CountOk(s, ip) && Naming(s, ip) == {};
    forall i: nat | i < |t.ino| ensures CountOk(t, i) {
      assert CountOk(s, i);
      assert Naming(t, i) == Naming(s, i);
    }
    forall k | k in t.ent ensures EntryOk(t, k) {
      assert EntryOk(s, k);
      assert Linked(s, k.dir) && k.name != Dot && s.ent[k] == ip ==> k in Naming(s, ip);
      if Linked(s, k.dir) { assert DirOk(s, k.dir); }
    }
    forall d: nat | Linked(t, d) ensures DirOk(t, d) { assert DirOk(s, d); }
    forall d: nat | IsDir(t, d) ensures Dots(t, d) { assert Dots(s, d); }
  }

  /** Every safe call keeps the link counts, sys_link's rollback included. */
  lemma StepInv(s: Tree, e: Event)
    requires Inv(s) && Enabled(s, e) && Safe(s, e)
    ensures Inv(Next(s, e))
  {
    match e
    case Create(dp, name, typ, ip) =>
      if Key(dp, name) !in s.ent {
        if typ == T_DIR { CreateDirInv(s, dp, name, ip); } else { CreateFileInv(s, dp, name, typ, ip); }
      }
    case Link(ip, dp, name) =>
      if s.ino[ip].typ != T_DIR {
        if Key(dp, name) in s.ent { Rollback(s, ip); } else { LinkInv(s, ip, dp, name); }
      }
    case LinkNowhere(ip) => Rollback(s, ip);
    case Unlink(dp, name) =>
      if !Dotty(name) && Key(dp, name) in s.ent {
        assert EntryOk(s, Key(dp, name));
        var ip := s.ent[Key(dp, name)];
        if s.ino[ip].typ != T_DIR { UnlinkFileInv(s, dp, name); }
        else if Empty(s.ent, ip) { UnlinkDirInv(s, dp, name); }
      }
    case Free(ip) => FreeInv(s, ip);
  }

  lemma Rollback(s: Tree, ip: nat)
    requires ip < |s.ino|
    ensures Bump(Bump(s, ip, 1), ip, -1) == s
  {
    assert Bump(Bump(s, ip, 1), ip, -1).ino == s.ino;
  }

  ghost predicate StepAt(states: seq<Tree>, events: seq<Event>, i: nat)
    requires i < |events| && i + 1 < |states|
  {
    Enabled(states[i], events[i]) && states[i + 1] == Next(states[i], events[i])
  }

  ghost predicate Run(states: seq<Tree>, events: seq<Event>) {
    |states| == |events| + 1 && forall i: nat :: i < |events| ==> StepAt(states, events, i)
  }

  ghost predicate SafeRun(states: seq<Tree>, events: seq<Event>) {
    |states| == |events| + 1 && forall i: nat :: i < |events| ==> Safe(states[i], events[i])
  }

  lemma {:induction false} RunInv(states: seq<Tree>, events: seq<Event>, n: nat)
    requires Run(states, events) && SafeRun(states, events) && Inv(states[0]) && n <= |events|
    ensures Inv(states[n])
    decreases n
  {
    if n > 0 {
      RunInv(states, events, n - 1);
      assert StepAt(states, events, n - 1);
      StepInv(states[n - 1], events[n - 1]);
    }
  }

  /** The file system mkfs makes: a root directory whose two dot entries name itself. */
  ghost predicate Fresh(s: Tree) {
    && ROOT < |s.ino| && s.ent == map[Key(ROOT, Dot) := ROOT, Key(ROOT, DotDot) := ROOT]
    && forall i :: 0 <= i < |s.ino| ==> s.ino[i] == if i == ROOT then Node(T_DIR, 1) else Node(0, 0)
  }

  lemma FreshInv(s: Tree)
    requires Fresh(s)
    ensures Inv(s)
  {
    forall i: nat | i < |s.ino| ensures CountOk(s, i) {
      if i == ROOT { assert Naming(s, i) == {Key(ROOT, DotDot)}; } else { assert Naming(s, i) == {}; }
    }
  }

  /** After every sequence of safe calls each inode's nlink is the number of entries that name it. */
  lemma Conservation(states: seq<Tree>, events: seq<Event>, n: nat, i: nat)
    requires Run(states, events) && SafeRun(states, events) && Fresh(states[0]) && n <= |events| && i < |states[n].ino|
    ensures states[n].ino[i].nlink == |Naming(states[n], i)|
  {
    FreshInv(states[0]);
    RunInv(states, events, n);
    assert CountOk(states[n], i);
  }

  /** An empty directory that is unlinked ends with no link. */
  lemma UnlinkedDir(s: Tree, dp: nat, name: Name)
    requires Inv(s) && Linked(s, dp) && !Dotty(name) && Key(dp, name) in s.ent
    requires IsDir(s, s.ent[Key(dp, name)]) && Empty(s.ent, s.ent[Key(dp, name)])
    ensures Next(s, Unlink(dp, name)).ino[s.ent[Key(dp, name)]].nlink == 0
  {
    assert EntryOk(s, Key(dp, name));
    UnlinkDirCounts(s, dp, name);
  }

  // ------------------------------------------- entries in unlinked directories

  /** Into a directory without links, link breaks a count, and only then. */
  lemma LinkExact(s: Tree, ip: nat, dp: nat, name: Name)
    requires Inv(s) && Enabled(s, Link(ip, dp, name)) && s.ino[ip].typ != T_DIR && Key(dp, name) !in s.ent
    ensures Counted(DoLink(s, ip, dp, name)) <==> Linked(s, dp)
  {
    if Linked(s, dp) {
      LinkInv(s, ip, dp, name);
    } else {
      var t := DoLink(s, ip, dp, name);
      assert CountOk(s, ip);
      Same(s, t, ip);
      assert !CountOk(t, ip);
    }
  }

  /** A file created in a directory without links is named by nothing that counts. */
  lemma CreateFileUnlinked(s: Tree, dp: nat, name: Name, typ: int, ip: nat)
    requires Inv(s) && Enabled(s, Create(dp, name, typ, ip)) && typ != T_DIR && Key(dp, name) !in s.ent
    requires !Linked(s, dp)
    ensures Naming(DoCreate(s, dp, name, typ, ip), ip) == {} && !CountOk(DoCreate(s, dp, name, typ, ip), ip)
  {
    FreeInode(s, ip);
  }

  /** What counts for an inode i once a directory has been created in dp. */
  lemma CreateDirKeeps(s: Tree, dp: nat, name: Name, ip: nat, i: nat, k: Key)
    requires Inv(s) && Enabled(s, Create(dp, name, T_DIR, ip)) && Key(dp, name) !in s.ent && !Dotty(name)
    requires CountOk(s, dp) && i < |s.ino|
    requires || Counts(s, i, k) || (k in s.ent && k == Key(dp, DotDot) && s.ent[k] == i)
             || (k == Key(dp, name) && i == ip) || (k == Key(ip, DotDot) && i == dp)
    ensures Counts(DoCreate(s, dp, name, T_DIR, ip), i, k)
  {
    FreeInode(s, ip);
  }

  /** A directory created there gives it a link again, and its ".." counts for a parent that has dropped it. */
  lemma CreateDirUnlinked(s: Tree, dp: nat, name: Name, ip: nat)
    requires Inv(s) && Enabled(s, Create(dp, name, T_DIR, ip)) && Key(dp, name) !in s.ent && !Linked(s, dp)
    ensures Key(dp, DotDot) in s.ent && s.ent[Key(dp, DotDot)] < |s.ino|
    ensures !CountOk(DoCreate(s, dp, name, T_DIR, ip), s.ent[Key(dp, DotDot)])
  {
    FreshName(s, dp, name);
    assert Dots(s, dp) && EntryOk(s, Key(dp, DotDot)) && CountOk(s, dp);
    var up := s.ent[Key(dp, DotDot)];
    assert CountOk(s, up);
    var more := {Key(dp, DotDot)} + if up == ip then {Key(dp, name)} else if up == dp then {Key(ip, DotDot)} else {};
    NamingGrows(s, dp, name, ip, up, more);
  }

  lemma NamingGrows(s: Tree, dp: nat, name: Name, ip: nat, up: nat, more: set<Key>)
    requires Inv(s) && Enabled(s, Create(dp, name, T_DIR, ip)) && Key(dp, name) !in s.ent && !Dotty(name)
    requires !Linked(s, dp) && Key(dp, DotDot) in s.ent && s.ent[Key(dp, DotDot)] == up < |s.ino| && CountOk(s, dp)
    requires more == {Key(dp, DotDot)} +
      if up == ip then {Key(dp, name)} else if up == dp then {Key(ip, DotDot)} else {}
    ensures |Naming(DoCreate(s, dp, name, T_DIR, ip), up)| >= |Naming(s, up)| + |more|
  {
    var t := DoCreate(s, dp, name, T_DIR, ip);
    FreeInode(s, ip);
    assert Naming(s, up) !! more;
    forall k | k in Naming(s, up) + more ensures k in Naming(t, up) { CreateDirKeeps(s, dp, name, ip, up, k); }
    SubsetSize(Naming(s, up) + more, Naming(t, up));
  }

  /** create breaks a count exactly when it adds its entry to a directory without links. */
  lemma CreateExact(s: Tree, dp: nat, name: Name, typ: int, ip: nat)
    requires Inv(s) && Enabled(s, Create(dp, name, typ, ip)) && Key(dp, name) !in s.ent
    ensures Counted(DoCreate(s, dp, name, typ, ip)) <==> Linked(s, dp)
  {
    if Linked(s, dp) {
      if typ == T_DIR { CreateDirInv(s, dp, name, ip); } else { CreateFileInv(s, dp, name, typ, ip); }
    } else {
      if typ == T_DIR { CreateDirUnlinked(s, dp, name, ip); } else { CreateFileUnlinked(s, dp, name, typ, ip); }
    }
  }

  /** Every call keeps all link counts if and only if it is safe. */
  lemma StepExact(s: Tree, e: Event)
    requires Inv(s) && Enabled(s, e)
    ensures Counted(Next(s, e)) <==> Safe(s, e)
  {
    if Safe(s, e) {
      StepInv(s, e);
    } else if e.Create? {
      CreateExact(s, e.dp, e.name, e.typ, e.ip);
    } else {
      LinkExact(s, e.ip, e.dp, e.name);
    }
  }

  /** A directory is made in the root and unlinked while in use. */
  lemma UnlinkedInUse(d: Name) returns (s: Tree, t: Tree, u: Tree)
    requires d.Word?
    ensures Fresh(s) && |s.ino| == 4
    ensures Enabled(s, Create(ROOT, d, T_DIR, 2)) && t == Next(s, Create(ROOT, d, T_DIR, 2))
    ensures Enabled(t, Unlink(ROOT, d)) && u == Next(t, Unlink(ROOT, d))
    ensures u.ino == s.ino[2 := Node(T_DIR, 0)] && u.ent == s.ent[Key(2, Dot) := 2][Key(2, DotDot) := ROOT]
  {
    var none := Node(0, 0);
    s := Tree([none, Node(T_DIR, 1), none, none], map[Key(ROOT, Dot) := ROOT, Key(ROOT, DotDot) := ROOT], map[]);
    t := Next(s, Create(ROOT, d, T_DIR, 2));
    u := Next(t, Unlink(ROOT, d));
  }

  /**
    A run that is not safe: a directory is made, unlinked while in use, and
    given a file; once it is freed the file has a link and no name.
   */
  lemma Orphan() returns (states: seq<Tree>, events: seq<Event>)
    ensures Run(states, events) && Fresh(states[0])
    ensures var s := states[|events|];
      3 < |s.ino| && s.ino[3] == Node(T_FILE, 1) && forall k :: k in s.ent ==> s.ent[k] != 3
  {
    var d, f := Word([1]), Word([2]);
    var s, t, u := UnlinkedInUse(d);
    var v, w := FileInUnlinked(s, u, f);
    states := [s, t, u, v, w];
    events := [Create(ROOT, d, T_DIR, 2), Unlink(ROOT, d), Create(2, f, T_FILE, 3), Free(2)];
    forall i: nat | i < |events| ensures StepAt(states, events, i) { }
  }

  lemma FileInUnlinked(s: Tree, u: Tree, f: Name) returns (v: Tree, w: Tree)
    requires Fresh(s) && |s.ino| == 4 && f.Word?
    requires u.ino == s.ino[2 := Node(T_DIR, 0)] && u.ent == s.ent[Key(2, Dot) := 2][Key(2, DotDot) := ROOT]
    ensures Enabled(u, Create(2, f, T_FILE, 3)) && v == Next(u, Create(2, f, T_FILE, 3))
    ensures Enabled(v, Free(2)) && w == Next(v, Free(2))
    ensures |w.ino| == 4 && w.ino[3] == Node(T_FILE, 1) && forall k :: k in w.ent ==> w.ent[k] != 3
  {
    v := Next(u, Create(2, f, T_FILE, 3));
    w := Next(v, Free(2));
  }
}
