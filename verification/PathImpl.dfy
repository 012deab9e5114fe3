/** skipelem and namex of fs.c: resolving a path is a fold of the directory maps over its components. */
module PathImpl {
  import opened FsModel
  import opened FsSteps
  import opened FsImpl
  import opened DirModel
  import opened DirImpl

  const SLASH: byte := 47
  const ROOTINO: nat := 1

  // ------------------------------------------------------------ components

  /** The components of a path, one character at a time; cur is the component begun. */
  function Split(path: Name, cur: Name): (r: seq<Name>)
    decreases |path|
  {
    if path == [] then (if cur == [] then [] else [cur])
    else if path[0] == SLASH then (if cur == [] then [] else [cur]) + Split(path[1..], [])
    else Split(path[1..], cur + [path[0]])
  }

  /** The maximal runs of characters between slashes. */
  function Components(path: Name): (r: seq<Name>) { Split(path, []) }

  lemma {:induction false} SplitSlashes(path: Name, i: nat)
    requires i <= |path| && forall j :: 0 <= j < i ==> path[j] == SLASH
    ensures Components(path) == Components(path[i..])
    decreases i
  {
    if i > 0 {
      SplitSlashes(path[1..], i - 1);
      assert path[1..][i - 1..] == path[i..];
    }
  }

  lemma {:induction false} SplitRun(path: Name, cur: Name, i: nat)
    requires i <= |path| && forall j :: 0 <= j < i ==> path[j] != SLASH
    ensures Split(path, cur) == Split(path[i..], cur + path[..i])
    decreases i
  {
    if i > 0 {
      SplitRun(path[1..], cur + [path[0]], i - 1);
      assert path[1..][i - 1..] == path[i..];
      assert cur + [path[0]] + path[1..][..i - 1] == cur + path[..i];
    } else {
      assert path[0..] == path && cur + path[..0] == cur;
    }
  }

  /** A run of other characters up to a slash or the end is the first component. */
  lemma SplitFirst(path: Name, i: nat)
    requires 0 < i <= |path| && (forall j :: 0 <= j < i ==> path[j] != SLASH) && (i < |path| ==> path[i] == SLASH)
    ensures Components(path) == [path[..i]] + Components(path[i..])
  {
    SplitRun(path, [], i);
    assert [] + path[..i] == path[..i];
  }

  /** A C string has no NUL inside. */
  ghost predicate NoNul(s: Name) { forall j :: 0 <= j < |s| ==> s[j] != 0 }

  ghost predicate Slashes(s: Name, i: nat, j: nat) { j <= |s| && forall k :: i <= k < j ==> s[k] == SLASH }

  /** Slashes, a component, and the slashes behind it. */
  lemma SkipSpec(path: Name, a: nat, b: nat, c: nat)
    requires a < b <= c <= |path| && Slashes(path, 0, a) && Slashes(path, b, c)
    requires (forall k :: a <= k < b ==> path[k] != SLASH) && (b < |path| ==> path[b] == SLASH)
    requires c < |path| ==> path[c] != SLASH
    ensures Components(path) == [path[a..b]] + Components(path[c..])
    ensures c < |path| ==> Components(path[c..]) != []
  {
    SplitSlashes(path, a);
    var s := path[a..];
    SplitFirst(s, b - a);
    assert s[..b - a] == path[a..b] && s[b - a..] == path[b..];
    SplitSlashes(path[b..], c - b);
    assert path[b..][c - b..] == path[c..];
    if c < |path| { SplitSome(path[c..], []); }
  }

  /** skipelem(): takes the first component off the path, its name cut to DIRSIZ bytes; some tells if there is one. */
  method Skipelem(path: Name) returns (some: bool, rest: Name, name: Name)
    requires NoNul(path)
    ensures some <==> Components(path) != []
    ensures some ==> |rest| < |path| && NoNul(rest) && Components(path)[1..] == Components(rest)
    ensures some ==> name == Cut(Components(path)[0])
    ensures some ==> (rest == [] <==> |Components(path)| == 1)
  {
    var a := 0;
    while a < |path| && path[a] == SLASH
      invariant a <= |path| && Slashes(path, 0, a)
    {
      a := a + 1;
    }
    if a == |path| {
      SplitSlashes(path, a);
      return false, [], [];
    }
    var b := a;
    while b < |path| && path[b] != SLASH
      invariant a <= b <= |path| && forall k :: a <= k < b ==> path[k] != SLASH
    {
      b := b + 1;
    }
    name := if b - a >= DIRSIZ then path[a..a + DIRSIZ] else path[a..b];
    assert name == path[a..b][..|name|];
    CutFirst(path[a..b], |name|);
    var c := b;
    while c < |path| && path[c] == SLASH
      invariant b <= c <= |path| && Slashes(path, b, c)
    {
      c := c + 1;
    }
    SkipSpec(path, a, b, c);
    some, rest := true, path[c..];
  }

  /** A path that does not begin with a slash has a component. */
  lemma {:induction false} SplitSome(path: Name, cur: Name)
    requires cur != [] || (path != [] && path[0] != SLASH)
    ensures Split(path, cur) != []
    decreases |path|
  {
    if path != [] && path[0] != SLASH { SplitSome(path[1..], cur + [path[0]]); }
  }

  // ------------------------------------------------------------ resolving

  ghost function DirMap(v: Vol, i: nat): (m: map<Name, nat>)
    requires i < |v.ino|
  {
    Names(Decode(Content(v, i)))
  }

  ghost predicate DirShape(v: Vol, i: nat)
    requires i < |v.ino|
  {
    && HoleFree(v, i) && v.ino[i].size % DESIZE == 0 && Unique(Decode(Content(v, i)))
    && forall s :: s in DirMap(v, i) ==> DirMap(v, i)[s] < |v.ino|
  }

  /** Every directory is well formed and names existing inodes. */
  ghost predicate Tree(v: Vol) {
    forall i: nat :: i < |v.ino| && v.ino[i].typ == T_DIR ==> DirShape(v, i)
  }

  /** Fold the directory maps over the components, from inode i; -1 if one is missing. */
  ghost function Resolve(v: Vol, i: int, comps: seq<Name>): (r: int)
    requires Tree(v) && -1 <= i < |v.ino|
    ensures -1 <= r < |v.ino|
    decreases |comps|
  {
    if comps == [] || i == -1 then i else Resolve(v, Child(v, i, comps[0]), comps[1..])
  }

  /** The inode that directory i gives a name, or -1. */
  ghost function Child(v: Vol, i: nat, name: Name): (r: int)
    requires Tree(v) && i < |v.ino|
    ensures -1 <= r < |v.ino|
  {
    if v.ino[i].typ != T_DIR then -1
    else
      assert DirShape(v, i);
      if Cut(name) in DirMap(v, i) then DirMap(v, i)[Cut(name)] else -1
  }

  /** What namex computes: the inode of the path, or of its parent directory. */
  ghost function Found(v: Vol, i: int, comps: seq<Name>, parent: bool): (r: int)
    requires Tree(v) && -1 <= i < |v.ino|
    ensures -1 <= r < |v.ino|
  {
    if !parent then Resolve(v, i, comps)
    else if comps == [] then -1
    else
      var p := Resolve(v, i, comps[..|comps| - 1]);
      if p != -1 && v.ino[p].typ == T_DIR then p else -1
  }

  /** Resolving the components from inode i comes to lock an inode of type 0, where ilock panics. */
  ghost predicate Untyped(v: Vol, i: int, comps: seq<Name>)
    requires Tree(v) && -1 <= i < |v.ino|
    decreases |comps|
  {
    comps != [] && i != -1 && (v.ino[i].typ == 0 || Untyped(v, Child(v, i, comps[0]), comps[1..]))
  }

  /** One component less: the fold continues from the child. */
  lemma FoundStep(v: Vol, i: nat, comps: seq<Name>, parent: bool)
    requires Tree(v) && i < |v.ino| && comps != [] && (parent ==> |comps| > 1)
    ensures Found(v, i, comps, parent) == Found(v, Child(v, i, comps[0]), comps[1..], parent)
  {
    if parent { assert comps[..|comps| - 1][1..] == comps[1..][..|comps[1..]| - 1]; }
  }

  lemma FoundNone(v: Vol, comps: seq<Name>, parent: bool)
    requires Tree(v)
    ensures Found(v, -1, comps, parent) == -1
  {
  }

  /**
    namex(): the fold of the directory maps over the path's components, from
    the root or the current directory; with nameiparent, up to the last
    component, whose cut name it returns.  !ok stands for ilock's panic.
   */
  method Namex(fs: Fs, cwd: nat, path0: Name, nameiparent: bool) returns (ip: int, name: Name, ok: bool)
    requires Inv(Vol(fs.lay, fs.ino, fs.blk), fs.bk) && Tree(Vol(fs.lay, fs.ino, fs.blk)) && NoNul(path0)
    requires cwd < |fs.ino| && ROOTINO < |fs.ino|
    modifies fs`blk, fs`bk
    ensures fs.blk == old(fs.blk) && fs.bk == old(fs.bk)
    ensures ok <==> !Untyped(Vol(fs.lay, fs.ino, fs.blk), Start(path0, cwd), Components(path0))
    ensures ok ==> ip == Found(Vol(fs.lay, fs.ino, fs.blk), Start(path0, cwd), Components(path0), nameiparent)
    ensures ok && ip != -1 && nameiparent ==>
              Components(path0) != [] && name == Cut(Components(path0)[|Components(path0)| - 1])
  {
    ip, name, ok := Walk(fs, Start(path0, cwd), path0, nameiparent);
  }

  /** Where a path starts: at the root or in the current directory. */
  function Start(path: Name, cwd: nat): (i: nat) {
    if path != [] && path[0] == SLASH then ROOTINO else cwd
  }

  /** The loop of namex, from inode start. */
  method Walk(fs: Fs, start: nat, path0: Name, nameiparent: bool) returns (ip: int, name: Name, ok: bool)
    requires Inv(Vol(fs.lay, fs.ino, fs.blk), fs.bk) && Tree(Vol(fs.lay, fs.ino, fs.blk)) && NoNul(path0)
    requires start < |fs.ino|
    modifies fs`blk, fs`bk
    ensures fs.blk == old(fs.blk) && fs.bk == old(fs.bk)
    ensures ok <==> !Untyped(Vol(fs.lay, fs.ino, fs.blk), start, Components(path0))
    ensures ok ==> ip == Found(Vol(fs.lay, fs.ino, fs.blk), start, Components(path0), nameiparent)
    ensures ok && ip != -1 && nameiparent ==>
              Components(path0) != [] && name == Cut(Components(path0)[|Components(path0)| - 1])
  {
    ghost var v, comps := Vol(fs.lay, fs.ino, fs.blk), Components(path0);
    ghost var goal, bad, last := Found(v, start, comps, nameiparent), Untyped(v, start, comps), comps;
    ip, ok := start, true;
    var some, path;
    some, path, name := NextElem(path0, comps, last);
    while some
      invariant Vol(fs.lay, fs.ino, fs.blk) == v && fs.bk == old(fs.bk)
      invariant ok && Going(v, ip, comps, nameiparent, goal, bad)
      invariant (if some then Elem(comps, path, name, last) else comps == [])
      decreases |comps|
    {
      if fs.ino[ip].typ == 0 { return -1, name, false; }
      if fs.ino[ip].typ != T_DIR {
        NotDir(v, ip, comps, nameiparent);
        return -1, name, true;
      }
      if nameiparent && path == [] {
        LastLevel(v, ip, comps, goal, bad);
        return;
      }
      var next := Step(fs, ip, name);
      Descends(v, ip, comps, nameiparent, name);
      if next == 0 { return -1, name, true; }
      ip := next;
      LastKept(comps, last);
      comps := comps[1..];
      some, path, name := NextElem(path, comps, last);
    }
    if nameiparent { ip := -1; }
  }

  ghost predicate Going(v: Vol, ip: int, comps: seq<Name>, parent: bool, goal: int, bad: bool) {
    Tree(v) && 0 <= ip < |v.ino| && Found(v, ip, comps, parent) == goal && Untyped(v, ip, comps) == bad
  }

  /** skipelem has just taken the first of comps off; last are all the components of the path. */
  ghost predicate Elem(comps: seq<Name>, path: Name, name: Name, last: seq<Name>) {
    && comps != [] && NoNul(path) && comps[1..] == Components(path) && name == Cut(comps[0])
    && (path == [] <==> |comps| == 1) && SameLast(comps, last)
  }

  ghost predicate SameLast(comps: seq<Name>, last: seq<Name>) {
    comps != [] ==> last != [] && comps[|comps| - 1] == last[|last| - 1]
  }

  lemma LastKept(comps: seq<Name>, last: seq<Name>)
    requires SameLast(comps, last) && comps != []
    ensures SameLast(comps[1..], last)
  {
  }

  /** skipelem() within the loop of namex. */
  method NextElem(path: Name, ghost comps: seq<Name>, ghost last: seq<Name>)
    returns (some: bool, rest: Name, name: Name)
    requires NoNul(path) && comps == Components(path) && SameLast(comps, last)
    ensures if some then Elem(comps, rest, name, last) else comps == []
  {
    some, rest, name := Skipelem(path);
  }

  lemma LastLevel(v: Vol, ip: nat, comps: seq<Name>, goal: int, bad: bool)
    requires Going(v, ip, comps, true, goal, bad) && |comps| == 1 && v.ino[ip].typ == T_DIR
    ensures goal == ip && !bad
  {
    assert comps[..0] == [] && comps[1..] == [];
    assert !Untyped(v, Child(v, ip, comps[0]), []);
  }

  /** Going down one component keeps the goal, or there is none. */
  lemma Descends(v: Vol, i: nat, comps: seq<Name>, parent: bool, name: Name)
    requires Tree(v) && i < |v.ino| && comps != [] && (parent ==> |comps| > 1) && name == Cut(comps[0])
    ensures Child(v, i, name) == -1 ==> Found(v, i, comps, parent) == -1
    ensures Child(v, i, name) != -1 ==> Found(v, i, comps, parent) == Found(v, Child(v, i, name), comps[1..], parent)
    ensures v.ino[i].typ != 0 ==> Untyped(v, i, comps) == Untyped(v, Child(v, i, name), comps[1..])
  {
    FoundStep(v, i, comps, parent);
    CutCut(comps[0]);
    FoundNone(v, comps[1..], parent);
  }

  lemma NotDir(v: Vol, i: nat, comps: seq<Name>, parent: bool)
    requires Tree(v) && i < |v.ino| && comps != [] && v.ino[i].typ != T_DIR && v.ino[i].typ != 0
    ensures Found(v, i, comps, parent) == -1 && !Untyped(v, i, comps)
  {
    if |comps| > 1 || !parent { FoundStep(v, i, comps, parent); } else { assert comps[..0] == []; }
  }

  /** Cutting twice is cutting once. */
  lemma CutCut(s: Name)
    ensures Cut(Cut(s)) == Cut(s)
  {
    CutNonzero(s, 0);
    CutFirst(Cut(s), |Cut(s)|);
  }

  /** dirlookup() in a directory inode fetched for it. */
  method Step(fs: Fs, i: nat, name: Name) returns (next: nat)
    requires Inv(Vol(fs.lay, fs.ino, fs.blk), fs.bk) && Tree(Vol(fs.lay, fs.ino, fs.blk))
    requires i < |fs.ino| && fs.ino[i].typ == T_DIR
    modifies fs`blk, fs`bk
    ensures fs.blk == old(fs.blk) && fs.bk == old(fs.bk)
    ensures var v := Vol(fs.lay, fs.ino, fs.blk); Child(v, i, name) == if next == 0 then -1 else next
  {
    ghost var v := Vol(fs.lay, fs.ino, fs.blk);
    assert DirShape(v, i);
    var dp := new Inode(i, fs.ino[i]);
    assert v.ino[i := fs.ino[i]] == v.ino;
    assert fs.View(dp) == v;
    var inum, k := Dirlookup(fs, dp, name);
    assert fs.View(dp) == v;
    next := inum;
  }
}
