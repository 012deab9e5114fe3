/**
  sys_link, sys_unlink, create and the last iput of sysfile.c and fs.c, from
  the path to the bytes of the directories, as steps of LinkModel.
 */
module SysImpl {
  import opened FsModel
  import opened FsSteps
  import opened FsImpl
  import opened DirModel
  import opened DirImpl
  import opened PathImpl
  import opened SysModel
  import L = LinkModel

  const T_FILE: int := 2

  /** Resolving the path panics in ilock. */
  ghost predicate Bad(v: Vol, cwd: nat, path: Name)
    requires Tree(v) && cwd < |v.ino| && ROOTINO < |v.ino|
  {
    Untyped(v, Start(path, cwd), Components(path))
  }

  /** The inode a path leads to, or its parent directory; -1 if there is none. */
  ghost function Leads(v: Vol, cwd: nat, path: Name, parent: bool): (i: int)
    requires Tree(v) && cwd < |v.ino| && ROOTINO < |v.ino|
    ensures -1 <= i < |v.ino|
  {
    Found(v, Start(path, cwd), Components(path), parent)
  }

  /** The name behind the last slash. */
  ghost function Last(path: Name): (s: Name) {
    if Components(path) == [] then [] else Cut(Components(path)[|Components(path)| - 1])
  }

  /** t' is t after the call e. */
  ghost predicate Stepped(t: L.Tree, t': L.Tree, e: L.Event) {
    L.Enabled(t, e) && t' == L.Next(t, e)
  }

  /** A parent directory is a directory of the tree. */
  lemma LeadsDir(v: Vol, t: L.Tree, cwd: nat, path: Name)
    requires Stands(v, t, {}) && Tree(v) && 0 < cwd < |v.ino| && ROOTINO < |v.ino|
    ensures var d := Leads(v, cwd, path, true);
      d != -1 ==> d != 0 && L.IsDir(t, d) && Whole(v, {}, d) && Last(path) == Cut(Last(path))
  {
    var d := Leads(v, cwd, path, true);
    if d != -1 {
      assert NodeIs(v, t, d);
      ResolveNonzero(v, t, Start(path, cwd), Components(path)[..|Components(path)| - 1]);
      CutCut(Components(path)[|Components(path)| - 1]);
    }
  }

  /** The call that sys_link makes of inode i and of the parent directory d of the new path, -1 if there is none. */
  ghost function LinkEvent(i: nat, d: int, s: Name): (e: L.Event) {
    if d < 0 then L.LinkNowhere(i) else L.Link(i, d, NameOf(s))
  }

  /** What sys_link has done: inode i has the new name, or nothing has changed. */
  ghost predicate LinkDone(v: Vol, v': Vol, t: L.Tree, i: nat, d: int, s: Name, r: int) {
    if r == 0 then 0 <= d && LinkMade(v, v', i, d) && L.Key(d, NameOf(s)) in t.ent && t.ent[L.Key(d, NameOf(s))] == i
    else v' == v
  }

  /** The count is raised, and then the entry made. */
  lemma LinkParts(v: Vol, a: Vol, w: Vol, i: nat, d: nat)
    requires i != d && d < |v.ino| && Renumbered(v, a, i) && a.ino[i] == v.ino[i].(nlink := v.ino[i].nlink + 1)
    requires Apart(a, w, {d}) && Regrown(a.ino[d], w.ino[d], 0)
    ensures LinkMade(v, w, i, d)
  {
    RenumberedApart(v, a, i);
    assert SameFile(a, w, i);
    ApartThrough(v, a, w, {i}, {d}, {i, d});
  }

  /** The count is raised, and then lowered again. */
  lemma LinkUndone(v: Vol, a: Vol, w: Vol, i: nat)
    requires Renumbered(v, a, i) && a.ino[i] == v.ino[i].(nlink := v.ino[i].nlink + 1)
    requires Renumbered(a, w, i) && w.ino[i] == a.ino[i].(nlink := a.ino[i].nlink - 1)
    ensures w == v
  {
    assert w.ino == v.ino;
  }

  /** From the raised count on: the entry is made, or the count lowered again. */
  ghost predicate Tried(v: Vol, v': Vol, t: L.Tree, t': L.Tree, i: nat, d: int, s: Name, r: int)
    requires i < |t.ino|
  {
    if r == 0 then
      && 0 <= d < |v.ino| && d != i && Apart(v, v', {d}) && Regrown(v.ino[d], v'.ino[d], 0)
      && t' == t.(ent := t.ent[L.Key(d, NameOf(s)) := i])
    else
      && Renumbered(v, v', i) && v'.ino[i] == v.ino[i].(nlink := v.ino[i].nlink - 1)
      && t' == L.Bump(t, i, -1)
  }

  lemma LinkDoneIn(v: Vol, a: Vol, w: Vol, t: L.Tree, t': L.Tree, i: nat, d: int, s: Name, r: int)
    requires Renumbered(v, a, i) && a.ino[i] == v.ino[i].(nlink := v.ino[i].nlink + 1)
    requires i < |t.ino| && Tried(a, w, t, t', i, d, s, r)
    ensures LinkDone(v, w, t', i, d, s, r)
  {
    if r == 0 { LinkParts(v, a, w, i, d); } else { LinkUndone(v, a, w, i); }
  }

  /** Directory d has no room for another entry. */
  ghost predicate NoRoom(v: Vol, d: int) { 0 <= d < |v.ino| && v.ino[d].size + DESIZE > MAXFILE * BSIZE }

  /** What sys_unlink returns: 0 with the entry gone and the link counted off, or -1 with nothing changed. */
  ghost predicate Unlinked(v: Vol, v': Vol, t: L.Tree, t': L.Tree, k: L.Key, r: int) {
    || (r == 0 && k in t.ent && k !in t'.ent && UnlinkMade(v, v', t.ent[k], k.dir))
    || (r == -1 && t' == t && v' == v)
  }

  /** The entry is cleared, and the counts of the directory and of the inode follow. */
  lemma UnlinkParts(v: Vol, a: Vol, b: Vol, w: Vol, i: nat, d: nat)
    requires i != d && i < |v.ino| && d < |v.ino| && Apart(v, a, {d}) && Regrown(v.ino[d], a.ino[d], 0)
    requires if v.ino[i].typ == T_DIR then Renumbered(a, b, d) && b.ino[d] == a.ino[d].(nlink := a.ino[d].nlink - 1)
             else b == a
    requires Renumbered(b, w, i) && w.ino[i] == b.ino[i].(nlink := b.ino[i].nlink - 1)
    ensures UnlinkMade(v, w, i, d)
  {
    assert SameFile(v, a, i);
    assert Apart(a, b, {d}) && SameFile(a, b, i) by { if v.ino[i].typ == T_DIR { RenumberedApart(a, b, d); } }
    RenumberedApart(b, w, i);
    ApartThrough(v, a, b, {d}, {d}, {d});
    ApartThrough(v, b, w, {d}, {i}, {i, d});
  }

  /** unlink's cases, for a name that is no dot: what ilock and the test of nlink would panic on does not occur. */
  ghost predicate UnlinkCases(t: L.Tree, d: nat, x: L.Name) {
    && L.IsDir(t, d)
    && if L.Key(d, x) !in t.ent then Stepped(t, t, L.Unlink(d, x))
       else
         var i := t.ent[L.Key(d, x)];
         && i < |t.ino| && t.ino[i].typ != 0 && t.ino[i].nlink >= 1
         && if t.ino[i].typ == T_DIR && !L.Empty(t.ent, i) then Stepped(t, t, L.Unlink(d, x))
            else i != d && Stepped(t, L.DoUnlink(t, d, x), L.Unlink(d, x))
  }

  lemma StepsInv(t: L.Tree, t': L.Tree, e: L.Event)
    requires L.Inv(t) && Stepped(t, t', e) && L.Safe(t, e)
    ensures L.Inv(t')
  {
    L.StepInv(t, e);
  }

  lemma UnlinkSteps(t: L.Tree, d: nat, x: L.Name)
    requires L.Inv(t) && L.IsDir(t, d) && !L.Dotty(x)
    ensures UnlinkCases(t, d, x)
  {
    if L.Key(d, x) in t.ent {
      L.NlinkPositive(t, d, x);
      var i := t.ent[L.Key(d, x)];
      if t.ino[i].typ == T_DIR && L.Empty(t.ent, i) { L.EmptyDirNamedOnce(t, d, x); }
    }
  }

  lemma CutDots()
    ensures Cut(DOT) == DOT && Cut(DOTDOT) == DOTDOT
  {
    CutFirst(DOT, 1);
    CutFirst(DOTDOT, 2);
  }

  // What create promises.

  /** ialloc finds no inode. */
  ghost predicate NoInode(v: Vol) { forall i :: 1 <= i < |v.ino| ==> v.ino[i].typ != 0 }

  /** The inode ialloc finds. */
  ghost predicate FirstFree(v: Vol, i: nat) {
    1 <= i < |v.ino| && v.ino[i].typ == 0 && forall j :: 1 <= j < i ==> v.ino[j].typ != 0
  }

  ghost predicate NewInode(d: Dinode, typ: int, major: int, minor: int) {
    d == Dinode(typ, major, minor, 1, 0, d.addrs) && Blank(d.addrs)
  }

  /** Why create panics in directory d: the name's inode has no type, there is no inode or no room for the entry. */
  ghost predicate CreateFails(v: Vol, t: L.Tree, d: int, x: L.Name) {
    || (0 <= d && L.Key(d, x) in t.ent && t.ent[L.Key(d, x)] < |v.ino| && v.ino[t.ent[L.Key(d, x)]].typ == 0)
    || NoInode(v) || NoRoom(v, d)
  }

  /** What create returns: the file that has the name, 0 for another, or a new inode that now has it. */
  ghost predicate Created(v: Vol, v': Vol, t: L.Tree, t': L.Tree, k: L.Key, typ: int, major: int, minor: int, r: nat) {
    if k in t.ent then
      var i := t.ent[k];
      t' == t && v' == v && i < |v.ino| && r == if typ == T_FILE && v.ino[i].typ == T_FILE then i else 0
    else
      && FirstFree(v, r) && Stepped(t, t', L.Create(k.dir, k.name, typ, r))
      && k in t'.ent && t'.ent[k] == r && NodeMade(v, v', r, k.dir, typ, major, minor)
  }

  /** The inode is made, and then put in its place. */
  lemma CreateParts(v: Vol, a: Vol, w: Vol, i: nat, d: nat, typ: int, major: int, minor: int)
    requires i != d && i < |v.ino| && d < |v.ino| && OthersSame(v, a, i) && NewInode(a.ino[i], typ, major, minor)
    requires NewPlaced(a, w, i, d)
    ensures NodeMade(v, w, i, d, typ, major, minor)
  {
    assert Apart(v, a, {i}) && SameFile(v, a, d);
    ApartThrough(v, a, w, {i}, {i, d}, {i, d});
  }

  /** What entering a new inode i in directory d does to the records. */
  ghost predicate NewPlaced(v: Vol, v': Vol, i: nat, d: nat) {
    && i < |v.ino| && d < |v.ino| && Apart(v, v', {i, d})
    && (if v.ino[i].typ == T_DIR then Regrown(v.ino[i], v'.ino[i], 0) else v'.ino[i] == v.ino[i])
    && Regrown(v.ino[d], v'.ino[d], if v.ino[i].typ == T_DIR then 1 else 0)
  }

  /** The tree once inode ip, new and with one link, is entered in dp. */
  ghost function Placed(t: L.Tree, dp: nat, x: L.Name, typ: int, ip: nat): (r: L.Tree)
    requires dp < |t.ino|
  {
    var u := if typ == T_DIR then L.Bump(t, dp, 1).(ent := WithDots(t.ent, ip, dp), place := t.place[ip := x]) else t;
    u.(ent := u.ent[L.Key(dp, x) := ip])
  }

  lemma MadeOthers(v: Vol, v': Vol, i: nat)
    requires i < |v.ino| && |v'.ino| == |v.ino| && v' == v.(ino := v.ino[i := v'.ino[i]])
    ensures OthersSame(v, v', i)
  {
    forall j: nat | j < |v.ino| && j != i ensures SameFile(v, v', j) {
      forall x: nat ensures ByteAt(v', j, x) == ByteAt(v, j, x) { }
    }
  }

  class Sys {
    const fs: Fs
    ghost var tree: L.Tree

    ghost function Disk(): (v: Vol)
      reads fs
    {
      Vol(fs.lay, fs.ino, fs.blk)
    }

    ghost predicate Fit(ex: set<nat>)
      reads this, fs
    {
      Fits(Disk(), fs.bk, tree, ex)
    }

    /** The volume stands for the tree, and every link count is right. */
    ghost predicate Valid()
      reads this, fs
    {
      Fit({}) && L.Inv(tree)
    }

    constructor (fs: Fs, ghost tree: L.Tree)
      requires Fits(Vol(fs.lay, fs.ino, fs.blk), fs.bk, tree, {}) && L.Inv(tree)
      ensures this.fs == fs && this.tree == tree && Valid()
    {
      this.fs, this.tree := fs, tree;
    }

    /** The in-memory inode agrees with its copy on disk. */
    ghost predicate Synced(ip: Inode)
      reads fs, ip
    {
      ip.inum < |fs.ino| && ip.d == fs.ino[ip.inum]
    }

    lemma SyncedView(ip: Inode)
      requires Synced(ip)
      ensures fs.View(ip) == Disk()
    {
      assert fs.ino[ip.inum := ip.d] == fs.ino;
    }

    lemma SyncedDir(ip: Inode, ex: set<nat>)
      requires Fit(ex) && Synced(ip) && Whole(Disk(), ex, ip.inum)
      ensures fs.View(ip) == Disk() && DirOk(fs, ip) && Listing(Entries(fs, ip), |fs.ino|)
    {
      SyncedView(ip);
      assert DirStands(Disk(), tree.ent, ip.inum);
    }

    /** ip->nlink += n; iupdate(ip). */
    method Count(ip: Inode, n: int, ghost ex: set<nat>)
      requires Fit(ex) && Synced(ip)
      modifies this`tree, fs`ino, ip`d
      ensures Fit(ex) && Synced(ip) && Renumbered(old(Disk()), Disk(), ip.inum) && |tree.ino| == |fs.ino|
      ensures ip.d == old(ip.d).(nlink := old(ip.d.nlink) + n)
      ensures old(|tree.ino| == |fs.ino|) && tree == old(L.Bump(tree, ip.inum, n))
    {
      ghost var v, t := Disk(), tree;
      assert NodeIs(v, t, ip.inum);
      ip.d := ip.d.(nlink := ip.d.nlink + n);
      ghost var v' := v.(ino := v.ino[ip.inum := ip.d]);
      tree := L.Bump(tree, ip.inum, n);
      RenumberedFits(v, v', fs.bk, t, tree, ex, ip.inum);
      fs.Iupdate(ip);
    }

    /** dirlink(), seen on the volume. */
    method EnterBytes(dp: Inode, s: Name, inum: nat) returns (r: int, ok: bool)
      requires DirOk(fs, dp) && fs.View(dp) == Disk() && 0 < inum < NINUM && s == Cut(s)
      modifies fs`blk, fs`bk, fs`ino, dp`d
      ensures r == 0 || r == -1
      ensures r == -1 <==> s in old(DirMap(Disk(), dp.inum))
      ensures r == -1 ==> ok && Disk() == old(Disk()) && fs.bk == old(fs.bk) && dp.d == old(dp.d)
      ensures r == 0 && ok ==> Inv(Disk(), fs.bk) && Gained(old(Disk()), Disk(), dp.inum, s, inum) && Synced(dp)
      ensures r == 0 && ok ==> Regrown(old(dp.d), dp.d, 0)
      ensures !ok ==> fs.Full() || old(dp.d.size) + DESIZE > MAXFILE * BSIZE
    {
      ghost var v, d := Disk(), Entries(fs, dp);
      r, ok := Dirlink(fs, dp, s, inum);
      if r == 0 && ok {
        SyncedView(dp);
        ghost var v', e := Disk(), Entries(fs, dp);
        assert Rewritten(v, v', dp.inum);
        assert Names(e) == Names(d)[s := inum] by { LinkedIs(Names(d), s, inum); }
      }
    }

    /** dirlink(), and what it does to the tree. */
    method Enter(dp: Inode, s: Name, inum: nat, ghost ex: set<nat>) returns (r: int, ok: bool)
      requires Fit(ex) && Synced(dp) && Whole(Disk(), ex, dp.inum) && 0 < inum < |fs.ino| && s == Cut(s)
      modifies this`tree, fs`blk, fs`bk, fs`ino, dp`d
      ensures r == 0 || r == -1
      ensures r == -1 <==> L.Key(dp.inum, NameOf(s)) in old(tree.ent)
      ensures r == -1 ==> ok && Fit(ex) && tree == old(tree) && Disk() == old(Disk()) && dp.d == old(dp.d)
      ensures r == 0 && ok ==> Fit(ex) && tree == old(tree).(ent := old(tree.ent)[L.Key(dp.inum, NameOf(s)) := inum])
      ensures r == 0 && ok ==> Apart(old(Disk()), Disk(), {dp.inum}) && Regrown(old(dp.d), dp.d, 0) && Synced(dp)
      ensures !ok ==> fs.Full() || old(dp.d.size) + DESIZE > MAXFILE * BSIZE
    {
      ghost var v, t, bk := Disk(), tree, fs.bk;
      SyncedDir(dp, ex);
      EntryIs(v, t, ex, dp.inum, s);
      r, ok := EnterBytes(dp, s, inum);
      if r == 0 && ok {
        tree := t.(ent := t.ent[L.Key(dp.inum, NameOf(s)) := inum]);
        AddedFits(v, Disk(), bk, fs.bk, t, tree, ex, dp.inum, s, inum);
      }
    }

    /** unlink's erasing of entry k, whose name is s. */
    method ClearBytes(dp: Inode, k: nat, s: Name)
      requires DirOk(fs, dp) && fs.View(dp) == Disk() && k < |Entries(fs, dp)| && Live(Entries(fs, dp), k)
      requires s == Cut(Entries(fs, dp)[k].name) && s != DOT && s != DOTDOT
      modifies fs`blk, fs`bk, fs`ino, dp`d
      ensures Inv(Disk(), fs.bk) && Rewritten(old(Disk()), Disk(), dp.inum) && Synced(dp)
      ensures HoleFree(Disk(), dp.inum) && fs.ino[dp.inum].size % DESIZE == 0 && Regrown(old(dp.d), dp.d, 0)
      ensures Cleared(old(Entries(fs, dp)), Decode(Content(Disk(), dp.inum)), k, s)
    {
      Erase(fs, dp, k);
      SyncedView(dp);
    }

    method Clear(dp: Inode, k: nat, s: Name)
      requires Fit({}) && Synced(dp) && Whole(Disk(), {}, dp.inum) && s != DOT && s != DOTDOT
      requires k < |Entries(fs, dp)| && Live(Entries(fs, dp), k) && s == Cut(Entries(fs, dp)[k].name)
      modifies this`tree, fs`blk, fs`bk, fs`ino, dp`d
      ensures Fit({}) && Synced(dp) && Rewritten(old(Disk()), Disk(), dp.inum) && Regrown(old(dp.d), dp.d, 0)
      ensures tree == old(tree).(ent := old(tree.ent) - {L.Key(dp.inum, NameOf(s))})
    {
      ghost var v, t, bk := Disk(), tree, fs.bk;
      SyncedDir(dp, {});
      ClearBytes(dp, k, s);
      tree := t.(ent := t.ent - {L.Key(dp.inum, NameOf(s))});
      RemovedFits(v, Disk(), bk, fs.bk, t, tree, dp.inum, k, s);
    }

    // ------------------------------------------------------------- sys_link

    /** sys_link() of the old path to the new one; !ok stands for a panic. */
    method SysLink(cwd: nat, from: Name, to: Name) returns (r: int, ok: bool)
      requires Fit({}) && NoNul(from) && NoNul(to) && 0 < cwd < |fs.ino|
      modifies this`tree, fs`blk, fs`bk, fs`ino
      ensures Tree(old(Disk())) && (ok ==> Fit({}))
      ensures
        var v := old(Disk());
        var i, d := Leads(v, cwd, from, false), Leads(v, cwd, to, true);
        if !ok then
          Bad(v, cwd, from) || Bad(v, cwd, to) || (i != -1 && v.ino[i].typ == 0) || fs.Full() || NoRoom(v, d)
        else if i == -1 then r == -1 && tree == old(tree) && Disk() == v
        else
          && Stepped(old(tree), tree, LinkEvent(i, d, Last(to)))
          && r == (if d != -1 && v.ino[i].typ != T_DIR && L.Key(d, NameOf(Last(to))) !in old(tree.ent) then 0 else -1)
          && LinkDone(v, Disk(), tree, i, d, Last(to), r)
    {
      ghost var v, t := Disk(), tree;
      FitsTree(v, t);
      LeadsDir(v, t, cwd, to);
      var i, name;
      i, name, ok := Namex(fs, cwd, from, false);
      if !ok { return -1, false; }
      if i == -1 { return -1, true; }
      if fs.ino[i].typ == 0 { return -1, false; }
      assert NodeIs(v, t, i);
      if fs.ino[i].typ == T_DIR { return -1, true; }
      ResolveNonzero(v, t, Start(from, cwd), Components(from));
      var ip := new Inode(i, fs.ino[i]);
      r, ok := LinkTo(ip, cwd, to);
    }

    /** sys_link() from the old path's inode on. */
    method LinkTo(ip: Inode, cwd: nat, to: Name) returns (r: int, ok: bool)
      requires Fit({}) && Synced(ip) && ip.inum != 0 && ip.d.typ != 0 && ip.d.typ != T_DIR && NoNul(to)
      requires 0 < cwd < |fs.ino|
      modifies this`tree, fs`blk, fs`bk, fs`ino, ip`d
      ensures Tree(old(Disk())) && (ok ==> Fit({}))
      ensures
        var v := old(Disk());
        var d := Leads(v, cwd, to, true);
        if !ok then Bad(v, cwd, to) || fs.Full() || NoRoom(v, d)
        else
          && Stepped(old(tree), tree, LinkEvent(ip.inum, d, Last(to)))
          && r == (if d != -1 && L.Key(d, NameOf(Last(to))) !in old(tree.ent) then 0 else -1)
          && LinkDone(v, Disk(), tree, ip.inum, d, Last(to), r)
    {
      ghost var v, t := Disk(), tree;
      FitsTree(v, t);
      LeadsDir(v, t, cwd, to);
      assert NodeIs(v, t, ip.inum);
      Count(ip, 1, {});
      ghost var v1, t1 := Disk(), tree;
      FitsTree(v1, t1);
      FoundSame(v, v1, ip.inum, Start(to, cwd), Components(to), true);
      L.Rollback(t, ip.inum);
      r, ok := LinkRaised(ip, cwd, to);
      if ok { LinkDoneIn(v, v1, Disk(), t1, tree, ip.inum, Leads(v, cwd, to, true), Last(to), r); }
    }

    /** sys_link() once the count is raised. */
    method LinkRaised(ip: Inode, cwd: nat, to: Name) returns (r: int, ok: bool)
      requires Fit({}) && Synced(ip) && ip.inum != 0 && ip.d.typ != T_DIR && NoNul(to) && 0 < cwd < |fs.ino|
      modifies this`tree, fs`blk, fs`bk, fs`ino, ip`d
      ensures Tree(old(Disk())) && (ok ==> Fit({}) && old(|tree.ino| == |fs.ino|))
      ensures
        var d := Leads(old(Disk()), cwd, to, true);
        if !ok then Bad(old(Disk()), cwd, to) || fs.Full() || NoRoom(old(Disk()), d)
        else
          && r == (if d != -1 && L.Key(d, NameOf(Last(to))) !in old(tree.ent) then 0 else -1)
          && Tried(old(Disk()), Disk(), old(tree), tree, ip.inum, d, Last(to), r)
    {
      ghost var v, t := Disk(), tree;
      FitsTree(v, t);
      LeadsDir(v, t, cwd, to);
      var d, name;
      d, name, ok := Namex(fs, cwd, to, true);
      if !ok { return -1, false; }
      if d == -1 {
        Count(ip, -1, {});
        return -1, true;
      }
      r, ok := LinkIn(ip, d, name);
    }

    /** sys_link() with both paths resolved and the count raised. */
    method LinkIn(ip: Inode, d: nat, name: Name) returns (r: int, ok: bool)
      requires Fit({}) && Synced(ip) && ip.inum != 0 && ip.d.typ != T_DIR && Whole(Disk(), {}, d) && name == Cut(name)
      modifies this`tree, fs`blk, fs`bk, fs`ino, ip`d
      ensures ok ==> Fit({}) && old(|tree.ino| == |fs.ino|)
      ensures r == if L.Key(d, NameOf(name)) in old(tree.ent) then -1 else 0
      ensures ok && r == -1 ==> tree == old(L.Bump(tree, ip.inum, -1)) && Renumbered(old(Disk()), Disk(), ip.inum)
      ensures ok && r == -1 ==> fs.ino[ip.inum] == old(ip.d).(nlink := old(ip.d.nlink) - 1)
      ensures ok && r == 0 ==> d != ip.inum && d < |fs.ino| && Apart(old(Disk()), Disk(), {d})
      ensures ok && r == 0 ==> Regrown(old(fs.ino)[d], fs.ino[d], 0)
      ensures ok && r == 0 ==> tree == old(tree).(ent := old(tree.ent)[L.Key(d, NameOf(name)) := ip.inum])
      ensures !ok ==> fs.Full() || old(NoRoom(Disk(), d))
    {
      var dp := new Inode(d, fs.ino[d]);
      r, ok := Enter(dp, name, ip.inum, {});
      if r < 0 { Count(ip, -1, {}); }
    }

    // ----------------------------------------------------------- sys_unlink

    /** sys_unlink(): of its panics only ilock's can happen, on the way to the directory. */
    method SysUnlink(cwd: nat, path: Name) returns (r: int, ok: bool)
      requires Valid() && NoNul(path) && 0 < cwd < |fs.ino|
      modifies this`tree, fs`blk, fs`bk, fs`ino
      ensures Tree(old(Disk())) && Valid()
      ensures
        var v := old(Disk());
        var d := Leads(v, cwd, path, true);
        if !ok then Bad(v, cwd, path)
        else if d == -1 then r == -1 && tree == old(tree) && Disk() == v
        else
          && Stepped(old(tree), tree, L.Unlink(d, NameOf(Last(path))))
          && Unlinked(v, Disk(), old(tree), tree, L.Key(d, NameOf(Last(path))), r)
    {
      ghost var v, t := Disk(), tree;
      FitsTree(v, t);
      LeadsDir(v, t, cwd, path);
      var d, name;
      d, name, ok := Namex(fs, cwd, path, true);
      if !ok { return -1, false; }
      if d == -1 { return -1, true; }
      r := RemoveName(d, name);
    }

    /** sys_unlink() of a name in directory d. */
    method RemoveName(d: nat, name: Name) returns (r: int)
      requires Valid() && Whole(Disk(), {}, d) && L.IsDir(tree, d) && name == Cut(name)
      modifies this`tree, fs`blk, fs`bk, fs`ino
      ensures Valid() && Stepped(old(tree), tree, L.Unlink(d, NameOf(name)))
      ensures Unlinked(old(Disk()), Disk(), old(tree), tree, L.Key(d, NameOf(name)), r)
    {
      ghost var t := tree;
      var a := Namecmp(name, DOT);
      var b := Namecmp(name, DOTDOT);
      CutDots();
      NameText(name);
      if a == 0 || b == 0 { return -1; }
      assert UnlinkCases(tree, d, NameOf(name)) by { UnlinkSteps(tree, d, NameOf(name)); }
      r := Remove(d, name);
      StepsInv(t, tree, L.Unlink(d, NameOf(name)));
    }

    /** sys_unlink() of a name that is no dot, in directory d. */
    method Remove(d: nat, name: Name) returns (r: int)
      requires Fit({}) && Whole(Disk(), {}, d) && name == Cut(name) && name != DOT && name != DOTDOT
      requires UnlinkCases(tree, d, NameOf(name))
      modifies this`tree, fs`blk, fs`bk, fs`ino
      ensures Fit({}) && Stepped(old(tree), tree, L.Unlink(d, NameOf(name)))
      ensures Unlinked(old(Disk()), Disk(), old(tree), tree, L.Key(d, NameOf(name)), r)
    {
      var dp := new Inode(d, fs.ino[d]);
      var inum, k := FindEntry(dp, name, {});
      if inum == 0 { return -1; }
      r := RemoveEntry(dp, k, name, inum);
    }

    /** sys_unlink() of inode inum, found at entry k. */
    method RemoveEntry(dp: Inode, k: nat, name: Name, inum: nat) returns (r: int)
      requires Fit({}) && Synced(dp) && Whole(Disk(), {}, dp.inum) && name != DOT && name != DOTDOT && inum < |fs.ino|
      requires k < |Entries(fs, dp)| && Live(Entries(fs, dp), k) && name == Cut(Entries(fs, dp)[k].name)
      requires L.Key(dp.inum, NameOf(name)) in tree.ent && tree.ent[L.Key(dp.inum, NameOf(name))] == inum
      requires UnlinkCases(tree, dp.inum, NameOf(name))
      modifies this`tree, fs`blk, fs`bk, fs`ino, dp`d
      ensures Fit({}) && Stepped(old(tree), tree, L.Unlink(dp.inum, NameOf(name)))
      ensures Unlinked(old(Disk()), Disk(), old(tree), tree, L.Key(dp.inum, NameOf(name)), r)
    {
      ghost var v := Disk();
      assert NodeIs(v, tree, inum);
      var isdir := fs.ino[inum].typ == T_DIR;
      if isdir {
        var empty := CheckEmpty(inum);
        if !empty { return -1; }
        assert fs.View(dp) == v;
      }
      Drop(dp, k, name, inum, isdir);
      r := 0;
    }

    /** dirlookup(), and what it says of the tree. */
    method FindEntry(dp: Inode, name: Name, ghost ex: set<nat>) returns (inum: nat, k: nat)
      requires Fit(ex) && Synced(dp) && Whole(Disk(), ex, dp.inum) && name == Cut(name)
      modifies fs`blk, fs`bk, dp`d
      ensures Disk() == old(Disk()) && fs.bk == old(fs.bk) && dp.d == old(dp.d)
      ensures inum == 0 <==> L.Key(dp.inum, NameOf(name)) !in tree.ent
      ensures inum != 0 ==> inum < |fs.ino| && tree.ent[L.Key(dp.inum, NameOf(name))] == inum
      ensures inum != 0 ==>
                k < |Entries(fs, dp)| && Live(Entries(fs, dp), k) && Cut(Entries(fs, dp)[k].name) == name
    {
      ghost var v := Disk();
      SyncedDir(dp, ex);
      EntryIs(v, tree, ex, dp.inum, name);
      inum, k := Dirlookup(fs, dp, name);
      assert Disk() == v && fs.View(dp) == v;
    }

    /** isdirempty(), and what it says of the tree. */
    method CheckEmpty(i: nat) returns (r: bool)
      requires Fit({}) && Whole(Disk(), {}, i)
      modifies fs`blk, fs`bk
      ensures Disk() == old(Disk()) && fs.bk == old(fs.bk) && r == L.Empty(tree.ent, i)
    {
      ghost var v := Disk();
      var ip := new Inode(i, fs.ino[i]);
      SyncedDir(ip, {});
      OnlyEmpty(v, tree, i);
      r := Isdirempty(fs, ip);
      assert Disk() == v && fs.View(ip) == v;
    }

    /** The entry goes, and with it the links. */
    method Drop(dp: Inode, k: nat, name: Name, inum: nat, isdir: bool)
      requires Fit({}) && Synced(dp) && Whole(Disk(), {}, dp.inum) && name != DOT && name != DOTDOT
      requires k < |Entries(fs, dp)| && Live(Entries(fs, dp), k) && name == Cut(Entries(fs, dp)[k].name)
      requires inum < |fs.ino| && inum != dp.inum && isdir == (fs.ino[inum].typ == T_DIR)
      requires L.Key(dp.inum, NameOf(name)) in tree.ent && tree.ent[L.Key(dp.inum, NameOf(name))] == inum
      modifies this`tree, fs`blk, fs`bk, fs`ino, dp`d
      ensures Fit({}) && old(|tree.ino| == |fs.ino|) && tree == old(L.DoUnlink(tree, dp.inum, NameOf(name)))
      ensures UnlinkMade(old(Disk()), Disk(), inum, dp.inum)
    {
      ghost var v, t := Disk(), tree;
      assert NodeIs(v, t, inum);
      Clear(dp, k, name);
      ghost var a := Disk();
      assert SameFile(v, a, inum);
      if isdir { Count(dp, -1, {}); }
      ghost var b := Disk();
      var ip := new Inode(inum, fs.ino[inum]);
      Count(ip, -1, {});
      UnlinkParts(v, a, b, Disk(), inum, dp.inum);
    }

    // --------------------------------------------------------------- create

    /** create(): a new inode of the given type under the path's name, or the file that is there; 0 is failure. */
    method Create(cwd: nat, path: Name, typ: int, major: int, minor: int) returns (r: nat, ok: bool)
      requires Fit({}) && NoNul(path) && 0 < cwd < |fs.ino| && typ != 0
      modifies this`tree, fs`blk, fs`bk, fs`ino
      ensures Tree(old(Disk())) && (ok ==> Fit({}))
      ensures
        var v := old(Disk());
        var d := Leads(v, cwd, path, true);
        if !ok then Bad(v, cwd, path) || (d != -1 && CreateFails(v, old(tree), d, NameOf(Last(path)))) || fs.Full()
        else if d == -1 then r == 0 && tree == old(tree) && Disk() == v
        else Created(v, Disk(), old(tree), tree, L.Key(d, NameOf(Last(path))), typ, major, minor, r)
    {
      ghost var v, t := Disk(), tree;
      FitsTree(v, t);
      LeadsDir(v, t, cwd, path);
      var d, name;
      d, name, ok := Namex(fs, cwd, path, true);
      if !ok { return 0, false; }
      if d == -1 { return 0, true; }
      r, ok := CreateIn(d, name, typ, major, minor);
    }

    /** create() of a name in directory d. */
    method CreateIn(d: nat, name: Name, typ: int, major: int, minor: int) returns (r: nat, ok: bool)
      requires Fit({}) && Whole(Disk(), {}, d) && d != 0 && L.IsDir(tree, d) && name == Cut(name) && typ != 0
      modifies this`tree, fs`blk, fs`bk, fs`ino
      ensures if !ok then CreateFails(old(Disk()), old(tree), d, NameOf(name)) || fs.Full()
              else
                && Fit({})
                && Created(old(Disk()), Disk(), old(tree), tree, L.Key(d, NameOf(name)), typ, major, minor, r)
    {
      ghost var v, t := Disk(), tree;
      var dp := new Inode(d, fs.ino[d]);
      var inum, k := FindEntry(dp, name, {});
      if inum != 0 {
        assert NodeIs(v, t, inum);
        if fs.ino[inum].typ == 0 { return 0, false; }
        return if typ == T_FILE && fs.ino[inum].typ == T_FILE then inum else 0, true;
      }
      var ip;
      ip, ok := Make(typ, major, minor);
      if !ok { return 0, false; }
      r := ip.inum;
      ghost var a := Disk();
      assert NodeIs(v, t, r) && SameFile(v, a, d);
      ok := Place(dp, ip, name);
      if ok { CreateParts(v, a, Disk(), r, d, typ, major, minor); }
    }

    /** ialloc() of the new inode, with one link. */
    method Make(typ: int, major: int, minor: int) returns (ip: Inode, ok: bool)
      requires Fit({}) && typ != 0
      modifies this`tree, fs`ino
      ensures fresh(ip)
      ensures !ok ==> NoInode(old(Disk()))
      ensures ok ==> ip.inum < |fs.ino| && FirstFree(old(Disk()), ip.inum) && OthersSame(old(Disk()), Disk(), ip.inum)
      ensures ok ==> Fit(if typ == T_DIR then {ip.inum} else {}) && Synced(ip) && NewInode(ip.d, typ, major, minor)
      ensures ok ==> old(|tree.ino| == |fs.ino|) && tree == old(tree).(ino := old(tree.ino)[ip.inum := L.Node(typ, 1)])
    {
      ghost var v, t, bk := Disk(), tree, fs.bk;
      var inum;
      inum, ok := fs.Ialloc(typ);
      if !ok {
        ip := new Inode(0, fs.ino[0]);
        return;
      }
      ip := new Inode(inum, fs.ino[inum]);
      ghost var v1 := Disk();
      ip.d := ip.d.(major := major, minor := minor, nlink := 1);
      ghost var v2 := v.(ino := v.ino[inum := ip.d]);
      assert v2 == v1.(ino := v1.ino[inum := ip.d]);
      assert Inv(v2, bk) by { MetaKeeps(v1, bk, inum, ip.d, v2); }
      fs.Iupdate(ip);
      MadeOthers(v, v2, inum);
      EmptyDir(v2, inum);
      tree := t.(ino := t.ino[inum := L.Node(typ, 1)]);
      RemadeFits(v, v2, bk, bk, t, tree, {}, if typ == T_DIR then {inum} else {}, inum);
    }

    /** create() from the new inode on: the dots of a directory, and the entry in dp. */
    method Place(dp: Inode, ip: Inode, name: Name) returns (ok: bool)
      requires Synced(dp) && Synced(ip) && dp.inum != ip.inum && 0 < dp.inum && 0 < ip.inum && ip.d.size == 0
      requires Fit(if ip.d.typ == T_DIR then {ip.inum} else {}) && name == Cut(name)
      requires dp.d.typ == T_DIR && L.Key(dp.inum, NameOf(name)) !in tree.ent
      modifies this`tree, fs`blk, fs`bk, fs`ino, ip`d, dp`d
      ensures !ok ==> fs.Full() || NoRoom(old(Disk()), dp.inum)
      ensures ok ==> Fit({}) && old(|tree.ino| == |fs.ino|)
      ensures ok ==> tree == old(Placed(tree, dp.inum, NameOf(name), ip.d.typ, ip.inum))
      ensures ok ==> NewPlaced(old(Disk()), Disk(), ip.inum, dp.inum)
    {
      ok := true;
      ghost var v := Disk();
      if ip.d.typ == T_DIR {
        ok := PlaceDots(dp, ip, name);
        if !ok { return; }
      }
      ghost var a := Disk();
      var r;
      r, ok := Enter(dp, name, ip.inum, {});
      if ok {
        ApartThrough(v, a, Disk(), {ip.inum, dp.inum}, {dp.inum}, {ip.inum, dp.inum});
        assert SameFile(a, Disk(), ip.inum);
      }
    }

    /** create() of a directory up to its own entries: the parent's link, and the dots. */
    method PlaceDots(dp: Inode, ip: Inode, ghost name: Name) returns (ok: bool)
      requires Synced(dp) && Synced(ip) && dp.inum != ip.inum && 0 < dp.inum && 0 < ip.inum && ip.d.size == 0
      requires ip.d.typ == T_DIR && Fit({ip.inum})
      modifies this`tree, fs`blk, fs`bk, fs`ino, ip`d, dp`d
      ensures !ok ==> fs.Full()
      ensures ok ==> Fit({}) && old(|tree.ino| == |fs.ino|) && Synced(dp)
      ensures ok ==> NewPlaced(old(Disk()), Disk(), ip.inum, dp.inum)
      ensures ok ==> dp.d == old(dp.d).(nlink := old(dp.d.nlink) + 1)
      ensures ok ==> tree == old(L.Bump(tree, dp.inum, 1).(ent := WithDots(tree.ent, ip.inum, dp.inum),
                                                           place := tree.place[ip.inum := NameOf(name)]))
    {
      ghost var v := Disk();
      Count(dp, 1, {ip.inum});
      ghost var a := Disk();
      RenumberedApart(v, a, dp.inum);
      ok := PutDots(ip, dp.inum);
      if !ok { return; }
      assert SameFile(a, Disk(), dp.inum) && SameFile(v, a, ip.inum) && Apart(a, Disk(), {ip.inum});
      ApartThrough(v, a, Disk(), {dp.inum}, {ip.inum}, {ip.inum, dp.inum});
      ghost var t := tree;
      tree := t.(place := t.place[ip.inum := NameOf(name)]);
      PlaceFits(Disk(), fs.bk, t, tree, {});
    }

    /** The entries "." and ".." of a new directory. */
    method PutDots(ip: Inode, dp: nat) returns (ok: bool)
      requires Fit({ip.inum}) && Synced(ip) && 0 < ip.inum && 0 < dp < |fs.ino|
      requires ip.d.typ == T_DIR && ip.d.size == 0
      modifies this`tree, fs`blk, fs`bk, fs`ino, ip`d
      ensures !ok ==> fs.Full()
      ensures ok ==> Fit({}) && OthersSame(old(Disk()), Disk(), ip.inum) && Regrown(old(ip.d), fs.ino[ip.inum], 0)
      ensures ok ==> tree == old(tree.(ent := WithDots(tree.ent, ip.inum, dp)))
    {
      ghost var v, t, bk := Disk(), tree, fs.bk;
      SyncedView(ip);
      CutDots();
      EmptyDir(v, ip.inum);
      var r;
      r, ok := EnterBytes(ip, DOT, ip.inum);
      if !ok { return; }
      ghost var v1 := Disk();
      SyncedView(ip);
      OneEntry(v, v1, ip.inum);
      r, ok := EnterBytes(ip, DOTDOT, dp);
      if !ok { return; }
      tree := t.(ent := WithDots(t.ent, ip.inum, dp));
      DotsFits(v, v1, Disk(), bk, fs.bk, t, tree, ip.inum, dp);
    }

    // ----------------------------------------------------------------- iput

    /** iput(): the last reference to an inode without links is the step Free; any other changes nothing. */
    method Put(ip: Inode)
      requires Valid() && Synced(ip) && ip.refs >= 1 && ip.d.typ != 0
      requires ip.refs == 1 && ip.valid && ip.d.nlink == 0 ==> !ip.busy
      modifies this`tree, fs`blk, fs`bk, fs`ino, ip
      ensures Valid()
      ensures if old(ip.refs == 1 && ip.valid && ip.d.nlink == 0) then
                && Stepped(old(tree), tree, L.Free(ip.inum)) && Apart(old(Disk()), Disk(), {ip.inum})
                && fs.ino[ip.inum] == old(ip.d).(typ := 0, size := 0, addrs := ip.d.addrs) && Blank(ip.d.addrs)
              else tree == old(tree) && Disk() == old(Disk())
    {
      ghost var v, t, bk, last := Disk(), tree, fs.bk, ip.refs == 1 && ip.valid && ip.d.nlink == 0;
      SyncedView(ip);
      assert NodeIs(v, t, ip.inum);
      fs.Iput(ip);
      SyncedView(ip);
      if last {
        tree := L.DoFree(t, ip.inum);
        FreedFits(v, Disk(), bk, fs.bk, t, ip.inum);
        StepsInv(t, tree, L.Free(ip.inum));
      }
    }
  }
}
