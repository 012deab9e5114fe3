/**
  The tree of LinkModel that a volume stands for: its nodes are the inodes on
  disk and its entries are what the bytes of the directories decode to.
 */
module SysModel {
  import opened FsModel
  import opened FsSteps
  import opened FsImpl
  import opened DirModel
  import opened DirImpl
  import opened PathImpl
  import L = LinkModel

  const NINUM: nat := 0x1_0000   // inode numbers in directory entries have 16 bits

  // ---------------------------------------------------------------- names

  function NameOf(s: Name): (x: L.Name) {
    if s == DOT then L.Dot else if s == DOTDOT then L.DotDot else L.Word(s)
  }

  function TextOf(x: L.Name): (s: Name) {
    match x
    case Dot => DOT
    case DotDot => DOTDOT
    case Word(text) => text
  }

  predicate Canon(x: L.Name) { NameOf(TextOf(x)) == x }

  lemma NameText(s: Name)
    ensures TextOf(NameOf(s)) == s && Canon(NameOf(s))
    ensures L.Dotty(NameOf(s)) <==> s == DOT || s == DOTDOT
  {
    assert |DOT| != |DOTDOT|;
  }

  // ---------------------------------------------------------- abstraction

  ghost predicate EntIs(m: map<Name, nat>, ent: map<L.Key, nat>, d: nat, x: L.Name) {
    var k := L.Key(d, x);
    (k in ent <==> Canon(x) && TextOf(x) in m) && (k in ent && TextOf(x) in m ==> ent[k] == m[TextOf(x)])
  }

  /** The entries of ent in directory d are those of the map m. */
  ghost predicate DirIs(m: map<Name, nat>, ent: map<L.Key, nat>, d: nat) {
    forall x: L.Name :: EntIs(m, ent, d, x)
  }

  ghost predicate NodeIs(v: Vol, t: L.Tree, i: nat)
    requires i < |v.ino| && i < |t.ino|
  {
    t.ino[i] == L.Node(v.ino[i].typ, v.ino[i].nlink)
  }

  /** Entries as create leaves them: distinct names, the two dots in front, inode numbers below n. */
  ghost predicate Listing(e: seq<Dirent>, n: nat) {
    Unique(e) && HasDots(e) && forall s :: s in Names(e) ==> 0 < Names(e)[s] < n
  }

  ghost predicate DirGood(v: Vol, d: nat)
    requires d < |v.ino|
  {
    HoleFree(v, d) && v.ino[d].size % DESIZE == 0 && Listing(Decode(Content(v, d)), |v.ino|)
  }

  /** d is a directory, and a whole one. */
  ghost predicate Whole(v: Vol, ex: set<nat>, d: nat) { d < |v.ino| && v.ino[d].typ == T_DIR && d !in ex }

  ghost predicate KeyIn(v: Vol, ex: set<nat>, k: L.Key) { Whole(v, ex, k.dir) }

  ghost predicate DirStands(v: Vol, ent: map<L.Key, nat>, d: nat)
    requires d < |v.ino|
  {
    DirGood(v, d) && DirIs(DirMap(v, d), ent, d)
  }

  /** t is what the volume stands for; the directories in ex are still being made. */
  ghost predicate Stands(v: Vol, t: L.Tree, ex: set<nat>) {
    && |t.ino| == |v.ino|
    && (forall i: nat :: i < |v.ino| ==> NodeIs(v, t, i))
    && (forall d: nat {:trigger DirStands(v, t.ent, d)} :: Whole(v, ex, d) ==> DirStands(v, t.ent, d))
    && (forall k {:trigger KeyIn(v, ex, k)} :: k in t.ent ==> KeyIn(v, ex, k))
  }

  /** The volume's own invariant, and the tree it stands for. */
  ghost predicate Fits(v: Vol, bk: Books, t: L.Tree, ex: set<nat>) {
    Inv(v, bk) && FreeClean(v) && NoHoles(v) && Stands(v, t, ex) && 1 < |v.ino| <= NINUM
  }

  lemma FitsTree(v: Vol, t: L.Tree)
    requires Stands(v, t, {})
    ensures Tree(v)
  {
    forall d: nat | d < |v.ino| && v.ino[d].typ == T_DIR ensures DirShape(v, d) {
      assert Whole(v, {}, d) && DirStands(v, t.ent, d);
    }
  }

  /** The entry of a name: its key is there exactly when the directory's map has it. */
  lemma EntryIs(v: Vol, t: L.Tree, ex: set<nat>, d: nat, s: Name)
    requires Stands(v, t, ex) && Whole(v, ex, d)
    ensures L.Key(d, NameOf(s)) in t.ent <==> s in DirMap(v, d)
    ensures s in DirMap(v, d) ==>
              L.Key(d, NameOf(s)) in t.ent && t.ent[L.Key(d, NameOf(s))] == DirMap(v, d)[s] < |v.ino|
    ensures s in DirMap(v, d) ==> DirMap(v, d)[s] != 0
  {
    NameText(s);
    assert DirStands(v, t.ent, d) && EntIs(DirMap(v, d), t.ent, d, NameOf(s));
  }

  // ----------------------------------------------------- changing an inode

  /** An inode gets other fields, but the same type, size and addresses. */
  ghost predicate Renumbered(v: Vol, v': Vol, i: nat) {
    && i < |v.ino| == |v'.ino| && v' == v.(ino := v.ino[i := v'.ino[i]])
    && v'.ino[i].typ == v.ino[i].typ && v'.ino[i].size == v.ino[i].size && v'.ino[i].addrs == v.ino[i].addrs
  }

  lemma RenumberedContent(v: Vol, v': Vol, i: nat, j: nat)
    requires Renumbered(v, v', i) && j < |v.ino|
    ensures Content(v', j) == Content(v, j) && (HoleFree(v, j) ==> HoleFree(v', j))
  {
    forall x: nat ensures ByteAt(v', j, x) == ByteAt(v, j, x) { }
  }

  lemma RenumberedDir(v: Vol, v': Vol, ent: map<L.Key, nat>, i: nat, d: nat)
    requires Renumbered(v, v', i) && d < |v.ino| && DirStands(v, ent, d)
    ensures DirStands(v', ent, d)
  {
    RenumberedContent(v, v', i, d);
    assert Listing(Decode(Content(v', d)), |v'.ino|);
  }

  lemma RenumberedStands(v: Vol, v': Vol, t: L.Tree, t': L.Tree, ex: set<nat>, i: nat)
    requires Stands(v, t, ex) && Renumbered(v, v', i)
    requires t' == t.(ino := t.ino[i := t.ino[i].(nlink := v'.ino[i].nlink)])
    ensures Stands(v', t', ex)
  {
    forall j: nat | j < |v'.ino| ensures NodeIs(v', t', j) { assert NodeIs(v, t, j); }
    forall d: nat | Whole(v', ex, d) ensures DirStands(v', t'.ent, d) {
      assert Whole(v, ex, d) && DirStands(v, t.ent, d);
      RenumberedDir(v, v', t.ent, i, d);
    }
    forall k | k in t'.ent ensures KeyIn(v', ex, k) { assert KeyIn(v, ex, k); }
  }

  lemma RenumberedFits(v: Vol, v': Vol, bk: Books, t: L.Tree, t': L.Tree, ex: set<nat>, i: nat)
    requires Fits(v, bk, t, ex) && Renumbered(v, v', i)
    requires t' == t.(ino := t.ino[i := t.ino[i].(nlink := v'.ino[i].nlink)])
    ensures Fits(v', bk, t', ex)
  {
    assert Inv(v', bk) by { MetaKeeps(v, bk, i, v'.ino[i], v'); }
    assert Stands(v', t', ex) by { RenumberedStands(v, v', t, t', ex, i); }
    forall j: nat | j < |v'.ino| ensures HoleFree(v', j) { RenumberedContent(v, v', i, j); }
  }

  // ------------------------------------------------- records and bytes

  /** Every inode outside s has the record and the bytes it had. */
  ghost predicate Apart(v: Vol, v': Vol, s: set<nat>) {
    |v'.ino| == |v.ino| && forall j: nat :: j < |v.ino| && j !in s ==> SameFile(v, v', j)
  }

  lemma ApartThrough(v: Vol, a: Vol, w: Vol, s: set<nat>, t: set<nat>, u: set<nat>)
    requires Apart(v, a, s) && Apart(a, w, t) && s <= u && t <= u
    ensures Apart(v, w, u)
  {
    forall j: nat | j < |v.ino| && j !in u ensures SameFile(v, w, j) { assert SameFile(v, a, j) && SameFile(a, w, j); }
  }

  lemma RenumberedApart(v: Vol, v': Vol, i: nat)
    requires Renumbered(v, v', i)
    ensures Apart(v, v', {i}) && Content(v', i) == Content(v, i)
  {
    forall j: nat | j < |v.ino| ensures Content(v', j) == Content(v, j) && (HoleFree(v, j) ==> HoleFree(v', j)) {
      RenumberedContent(v, v', i, j);
    }
  }

  /** A record that differs by n links, and in size and addresses. */
  ghost predicate Regrown(d: Dinode, d': Dinode, n: int) {
    d' == d.(nlink := d.nlink + n, size := d'.size, addrs := d'.addrs)
  }

  /** link: inode i has one more link, directory d another entry; no other record and no other bytes change. */
  ghost predicate LinkMade(v: Vol, v': Vol, i: nat, d: nat) {
    && i < |v.ino| && d < |v.ino| && i != d && Apart(v, v', {i, d})
    && v'.ino[i] == v.ino[i].(nlink := v.ino[i].nlink + 1) && Content(v', i) == Content(v, i)
    && Regrown(v.ino[d], v'.ino[d], 0)
  }

  /** unlink: inode i has one link less, and so has d if i is a directory; no other record and no other bytes change. */
  ghost predicate UnlinkMade(v: Vol, v': Vol, i: nat, d: nat) {
    && i < |v.ino| && d < |v.ino| && i != d && Apart(v, v', {i, d})
    && v'.ino[i] == v.ino[i].(nlink := v.ino[i].nlink - 1) && Content(v', i) == Content(v, i)
    && Regrown(v.ino[d], v'.ino[d], if v.ino[i].typ == T_DIR then -1 else 0)
  }

  /**
    create: inode i has the type and the device numbers asked for, one link
    and, unless it is a directory, no bytes and no blocks; directory d has
    another entry, and another link if i is a directory; no other record and
    no other bytes change.
   */
  ghost predicate NodeMade(v: Vol, v': Vol, i: nat, d: nat, typ: int, major: int, minor: int) {
    && i < |v.ino| && d < |v.ino| && i != d && Apart(v, v', {i, d})
    && v'.ino[i] == Dinode(typ, major, minor, 1, v'.ino[i].size, v'.ino[i].addrs)
    && (typ != T_DIR ==> v'.ino[i].size == 0 && Blank(v'.ino[i].addrs))
    && Regrown(v.ino[d], v'.ino[d], if typ == T_DIR then 1 else 0)
  }

  // -------------------------------------------------- changing a directory

  lemma SameDir(v: Vol, v': Vol, d: nat)
    requires d < |v.ino| == |v'.ino| && SameFile(v, v', d) && DirGood(v, d)
    ensures DirGood(v', d) && DirMap(v', d) == DirMap(v, d)
  {
    assert Listing(Decode(Content(v', d)), |v'.ino|);
  }

  /** Only the bytes of inode dp differ, and its type and links are the same. */
  ghost predicate Rewritten(v: Vol, v': Vol, dp: nat) {
    && dp < |v.ino| && OthersSame(v, v', dp)
    && v'.ino[dp].typ == v.ino[dp].typ == T_DIR && v'.ino[dp].nlink == v.ino[dp].nlink
  }

  ghost predicate EntrySame(ent: map<L.Key, nat>, ent': map<L.Key, nat>, k: L.Key) {
    (k in ent' <==> k in ent) && (k in ent' && k in ent ==> ent'[k] == ent[k])
  }

  /** The entries outside directory dp are the same. */
  ghost predicate ElseSame(ent: map<L.Key, nat>, ent': map<L.Key, nat>, dp: nat) {
    forall k: L.Key :: k.dir != dp ==> EntrySame(ent, ent', k)
  }

  lemma PutElse(ent: map<L.Key, nat>, k: L.Key, i: nat)
    ensures ElseSame(ent, ent[k := i], k.dir) && ElseSame(ent, ent - {k}, k.dir)
  {
  }

  lemma RewrittenNode(v: Vol, v': Vol, t: L.Tree, t': L.Tree, dp: nat, j: nat)
    requires j < |v.ino| == |t.ino| && Rewritten(v, v', dp) && t'.ino == t.ino && NodeIs(v, t, j)
    ensures NodeIs(v', t', j)
  {
    if j != dp { assert SameFile(v, v', j); }
  }

  lemma OtherDir(v: Vol, v': Vol, t: L.Tree, ent: map<L.Key, nat>, ex: set<nat>, dp: nat, d: nat)
    requires Stands(v, t, ex) && Rewritten(v, v', dp) && ElseSame(t.ent, ent, dp) && Whole(v', ex, d) && d != dp
    ensures DirStands(v', ent, d)
  {
    assert SameFile(v, v', d);
    assert Whole(v, ex, d) && DirStands(v, t.ent, d);
    SameDir(v, v', d);
    forall x: L.Name ensures EntIs(DirMap(v', d), ent, d, x) {
      assert EntIs(DirMap(v, d), t.ent, d, x) && EntrySame(t.ent, ent, L.Key(d, x));
    }
  }

  lemma RewrittenKey(v: Vol, v': Vol, t: L.Tree, ent: map<L.Key, nat>, ex: set<nat>, dp: nat, k: L.Key)
    requires Stands(v, t, ex) && Rewritten(v, v', dp) && dp !in ex && ElseSame(t.ent, ent, dp) && k in ent
    ensures KeyIn(v', ex, k)
  {
    if k.dir != dp {
      assert EntrySame(t.ent, ent, k);
      assert KeyIn(v, ex, k) && SameFile(v, v', k.dir);
    }
  }

  /** Directory dp has been rewritten, and ent says how. */
  lemma RewrittenStands(v: Vol, v': Vol, t: L.Tree, ent: map<L.Key, nat>, ex: set<nat>, dp: nat)
    requires Stands(v, t, ex) && Rewritten(v, v', dp) && dp !in ex
    requires DirStands(v', ent, dp) && ElseSame(t.ent, ent, dp)
    ensures Stands(v', t.(ent := ent), ex)
  {
    var t' := t.(ent := ent);
    forall j: nat | j < |v'.ino| ensures NodeIs(v', t', j) {
      assert NodeIs(v, t, j);
      RewrittenNode(v, v', t, t', dp, j);
    }
    forall d: nat | Whole(v', ex, d) ensures DirStands(v', t'.ent, d) {
      if d != dp { OtherDir(v, v', t, ent, ex, dp, d); }
    }
    forall k | k in t'.ent ensures KeyIn(v', ex, k) { RewrittenKey(v, v', t, ent, ex, dp, k); }
  }

  lemma RewrittenClean(v: Vol, v': Vol, dp: nat)
    requires Rewritten(v, v', dp) && FreeClean(v)
    ensures FreeClean(v')
  {
    forall i | 0 <= i < |v'.ino| && v'.ino[i].typ == 0 ensures Blank(v'.ino[i].addrs) { assert SameFile(v, v', i); }
  }

  // A name is added.

  lemma PutIs(m: map<Name, nat>, ent: map<L.Key, nat>, d: nat, s: Name, i: nat)
    requires DirIs(m, ent, d)
    ensures DirIs(m[s := i], ent[L.Key(d, NameOf(s)) := i], d)
  {
    NameText(s);
    var m', ent' := m[s := i], ent[L.Key(d, NameOf(s)) := i];
    forall x: L.Name ensures EntIs(m', ent', d, x) { assert EntIs(m, ent, d, x); }
  }

  lemma CutIs(m: map<Name, nat>, ent: map<L.Key, nat>, d: nat, s: Name)
    requires DirIs(m, ent, d)
    ensures DirIs(m - {s}, ent - {L.Key(d, NameOf(s))}, d)
  {
    NameText(s);
    var m', ent' := m - {s}, ent - {L.Key(d, NameOf(s))};
    forall x: L.Name ensures EntIs(m', ent', d, x) { assert EntIs(m, ent, d, x); }
  }

  /** Filling the first empty place leaves the dots in front. */
  lemma FilledDots(d: seq<Dirent>, e: seq<Dirent>)
    requires HasDots(d) && Filled(d, e)
    ensures HasDots(e)
  {
    assert FreeSlot(d, 0) == FreeSlot(d, 1) == FreeSlot(d, 2);
  }

  lemma AddedListing(d: seq<Dirent>, e: seq<Dirent>, n: nat, s: Name, i: nat)
    requires Listing(d, n) && Unique(e) && Filled(d, e) && Names(e) == Names(d)[s := i] && 0 < i < n
    ensures Listing(e, n)
  {
    FilledDots(d, e);
  }

  lemma AddedStands(v: Vol, v': Vol, t: L.Tree, ex: set<nat>, dp: nat, s: Name, i: nat)
    requires Stands(v, t, ex) && Rewritten(v, v', dp) && dp !in ex
    requires DirGood(v', dp) && DirMap(v', dp) == DirMap(v, dp)[s := i]
    ensures Stands(v', t.(ent := t.ent[L.Key(dp, NameOf(s)) := i]), ex)
  {
    assert Whole(v, ex, dp) && DirStands(v, t.ent, dp);
    PutIs(DirMap(v, dp), t.ent, dp, s, i);
    PutElse(t.ent, L.Key(dp, NameOf(s)), i);
    RewrittenStands(v, v', t, t.ent[L.Key(dp, NameOf(s)) := i], ex, dp);
  }

  lemma LinkedIs(m: map<Name, nat>, s: Name, i: nat)
    requires 0 < i < NINUM && s == Cut(s)
    ensures Linked(m, s, i) == m[s := i]
  {
  }

  /** What dirlink promises of directory dp in v' against v. */
  ghost predicate Gained(v: Vol, v': Vol, dp: nat, s: Name, i: nat) {
    && Rewritten(v, v', dp) && HoleFree(v', dp) && v'.ino[dp].size % DESIZE == 0
    && var d, e := Decode(Content(v, dp)), Decode(Content(v', dp));
       Unique(e) && Filled(d, e) && Names(e) == Names(d)[s := i]
  }

  lemma AddedFits(v: Vol, v': Vol, bk: Books, bk': Books, t: L.Tree, t': L.Tree, ex: set<nat>, dp: nat, s: Name, i: nat)
    requires Fits(v, bk, t, ex) && Inv(v', bk') && Whole(v, ex, dp) && 0 < i < |v.ino| && Gained(v, v', dp, s, i)
    requires t' == t.(ent := t.ent[L.Key(dp, NameOf(s)) := i])
    ensures Fits(v', bk', t', ex)
  {
    assert DirStands(v, t.ent, dp);
    AddedListing(Decode(Content(v, dp)), Decode(Content(v', dp)), |v.ino|, s, i);
    assert Stands(v', t', ex) by { AddedStands(v, v', t, ex, dp, s, i); }
    RewrittenClean(v, v', dp);
    HolesKept(v, v', dp);
  }

  // A name is removed.

  lemma ErasedDots(d: seq<Dirent>, k: nat, de: Dirent)
    requires HasDots(d) && k < |d| && Cut(d[k].name) != DOT && Cut(d[k].name) != DOTDOT
    ensures HasDots(d[k := de])
  {
    assert k != 0 && k != 1;
  }

  /** Entry k of d, whose name s is no dot, is cleared in e. */
  ghost predicate Cleared(d: seq<Dirent>, e: seq<Dirent>, k: nat, s: Name) {
    && k < |d| && e == d[k := Blankent()] && Unique(e)
    && s == Cut(d[k].name) && s != DOT && s != DOTDOT && Names(e) == Names(d) - {s}
  }

  lemma RemovedListing(d: seq<Dirent>, e: seq<Dirent>, n: nat, k: nat, s: Name)
    requires Listing(d, n) && Cleared(d, e, k, s)
    ensures Listing(e, n)
  {
    ErasedDots(d, k, Blankent());
  }

  lemma RemovedStands(v: Vol, v': Vol, t: L.Tree, dp: nat, s: Name)
    requires Stands(v, t, {}) && Rewritten(v, v', dp) && DirGood(v', dp) && DirMap(v', dp) == DirMap(v, dp) - {s}
    ensures Stands(v', t.(ent := t.ent - {L.Key(dp, NameOf(s))}), {})
  {
    var ent := t.ent - {L.Key(dp, NameOf(s))};
    assert Whole(v, {}, dp) && DirStands(v, t.ent, dp);
    CutIs(DirMap(v, dp), t.ent, dp, s);
    PutElse(t.ent, L.Key(dp, NameOf(s)), 0);
    RewrittenStands(v, v', t, ent, {}, dp);
  }

  lemma RemovedFits(v: Vol, v': Vol, bk: Books, bk': Books, t: L.Tree, t': L.Tree, dp: nat, k: nat, s: Name)
    requires Fits(v, bk, t, {}) && Inv(v', bk') && Whole(v, {}, dp) && Rewritten(v, v', dp)
    requires HoleFree(v', dp) && v'.ino[dp].size % DESIZE == 0
    requires Cleared(Decode(Content(v, dp)), Decode(Content(v', dp)), k, s)
    requires t' == t.(ent := t.ent - {L.Key(dp, NameOf(s))})
    ensures Fits(v', bk', t', {})
  {
    assert DirStands(v, t.ent, dp);
    assert DirGood(v', dp) by { RemovedListing(Decode(Content(v, dp)), Decode(Content(v', dp)), |v.ino|, k, s); }
    assert DirMap(v', dp) == DirMap(v, dp) - {s};
    assert Stands(v', t', {}) by { RemovedStands(v, v', t, dp, s); }
    RewrittenClean(v, v', dp);
    HolesKept(v, v', dp);
  }

  // ------------------------------------------- inodes that are made and freed

  /** Inode i, no whole directory, becomes something else that is none: made by ialloc, filled in, or freed. */
  lemma RemadeStands(v: Vol, v': Vol, t: L.Tree, t': L.Tree, ex: set<nat>, ex': set<nat>, i: nat)
    requires Stands(v, t, ex) && i < |v.ino| && OthersSame(v, v', i)
    requires t' == t.(ino := t.ino[i := L.Node(v'.ino[i].typ, v'.ino[i].nlink)], ent := t'.ent)
    requires ElseSame(t.ent, t'.ent, i)
    requires ex' == (if v'.ino[i].typ == T_DIR then ex + {i} else ex - {i}) && forall k :: k in t'.ent ==> k.dir != i
    ensures Stands(v', t', ex')
  {
    forall j: nat | j < |v'.ino| ensures NodeIs(v', t', j) {
      assert NodeIs(v, t, j);
      if j != i { assert SameFile(v, v', j); }
    }
    forall d: nat | Whole(v', ex', d) ensures DirStands(v', t'.ent, d) { RemadeDir(v, v', t, t'.ent, ex, i, d); }
    forall k | k in t'.ent ensures KeyIn(v', ex', k) { RemadeKey(v, v', t, t'.ent, ex, ex', i, k); }
  }

  lemma RemadeDir(v: Vol, v': Vol, t: L.Tree, ent: map<L.Key, nat>, ex: set<nat>, i: nat, d: nat)
    requires Stands(v, t, ex) && i < |v.ino| && OthersSame(v, v', i) && ElseSame(t.ent, ent, i)
    requires d < |v'.ino| && v'.ino[d].typ == T_DIR && d !in ex && d != i
    ensures DirStands(v', ent, d)
  {
    assert SameFile(v, v', d);
    assert Whole(v, ex, d) && DirStands(v, t.ent, d);
    SameDir(v, v', d);
    forall x: L.Name ensures EntIs(DirMap(v', d), ent, d, x) {
      assert EntIs(DirMap(v, d), t.ent, d, x) && EntrySame(t.ent, ent, L.Key(d, x));
    }
  }

  lemma RemadeKey(v: Vol, v': Vol, t: L.Tree, ent: map<L.Key, nat>, ex: set<nat>, ex': set<nat>, i: nat, k: L.Key)
    requires Stands(v, t, ex) && i < |v.ino| && OthersSame(v, v', i) && ElseSame(t.ent, ent, i)
    requires (ex' == ex + {i} || ex' == ex - {i}) && k in ent && k.dir != i
    ensures KeyIn(v', ex', k)
  {
    assert EntrySame(t.ent, ent, k);
    assert KeyIn(v, ex, k) && SameFile(v, v', k.dir);
  }

  lemma ElseRefl(ent: map<L.Key, nat>, i: nat)
    ensures ElseSame(ent, ent, i)
  {
  }

  /** Another inode in the place of i, which is not a directory or still being made. */
  lemma RemadeFits(v: Vol, v': Vol, bk: Books, bk': Books, t: L.Tree, t': L.Tree, ex: set<nat>, ex': set<nat>, i: nat)
    requires Fits(v, bk, t, ex) && Inv(v', bk') && i < |v.ino| && OthersSame(v, v', i) && !Whole(v, ex, i)
    requires HoleFree(v', i)
    requires v'.ino[i].typ != 0 && t' == t.(ino := t.ino[i := L.Node(v'.ino[i].typ, v'.ino[i].nlink)])
    requires ex' == if v'.ino[i].typ == T_DIR then ex + {i} else ex - {i}
    ensures Fits(v', bk', t', ex')
  {
    ElseRefl(t.ent, i);
    forall k | k in t'.ent ensures k.dir != i { assert KeyIn(v, ex, k); }
    assert Stands(v', t', ex') by { RemadeStands(v, v', t, t', ex, ex', i); }
    assert FreeClean(v') by {
      forall j | 0 <= j < |v'.ino| && v'.ino[j].typ == 0 ensures Blank(v'.ino[j].addrs) { assert SameFile(v, v', j); }
    }
    HolesKept(v, v', i);
  }

  lemma FreedElse(ent: map<L.Key, nat>, ent': map<L.Key, nat>, i: nat)
    requires ent' == map k | k in ent && k.dir != i :: ent[k]
    ensures ElseSame(ent, ent', i)
  {
  }

  /** iput has freed inode i. */
  lemma FreedFits(v: Vol, v': Vol, bk: Books, bk': Books, t: L.Tree, i: nat)
    requires Fits(v, bk, t, {}) && Inv(v', bk') && FreeClean(v') && i < |v.ino| && OthersSame(v, v', i)
    requires v'.ino[i].typ == 0 && v'.ino[i].size == 0 && v'.ino[i].nlink == v.ino[i].nlink
    ensures Fits(v', bk', L.DoFree(t, i), {})
  {
    var t' := L.DoFree(t, i);
    FreedElse(t.ent, t'.ent, i);
    assert NodeIs(v, t, i);
    assert {} - {i} == {};
    RemadeStands(v, v', t, t', {}, {}, i);
    EmptyDir(v', i);
    HolesKept(v, v', i);
  }

  // ------------------------------------------------------- a new directory

  /** The map of a directory ip in dp with its two dots alone. */
  function DotMap(ip: nat, dp: nat): (m: map<Name, nat>) { map[][DOT := ip][DOTDOT := dp] }

  function WithDots(ent: map<L.Key, nat>, ip: nat, dp: nat): (r: map<L.Key, nat>) {
    ent[L.Key(ip, L.Dot) := ip][L.Key(ip, L.DotDot) := dp]
  }

  lemma OneName(e: seq<Dirent>, s: Name)
    requires |e| == 1 && s in Names(e)
    ensures Live(e, 0) && Cut(e[0].name) == s
  {
    assert Names(e[..0]) == map[];
  }

  /** What dirlink makes of an empty directory: one entry, then two. */
  lemma TwoDots(e: seq<Dirent>, f: seq<Dirent>, ip: nat, dp: nat)
    requires Filled([], e) && Names(e) == map[][DOT := ip] && Filled(e, f) && Names(f) == DotMap(ip, dp)
    ensures HasDots(f)
  {
    OneName(e, DOT);
    assert FreeSlot(e, 0) == FreeSlot(e, 1) == 1;
    assert |f| == 2 && f[0] == e[0] && f[..1] == e;
    assert DOTDOT in Names(f) && DOTDOT !in Names(e);
  }

  lemma DotsListing(f: seq<Dirent>, n: nat, ip: nat, dp: nat)
    requires Unique(f) && HasDots(f) && Names(f) == DotMap(ip, dp) && 0 < ip < n && 0 < dp < n
    ensures Listing(f, n)
  {
  }

  lemma NoneIs(ent: map<L.Key, nat>, d: nat)
    requires forall k :: k in ent ==> k.dir != d
    ensures DirIs(map[], ent, d)
  {
    forall x: L.Name ensures EntIs(map[], ent, d, x) { assert L.Key(d, x) !in ent; }
  }

  lemma DotsIs(ent: map<L.Key, nat>, ip: nat, dp: nat)
    requires forall k :: k in ent ==> k.dir != ip
    ensures DirIs(DotMap(ip, dp), WithDots(ent, ip, dp), ip)
  {
    NoneIs(ent, ip);
    PutIs(map[], ent, ip, DOT, ip);
    PutIs(map[][DOT := ip], ent[L.Key(ip, L.Dot) := ip], ip, DOTDOT, dp);
  }

  lemma ElseTrans(a: map<L.Key, nat>, b: map<L.Key, nat>, c: map<L.Key, nat>, d: nat)
    requires ElseSame(a, b, d) && ElseSame(b, c, d)
    ensures ElseSame(a, c, d)
  {
    forall k: L.Key | k.dir != d ensures EntrySame(a, c, k) { assert EntrySame(a, b, k) && EntrySame(b, c, k); }
  }

  lemma DotsElse(ent: map<L.Key, nat>, ip: nat, dp: nat)
    ensures ElseSame(ent, WithDots(ent, ip, dp), ip)
  {
    PutElse(ent, L.Key(ip, L.Dot), ip);
    PutElse(ent[L.Key(ip, L.Dot) := ip], L.Key(ip, L.DotDot), dp);
    ElseTrans(ent, ent[L.Key(ip, L.Dot) := ip], WithDots(ent, ip, dp), ip);
  }

  lemma DotsDir(v: Vol, t: L.Tree, ent: map<L.Key, nat>, ip: nat, d: nat)
    requires Stands(v, t, {ip}) && ElseSame(t.ent, ent, ip) && Whole(v, {}, d) && d != ip
    ensures DirStands(v, ent, d)
  {
    assert Whole(v, {ip}, d) && DirStands(v, t.ent, d);
    forall x: L.Name ensures EntIs(DirMap(v, d), ent, d, x) {
      assert EntIs(DirMap(v, d), t.ent, d, x) && EntrySame(t.ent, ent, L.Key(d, x));
    }
  }

  /** The new directory ip has its dots: the volume stands for the tree with both entries. */
  lemma DotsStands(v: Vol, t: L.Tree, t': L.Tree, ip: nat, dp: nat)
    requires Stands(v, t, {ip}) && ip < |v.ino| && v.ino[ip].typ == T_DIR
    requires DirGood(v, ip) && DirMap(v, ip) == DotMap(ip, dp) && t' == t.(ent := WithDots(t.ent, ip, dp))
    ensures Stands(v, t', {})
  {
    forall k | k in t.ent ensures k.dir != ip { assert KeyIn(v, {ip}, k); }
    DotsIs(t.ent, ip, dp);
    DotsElse(t.ent, ip, dp);
    forall d: nat | Whole(v, {}, d) ensures DirStands(v, t'.ent, d) {
      if d != ip { DotsDir(v, t, t'.ent, ip, d); }
    }
    forall i: nat | i < |v.ino| ensures NodeIs(v, t', i) { assert NodeIs(v, t, i); }
    forall k | k in t'.ent ensures KeyIn(v, {}, k) {
      if k.dir != ip { assert EntrySame(t.ent, t'.ent, k) && KeyIn(v, {ip}, k); }
    }
  }

  /** A file of size 0 is a directory without entries. */
  lemma EmptyDir(v: Vol, i: nat)
    requires i < |v.ino| && v.ino[i].size == 0
    ensures HoleFree(v, i) && Decode(Content(v, i)) == [] && DirMap(v, i) == map[]
  {
  }

  lemma OneEntry(v: Vol, v': Vol, i: nat)
    requires i < |v.ino| && v.ino[i].size == 0 && Gained(v, v', i, DOT, i)
    ensures v'.ino[i].size == DESIZE && DirMap(v', i) == map[][DOT := i] && DOTDOT !in DirMap(v', i)
  {
    EmptyDir(v, i);
    assert |Decode(Content(v', i))| == 1;
    assert |DOT| != |DOTDOT|;
  }

  lemma DotsGood(v: Vol, v1: Vol, v2: Vol, i: nat, dp: nat)
    requires i < |v.ino| && v.ino[i].size == 0 && Gained(v, v1, i, DOT, i) && Gained(v1, v2, i, DOTDOT, dp)
    requires 0 < i && 0 < dp < |v.ino|
    ensures DirGood(v2, i) && DirMap(v2, i) == DotMap(i, dp)
  {
    EmptyDir(v, i);
    OneEntry(v, v1, i);
    TwoDots(Decode(Content(v1, i)), Decode(Content(v2, i)), i, dp);
    DotsListing(Decode(Content(v2, i)), |v.ino|, i, dp);
  }

  /** Writing to a directory that is still being made changes nothing else. */
  lemma StillMade(v: Vol, v': Vol, bk: Books, bk': Books, t: L.Tree, i: nat)
    requires Fits(v, bk, t, {i}) && Inv(v', bk') && i < |v.ino| && OthersSame(v, v', i) && HoleFree(v', i)
    requires v'.ino[i].typ == v.ino[i].typ == T_DIR && v'.ino[i].nlink == v.ino[i].nlink
    ensures Fits(v', bk', t, {i})
  {
    assert NodeIs(v, t, i);
    assert t.ino[i := L.Node(v'.ino[i].typ, v'.ino[i].nlink)] == t.ino;
    RemadeFits(v, v', bk, bk', t, t, {i}, {i}, i);
  }

  /** create has given the new directory i both its entries. */
  lemma DotsFits(v: Vol, v1: Vol, v2: Vol, bk: Books, bk2: Books, t: L.Tree, t': L.Tree, i: nat, dp: nat)
    requires Fits(v, bk, t, {i}) && Inv(v2, bk2) && i < |v.ino| && v.ino[i].typ == T_DIR && v.ino[i].size == 0
    requires Gained(v, v1, i, DOT, i) && Gained(v1, v2, i, DOTDOT, dp) && 0 < i && 0 < dp < |v.ino|
    requires t' == t.(ent := WithDots(t.ent, i, dp))
    ensures Fits(v2, bk2, t', {}) && OthersSame(v, v2, i)
  {
    assert OthersSame(v, v2, i) by { OthersSameTrans(v, v1, v2, i); }
    assert DirGood(v2, i) && DirMap(v2, i) == DotMap(i, dp) by { DotsGood(v, v1, v2, i, dp); }
    assert Fits(v2, bk2, t, {i}) by { StillMade(v, v2, bk, bk2, t, i); }
    assert Stands(v2, t', {}) by { DotsStands(v2, t, t', i, dp); }
  }

  /** The volume mkfs makes, with nothing but a root directory that names itself twice, stands for the first tree. */
  lemma FreshFits(v: Vol, bk: Books) returns (t: L.Tree)
    requires Inv(v, bk) && FreeClean(v) && NoHoles(v) && 1 < |v.ino| <= NINUM
    requires forall i: nat :: i < |v.ino| ==> v.ino[i].typ == (if i == ROOTINO then T_DIR else 0)
    requires forall i: nat :: i < |v.ino| ==> v.ino[i].nlink == (if i == ROOTINO then 1 else 0)
    requires DirGood(v, ROOTINO) && DirMap(v, ROOTINO) == DotMap(ROOTINO, ROOTINO)
    ensures L.Fresh(t) && Fits(v, bk, t, {})
  {
    var ino := seq(|v.ino|, i requires 0 <= i < |v.ino| => L.Node(v.ino[i].typ, v.ino[i].nlink));
    var none := L.Tree(ino, map[], map[]);
    t := none.(ent := WithDots(map[], ROOTINO, ROOTINO));
    DotsStands(v, none, t, ROOTINO, ROOTINO);
  }

  // ------------------------------------------------------------- emptiness

  /** isdirempty's answer on the bytes is emptiness in the tree. */
  lemma OnlyEmpty(v: Vol, t: L.Tree, d: nat)
    requires Stands(v, t, {}) && Whole(v, {}, d)
    ensures Only(DirMap(v, d), DOT, DOTDOT) <==> L.Empty(t.ent, d)
  {
    assert DirStands(v, t.ent, d);
    if Only(DirMap(v, d), DOT, DOTDOT) {
      forall k | k in t.ent && k.dir == d ensures L.Dotty(k.name) {
        assert EntIs(DirMap(v, d), t.ent, d, k.name) && k == L.Key(d, k.name);
        NameText(TextOf(k.name));
      }
    }
    if L.Empty(t.ent, d) {
      forall s | s in DirMap(v, d) ensures s == DOT || s == DOTDOT {
        EntryIs(v, t, {}, d, s);
        NameText(s);
      }
    }
  }

  /** Where a directory was put is remembered beside the volume. */
  lemma PlaceFits(v: Vol, bk: Books, t: L.Tree, t': L.Tree, ex: set<nat>)
    requires Fits(v, bk, t, ex) && t' == t.(place := t'.place)
    ensures Fits(v, bk, t', ex)
  {
    forall i: nat | i < |v.ino| ensures NodeIs(v, t', i) { assert NodeIs(v, t, i); }
    forall d: nat | Whole(v, ex, d) ensures DirStands(v, t'.ent, d) { assert DirStands(v, t.ent, d); }
    forall k | k in t'.ent ensures KeyIn(v, ex, k) { }
  }

  // ------------------------------------------------------------ resolution

  /** Resolution reads types and directory bytes alone. */
  lemma {:induction false} ResolveSame(v: Vol, v': Vol, n: nat, i: int, comps: seq<Name>)
    requires Tree(v) && Tree(v') && Renumbered(v, v', n) && -1 <= i < |v.ino|
    ensures Resolve(v', i, comps) == Resolve(v, i, comps) && Untyped(v', i, comps) == Untyped(v, i, comps)
    decreases |comps|
  {
    if comps != [] && i != -1 {
      RenumberedContent(v, v', n, i);
      ResolveSame(v, v', n, Child(v, i, comps[0]), comps[1..]);
    }
  }

  lemma FoundSame(v: Vol, v': Vol, n: nat, i: int, comps: seq<Name>, parent: bool)
    requires Tree(v) && Tree(v') && Renumbered(v, v', n) && -1 <= i < |v.ino|
    ensures Found(v', i, comps, parent) == Found(v, i, comps, parent) && Untyped(v', i, comps) == Untyped(v, i, comps)
  {
    ResolveSame(v, v', n, i, comps);
    if comps != [] { ResolveSame(v, v', n, i, comps[..|comps| - 1]); }
  }

  /** No path leads to inode 0. */
  lemma {:induction false} ResolveNonzero(v: Vol, t: L.Tree, i: int, comps: seq<Name>)
    requires Stands(v, t, {}) && Tree(v) && -1 <= i < |v.ino| && i != 0
    ensures Resolve(v, i, comps) != 0
    decreases |comps|
  {
    if comps != [] && i != -1 {
      if v.ino[i].typ == T_DIR { EntryIs(v, t, {}, i, Cut(comps[0])); }
      ResolveNonzero(v, t, Child(v, i, comps[0]), comps[1..]);
    }
  }
}
