/** kalloc, kfree, walkpgdir, mappages, allocuvm, deallocuvm, freevm, setupkvm and copyuvm. */
module VmImpl {
  import opened VmModel

  /** Only tables of the address space and formerly free frames differ. */
  ghost predicate Touches(mem: Memory, mem': Memory, owner: Roles, free: seq<nat>) {
    && |mem'| == |mem|
    && forall g: nat :: g < |mem| && g !in free && (g in owner ==> owner[g].User?) ==> mem'[g] == mem[g]
  }

  /** The address space grew from owner to owner' on frames taken from the free list. */
  ghost predicate Grew(owner: Roles, free: seq<nat>, owner': Roles, free': seq<nat>) {
    && (forall g: nat :: g in owner ==> g in owner' && owner'[g] == owner[g])
    && (forall g: nat :: g in free' ==> g in free)
  }

  /** No frame is lost or made up: free and owned together, but for the extra ones, are the same. */
  ghost predicate Conserved(free: seq<nat>, owner: Roles, free': seq<nat>, owner': Roles, extra: set<nat>) {
    forall g: nat :: g in free' || g in owner' <==> g in free || g in owner || g in extra
  }

  /** Virtual page vp is stepped over by the 4MB skip of deallocuvm started at page lo. */
  ghost predicate Missed(dir: Frame, lo: nat, vp: nat)
    requires vp < NPAGE
  {
    && lo < vp && vp % NPTE < lo % NPTE
    && forall d: nat :: lo / NPTE <= d < vp / NPTE ==> !Present(dir[d])
  }

  /** deallocuvm reaches page vp. */
  ghost predicate Reached(dir: Frame, lo: nat, hi: nat, vp: nat)
    requires vp < NPAGE
  {
    lo <= vp < hi && !Missed(dir, lo, vp)
  }

  /** Where the loop of deallocuvm stands: still in the column of lo, or past the last page it can miss. */
  ghost predicate Phase(dir: Frame, lo: nat, a: nat)
    requires a < NPAGE
  {
    || (lo <= a && a % NPTE == lo % NPTE && forall d: nat :: lo / NPTE <= d < a / NPTE ==> !Present(dir[d]))
    || ((a % NPTE == 0 || Present(dir[a / NPTE])) && forall u: nat :: a <= u < NPAGE ==> !Missed(dir, lo, u))
  }

  lemma PhaseNext(dir: Frame, lo: nat, a: nat, next: nat)
    requires next == a + 1 < NPAGE && Phase(dir, lo, a) && Present(dir[a / NPTE])
    ensures !Missed(dir, lo, a) && Phase(dir, lo, next)
  {
    forall u: nat | next <= u < NPAGE ensures !Missed(dir, lo, u) { }
  }

  lemma Rows(a: nat, u: nat, lo: nat)
    requires a <= u < a + NPTE && a % NPTE == lo % NPTE
    ensures u / NPTE == a / NPTE || (u / NPTE == a / NPTE + 1 && u % NPTE < lo % NPTE)
  {
  }

  /** The skip only passes pages without a table, and pages that are missed. */
  lemma PhaseSkip(dir: Frame, lo: nat, a: nat)
    requires a + NPTE < NPAGE && Phase(dir, lo, a) && !Present(dir[a / NPTE])
    ensures Phase(dir, lo, a + NPTE)
    ensures forall u: nat :: a <= u < a + NPTE && !Missed(dir, lo, u) ==> u / NPTE == a / NPTE
  {
    if lo <= a && a % NPTE == lo % NPTE && forall d: nat :: lo / NPTE <= d < a / NPTE ==> !Present(dir[d]) {
      forall u: nat | a <= u < a + NPTE && !Missed(dir, lo, u) ensures u / NPTE == a / NPTE {
        Rows(a, u, lo);
      }
    }
  }

  function Min(a: nat, b: nat): (r: nat) { if a < b then a else b }

  /** Bytes to pages, rounding up as PGROUNDUP does. */
  function Up(sz: nat): (r: nat)
    ensures r * PGSIZE >= sz && (r == 0 || (r - 1) * PGSIZE < sz)
  {
    (sz + PGSIZE - 1) / PGSIZE
  }

  /** Frame g is still owned after deallocuvm has gone from page lo up to page h. */
  ghost predicate KeptRole(owner: Roles, o: Roles, dir: Frame, lo: nat, h: nat, g: nat) {
    && (g in o <==> g in owner && !(owner[g].User? && owner[g].vp < NUSER && Reached(dir, lo, h, owner[g].vp)))
    && (g in o ==> o[g] == owner[g])
  }

  ghost predicate WordLeft(mem: Memory, mem': Memory, pd: nat, lo: nat, h: nat, u: nat)
    requires pd < |mem| == |mem'| && u < NPAGE
  {
    var w := Word(mem, pd, u);
    Word(mem', pd, u) == if Reached(mem[pd], lo, h, u) && Present(w) then 0 else w
  }

  /** deallocuvm has freed the pages it reaches from page lo up to page h, and nothing else has changed. */
  ghost predicate Dropped(mem: Memory, mem': Memory, pd: nat, owner: Roles, o: Roles, lo: nat, h: nat) {
    && pd < |mem| == |mem'| && mem'[pd] == mem[pd]
    && (forall g: nat :: g < |mem| && g !in owner ==> mem'[g] == mem[g])
    && (forall u: nat :: u < NPAGE ==> WordLeft(mem, mem', pd, lo, h, u))
    && (forall g: nat :: KeptRole(owner, o, mem[pd], lo, h, g))
  }

  lemma DroppedStart(mem: Memory, pd: nat, owner: Roles, lo: nat)
    requires pd < |mem|
    ensures Dropped(mem, mem, pd, owner, owner, lo, lo)
  {
  }

  /** What freeing page vp does. */
  ghost predicate PageGone(mem: Memory, mem': Memory, pd: nat, vp: nat, owner: Roles, o: Roles) {
    && pd < |mem| == |mem'| && vp < NPAGE && mem'[pd] == mem[pd]
    && (forall g: nat :: g < |mem| && g !in owner ==> mem'[g] == mem[g])
    && (forall u: nat :: u < NPAGE ==>
          Word(mem', pd, u) == if u == vp && Present(Word(mem, pd, vp)) then 0 else Word(mem, pd, u))
    && (forall g: nat :: (g in o <==> g in owner && owner[g] != User(vp)) && (g in o ==> o[g] == owner[g]))
  }

  lemma DroppedNext(mem: Memory, m1: Memory, m2: Memory, pd: nat, owner: Roles,
                    o1: Roles, o2: Roles, lo: nat, a: nat)
    requires Dropped(mem, m1, pd, owner, o1, lo, a) && lo <= a < NUSER
    requires PageGone(m1, m2, pd, a, o1, o2) && !Missed(mem[pd], lo, a)
    ensures Dropped(mem, m2, pd, owner, o2, lo, a + 1)
  {
    var h := a + 1;
    forall u: nat | u < NPAGE ensures WordLeft(mem, m2, pd, lo, h, u) { assert WordLeft(mem, m1, pd, lo, a, u); }
    forall g: nat ensures KeptRole(owner, o2, mem[pd], lo, h, g) { assert KeptRole(owner, o1, mem[pd], lo, a, g); }
    forall g: nat | g < |mem| && g !in owner ensures m2[g] == mem[g] { assert KeptRole(owner, o1, mem[pd], lo, a, g); }
  }

  lemma DroppedSkip(mem: Memory, m1: Memory, pd: nat, owner: Roles, o: Roles, lo: nat, a: nat, h: nat)
    requires Space(mem, pd, owner) && Dropped(mem, m1, pd, owner, o, lo, a) && lo <= a <= h < NPAGE
    requires !Present(mem[pd][a / NPTE])
    requires forall u: nat :: a <= u < h && !Missed(mem[pd], lo, u) ==> u / NPTE == a / NPTE
    ensures Dropped(mem, m1, pd, owner, o, lo, h)
  {
    forall u: nat | u < NPAGE ensures WordLeft(mem, m1, pd, lo, h, u) { assert WordLeft(mem, m1, pd, lo, a, u); }
    forall g: nat ensures KeptRole(owner, o, mem[pd], lo, h, g) {
      assert KeptRole(owner, o, mem[pd], lo, a, g);
      if g in owner { assert RoleOk(mem, pd, owner, g); }
    }
  }

  /** A round of the loop of deallocuvm at page a, where there is no page table. */
  lemma SkipRound(mem: Memory, m1: Memory, pd: nat, owner: Roles, o: Roles, lo: nat, a: nat, h: nat,
                  next: nat)
    requires Space(mem, pd, owner) && Dropped(mem, m1, pd, owner, o, lo, a) && lo <= a < h <= NUSER
    requires h <= a + NPTE == next
    requires Phase(mem[pd], lo, a) && !Present(mem[pd][a / NPTE])
    ensures Phase(mem[pd], lo, next) && Dropped(mem, m1, pd, owner, o, lo, h)
  {
    PhaseSkip(mem[pd], lo, a);
    DroppedSkip(mem, m1, pd, owner, o, lo, a, h);
  }

  /** deallocuvm unmaps all of its range exactly when no present page lies where its skip passes over. */
  lemma DeallocExact(mem: Memory, mem': Memory, pd: nat, owner: Roles, o: Roles, lo: nat, hi: nat)
    requires Dropped(mem, mem', pd, owner, o, lo, hi) && hi <= NUSER
    ensures (forall u: nat :: lo <= u < hi ==> !Present(Word(mem', pd, u))) <==>
      forall u: nat :: lo <= u < hi && Missed(mem[pd], lo, u) ==> !Present(Word(mem, pd, u))
    ensures lo % NPTE == 0 || (lo < NPAGE && Present(mem[pd][lo / NPTE])) ==>
      forall u: nat :: lo <= u < hi ==> !Present(Word(mem', pd, u))
  {
    forall u: nat | lo <= u < hi
      ensures !Present(Word(mem', pd, u)) <==> !(Missed(mem[pd], lo, u) && Present(Word(mem, pd, u)))
    {
      assert WordLeft(mem, mem', pd, lo, hi, u);
    }
    if lo % NPTE == 0 || (lo < NPAGE && Present(mem[pd][lo / NPTE])) {
      forall u: nat | lo <= u < hi ensures !Missed(mem[pd], lo, u) {
        if lo / NPTE < u / NPTE { assert lo / NPTE <= lo / NPTE; }
      }
    }
  }

  /** Only the frame a directory entry names has its table's role. */
  lemma RolesAt(mem: Memory, pd: nat, owner: Roles, i: nat)
    requires Space(mem, pd, owner) && i < NPTE
    ensures forall g: nat :: g in owner && owner[g] == Table(i) <==> Present(mem[pd][i]) && g == FrameOf(mem[pd][i])
  {
    forall g: nat ensures g in owner && owner[g] == Table(i) <==> Present(mem[pd][i]) && g == FrameOf(mem[pd][i]) {
      if g in owner { assert RoleOk(mem, pd, owner, g); }
      assert DirOk(mem, pd, owner, i);
    }
  }

  /** What mapping page a does to a directory and to the number of free frames. */
  ghost predicate Charged(dir: Frame, dir': Frame, a: nat, n: nat, n': nat, ok: bool)
    requires a < NPAGE
  {
    && (ok <==> Present(dir[a / NPTE]) || n > 0)
    && n' == n - (if ok && !Present(dir[a / NPTE]) then 1 else 0)
    && forall d: nat :: d < NPTE ==> TableAdded(dir, dir', a, ok, d)
  }

  ghost predicate TableAdded(dir: Frame, dir': Frame, a: nat, ok: bool, d: nat)
    requires d < NPTE
  {
    Present(dir'[d]) <==> Present(dir[d]) || (ok && d == a / NPTE)
  }

  /** A range of the kernel's mapping, in pages: n pages from first on map the frames from pf on. */
  datatype Kmap = Kmap(first: nat, pf: nat, n: nat, perm: nat) {
    predicate Has(u: nat) { first <= u < first + n }
  }

  ghost predicate KmapOk(kmap: seq<Kmap>) {
    && (forall i :: 0 <= i < |kmap| ==>
          NUSER <= kmap[i].first && kmap[i].first + kmap[i].n <= NPAGE && kmap[i].perm < PGSIZE)
    && (forall i, j, u: nat :: 0 <= i < j < |kmap| ==> !(kmap[i].Has(u) && kmap[j].Has(u)))
  }

  /** The entry the first n ranges of the kernel's mapping give page u. */
  function KernelWord(kmap: seq<Kmap>, n: nat, u: nat): (w: nat)
    requires n <= |kmap|
  {
    if n == 0 then 0
    else if kmap[n - 1].Has(u) then Entry(kmap[n - 1].pf + (u - kmap[n - 1].first), kmap[n - 1].perm % PGSIZE)
    else KernelWord(kmap, n - 1, u)
  }

  lemma {:induction false} KernelWordNone(kmap: seq<Kmap>, n: nat, u: nat)
    requires n <= |kmap| && forall i :: 0 <= i < n ==> !kmap[i].Has(u)
    ensures KernelWord(kmap, n, u) == 0
  {
    if n > 0 { KernelWordNone(kmap, n - 1, u); }
  }

  /** The page tables that the first n ranges and i pages of the next need. */
  function Dirs(kmap: seq<Kmap>, n: nat, i: nat): (s: set<nat>)
    requires n <= |kmap| && (i > 0 ==> n < |kmap|)
    decreases n, i
  {
    if i > 0 then Dirs(kmap, n, i - 1) + {(kmap[n].first + i - 1) / NPTE}
    else if n > 0 then Dirs(kmap, n - 1, kmap[n - 1].n)
    else {}
  }

  /** The page tables of the kernel's mapping. */
  function KernelDirs(kmap: seq<Kmap>): (s: set<nat>) { Dirs(kmap, |kmap|, 0) }

  lemma {:induction false} DirsMore(kmap: seq<Kmap>, n: nat, i: nat, m: nat, j: nat)
    requires n < |kmap| && i <= kmap[n].n && m <= |kmap| && (j > 0 ==> m < |kmap|) && (n < m || (n == m && i <= j))
    ensures Dirs(kmap, n, i) <= Dirs(kmap, m, j)
    decreases m, j
  {
    if n == m && i == j {
    } else if j > 0 {
      DirsMore(kmap, n, i, m, j - 1);
    } else {
      DirsMore(kmap, n, i, m - 1, kmap[m - 1].n);
    }
  }

  /** setupkvm had n free frames and has left n' of them: the others are the directory and the page tables in s. */
  ghost predicate Costs(dir: Frame, s: set<nat>, n: nat, n': nat) {
    n == n' + 1 + |s| && forall d: nat :: TableIn(dir, s, d)
  }

  ghost predicate TableIn(dir: Frame, s: set<nat>, d: nat) {
    d in s <==> d < NPTE && Present(dir[d])
  }

  lemma CostNext(d1: Frame, d2: Frame, s: set<nat>, s': set<nat>, c: nat, a: nat, n: nat, n1: nat, n2: nat, ok: bool)
    requires a < NPAGE && Costs(d1, s, n, n1) && Charged(d1, d2, a, n1, n2, ok) && s' == s + {c} && c == a / NPTE
    ensures ok ==> Costs(d2, s', n, n2)
    ensures !ok ==> n2 == 0 && n < 1 + |s'|
  {
    assert TableIn(d1, s, a / NPTE);
    if Present(d1[a / NPTE]) { assert s' == s; } else { assert |s'| == |s| + 1; }
    if ok {
      forall d: nat ensures TableIn(d2, s', d) {
        assert TableIn(d1, s, d);
        if d < NPTE { assert TableAdded(d1, d2, a, ok, d); }
      }
    }
  }

  lemma {:induction false} SubsetCard(a: set<nat>, b: set<nat>)
    requires a <= b
    ensures |a| <= |b|
  {
    if a != {} {
      var x :| x in a;
      SubsetCard(a - {x}, b - {x});
    }
  }

  lemma DirsNext(kmap: seq<Kmap>, n: nat, i: nat, next: nat)
    requires n < |kmap| && next == i + 1
    ensures Dirs(kmap, n, next) == Dirs(kmap, n, i) + {(kmap[n].first + i) / NPTE}
  {
  }

  lemma DirsEnd(kmap: seq<Kmap>, n: nat, i: nat, next: nat)
    requires n < |kmap| && next == n + 1 && i == kmap[n].n
    ensures Dirs(kmap, next, 0) == Dirs(kmap, n, i)
  {
  }

  /** Frames that do not reach to page i of range n do not reach to the end. */
  lemma TooFew(kmap: seq<Kmap>, n: nat, i: nat)
    requires n < |kmap| && i <= kmap[n].n
    ensures |Dirs(kmap, n, i)| <= |KernelDirs(kmap)|
  {
    DirsMore(kmap, n, i, |kmap|, 0);
    SubsetCard(Dirs(kmap, n, i), KernelDirs(kmap));
  }

  ghost predicate HalfAt(mem: Memory, pd: nat, kmap: seq<Kmap>, n: nat, i: nat, u: nat)
    requires pd < |mem| && u < NPAGE && n < |kmap|
  {
    var k := kmap[n];
    Word(mem, pd, u) ==
    if k.first <= u < k.first + i then Entry(k.pf + (u - k.first), k.perm % PGSIZE) else KernelWord(kmap, n, u)
  }

  /** The directory maps the first n ranges of the kernel, i pages of the next, and nothing else. */
  ghost predicate Half(mem: Memory, pd: nat, kmap: seq<Kmap>, n: nat, i: nat) {
    pd < |mem| && n < |kmap| && forall u: nat :: u < NPAGE ==> HalfAt(mem, pd, kmap, n, i, u)
  }

  /** The directory maps the first n ranges of the kernel, and nothing else. */
  ghost predicate Maps(mem: Memory, pd: nat, kmap: seq<Kmap>, n: nat) {
    pd < |mem| && n <= |kmap| && forall u: nat :: u < NPAGE ==> Word(mem, pd, u) == KernelWord(kmap, n, u)
  }

  lemma HalfStart(mem: Memory, pd: nat, kmap: seq<Kmap>, n: nat)
    requires Maps(mem, pd, kmap, n) && n < |kmap|
    ensures Half(mem, pd, kmap, n, 0)
  {
  }

  lemma HalfEnd(mem: Memory, pd: nat, kmap: seq<Kmap>, n: nat, next: nat)
    requires n < |kmap| && next == n + 1 && Half(mem, pd, kmap, n, kmap[n].n)
    ensures Maps(mem, pd, kmap, next)
  {
    forall u: nat | u < NPAGE ensures Word(mem, pd, u) == KernelWord(kmap, next, u) {
      assert HalfAt(mem, pd, kmap, n, kmap[n].n, u);
    }
  }

  /** No earlier range has mapped the next page: mappages does not remap. */
  lemma Unmapped(mem: Memory, pd: nat, kmap: seq<Kmap>, n: nat, i: nat, u: nat)
    requires KmapOk(kmap) && Half(mem, pd, kmap, n, i) && i < kmap[n].n && u == kmap[n].first + i
    ensures u < NPAGE && Word(mem, pd, u) == 0
  {
    assert kmap[n].Has(u);
    assert forall j :: 0 <= j < n ==> !kmap[j].Has(u);
    KernelWordNone(kmap, n, u);
    assert HalfAt(mem, pd, kmap, n, i, u);
  }

  lemma HalfNext(mem: Memory, mem': Memory, pd: nat, kmap: seq<Kmap>, n: nat, i: nat, next: nat)
    requires Half(mem, pd, kmap, n, i) && pd < |mem'| && next == i + 1 && kmap[n].first + i < NPAGE
    requires forall u: nat :: u < NPAGE ==>
               Word(mem', pd, u) ==
               if u == kmap[n].first + i then Entry(kmap[n].pf + i, kmap[n].perm % PGSIZE) else Word(mem, pd, u)
    ensures Half(mem', pd, kmap, n, next)
  {
    forall u: nat | u < NPAGE ensures HalfAt(mem', pd, kmap, n, next, u) { assert HalfAt(mem, pd, kmap, n, i, u); }
  }

  /** Page u of the child at d has the flags and the contents of page u of the parent at pd. */
  ghost predicate CopyAt(mem: Memory, pd: nat, d: nat, u: nat)
    requires pd < |mem| && d < |mem| && u < NPAGE
  {
    var w, x := Word(mem, pd, u), Word(mem, d, u);
    && Present(w) && Present(x) && Flags(x) == Flags(w)
    && FrameOf(x) < |mem| && FrameOf(w) < |mem| && FrameOf(x) != FrameOf(w)
    && mem[FrameOf(x)] == mem[FrameOf(w)]
  }

  /** The kernel's part of directory d is the same. */
  ghost predicate KernelSame(m: Memory, m': Memory, d: nat) {
    d < |m| && d < |m'| && forall u: nat :: NUSER <= u < NPAGE ==> Word(m', d, u) == Word(m, d, u)
  }

  /** The kernel's part of directory d is what setupkvm maps. */
  ghost predicate KernelMapped(m: Memory, d: nat, kmap: seq<Kmap>) {
    d < |m| && forall u: nat :: NUSER <= u < NPAGE ==> Word(m, d, u) == KernelWord(kmap, |kmap|, u)
  }

  lemma KernelKept(m: Memory, m': Memory, d: nat, kmap: seq<Kmap>)
    requires Maps(m, d, kmap, |kmap|) && KernelSame(m, m', d)
    ensures KernelMapped(m', d, kmap)
  {
  }

  /** copyuvm has copied the first i pages; its frames c come from the free list of the start. */
  ghost predicate Copying(mem: Memory, free: seq<nat>, pd: nat, owner: Roles, d: nat, c: Roles,
                          mem0: Memory, free0: seq<nat>, i: nat)
  {
    && Space(mem, pd, owner) && Space(mem, d, c) && FreeOk(mem, free) && |mem| == |mem0|
    && (forall g: nat :: g in free || g in c <==> g in free0) && (forall g :: g in c ==> g !in free)
    && (forall g: nat :: g in owner ==> g !in free0)
    && (forall g: nat :: g < |mem| && g !in free0 ==> mem[g] == mem0[g])
    && (forall u: nat :: u < i && u < NUSER ==> CopyAt(mem, pd, d, u))
    && (forall u: nat :: i <= u < NUSER ==> !Present(Word(mem, d, u)))
  }

  /** What one round of copyuvm does: frame f, taken from the free list, is filled from the parent and mapped. */
  ghost predicate Copied(m: Memory, m1: Memory, m2: Memory, pd: nat, d: nat, c: Roles, c': Roles,
                         free: seq<nat>, free1: seq<nat>, free2: seq<nat>, i: nat, f: nat)
    requires pd < |m| && d < |m| && i < NUSER
  {
    var w := Word(m, pd, i);
    && |m2| == |m| && 0 < f < |m| && free == [f] + free1 && f !in free1
    && FrameOf(w) < |m| && m1 == m[f := m[FrameOf(w)]]
    && Space(m2, d, c') && FreeOk(m2, free2) && (forall g :: g in c' ==> g !in free2)
    && Grew(c, free1, c', free2) && Touches(m1, m2, c, free1) && Conserved(free1, c, free2, c', {f})
    && forall u: nat :: u < NPAGE ==> Word(m2, d, u) == if u == i then Entry(f, Flags(w)) else Word(m, d, u)
  }

  /** Frames of the parent and earlier copies are untouched. */
  lemma CopiedKeeps(m: Memory, m1: Memory, m2: Memory, free2: seq<nat>, pd: nat, owner: Roles, d: nat,
                    c: Roles, c': Roles, mem0: Memory, free: seq<nat>, free1: seq<nat>, free0: seq<nat>,
                    i: nat, f: nat)
    requires i < NUSER && Copying(m, free, pd, owner, d, c, mem0, free0, i)
    requires Copied(m, m1, m2, pd, d, c, c', free, free1, free2, i, f)
    ensures forall g: nat :: g < |m| && ((g in c && c[g].User?) || g !in free0) ==> m2[g] == m[g]
    ensures m2[f] == m[FrameOf(Word(m, pd, i))] && f !in owner && f !in c && f in free0
  {
    assert f in free;
    forall g: nat | g < |m| && ((g in c && c[g].User?) || g !in free0) ensures m2[g] == m[g] {
      assert g != f && g !in free1;
    }
  }

  /** The first i pages stay copies, and page i becomes one. */
  lemma CopyPages(m: Memory, m2: Memory, pd: nat, owner: Roles, d: nat, c: Roles, i: nat, f: nat, next: nat)
    requires Space(m, pd, owner) && Space(m, d, c) && i < NUSER && next == i + 1 && |m2| == |m| && f < |m|
    requires f !in owner
    requires Present(Word(m, pd, i)) && FrameOf(Word(m, pd, i)) < |m| && m2[f] == m[FrameOf(Word(m, pd, i))]
    requires forall u: nat :: u < NPAGE ==> Word(m2, pd, u) == Word(m, pd, u)
    requires forall u: nat :: u < NPAGE ==>
               Word(m2, d, u) == if u == i then Entry(f, Flags(Word(m, pd, i))) else Word(m, d, u)
    requires forall g: nat :: g < |m| && ((g in c && c[g].User?) || g in owner) ==> m2[g] == m[g]
    requires forall u: nat :: u < i && u < NUSER ==> CopyAt(m, pd, d, u)
    ensures forall u: nat :: u < next && u < NUSER ==> CopyAt(m2, pd, d, u)
  {
    forall u: nat | u < next && u < NUSER ensures CopyAt(m2, pd, d, u) {
      if u < i { CopyStays(m, m2, pd, owner, d, c, u); } else { CopyNew(m, m2, pd, owner, d, u, f); }
    }
  }

  lemma CopyNext(m: Memory, m1: Memory, m2: Memory, free2: seq<nat>, pd: nat, owner: Roles, d: nat,
                 c: Roles, c': Roles, mem0: Memory, free: seq<nat>, free1: seq<nat>, free0: seq<nat>,
                 i: nat, f: nat, next: nat)
    requires i < NUSER && next == i + 1 && Copying(m, free, pd, owner, d, c, mem0, free0, i)
    requires Copied(m, m1, m2, pd, d, c, c', free, free1, free2, i, f) && Present(Word(m, pd, i))
    ensures Copying(m2, free2, pd, owner, d, c', mem0, free0, next)
  {
    CopiedKeeps(m, m1, m2, free2, pd, owner, d, c, c', mem0, free, free1, free0, i, f);
    SpaceKept(m, m2, pd, owner);
    CopyPages(m, m2, pd, owner, d, c, i, f, next);
  }

  lemma CopyNew(m: Memory, m2: Memory, pd: nat, owner: Roles, d: nat, u: nat, f: nat)
    requires Space(m, pd, owner) && u < NUSER && |m2| == |m| && d < |m| && f < |m| && f !in owner
    requires Word(m2, pd, u) == Word(m, pd, u) && Present(Word(m, pd, u)) && FrameOf(Word(m, pd, u)) < |m|
    requires Word(m2, d, u) == Entry(f, Flags(Word(m, pd, u))) && m2[f] == m[FrameOf(Word(m, pd, u))]
    requires forall g: nat :: g < |m| && g in owner ==> m2[g] == m[g]
    ensures CopyAt(m2, pd, d, u)
  {
    assert PteOk(m, pd, owner, u);
  }

  /** A page copied earlier stays a copy. */
  lemma CopyStays(m: Memory, m2: Memory, pd: nat, owner: Roles, d: nat, c: Roles, u: nat)
    requires Space(m, pd, owner) && Space(m, d, c) && u < NUSER && |m2| == |m| && CopyAt(m, pd, d, u)
    requires Word(m2, pd, u) == Word(m, pd, u) && Word(m2, d, u) == Word(m, d, u)
    requires forall g: nat :: g < |m| && ((g in c && c[g].User?) || g in owner) ==> m2[g] == m[g]
    ensures CopyAt(m2, pd, d, u)
  {
    assert PteOk(m, pd, owner, u) && PteOk(m, d, c, u);
  }

  lemma CopyStart(mem: Memory, free: seq<nat>, pd: nat, owner: Roles, d: nat, c: Roles, kmap: seq<Kmap>,
                  mem0: Memory, free0: seq<nat>)
    requires Space(mem, pd, owner) && Space(mem, d, c) && FreeOk(mem, free) && |mem| == |mem0| && KmapOk(kmap)
    requires Conserved(free0, map[], free, c, {}) && (forall g :: g in c ==> g !in free)
    requires (forall g: nat :: g in owner ==> g !in free0) && Maps(mem, d, kmap, |kmap|)
    requires forall g: nat :: g < |mem| && g !in free0 ==> mem[g] == mem0[g]
    ensures Copying(mem, free, pd, owner, d, c, mem0, free0, 0)
  {
    forall u: nat | u < NUSER ensures !Present(Word(mem, d, u)) { KernelWordNone(kmap, |kmap|, u); }
  }

  /** From page 0 to KERNBASE nothing is missed: only the directory and the tables are left. */
  lemma NoUsersLeft(mem: Memory, mem': Memory, pd: nat, owner: Roles, o: Roles)
    requires Space(mem, pd, owner) && Dropped(mem, mem', pd, owner, o, 0, NUSER)
    ensures forall g: nat :: g in o ==> g in owner && !o[g].User?
    ensures forall g: nat :: g in owner && !owner[g].User? ==> g in o
    ensures |mem'| == |mem| && forall g: nat :: g < |mem| && g !in owner ==> mem'[g] == mem[g]
  {
    forall g: nat ensures g in o <==> g in owner && !owner[g].User? {
      assert KeptRole(owner, o, mem[pd], 0, NUSER, g);
      if g in owner { assert RoleOk(mem, pd, owner, g); }
    }
    forall g: nat | g in o ensures !o[g].User? { assert KeptRole(owner, o, mem[pd], 0, NUSER, g); }
  }

  // What allocuvm costs, counted before the call.

  /** Page a is the first of the range from lo on in a page table that is still to be made. */
  predicate NewTable(dir: Frame, lo: nat, a: nat)
    requires a < NPAGE
  {
    !Present(dir[a / NPTE]) && (a == lo || a % NPTE == 0)
  }

  /** The directory entries without a page table that the pages from lo up to h need. */
  function Bare(dir: Frame, lo: nat, h: nat): (s: set<nat>) {
    set d: nat | d < NPTE && lo < h && lo / NPTE <= d && d * NPTE < h && !Present(dir[d])
  }

  /** The frames the pages from lo up to h need: one each, and one for every missing page table. */
  function Need(dir: Frame, lo: nat, h: nat): (n: nat)
    requires lo <= h
  {
    h - lo + |Bare(dir, lo, h)|
  }

  /** n free frames are enough for all pages of the range. */
  predicate Enough(dir: Frame, lo: nat, hi: nat, n: nat) {
    lo <= hi && n >= Need(dir, lo, hi)
  }

  /** Just the page table of the last page is wanting, and no page before it needs that table. */
  predicate Short(dir: Frame, lo: nat, hi: nat, n: nat) {
    lo < hi <= NPAGE && n + 1 == Need(dir, lo, hi) && NewTable(dir, lo, hi - 1)
  }

  lemma BareNext(dir: Frame, lo: nat, a: nat, next: nat)
    requires lo <= a && next == a + 1 <= NPAGE
    ensures Bare(dir, lo, next) == Bare(dir, lo, a) + if NewTable(dir, lo, a) then {a / NPTE} else {}
    ensures NewTable(dir, lo, a) ==> a / NPTE !in Bare(dir, lo, a)
    ensures Need(dir, lo, next) == Need(dir, lo, a) + if NewTable(dir, lo, a) then 2 else 1
    ensures !Present(dir[a / NPTE]) && a / NPTE !in Bare(dir, lo, a) ==> NewTable(dir, lo, a)
  {
    var more := if NewTable(dir, lo, a) then {a / NPTE} else {};
    forall d: nat | d < NPTE ensures d in Bare(dir, lo, next) <==> d in Bare(dir, lo, a) + more { }
  }

  lemma {:induction false} NeedMore(dir: Frame, lo: nat, a: nat, hi: nat)
    requires lo <= a <= hi <= NPAGE
    ensures Need(dir, lo, hi) >= Need(dir, lo, a) + (hi - a)
    decreases hi - a
  {
    if a < hi {
      BareNext(dir, lo, a, a + 1);
      NeedMore(dir, lo, a + 1, hi);
    }
  }

  /** allocuvm has mapped the pages from lo up to h: of n free frames n' are left. */
  ghost predicate Paid(dir: Frame, dir': Frame, lo: nat, h: nat, n: nat, n': nat) {
    && lo <= h && n == n' + Need(dir, lo, h)
    && forall d: nat :: d < NPTE ==> Provided(dir, dir', lo, h, d)
  }

  ghost predicate Provided(dir: Frame, dir': Frame, lo: nat, h: nat, d: nat)
    requires d < NPTE
  {
    Present(dir'[d]) <==> Present(dir[d]) || d in Bare(dir, lo, h)
  }

  lemma PaidNext(dir: Frame, d1: Frame, d2: Frame, lo: nat, a: nat, next: nat, n: nat, n1: nat, n2: nat, ok: bool)
    requires Paid(dir, d1, lo, a, n, n1 + 1) && next == a + 1 <= NPAGE && Charged(d1, d2, a, n1, n2, ok)
    ensures ok ==> Paid(dir, d2, lo, next, n, n2)
    ensures !ok ==> n2 == 0 && NewTable(dir, lo, a) && n + 1 == Need(dir, lo, next)
  {
    BareNext(dir, lo, a, next);
    assert Provided(dir, d1, lo, a, a / NPTE);
    if ok {
      forall d: nat | d < NPTE ensures Provided(dir, d2, lo, next, d) {
        assert Provided(dir, d1, lo, a, d) && TableAdded(d1, d2, a, ok, d);
      }
    }
  }

  /** The frames run out just between a page and the page table made for it: the page's frame is lost. */
  ghost predicate Wasted(dir: Frame, lo: nat, hi: nat, n: nat)
    requires hi <= NPAGE
  {
    exists a: nat :: lo <= a < hi && NewTable(dir, lo, a) && n + 1 == Need(dir, lo, a + 1)
  }

  lemma WastedAt(dir: Frame, lo: nat, a: nat, next: nat, hi: nat, n: nat)
    requires lo <= a < hi <= NPAGE && next == a + 1 && NewTable(dir, lo, a) && n + 1 == Need(dir, lo, next)
    ensures Wasted(dir, lo, hi, n)
  {
  }

  /** With the frames used up before a page, or not at all, none is lost. */
  lemma NotWasted(dir: Frame, lo: nat, a: nat, hi: nat, n: nat)
    requires lo <= a <= hi <= NPAGE && n >= Need(dir, lo, a) && (a < hi ==> n == Need(dir, lo, a))
    ensures !Wasted(dir, lo, hi, n)
  {
    forall b: nat | lo <= b < hi && NewTable(dir, lo, b) ensures n + 1 != Need(dir, lo, b + 1) {
      BareNext(dir, lo, b, b + 1);
      if b < a { NeedMore(dir, lo, b + 1, a); } else { NeedMore(dir, lo, a, b); }
    }
  }

  /** Frames that belong to nobody any more. */
  ghost predicate Gone(lost: set<nat>, free: seq<nat>, owner: Roles) {
    forall g :: g in lost ==> g !in free && g !in owner
  }

  /** No frame is left for page a: the frames were neither enough nor short of the last table alone. */
  lemma PaidOut(dir: Frame, lo: nat, a: nat, hi: nat, n: nat)
    requires lo <= a < hi <= NPAGE && n <= Need(dir, lo, a)
    ensures !Enough(dir, lo, hi, n) && !Short(dir, lo, hi, n)
  {
    var last := hi - 1;
    NeedMore(dir, lo, a, last);
    BareNext(dir, lo, last, hi);
  }

  /** Page u is a fresh, zeroed, writable user page. */
  ghost predicate NewPage(mem: Memory, pd: nat, u: nat)
    requires pd < |mem| && u < NPAGE
  {
    var w := Word(mem, pd, u);
    Present(w) && Flags(w) == 7 && FrameOf(w) < |mem| && mem[FrameOf(w)] == Zero()
  }

  ghost predicate GrownAt(mem: Memory, mem': Memory, pd: nat, lo: nat, h: nat, u: nat)
    requires pd < |mem| && pd < |mem'| && u < NPAGE
  {
    if lo <= u < h then NewPage(mem', pd, u) else Word(mem', pd, u) == Word(mem, pd, u)
  }

  /** allocuvm has mapped the pages from lo up to h; nothing else in the directory has changed. */
  ghost predicate Grown(mem: Memory, mem': Memory, pd: nat, lo: nat, h: nat) {
    pd < |mem| == |mem'| && forall u: nat :: u < NPAGE ==> GrownAt(mem, mem', pd, lo, h, u)
  }

  /** Frame f, zeroed, is mapped at page h. */
  lemma GrownNext(mem: Memory, m: Memory, m1: Memory, m2: Memory, pd: nat, o: Roles, free: seq<nat>,
                  lo: nat, h: nat, next: nat, f: nat)
    requires Space(m, pd, o) && Grown(mem, m, pd, lo, h) && lo <= h < NUSER && next == h + 1
    requires f < |m| && f !in o && f !in free && m1 == m[f := Zero()] && Touches(m1, m2, o, free)
    requires forall g: nat :: g in free ==> g !in o
    requires forall u: nat :: u < NPAGE ==> Word(m2, pd, u) == if u == h then Entry(f, 6) else Word(m, pd, u)
    ensures Grown(mem, m2, pd, lo, next)
  {
    forall u: nat | u < NPAGE ensures GrownAt(mem, m2, pd, lo, next, u) {
      assert GrownAt(mem, m, pd, lo, h, u);
      if lo <= u < h { assert PteOk(m, pd, o, u); }
    }
  }

  lemma GrownSame(mem: Memory, m: Memory, m2: Memory, pd: nat, o: Roles, lo: nat, h: nat)
    requires Space(m, pd, o) && Grown(mem, m, pd, lo, h) && h <= NUSER && |m2| == |m|
    requires forall g: nat :: g in o && g < |m| ==> m2[g] == m[g]
    ensures Grown(mem, m2, pd, lo, h)
  {
    SpaceKept(m, m2, pd, o);
    forall u: nat | u < NPAGE ensures GrownAt(mem, m2, pd, lo, h, u) {
      assert GrownAt(mem, m, pd, lo, h, u);
      if lo <= u < h { assert PteOk(m, pd, o, u); }
    }
  }

  /** Nothing of the range is mapped, and the rest as before. */
  ghost predicate Unchanged(m: Memory, mem: Memory, pd: nat, lo: nat, hi: nat) {
    && pd < |m| == |mem|
    && forall u: nat :: u < NPAGE ==>
         if lo <= u < hi then !Present(Word(mem, pd, u)) else Word(mem, pd, u) == Word(m, pd, u)
  }

  /** The outcome of allocuvm on the pages from lo up to hi, decided by the directory and the n free frames before. */
  ghost predicate Allocated(m: Memory, mem: Memory, free: seq<nat>, pd: nat, n: nat, lo: nat, hi: nat, newsz: nat,
                            sz: nat, lost: set<nat>)
    requires pd < |m| && lo <= hi <= NUSER
  {
    && (lost != {} <==> Wasted(m[pd], lo, hi, n))
    && if Enough(m[pd], lo, hi, n) then sz == newsz && Grown(m, mem, pd, lo, hi)
       else if Short(m[pd], lo, hi, n) then
         sz == newsz && free == [] && Grown(m, mem, pd, lo, hi - 1) && !Present(Word(m, pd, hi - 1))
       else sz == 0 && Unchanged(m, mem, pd, lo, hi)
  }

  // What copyuvm costs: the child's directory has no table in the user half.

  ghost predicate NoUser(dir: Frame) {
    forall x: nat :: x < NUSER / NPTE ==> !Present(dir[x])
  }

  lemma {:induction false} DirsHigh(kmap: seq<Kmap>, n: nat, i: nat)
    requires KmapOk(kmap) && n <= |kmap| && (i > 0 ==> n < |kmap| && i <= kmap[n].n)
    ensures forall x :: x in Dirs(kmap, n, i) ==> x >= NUSER / NPTE
    decreases n, i
  {
    if i > 0 {
      DirsHigh(kmap, n, i - 1);
    } else if n > 0 {
      DirsHigh(kmap, n - 1, kmap[n - 1].n);
    }
  }

  lemma SetupNoUser(dir: Frame, kmap: seq<Kmap>, n: nat, n': nat)
    requires KmapOk(kmap) && Costs(dir, KernelDirs(kmap), n, n')
    ensures NoUser(dir)
  {
    DirsHigh(kmap, |kmap|, 0);
    forall x: nat | x < NUSER / NPTE ensures !Present(dir[x]) { assert TableIn(dir, KernelDirs(kmap), x); }
  }

  lemma UserNeed(dir: Frame, h: nat)
    requires NoUser(dir) && h <= NUSER
    ensures Need(dir, 0, h) == Need(Zero(), 0, h)
  {
    forall x: nat ensures x in Bare(dir, 0, h) <==> x in Bare(Zero(), 0, h) {
      if x < NPTE && x * NPTE < h { assert x < NUSER / NPTE; }
    }
    assert Bare(dir, 0, h) == Bare(Zero(), 0, h);
  }

  lemma UserTable(dir: Frame, a: nat)
    requires NoUser(dir) && a < NUSER
    ensures NewTable(dir, 0, a) == NewTable(Zero(), 0, a)
  {
    assert a / NPTE < NUSER / NPTE;
  }

  /** The outcome of copyuvm with n frames left by setupkvm, for k pages. */
  ghost predicate CopyEnds(n: nat, k: nat, done: bool, leak: set<nat>)
    requires k <= NUSER
  {
    (done <==> n >= Need(Zero(), 0, k)) && (leak != {} <==> Wasted(Zero(), 0, k, n))
  }

  lemma CopyDone(dir: Frame, dir': Frame, q: nat, k: nat, n: nat, n': nat)
    requires NoUser(dir) && q == k <= NUSER && Paid(dir, dir', 0, q, n, n')
    ensures CopyEnds(n, k, true, {})
  {
    UserNeed(dir, k);
    NotWasted(Zero(), 0, k, k, n);
  }

  /** The frames ran out at page i: before it, or between it and its page table. */
  lemma CopyStuck(dir: Frame, i: nat, next: nat, k: nat, n: nat, leak: set<nat>)
    requires NoUser(dir) && i < k <= NUSER && next == i + 1
    requires if leak == {} then n == Need(dir, 0, i) else NewTable(dir, 0, i) && n + 1 == Need(dir, 0, next)
    ensures CopyEnds(n, k, false, leak)
  {
    UserNeed(dir, i);
    UserNeed(dir, next);
    UserTable(dir, i);
    if leak == {} {
      NotWasted(Zero(), 0, i, k, n);
      NeedMore(Zero(), 0, i, k);
    } else {
      WastedAt(Zero(), 0, i, next, k, n);
      NeedMore(Zero(), 0, next, k);
    }
  }

  /** What the exits of allocuvm have in common: Enough loses nothing, Short loses a frame. */
  lemma EnoughShort(dir: Frame, lo: nat, hi: nat, n: nat)
    requires lo <= hi <= NPAGE
    ensures Enough(dir, lo, hi, n) ==> !Wasted(dir, lo, hi, n)
    ensures Short(dir, lo, hi, n) ==> Wasted(dir, lo, hi, n)
  {
    if Enough(dir, lo, hi, n) { NotWasted(dir, lo, hi, hi, n); }
    if Short(dir, lo, hi, n) { WastedAt(dir, lo, hi - 1, hi, hi, n); }
  }

  /** The end of the loop for want of a frame for page q. */
  lemma AllocatedNone(m: Memory, mem: Memory, free: seq<nat>, pd: nat, n: nat, lo: nat, q: nat, hi: nat, newsz: nat,
                      lost: set<nat>)
    requires pd < |m| && lo <= q < hi <= NUSER && Unchanged(m, mem, pd, lo, hi)
    requires if lost == {} then n == Need(m[pd], lo, q) else n + 1 == Need(m[pd], lo, q) && Wasted(m[pd], lo, hi, n)
    ensures Allocated(m, mem, free, pd, n, lo, hi, newsz, 0, lost)
  {
    PaidOut(m[pd], lo, q, hi, n);
    if lost == {} { NotWasted(m[pd], lo, q, hi, n); }
  }

  /** The end of the loop with every page tried: h of them are mapped. */
  lemma AllocatedTried(m: Memory, mem: Memory, free: seq<nat>, pd: nat, n: nat, lo: nat, h: nat, q: nat, hi: nat,
                       newsz: nat, lost: set<nat>)
    requires pd < |m| && lo <= q == hi <= NUSER && lo <= h && Grown(m, mem, pd, lo, h)
    requires forall u: nat :: lo <= u < hi ==> !Present(Word(m, pd, u))
    requires lost == {} ==> h == q && Paid(m[pd], mem[pd], lo, q, n, |free|)
    requires lost != {} ==> h + 1 == q && free == [] && n + 1 == Need(m[pd], lo, q) && NewTable(m[pd], lo, h)
    ensures Allocated(m, mem, free, pd, n, lo, hi, newsz, newsz, lost)
  {
    assert lost == {} ==> Enough(m[pd], lo, hi, n);
    assert lost != {} ==> Short(m[pd], lo, hi, n) && !Present(Word(m, pd, h));
    EnoughShort(m[pd], lo, hi, n);
  }

  /** Undoing: once deallocuvm has run over the range, the directory maps what it mapped before. */
  lemma Undone(mem: Memory, m: Memory, m2: Memory, pd: nat, o: Roles, o2: Roles, lo: nat, h: nat, hi: nat)
    requires Grown(mem, m, pd, lo, h) && lo <= h <= hi <= NUSER && Dropped(m, m2, pd, o, o2, lo, hi)
    requires forall u: nat :: lo <= u < hi ==> !Present(Word(mem, pd, u))
    ensures Unchanged(mem, m2, pd, lo, hi)
  {
    if lo < h { assert GrownAt(mem, m, pd, lo, h, lo); }
    forall u: nat | u < NPAGE
      ensures if lo <= u < hi then !Present(Word(m2, pd, u)) else Word(m2, pd, u) == Word(mem, pd, u)
    {
      assert GrownAt(mem, m, pd, lo, h, u) && WordLeft(m, m2, pd, lo, hi, u);
      assert lo < h && lo < u && u % NPTE < lo % NPTE ==> lo / NPTE < u / NPTE;
    }
  }

  class Vm {
    var mem: Memory
    var free: seq<nat>

    constructor (mem: Memory, free: seq<nat>)
      requires FreeOk(mem, free)
      ensures this.mem == mem && this.free == free
    {
      this.mem, this.free := mem, free;
    }

    ghost predicate Good(pd: nat, owner: Roles)
      reads this
    {
      Space(mem, pd, owner) && FreeOk(mem, free) && forall f :: f in owner ==> f !in free
    }

    /** kalloc(): the head of the free list, or 0. */
    method Kalloc() returns (f: nat)
      requires FreeOk(mem, free)
      modifies this`free
      ensures FreeOk(mem, free)
      ensures f == 0 <==> old(free) == []
      ensures f == 0 ==> free == old(free)
      ensures f != 0 ==> 0 < f < |mem| && old(free) == [f] + free && f !in free
    {
      if free == [] { return 0; }
      PopFree(mem, free);
      f := free[0];
      free := free[1..];
    }

    /** kfree(): a page that is not free becomes the head of the free list. */
    method Kfree(f: nat)
      requires FreeOk(mem, free) && 0 < f < |mem| && f !in free
      modifies this
      ensures FreeOk(mem, free) && mem == old(mem)[f := Junk()] && free == [f] + old(free)
    {
      PushFree(mem, free, f);
      mem := mem[f := Junk()];
      free := [f] + free;
    }

    /** walkpgdir(): whether there is a page table for vp, adding one if asked and possible. */
    method Walk(pd: nat, vp: nat, alloc: bool, ghost owner: Roles) returns (ok: bool, ghost owner': Roles)
      requires Good(pd, owner) && vp < NPAGE
      modifies this
      ensures Good(pd, owner') && Grew(owner, old(free), owner', free) && Conserved(old(free), owner, free, owner', {})
      ensures Touches(old(mem), mem, owner, old(free))
      ensures ok <==> Present(mem[pd][vp / NPTE])
      ensures ok && !old(Present(mem[pd][vp / NPTE])) ==> Flags(mem[pd][vp / NPTE]) == 7
      ensures forall d: nat :: d < NPTE && d != vp / NPTE ==> mem[pd][d] == old(mem[pd][d])
      ensures !ok ==> mem == old(mem) && free == old(free) && owner' == owner && (alloc ==> free == [])
      ensures !alloc ==> mem == old(mem) && free == old(free) && owner' == owner
      ensures old(Present(mem[pd][vp / NPTE])) ==> ok && mem == old(mem)
      ensures alloc ==> Charged(old(mem)[pd], mem[pd], vp, old(|free|), |free|, ok)
      ensures forall u: nat :: u < NPAGE ==> Word(mem, pd, u) == old(Word(mem, pd, u))
    {
      owner' := owner;
      if Present(mem[pd][vp / NPTE]) { return true, owner; }
      if !alloc { return false, owner; }
      var f := Kalloc();
      if f == 0 { return false, owner; }
      ghost var m := mem;
      mem := mem[f := Zero()];
      SpaceKept(m, mem, pd, owner);
      ghost var m1 := mem;
      mem := mem[pd := mem[pd][vp / NPTE := Entry(f, 7)]];
      AddTable(m1, pd, owner, vp / NPTE, f, mem);
      owner' := owner[f := Table(vp / NPTE)];
      ok := true;
    }

    /** One round of mappages: enter frame f with its permissions for page vp. */
    method MapPage(pd: nat, vp: nat, f: nat, perm: nat, ghost owner: Roles)
      returns (ok: bool, ghost owner': Roles)
      requires Good(pd, owner) && vp < NPAGE && perm < PGSIZE && !Present(Word(mem, pd, vp))
      requires vp < NUSER ==> 0 < f < |mem| && f !in owner && f !in free
      modifies this
      ensures Good(pd, owner') && Grew(owner, old(free), owner', free) && Touches(old(mem), mem, owner, old(free))
      ensures !ok ==> mem == old(mem) && owner' == owner
      ensures Charged(old(mem)[pd], mem[pd], vp, old(|free|), |free|, ok)
      ensures ok && vp < NUSER ==>
                f in owner' && owner'[f] == User(vp) && Conserved(old(free), owner, free, owner', {f})
      ensures ok && vp >= NUSER ==> Conserved(old(free), owner, free, owner', {})
      ensures ok ==> forall u: nat :: u < NPAGE ==>
                Word(mem, pd, u) == if u == vp then Entry(f, perm) else old(Word(mem, pd, u))
    {
      ok, owner' := Walk(pd, vp, true, owner);
      if !ok { return; }
      TableFrame(mem, pd, owner', vp / NPTE);
      ghost var m, o := mem, owner';
      var t := FrameOf(mem[pd][vp / NPTE]);
      mem := mem[t := mem[t][vp % NPTE := Entry(f, perm)]];
      owner' := if vp < NUSER then owner'[f := User(vp)] else owner';
      MapEntry(m, mem, pd, o, vp, Entry(f, perm), owner');
    }

    /** Free the page of vp, if it is present, and clear its entry. */
    method DropPage(pd: nat, vp: nat, ghost owner: Roles) returns (ghost owner': Roles)
      requires Good(pd, owner) && vp < NUSER && Present(mem[pd][vp / NPTE])
      modifies this
      ensures Good(pd, owner') && PageGone(old(mem), mem, pd, vp, owner, owner')
      ensures Conserved(old(free), owner, free, owner', {})
    {
      TableFrame(mem, pd, owner, vp / NPTE);
      assert PteOk(mem, pd, owner, vp);
      var t := FrameOf(mem[pd][vp / NPTE]);
      var w := mem[t][vp % NPTE];
      owner' := owner;
      forall g | g in owner && owner[g] == User(vp) ensures Present(w) && g == FrameOf(w) {
        assert RoleOk(mem, pd, owner, g);
      }
      if Present(w) {
        assert RoleOk(mem, pd, owner, FrameOf(w));
        ghost var m := mem;
        Kfree(FrameOf(w));
        SpaceKept(m, mem, pd, owner);
        ghost var m1 := mem;
        mem := mem[t := mem[t][vp % NPTE := 0]];
        UnmapEntry(m1, mem, pd, owner, vp);
        owner' := owner - {FrameOf(w)};
      }
    }

    /** A round of the loop of deallocuvm at page a, where there is a page table. */
    method DropRound(pd: nat, a: nat, ghost m: Memory, ghost owner: Roles, ghost o: Roles,
                     ghost lo: nat, ghost h: nat, ghost free0: seq<nat>)
      returns (ghost o': Roles)
      requires lo <= a < NUSER && h == a + 1 && Good(pd, o) && Present(mem[pd][a / NPTE])
      requires Dropped(m, mem, pd, owner, o, lo, a) && !Missed(m[pd], lo, a) && Conserved(free0, owner, free, o, {})
      modifies this
      ensures Good(pd, o') && Dropped(m, mem, pd, owner, o', lo, h) && Conserved(free0, owner, free, o', {})
    {
      ghost var m1 := mem;
      o' := DropPage(pd, a, o);
      DroppedNext(m, m1, mem, pd, owner, o, o', lo, a);
    }

    /**
      deallocuvm(): every reached page is freed once and unmapped, and nothing
      else changes.
     */
    method DeallocUvm(pd: nat, oldsz: nat, newsz: nat, ghost owner: Roles)
      returns (sz: nat, ghost owner': Roles)
      requires Good(pd, owner) && oldsz <= NUSER * PGSIZE
      modifies this
      ensures newsz >= oldsz ==> sz == oldsz && mem == old(mem) && free == old(free) && owner' == owner
      ensures newsz < oldsz ==> sz == newsz
      ensures Good(pd, owner') && Conserved(old(free), owner, free, owner', {})
      ensures newsz < oldsz ==> Dropped(old(mem), mem, pd, owner, owner', Up(newsz), Up(oldsz))
    {
      owner' := owner;
      if newsz >= oldsz { return oldsz, owner; }
      owner' := DropRange(pd, Up(newsz), Up(oldsz), owner);
      sz := newsz;
    }

    /** The loop of deallocuvm, in pages. */
    method DropRange(pd: nat, lo: nat, hi: nat, ghost owner: Roles) returns (ghost owner': Roles)
      requires Good(pd, owner) && lo <= hi <= NUSER
      modifies this
      ensures Good(pd, owner') && Conserved(old(free), owner, free, owner', {})
      ensures Dropped(old(mem), mem, pd, owner, owner', lo, hi)
    {
      owner' := owner;
      var a := lo;
      ghost var m, h, q := mem, lo, lo;   // h pages are done; q is a
      DroppedStart(mem, pd, owner, lo);
      while a < hi
        invariant lo <= a == q < NPAGE - NPTE && Good(pd, owner') && Phase(m[pd], lo, q)
        invariant h == Min(a, hi) && Conserved(old(free), owner, free, owner', {})
        invariant Dropped(m, mem, pd, owner, owner', lo, h)
      {
        if !Present(mem[pd][a / NPTE]) {
          h, q := Min(a + NPTE, hi), a + NPTE;
          SkipRound(m, mem, pd, owner, owner', lo, a, h, q);
          a := a + (NPTE - 1);
        } else {
          h, q := a + 1, a + 1;
          PhaseNext(m[pd], lo, a, q);
          owner' := DropRound(pd, a, m, owner, owner', lo, h, old(free));
        }
        a := a + 1;
      }
      assert h == hi;
    }

    /** The frame list a call of freevm leaves: the tables of the first i directory entries are on it. */
    ghost predicate Freeing(pd: nat, owner: Roles, free0: seq<nat>, i: nat)
      reads this
    {
      && FreeOk(mem, free)
      && forall g: nat :: g in free <==> g in free0 || (g in owner && owner[g].Table? && owner[g].d < i)
    }

    /** The loop of freevm over the page tables. */
    method FreeTables(pd: nat, ghost owner: Roles)
      requires Good(pd, owner) && forall g :: g in owner ==> !owner[g].User?
      modifies this
      ensures FreeOk(mem, free) && pd !in free && |mem| == old(|mem|)
      ensures forall g: nat :: g in free || g == pd <==> g in old(free) || g in owner
      ensures forall g: nat :: g < |mem| && g !in owner ==> mem[g] == old(mem)[g]
    {
      var i := 0;
      ghost var m := mem;
      while i < NPTE
        invariant i <= NPTE && |mem| == |m| && mem[pd] == m[pd] && Freeing(pd, owner, old(free), i)
        invariant forall g: nat :: g < |mem| && g !in owner ==> mem[g] == m[g]
      {
        if Present(mem[pd][i]) {
          TableFrame(m, pd, owner, i);
          Kfree(FrameOf(mem[pd][i]));
        }
        RolesAt(m, pd, owner, i);
        i := i + 1;
      }
      forall g: nat | g in owner && g != pd ensures owner[g].Table? && owner[g].d < NPTE {
        assert RoleOk(m, pd, owner, g);
      }
    }

    /** freevm(): every frame of the address space goes to the free list exactly once. */
    method FreeVm(pd: nat, ghost owner: Roles)
      requires Good(pd, owner)
      modifies this
      ensures FreeOk(mem, free) && |mem| == old(|mem|)
      ensures forall g: nat :: g in free <==> g in old(free) || g in owner
      ensures forall g: nat :: g < |mem| && g !in owner ==> mem[g] == old(mem)[g]
    {
      assert RoleOk(mem, pd, owner, pd);
      ghost var o := FreeUsers(pd, owner);
      FreeTables(pd, o);
      Kfree(pd);
    }

    /** The start of freevm: every user page is freed. */
    method FreeUsers(pd: nat, ghost owner: Roles) returns (ghost o: Roles)
      requires Good(pd, owner)
      modifies this
      ensures Good(pd, o) && Conserved(old(free), owner, free, o, {}) && |mem| == old(|mem|)
      ensures forall g: nat :: g in o ==> g in owner && !o[g].User?
      ensures forall g: nat :: g < |mem| && g !in owner ==> mem[g] == old(mem)[g]
    {
      ghost var m := mem;
      assert Up(0) == 0 && Up(NUSER * PGSIZE) == NUSER;
      var sz;
      sz, o := DeallocUvm(pd, NUSER * PGSIZE, 0, owner);
      assert Dropped(m, mem, pd, owner, o, 0, NUSER);
      NoUsersLeft(m, mem, pd, owner, o);
    }

    /** Frames that were not free are as they were, and no frame has become free. */
    ghost predicate Took(mem0: Memory, free0: seq<nat>)
      reads this
    {
      && FreeOk(mem, free) && |mem| == |mem0| && (forall g: nat :: g in free ==> g in free0)
      && (forall g: nat :: g < |mem| && g !in free0 ==> mem[g] == mem0[g])
    }

    /** A round of mappages() for range n of the kernel. */
    method MapKernel(pd: nat, kmap: seq<Kmap>, n: nat, i: nat, ghost next: nat, ghost owner: Roles,
                     ghost mem0: Memory, ghost free0: seq<nat>, ghost s: set<nat>, ghost s': set<nat>, ghost c: nat)
      returns (ok: bool, ghost owner': Roles)
      requires Good(pd, owner) && KmapOk(kmap) && Took(mem0, free0) && Conserved(free0, map[], free, owner, {})
      requires Half(mem, pd, kmap, n, i) && i < kmap[n].n && next == i + 1
      requires Costs(mem[pd], s, |free0|, |free|) && s' == s + {c} && c == (kmap[n].first + i) / NPTE
      modifies this
      ensures Good(pd, owner') && Took(mem0, free0) && Conserved(free0, map[], free, owner', {})
      ensures if ok then Half(mem, pd, kmap, n, next) && Costs(mem[pd], s', |free0|, |free|)
              else free == [] && |free0| < 1 + |s'|
    {
      var vp := kmap[n].first + i;
      Unmapped(mem, pd, kmap, n, i, vp);
      ghost var m, k := mem, |free|;
      ok, owner' := MapPage(pd, vp, kmap[n].pf + i, kmap[n].perm % PGSIZE, owner);
      CostNext(m[pd], mem[pd], s, s', c, vp, |free0|, k, |free|, ok);
      if ok { HalfNext(m, mem, pd, kmap, n, i, next); }
    }

    /** mappages() for range n of the kernel, in a directory that holds the ranges before it. */
    method MapRange(pd: nat, kmap: seq<Kmap>, n: nat, ghost next: nat, ghost owner: Roles, ghost mem0: Memory,
                    ghost free0: seq<nat>)
      returns (ok: bool, ghost owner': Roles)
      requires Good(pd, owner) && KmapOk(kmap) && Took(mem0, free0) && Conserved(free0, map[], free, owner, {})
      requires Maps(mem, pd, kmap, n) && n < |kmap| && next == n + 1
      requires Costs(mem[pd], Dirs(kmap, n, 0), |free0|, |free|)
      modifies this
      ensures Good(pd, owner') && Took(mem0, free0) && Conserved(free0, map[], free, owner', {})
      ensures if ok then Maps(mem, pd, kmap, next) && Costs(mem[pd], Dirs(kmap, next, 0), |free0|, |free|)
              else free == [] && |free0| < 1 + |KernelDirs(kmap)|
    {
      owner' := owner;
      HalfStart(mem, pd, kmap, n);
      var i := 0;
      ghost var q: nat, s := 0, Dirs(kmap, n, 0);   // q is i
      while i < kmap[n].n
        invariant i == q <= kmap[n].n && Good(pd, owner') && Took(mem0, free0)
        invariant Conserved(free0, map[], free, owner', {})
        invariant Half(mem, pd, kmap, n, q) && s == Dirs(kmap, n, q) && Costs(mem[pd], s, |free0|, |free|)
      {
        ghost var q' := q + 1;
        ghost var s', c := Dirs(kmap, n, q'), (kmap[n].first + i) / NPTE;
        assert s' == s + {c} by { DirsNext(kmap, n, i, q'); }
        ok, owner' := MapKernel(pd, kmap, n, i, q', owner', mem0, free0, s, s', c);
        if !ok {
          TooFew(kmap, n, q');
          return;
        }
        i, q, s := i + 1, q', s';
      }
      ok := true;
      assert s == Dirs(kmap, next, 0) by { DirsEnd(kmap, n, q, next); }
      HalfEnd(mem, pd, kmap, n, next);
    }

    /** The start of setupkvm: an empty directory. */
    method NewDir(ghost kmap: seq<Kmap>) returns (d: nat, ghost c: Roles)
      requires FreeOk(mem, free)
      modifies this
      ensures Took(old(mem), old(free)) && (d == 0 <==> old(free) == []) && (d == 0 ==> free == [])
      ensures d != 0 ==> Good(d, c) && Conserved(old(free), map[], free, c, {}) && Maps(mem, d, kmap, 0)
      ensures d != 0 ==> Costs(mem[d], {}, old(|free|), |free|)
    {
      c := map[];
      d := Kalloc();
      if d == 0 { return; }
      mem := mem[d := Zero()];
      NewSpace(mem, d);
      c := map[d := Root];
    }

    /**
      setupkvm(): a fresh directory with the kernel's mapping and an empty user
      half, exactly when there are frames for it and its page tables; otherwise
      0, with every free frame taken and none given back.
     */
    method SetupKvm(kmap: seq<Kmap>) returns (d: nat, ghost c: Roles)
      requires FreeOk(mem, free) && KmapOk(kmap)
      modifies this
      ensures Took(old(mem), old(free))
      ensures d != 0 <==> old(|free|) >= 1 + |KernelDirs(kmap)|
      ensures d == 0 ==> free == []
      ensures d != 0 ==> Good(d, c) && Conserved(old(free), map[], free, c, {}) && Maps(mem, d, kmap, |kmap|)
      ensures d != 0 ==> Costs(mem[d], KernelDirs(kmap), old(|free|), |free|)
    {
      d, c := NewDir(kmap);
      if d == 0 { return; }
      var i := 0;
      while i < |kmap|
        invariant i <= |kmap| && Good(d, c) && Took(old(mem), old(free)) && Conserved(old(free), map[], free, c, {})
        invariant Maps(mem, d, kmap, i) && Costs(mem[d], Dirs(kmap, i, 0), old(|free|), |free|)
      {
        var ok;
        ghost var i' := i + 1;
        ok, c := MapRange(d, kmap, i, i', c, old(mem), old(free));
        if !ok { return 0, c; }
        i := i + 1;
      }
    }

    /** A round of the loop of copyuvm: copy page i; leak is the page dropped when it cannot be mapped. */
    method CopyPage(pd: nat, d: nat, i: nat, ghost next: nat, ghost owner: Roles, ghost c: Roles,
                    ghost mem0: Memory, ghost free0: seq<nat>, ghost dir: Frame, ghost n: nat)
      returns (ok: bool, ghost c': Roles, ghost leak: set<nat>)
      requires Copying(mem, free, pd, owner, d, c, mem0, free0, i) && i < NUSER && next == i + 1
      requires Present(Word(mem, pd, i)) && Paid(dir, mem[d], 0, i, n, |free|)
      modifies this
      ensures ok ==> Copying(mem, free, pd, owner, d, c', mem0, free0, next) && leak == {}
      ensures ok ==> Paid(dir, mem[d], 0, next, n, |free|) && KernelSame(old(mem), mem, d)
      ensures !ok ==> Good(d, c') && |leak| <= 1 && |mem| == |mem0| && Gone(leak, free, c')
      ensures !ok ==> forall g: nat :: g < |mem| && g !in free0 ==> mem[g] == mem0[g]
      ensures !ok ==> forall g: nat :: g in free || g in c' || g in leak <==> g in free0
      ensures !ok ==> if leak == {} then n == Need(dir, 0, i) else NewTable(dir, 0, i) && n + 1 == Need(dir, 0, next)
    {
      assert PteOk(mem, pd, owner, i);
      var w := Word(mem, pd, i);
      assert RoleOk(mem, pd, owner, FrameOf(w));
      ghost var m := mem;
      c', leak := c, {};
      var f := Kalloc();
      if f == 0 { return false, c, {}; }
      ghost var free1 := free;
      assert f in old(free);
      mem := mem[f := mem[FrameOf(w)]];
      SpaceKept(m, mem, d, c);
      ghost var m1 := mem;
      ok, c' := MapPage(d, i, f, Flags(w), c);
      PaidNext(dir, m1[d], mem[d], 0, i, next, n, |free1|, |free|, ok);
      if !ok { return false, c, {f}; }
      CopyNext(m, m1, mem, free, pd, owner, d, c, c', mem0, old(free), free1, free0, i, f, next);
    }

    /**
      copyuvm(): on success the child has the parent's flags and bytes on
      every page of [0, sz), in frames that were free; on failure every frame
      comes back but at most the one page that could not be mapped, unless
      setupkvm itself failed.  Which of these it is, is decided before the call
      by the number of free frames.
     */
    method CopyUvm(pd: nat, sz: nat, kmap: seq<Kmap>, ghost owner: Roles)
      returns (d: nat, ghost c: Roles, ghost leak: set<nat>, ghost setup: bool)
      requires Good(pd, owner) && KmapOk(kmap) && sz <= NUSER * PGSIZE
      requires forall u: nat :: u < Up(sz) ==> Present(Word(mem, pd, u))
      modifies this
      ensures FreeOk(mem, free) && |mem| == old(|mem|)
      ensures forall g: nat :: g < |mem| && g !in old(free) ==> mem[g] == old(mem)[g]
      ensures d != 0 ==> Good(d, c) && (forall g: nat :: g in c ==> g in old(free) && g !in owner)
      ensures d != 0 ==> (forall u: nat :: u < Up(sz) ==> CopyAt(mem, pd, d, u))
      ensures d != 0 ==> (forall u: nat :: Up(sz) <= u < NUSER ==> !Present(Word(mem, d, u)))
      ensures d != 0 ==> KernelMapped(mem, d, kmap)
      ensures d != 0 ==> forall g: nat :: g in free || g in c <==> g in old(free)
      ensures setup <==> old(|free|) >= 1 + |KernelDirs(kmap)|
      ensures d == 0 && setup ==> |leak| <= 1 && forall g: nat :: g in free || g in leak <==> g in old(free)
      ensures forall g :: g in leak ==> g !in free
      ensures setup ==> CopyEnds(old(|free|) - 1 - |KernelDirs(kmap)|, Up(sz), d != 0, leak)
      ensures !setup ==> d == 0 && free == []
    {
      leak := {};
      d, c := SetupKvm(kmap);
      setup := d != 0;
      if d == 0 { return; }
      SpaceKept(old(mem), mem, pd, owner);
      CopyStart(mem, free, pd, owner, d, c, kmap, old(mem), old(free));
      ghost var m, dir, n := mem, mem[d], |free|;
      SetupNoUser(dir, kmap, old(|free|), n);
      var ok;
      ok, c, leak := CopyAll(pd, d, Up(sz), owner, c, old(mem), old(free), dir, n);
      if !ok {
        FreeVm(d, c);
        return 0, c, leak, true;
      }
      KernelKept(m, mem, d, kmap);
    }

    /** The loop of copyuvm, over k pages. */
    method CopyAll(pd: nat, d: nat, k: nat, ghost owner: Roles, ghost c: Roles, ghost mem0: Memory,
                   ghost free0: seq<nat>, ghost dir: Frame, ghost n: nat)
      returns (ok: bool, ghost c': Roles, ghost leak: set<nat>)
      requires Copying(mem, free, pd, owner, d, c, mem0, free0, 0) && k <= NUSER
      requires forall u: nat :: u < k ==> Present(Word(mem, pd, u))
      requires NoUser(dir) && dir == mem[d] && n == |free|
      modifies this
      ensures ok ==> Copying(mem, free, pd, owner, d, c', mem0, free0, k) && KernelSame(old(mem), mem, d)
      ensures !ok ==> Good(d, c') && |mem| == |mem0|
      ensures !ok ==> forall g: nat :: g < |mem| && g !in free0 ==> mem[g] == mem0[g]
      ensures !ok ==> forall g: nat :: g in free || g in c' || g in leak <==> g in free0
      ensures |leak| <= 1 && Gone(leak, free, c') && CopyEnds(n, k, ok, leak)
    {
      c', leak, ok := c, {}, true;
      var i := 0;
      ghost var q: nat := 0;   // q is i
      while i < k
        invariant i == q <= k && Copying(mem, free, pd, owner, d, c', mem0, free0, q)
        invariant forall u: nat :: u < k ==> Present(Word(mem, pd, u))
        invariant Paid(dir, mem[d], 0, q, n, |free|) && leak == {} && ok && KernelSame(old(mem), mem, d)
      {
        ghost var m, next := mem, q + 1;
        ok, c', leak := CopyPage(pd, d, i, next, owner, c', mem0, free0, dir, n);
        if !ok {
          CopyStuck(dir, q, next, k, n, leak);
          return;
        }
        SpaceKept(m, mem, pd, owner);
        i, q := i + 1, next;
      }
      CopyDone(dir, mem[d], q, k, n, |free|);
    }

    /** A round of the loop of allocuvm; the page is lost when it cannot be mapped. */
    method GrowPage(pd: nat, a: nat, f: nat, ghost owner: Roles, ghost mem0: Memory, ghost lo: nat, ghost next: nat,
                    ghost free0: seq<nat>, ghost owner0: Roles)
      returns (ok: bool, ghost o: Roles)
      requires Conserved([f] + free, owner, free0, owner0, {})
      requires Good(pd, owner) && lo <= a < NUSER && next == a + 1 && 0 < f < |mem| && f !in owner && f !in free
      requires Grown(mem0, mem, pd, lo, a) && !Present(Word(mem, pd, a))
      modifies this
      ensures Good(pd, o) && Charged(old(mem)[pd], mem[pd], a, old(|free|), |free|, ok)
      ensures Grown(mem0, mem, pd, lo, if ok then next else a)
      ensures Conserved(free, o, free0, owner0, if ok then {} else {f}) && (!ok ==> Gone({f}, free, o))
    {
      ghost var m := mem;
      mem := mem[f := Zero()];
      SpaceKept(m, mem, pd, owner);
      ghost var m1, free1 := mem, free;
      ok, o := MapPage(pd, a, f, 6, owner);
      if ok {
        GrownNext(mem0, m, m1, mem, pd, owner, free1, lo, a, next, f);
      } else {
        GrownSame(mem0, m, mem, pd, owner, lo, a);
      }
    }

    /**
      allocuvm(): with enough frames every page of the range is a fresh zeroed
      page.  If just the page table of the last page is wanting, it reports
      success too, with that page missing and its frame lost; otherwise it
      fails and the directory maps what it did before.
     */
    method AllocUvm(pd: nat, oldsz: nat, newsz: nat, ghost owner: Roles)
      returns (sz: nat, ghost owner': Roles, ghost lost: set<nat>)
      requires Good(pd, owner)
      requires newsz < NUSER * PGSIZE ==> forall u: nat :: Up(oldsz) <= u < Up(newsz) ==> !Present(Word(mem, pd, u))
      modifies this
      ensures |mem| == old(|mem|) && Good(pd, owner') && |lost| <= 1
      ensures Conserved(free, owner', old(free), owner, lost) && Gone(lost, free, owner')
      ensures newsz >= NUSER * PGSIZE ==> sz == 0 && mem == old(mem) && free == old(free)
      ensures newsz < oldsz && newsz < NUSER * PGSIZE ==> sz == oldsz && mem == old(mem) && free == old(free)
      ensures oldsz <= newsz < NUSER * PGSIZE ==>
                Allocated(old(mem), mem, free, pd, old(|free|), Up(oldsz), Up(newsz), newsz, sz, lost)
    {
      owner', lost := owner, {};
      if newsz >= NUSER * PGSIZE { return 0, owner, {}; }
      if newsz < oldsz { return oldsz, owner, {}; }
      sz, owner', lost := GrowRange(pd, Up(oldsz), Up(newsz), oldsz, newsz, owner);
    }

    /** allocuvm without a free frame: back to the old size. */
    method Undo(pd: nat, lo: nat, hi: nat, oldsz: nat, newsz: nat, ghost owner: Roles, ghost m: Memory, ghost h: nat)
      returns (ghost o: Roles)
      requires Good(pd, owner) && lo == Up(oldsz) < hi == Up(newsz) <= NUSER && oldsz < newsz <= NUSER * PGSIZE
      requires lo <= h <= hi && Grown(m, mem, pd, lo, h) && forall u: nat :: lo <= u < hi ==> !Present(Word(m, pd, u))
      modifies this
      ensures |mem| == old(|mem|) && Good(pd, o) && Conserved(old(free), owner, free, o, {})
      ensures Unchanged(m, mem, pd, lo, hi)
    {
      ghost var m1 := mem;
      var r;
      r, o := DeallocUvm(pd, newsz, oldsz, owner);
      Undone(m, m1, mem, pd, owner, o, lo, h, hi);
    }

    /** A round of the loop of allocuvm with its frame f at hand, and what it costs. */
    method GrowRound(pd: nat, a: nat, f: nat, ghost owner: Roles, ghost m: Memory, ghost lo: nat,
                     ghost next: nat, ghost free0: seq<nat>, ghost owner0: Roles, ghost n: nat)
      returns (ok: bool, ghost o: Roles)
      requires Conserved([f] + free, owner, free0, owner0, {})
      requires Good(pd, owner) && lo <= a < NUSER && next == a + 1 && 0 < f < |mem| && f !in owner && f !in free
      requires Grown(m, mem, pd, lo, a) && !Present(Word(mem, pd, a)) && Paid(m[pd], mem[pd], lo, a, n, |free| + 1)
      modifies this
      ensures Good(pd, o) && Conserved(free, o, free0, owner0, if ok then {} else {f}) && (!ok ==> Gone({f}, free, o))
      ensures ok ==> Grown(m, mem, pd, lo, next) && Paid(m[pd], mem[pd], lo, next, n, |free|)
      ensures !ok ==> Grown(m, mem, pd, lo, a) && free == [] && NewTable(m[pd], lo, a) && n + 1 == Need(m[pd], lo, next)
    {
      ghost var d, k := mem[pd], |free|;
      ok, o := GrowPage(pd, a, f, owner, m, lo, next, free0, owner0);
      PaidNext(m[pd], d, mem[pd], lo, a, next, n, k, |free|, ok);
    }

    /** The loop of allocuvm, in pages. */
    method GrowRange(pd: nat, lo: nat, hi: nat, oldsz: nat, newsz: nat, ghost owner: Roles)
      returns (sz: nat, ghost owner': Roles, ghost lost: set<nat>)
      requires Good(pd, owner) && lo == Up(oldsz) <= hi == Up(newsz) <= NUSER && oldsz <= newsz <= NUSER * PGSIZE
      requires forall u: nat :: lo <= u < hi ==> !Present(Word(mem, pd, u))
      modifies this
      ensures |mem| == old(|mem|) && Good(pd, owner') && |lost| <= 1
      ensures Conserved(free, owner', old(free), owner, lost) && Gone(lost, free, owner')
      ensures Allocated(old(mem), mem, free, pd, old(|free|), lo, hi, newsz, sz, lost)
    {
      owner', lost := owner, {};
      var a := lo;
      ghost var m, n, h: nat, q: nat := mem, |free|, lo, lo;   // h pages are mapped; q is a
      while a < hi
        invariant lo <= a == q <= hi && Good(pd, owner') && Conserved(free, owner', old(free), owner, lost)
        invariant Gone(lost, free, owner') && (lost != {} ==> Wasted(m[pd], lo, hi, n))
        invariant lo <= h && Grown(m, mem, pd, lo, h)
        invariant lost == {} ==> h == q && Paid(m[pd], mem[pd], lo, q, n, |free|)
        invariant lost != {} ==>
          h + 1 == q && |lost| == 1 && free == [] && n + 1 == Need(m[pd], lo, q) && NewTable(m[pd], lo, h)
      {
        var f := Kalloc();
        if f == 0 {
          owner' := Undo(pd, lo, hi, oldsz, newsz, owner', m, h);
          AllocatedNone(m, mem, free, pd, n, lo, q, hi, newsz, lost);
          return 0, owner', lost;
        }
        assert lost == {} && Grown(m, mem, pd, lo, q);
        assert GrownAt(m, mem, pd, lo, q, q);
        ghost var next := q + 1;
        var ok;
        ok, owner' := GrowRound(pd, a, f, owner', m, lo, next, old(free), owner, n);
        if ok {
          h := next;
        } else {
          WastedAt(m[pd], lo, q, next, hi, n);
          lost := {f};
        }
        q := next;
        a := a + 1;
      }
      AllocatedTried(m, mem, free, pd, n, lo, h, q, hi, newsz, lost);
      sz := newsz;
    }
  }

  // ---------------------------------------------------------- two failures

  /** An empty directory, and one more frame. */
  function Tight(): (mem: Memory)
    ensures |mem| == 3
  {
    [Zero(), Zero(), Zero()]
  }

  /** A first page can be allocated there, but not its page table. */
  lemma ShortSpace()
    ensures Space(Tight(), 1, map[1 := Root]) && FreeOk(Tight(), [2]) && Short(Tight()[1], 0, 1, 1)
    ensures forall u: nat :: u < NPAGE ==> !Present(Word(Tight(), 1, u))
  {
    NewSpace(Tight(), 1);
    BareNext(Tight()[1], 0, 0, 1);
  }

  /** There allocuvm reports success for a page that is not mapped. */
  method LastPageMissing() returns (vm: Vm, sz: nat)
    ensures sz == PGSIZE && 1 < |vm.mem| && !Present(Word(vm.mem, 1, 0))
  {
    ShortSpace();
    vm := new Vm(Tight(), [2]);
    ghost var owner, lost;
    sz, owner, lost := vm.AllocUvm(1, 0, PGSIZE, map[1 := Root]);
    assert GrownAt(Tight(), vm.mem, 1, 0, 0, 0);
  }

  /** One user page, the first of the second page table, under a directory without a first one. */
  function Sparse(): (mem: Memory)
    ensures |mem| == 4
  {
    [Zero(), Zero()[1 := Entry(2, 7)], Zero()[0 := Entry(3, 6)], Zero()]
  }

  lemma SparseSpace(owner: Roles)
    requires owner == map[1 := Root, 2 := Table(1), 3 := User(NPTE)]
    ensures Space(Sparse(), 1, owner) && Present(Word(Sparse(), 1, NPTE)) && Missed(Sparse()[1], 1, NPTE)
  {
    var mem := Sparse();
    assert forall d: nat :: d < NPTE && d != 1 ==> mem[1][d] == 0;
    forall u: nat | u < NPAGE ensures Word(mem, 1, u) == if u == NPTE then Entry(3, 6) else 0 {
      assert u / NPTE == 1 ==> u == NPTE + u % NPTE;
    }
    forall d: nat | d < NPTE ensures DirOk(mem, 1, owner, d) { }
    forall u: nat | u < NUSER ensures PteOk(mem, 1, owner, u) { }
  }

  /** There deallocuvm from the second page on leaves the page mapped. */
  method PageSkipped() returns (vm: Vm, sz: nat)
    ensures sz == PGSIZE && 1 < |vm.mem| && Present(Word(vm.mem, 1, NPTE))
  {
    ghost var owner := map[1 := Root, 2 := Table(1), 3 := User(NPTE)];
    SparseSpace(owner);
    vm := new Vm(Sparse(), []);
    ghost var o;
    sz, o := vm.DeallocUvm(1, (NPTE + 1) * PGSIZE, PGSIZE, owner);
    assert WordLeft(Sparse(), vm.mem, 1, 1, NPTE + 1, NPTE);
  }
}
