/**
  Two-level page tables in the 32-bit paging format: memory is a sequence of
  page frames of 1024 words each, and a directory or table entry is a frame
  number times 4096 plus twelve flag bits.
 */
module VmModel {

  const NPTE: nat := 1024
  const PGSIZE: nat := 4096
  const NUSER: nat := 0x8_0000      // KERNBASE / PGSIZE
  const NPAGE: nat := 0x10_0000

  type Frame = s: seq<nat> | |s| == NPTE witness seq(NPTE, _ => 0)

  /** All page frames. */
  type Memory = seq<Frame>

  function Zero(): (r: Frame)
    ensures forall i :: 0 <= i < NPTE ==> r[i] == 0
  {
    seq<nat>(NPTE, _ => 0)
  }

  /** What kfree fills a page with. */
  function Junk(): (r: Frame) { seq<nat>(NPTE, _ => 0x0101_0101) }

  // -------------------------------------------------------------- entries

  predicate Present(w: nat) { w % 2 == 1 }

  function FrameOf(w: nat): (f: nat) { w / PGSIZE }

  function Flags(w: nat): (p: nat) { w % PGSIZE }

  /** pa | perm | PTE_P for the page frame f. */
  function Entry(f: nat, perm: nat): (w: nat)
    requires perm < PGSIZE
    ensures Present(w) && FrameOf(w) == f && Flags(w) == if Present(perm) then perm else perm + 1
  {
    var q := if perm % 2 == 1 then perm else perm + 1;
    EntryParts(f, q);
    f * PGSIZE + q
  }

  lemma EntryParts(f: nat, q: nat)
    requires q < PGSIZE
    ensures (f * PGSIZE + q) / PGSIZE == f && (f * PGSIZE + q) % PGSIZE == q && (f * PGSIZE + q) % 2 == q % 2
  {
  }

  /** The page-table entry of virtual page vp, or 0 where there is no table. */
  function Word(mem: Memory, pd: nat, vp: nat): (w: nat)
    requires pd < |mem| && vp < NPAGE
  {
    var e := mem[pd][vp / NPTE];
    if Present(e) && FrameOf(e) < |mem| then mem[FrameOf(e)][vp % NPTE] else 0
  }

  // ------------------------------------------------------- address spaces

  /** What a page frame is to an address space. */
  datatype Role = Root | Table(d: nat) | User(vp: nat)

  type Roles = map<nat, Role>

  ghost predicate DirOk(mem: Memory, pd: nat, owner: Roles, d: nat)
    requires pd < |mem| && d < NPTE
  {
    var e := mem[pd][d];
    Present(e) ==> FrameOf(e) in owner && owner[FrameOf(e)] == Table(d)
  }

  ghost predicate PteOk(mem: Memory, pd: nat, owner: Roles, vp: nat)
    requires pd < |mem| && vp < NUSER
  {
    var w := Word(mem, pd, vp);
    Present(w) ==> FrameOf(w) in owner && owner[FrameOf(w)] == User(vp)
  }

  ghost predicate RoleOk(mem: Memory, pd: nat, owner: Roles, f: nat)
    requires pd < |mem| && f in owner
  {
    && 0 < f < |mem|
    && match owner[f]
       case Root => f == pd
       case Table(d) => d < NPTE && Present(mem[pd][d]) && FrameOf(mem[pd][d]) == f
       case User(vp) => vp < NUSER && Present(Word(mem, pd, vp)) && FrameOf(Word(mem, pd, vp)) == f
  }

  /**
    owner names exactly the frames of the address space at pd, with one role
    each: its directory, its page tables and its user pages.  Two entries
    never name the same frame.
   */
  ghost predicate Space(mem: Memory, pd: nat, owner: Roles) {
    && pd < |mem| && pd in owner && owner[pd] == Root
    && (forall d: nat :: d < NPTE ==> DirOk(mem, pd, owner, d))
    && (forall vp: nat :: vp < NUSER ==> PteOk(mem, pd, owner, vp))
    && (forall f :: f in owner ==> RoleOk(mem, pd, owner, f))
  }

  /** The user pages of an address space are pairwise distinct, and none is a table or the directory. */
  lemma Injective(mem: Memory, pd: nat, owner: Roles, u: nat, vp: nat)
    requires Space(mem, pd, owner) && u < NUSER && vp < NUSER && Present(Word(mem, pd, u)) && Present(Word(mem, pd, vp))
    ensures FrameOf(Word(mem, pd, u)) == FrameOf(Word(mem, pd, vp)) ==> u == vp
    ensures FrameOf(Word(mem, pd, u)) != pd
    ensures forall d: nat :: d < NPTE && Present(mem[pd][d]) ==> FrameOf(mem[pd][d]) != FrameOf(Word(mem, pd, u))
  {
    assert PteOk(mem, pd, owner, u) && PteOk(mem, pd, owner, vp);
    forall d: nat | d < NPTE && Present(mem[pd][d]) ensures FrameOf(mem[pd][d]) != FrameOf(Word(mem, pd, u)) {
      assert DirOk(mem, pd, owner, d);
    }
  }

  lemma TableFrame(mem: Memory, pd: nat, owner: Roles, d: nat)
    requires Space(mem, pd, owner) && d < NPTE && Present(mem[pd][d])
    ensures var f := FrameOf(mem[pd][d]); 0 < f < |mem| && f != pd && f in owner && owner[f] == Table(d)
  {
    assert DirOk(mem, pd, owner, d);
    assert RoleOk(mem, pd, owner, FrameOf(mem[pd][d]));
  }

  // ----------------------------------------------------------- what keeps

  /** The directory and the page tables are the same in both memories. */
  ghost predicate SameTables(mem: Memory, mem': Memory, owner: Roles) {
    && |mem'| == |mem|
    && forall f :: f in owner && !owner[f].User? && f < |mem| ==> mem'[f] == mem[f]
  }

  lemma SameWord(mem: Memory, mem': Memory, pd: nat, owner: Roles, vp: nat)
    requires Space(mem, pd, owner) && SameTables(mem, mem', owner) && vp < NPAGE
    ensures Word(mem', pd, vp) == Word(mem, pd, vp)
  {
    if Present(mem[pd][vp / NPTE]) { TableFrame(mem, pd, owner, vp / NPTE); }
  }

  /** Changing user pages and frames of others keeps an address space. */
  lemma SpaceKept(mem: Memory, mem': Memory, pd: nat, owner: Roles)
    requires Space(mem, pd, owner) && SameTables(mem, mem', owner)
    ensures Space(mem', pd, owner) && forall vp: nat :: vp < NPAGE ==> Word(mem', pd, vp) == Word(mem, pd, vp)
  {
    forall vp: nat | vp < NPAGE ensures Word(mem', pd, vp) == Word(mem, pd, vp) { SameWord(mem, mem', pd, owner, vp); }
    forall d: nat | d < NPTE ensures DirOk(mem', pd, owner, d) { assert DirOk(mem, pd, owner, d); }
    forall vp: nat | vp < NUSER ensures PteOk(mem', pd, owner, vp) { assert PteOk(mem, pd, owner, vp); }
    forall f | f in owner ensures RoleOk(mem', pd, owner, f) { assert RoleOk(mem, pd, owner, f); }
  }

  // ---------------------------------------------------------------- steps

  /** walkpgdir adds an empty page table. */
  lemma AddTable(mem: Memory, pd: nat, owner: Roles, d: nat, f: nat, mem': Memory)
    requires Space(mem, pd, owner) && d < NPTE && !Present(mem[pd][d]) && 0 < f < |mem| && f !in owner
    requires mem[f] == Zero() && mem' == mem[pd := mem[pd][d := Entry(f, 7)]]
    ensures Space(mem', pd, owner[f := Table(d)])
    ensures forall vp: nat :: vp < NPAGE ==> Word(mem', pd, vp) == Word(mem, pd, vp)
  {
    var owner' := owner[f := Table(d)];
    forall vp: nat | vp < NPAGE ensures Word(mem', pd, vp) == Word(mem, pd, vp) {
      if Present(mem[pd][vp / NPTE]) { TableFrame(mem, pd, owner, vp / NPTE); }
    }
    forall c: nat | c < NPTE ensures DirOk(mem', pd, owner', c) { assert DirOk(mem, pd, owner, c); }
    forall vp: nat | vp < NUSER ensures PteOk(mem', pd, owner', vp) { assert PteOk(mem, pd, owner, vp); }
    forall g | g in owner' ensures RoleOk(mem', pd, owner', g) { if g != f { assert RoleOk(mem, pd, owner, g); } }
  }

  /** mem' is mem with the entry of vp, in its table, set to w. */
  ghost predicate Put(mem: Memory, mem': Memory, pd: nat, vp: nat, w: nat) {
    && pd < |mem| && vp < NPAGE && Present(mem[pd][vp / NPTE]) && FrameOf(mem[pd][vp / NPTE]) < |mem|
    && var f := FrameOf(mem[pd][vp / NPTE]);
    mem' == mem[f := mem[f][vp % NPTE := w]]
  }

  lemma PutWord(mem: Memory, mem': Memory, pd: nat, owner: Roles, vp: nat, w: nat, u: nat)
    requires Space(mem, pd, owner) && Put(mem, mem', pd, vp, w) && u < NPAGE
    ensures Word(mem', pd, u) == if u == vp then w else Word(mem, pd, u)
  {
    TableFrame(mem, pd, owner, vp / NPTE);
    if Present(mem[pd][u / NPTE]) { TableFrame(mem, pd, owner, u / NPTE); }
  }

  /** Setting an absent entry: a user page gets the fresh frame of w, a kernel page owns nothing. */
  lemma MapEntry(mem: Memory, mem': Memory, pd: nat, owner: Roles, vp: nat, w: nat, owner': Roles)
    requires Space(mem, pd, owner) && Put(mem, mem', pd, vp, w) && !Present(Word(mem, pd, vp)) && Present(w)
    requires vp < NUSER ==> 0 < FrameOf(w) < |mem| && FrameOf(w) !in owner
    requires owner' == if vp < NUSER then owner[FrameOf(w) := User(vp)] else owner
    ensures Space(mem', pd, owner')
    ensures forall u: nat :: u < NPAGE ==> Word(mem', pd, u) == if u == vp then w else Word(mem, pd, u)
  {
    forall u: nat | u < NPAGE ensures Word(mem', pd, u) == if u == vp then w else Word(mem, pd, u) {
      PutWord(mem, mem', pd, owner, vp, w, u);
    }
    TableFrame(mem, pd, owner, vp / NPTE);
    forall d: nat | d < NPTE ensures DirOk(mem', pd, owner', d) { assert DirOk(mem, pd, owner, d); }
    forall u: nat | u < NUSER ensures PteOk(mem', pd, owner', u) { assert PteOk(mem, pd, owner, u); }
    forall g | g in owner' ensures RoleOk(mem', pd, owner', g) { if g in owner { assert RoleOk(mem, pd, owner, g); } }
  }

  /** Clearing the entry of a user page releases its frame. */
  lemma UnmapEntry(mem: Memory, mem': Memory, pd: nat, owner: Roles, vp: nat)
    requires Space(mem, pd, owner) && vp < NUSER && Put(mem, mem', pd, vp, 0) && Present(Word(mem, pd, vp))
    ensures Space(mem', pd, owner - {FrameOf(Word(mem, pd, vp))})
    ensures forall u: nat :: u < NPAGE ==> Word(mem', pd, u) == if u == vp then 0 else Word(mem, pd, u)
  {
    var owner' := owner - {FrameOf(Word(mem, pd, vp))};
    forall u: nat | u < NPAGE ensures Word(mem', pd, u) == if u == vp then 0 else Word(mem, pd, u) {
      PutWord(mem, mem', pd, owner, vp, 0, u);
    }
    assert PteOk(mem, pd, owner, vp);
    TableFrame(mem, pd, owner, vp / NPTE);
    forall d: nat | d < NPTE ensures DirOk(mem', pd, owner', d) { assert DirOk(mem, pd, owner, d); }
    forall u: nat | u < NUSER ensures PteOk(mem', pd, owner', u) { assert PteOk(mem, pd, owner, u); }
    forall g | g in owner' ensures RoleOk(mem', pd, owner', g) { assert RoleOk(mem, pd, owner, g); }
  }

  /** A fresh directory. */
  lemma NewSpace(mem: Memory, pd: nat)
    requires 0 < pd < |mem| && mem[pd] == Zero()
    ensures Space(mem, pd, map[pd := Root])
    ensures forall vp: nat :: vp < NPAGE ==> Word(mem, pd, vp) == 0
  {
    var owner := map[pd := Root];
    forall d: nat | d < NPTE ensures DirOk(mem, pd, owner, d) { assert mem[pd][d] == 0; }
    forall vp: nat | vp < NUSER ensures PteOk(mem, pd, owner, vp) { assert mem[pd][vp / NPTE] == 0; }
  }

  // ------------------------------------------------------------ free list

  ghost predicate Differ(s: seq<nat>, i: nat, j: nat)
    requires i < |s| && j < |s|
  {
    s[i] != s[j]
  }

  /** The free list holds distinct frames of memory. */
  ghost predicate FreeOk(mem: Memory, free: seq<nat>) {
    && (forall i :: 0 <= i < |free| ==> 0 < free[i] < |mem|)
    && (forall i: nat, j: nat :: i < j < |free| ==> Differ(free, i, j))
  }

  lemma PushFree(mem: Memory, free: seq<nat>, f: nat)
    requires FreeOk(mem, free) && f !in free && 0 < f < |mem|
    ensures FreeOk(mem, [f] + free)
  {
    var s := [f] + free;
    forall i: nat, j: nat | i < j < |s| ensures Differ(s, i, j) { if i > 0 { assert Differ(free, i - 1, j - 1); } }
  }

  lemma PopFree(mem: Memory, free: seq<nat>)
    requires FreeOk(mem, free) && free != []
    ensures FreeOk(mem, free[1..]) && free[0] !in free[1..]
  {
    var s := free[1..];
    forall i: nat, j: nat | i < j < |s| ensures Differ(s, i, j) { assert Differ(free, i + 1, j + 1); }
    forall j | 0 <= j < |s| ensures s[j] != free[0] { assert Differ(free, 0, j + 1); }
  }
}
