/**
  The Kernighan and Ritchie allocator of umalloc.c.  Memory is an array of
  header-sized units; `base` is unit 0, below the memory obtained from sbrk.
  The free list is one cycle through base in increasing address order.
 */
module Malloc {

  datatype Header = Header(ptr: nat, size: nat)

  const NULL: int := -1
  const WORD: nat := 0x1_0000_0000

  /** nunits of malloc, in 32-bit arithmetic. */
  function Units(nbytes: nat): (n: nat)
    ensures n >= 1
  {
    (nbytes + 7) % WORD / 8 + 1
  }

  /** The rounding leaves room for nbytes behind the header exactly when the addition does not wrap. */
  lemma UnitsExact(nbytes: nat)
    requires nbytes < WORD
    ensures 8 * (Units(nbytes) - 1) >= nbytes <==> nbytes + 7 < WORD
    ensures nbytes + 7 < WORD ==> 8 * (Units(nbytes) - 2) < nbytes
  {
  }

  // -------------------------------------------------------------- free list

  function After(cyc: seq<nat>, i: nat): (a: nat)
    requires i < |cyc|
  {
    if i + 1 < |cyc| then cyc[i + 1] else cyc[0]
  }

  ghost predicate LinkAt(m: seq<Header>, cyc: seq<nat>, i: nat)
    requires i < |cyc|
  {
    cyc[i] < |m| && m[cyc[i]].ptr == After(cyc, i)
  }

  ghost predicate OrderAt(m: seq<Header>, cyc: seq<nat>, i: nat, j: nat)
    requires i < |cyc| && j < |cyc|
  {
    cyc[i] < |m| && cyc[i] < cyc[j] && cyc[i] + m[cyc[i]].size <= cyc[j]
  }

  /** The cycle starts at base, addresses increase, and the last block points back to base. */
  ghost predicate Cycle(m: seq<Header>, cyc: seq<nat>) {
    && |cyc| >= 1 && cyc[0] == 0 && |m| >= 1 && m[0].size == 0
    && (forall i :: 0 <= i < |cyc| ==> LinkAt(m, cyc, i))
    && (forall i, j :: 0 <= i < j < |cyc| ==> OrderAt(m, cyc, i, j))
  }

  /** Block i does not touch the next one. */
  ghost predicate Apart(m: seq<Header>, cyc: seq<nat>, i: nat) {
    i + 1 < |cyc| && cyc[i] < |m| ==> cyc[i] + m[cyc[i]].size != cyc[i + 1]
  }

  /** The free list: a cycle in which no two blocks are adjacent. */
  ghost predicate Ring(m: seq<Header>, cyc: seq<nat>) {
    Cycle(m, cyc) && ApartBut(m, cyc, {})
  }

  // ----------------------------------------------------------------- tiling

  ghost predicate IsBlock(cyc: seq<nat>, live: map<nat, nat>, a: nat) {
    a > 0 && (a in live || a in cyc)
  }

  ghost predicate BlockOk(m: seq<Header>, owner: map<nat, nat>, a: nat) {
    && a < |m| && m[a].size >= 1
    && forall u :: a <= u < a + m[a].size ==> u in owner && owner[u] == a
  }

  ghost predicate UnitOk(m: seq<Header>, cyc: seq<nat>, live: map<nat, nat>, owner: map<nat, nat>, u: nat)
    requires u in owner
  {
    IsBlock(cyc, live, owner[u]) && owner[u] < |m| && owner[u] <= u < owner[u] + m[owner[u]].size
  }

  /**
    Free and live blocks tile the units in owner.Keys: every unit lies in
    exactly one block, the one owner names.
   */
  ghost predicate Tiles(m: seq<Header>, cyc: seq<nat>, live: map<nat, nat>, owner: map<nat, nat>) {
    && (forall a :: IsBlock(cyc, live, a) ==> BlockOk(m, owner, a))
    && (forall u :: u in owner ==> UnitOk(m, cyc, live, owner, u))
    && (forall a :: a in live ==> a !in cyc && a > 0 && a < |m| && m[a].size == live[a])
  }

  /** Distinct blocks do not overlap. */
  lemma BlocksDisjoint(m: seq<Header>, cyc: seq<nat>, live: map<nat, nat>, owner: map<nat, nat>, a: nat, b: nat)
    requires Tiles(m, cyc, live, owner) && IsBlock(cyc, live, a) && IsBlock(cyc, live, b) && a < b
    ensures a < |m| && a + m[a].size <= b
  {
    assert BlockOk(m, owner, a) && BlockOk(m, owner, b);
    assert owner[b] == b;
  }

  /** Every unit is in one block and no block has a unit outside. */
  lemma UnitsCovered(m: seq<Header>, cyc: seq<nat>, live: map<nat, nat>, owner: map<nat, nat>, u: nat)
    requires Tiles(m, cyc, live, owner)
    ensures u in owner <==> exists a: nat :: IsBlock(cyc, live, a) && a < |m| && a <= u < a + m[a].size
  {
    if u in owner { assert UnitOk(m, cyc, live, owner, u); }
    if a: nat :| IsBlock(cyc, live, a) && a < |m| && a <= u < a + m[a].size { assert BlockOk(m, owner, a); }
  }

  // ---------------------------------------------------- pure list surgery

  /** Index g is where address bp belongs: between cyc[g] and its successor. */
  ghost predicate Slot(cyc: seq<nat>, bp: nat, g: nat) {
    g < |cyc| && cyc[g] < bp && (g + 1 < |cyc| ==> bp < cyc[g + 1])
  }

  ghost function Inserted(cyc: seq<nat>, g: nat, bp: nat): (r: seq<nat>)
    requires g < |cyc|
  {
    cyc[..g + 1] + [bp] + cyc[g + 1..]
  }

  ghost function Removed(cyc: seq<nat>, i: nat): (r: seq<nat>)
    requires i < |cyc|
  {
    cyc[..i] + cyc[i + 1..]
  }

  /** Link the live block bp into the cycle after block g, merging nothing yet. */
  ghost function Linked(m: seq<Header>, cyc: seq<nat>, g: nat, bp: nat): (r: seq<Header>)
    requires g < |cyc| && cyc[g] < |m| && bp < |m|
  {
    m[bp := Header(After(cyc, g), m[bp].size)][cyc[g] := Header(bp, m[cyc[g]].size)]
  }

  lemma LinkOrder(m: seq<Header>, cyc: seq<nat>, live: map<nat, nat>, owner: map<nat, nat>, g: nat, bp: nat, i: nat)
    requires Cycle(m, cyc) && Tiles(m, cyc, live, owner) && bp in live && Slot(cyc, bp, g) && i < |cyc|
    ensures cyc[i] < |m| && bp < |m|
    ensures if i <= g then cyc[i] < bp && cyc[i] + m[cyc[i]].size <= bp else bp < cyc[i] && bp + m[bp].size <= cyc[i]
  {
    assert LinkAt(m, cyc, i) && BlockOk(m, owner, bp);
    if i < g { assert OrderAt(m, cyc, i, g); }
    if g + 1 < i { assert OrderAt(m, cyc, g + 1, i); }
    if 0 < i { assert OrderAt(m, cyc, 0, i); }
    if 0 < i <= g { BlocksDisjoint(m, cyc, live, owner, cyc[i], bp); }
    if g < i { BlocksDisjoint(m, cyc, live, owner, bp, cyc[i]); }
  }

  lemma LinkCycle(m: seq<Header>, cyc: seq<nat>, live: map<nat, nat>, owner: map<nat, nat>, g: nat, bp: nat)
    requires Cycle(m, cyc) && Tiles(m, cyc, live, owner) && bp in live && Slot(cyc, bp, g)
    ensures cyc[g] < |m| && bp < |m| && Cycle(Linked(m, cyc, g, bp), Inserted(cyc, g, bp))
  {
    LinkOrder(m, cyc, live, owner, g, bp, g);
    var m', c' := Linked(m, cyc, g, bp), Inserted(cyc, g, bp);
    assert forall i :: 0 <= i < |c'| ==> c'[i] == if i <= g then cyc[i] else if i == g + 1 then bp else cyc[i - 1];
    forall i | 0 <= i < |c'| ensures LinkAt(m', c', i) {
      if i != g + 1 {
        var k := if i <= g then i else i - 1;
        assert LinkAt(m, cyc, k);
        LinkOrder(m, cyc, live, owner, g, bp, k);
        if k < g { assert OrderAt(m, cyc, k, g); } else if g < k { assert OrderAt(m, cyc, g, k); }
      }
    }
    forall i, j | 0 <= i < j < |c'| ensures OrderAt(m', c', i, j) {
      LinkedOrder(m, cyc, live, owner, g, bp, m', c', i, j);
    }
  }

  lemma LinkedOrder(m: seq<Header>, cyc: seq<nat>, live: map<nat, nat>, owner: map<nat, nat>, g: nat, bp: nat,
                    m': seq<Header>, c': seq<nat>, i: nat, j: nat)
    requires Cycle(m, cyc) && Tiles(m, cyc, live, owner) && bp in live && Slot(cyc, bp, g) && cyc[g] < |m| && bp < |m|
    requires m' == Linked(m, cyc, g, bp) && c' == Inserted(cyc, g, bp) && i < j < |c'|
    ensures OrderAt(m', c', i, j)
  {
    var k, l := if i <= g then i else i - 1, if j <= g then j else j - 1;
    assert c'[i] == (if i == g + 1 then bp else cyc[k]) && c'[j] == if j == g + 1 then bp else cyc[l];
    if i != g + 1 && j != g + 1 { assert OrderAt(m, cyc, k, l); }
    if i != g + 1 { LinkOrder(m, cyc, live, owner, g, bp, k); }
    if j != g + 1 { LinkOrder(m, cyc, live, owner, g, bp, l); }
  }

  lemma LinkTiles(m: seq<Header>, cyc: seq<nat>, live: map<nat, nat>, owner: map<nat, nat>, g: nat, bp: nat)
    requires Cycle(m, cyc) && Tiles(m, cyc, live, owner) && bp in live && Slot(cyc, bp, g)
    requires cyc[g] < |m| && bp < |m|
    ensures Tiles(Linked(m, cyc, g, bp), Inserted(cyc, g, bp), live - {bp}, owner)
  {
    var m', c', l' := Linked(m, cyc, g, bp), Inserted(cyc, g, bp), live - {bp};
    assert forall a :: a in c' <==> a in cyc || a == bp;
    forall a | IsBlock(c', l', a) ensures BlockOk(m', owner, a) { assert BlockOk(m, owner, a); }
    forall u | u in owner ensures UnitOk(m', c', l', owner, u) { assert UnitOk(m, cyc, live, owner, u); }
  }

  /** Block i swallows block i + 1. */
  ghost function Merged(m: seq<Header>, cyc: seq<nat>, i: nat): (r: seq<Header>)
    requires i + 1 < |cyc| && cyc[i] < |m| && cyc[i + 1] < |m|
  {
    m[cyc[i] := Header(m[cyc[i + 1]].ptr, m[cyc[i]].size + m[cyc[i + 1]].size)]
  }

  ghost function Reowned(owner: map<nat, nat>, a: nat, b: nat): (r: map<nat, nat>)
    ensures r.Keys == owner.Keys
  {
    map u | u in owner :: if owner[u] == b then a else owner[u]
  }

  lemma MergeCycle(m: seq<Header>, cyc: seq<nat>, i: nat)
    requires Cycle(m, cyc) && 0 < i && i + 1 < |cyc| && OrderAt(m, cyc, i, i + 1) && LinkAt(m, cyc, i + 1)
    requires !Apart(m, cyc, i)
    ensures Cycle(Merged(m, cyc, i), Removed(cyc, i + 1))
  {
    var m', c' := Merged(m, cyc, i), Removed(cyc, i + 1);
    assert forall k :: 0 <= k < |c'| ==> c'[k] == if k <= i then cyc[k] else cyc[k + 1];
    forall k | 0 <= k < |c'| ensures LinkAt(m', c', k) {
      var x := if k <= i then k else k + 1;
      assert LinkAt(m, cyc, x);
      if x < i { assert OrderAt(m, cyc, x, i); } else if i < x { assert OrderAt(m, cyc, i, x); }
    }
    forall k, l | 0 <= k < l < |c'| ensures OrderAt(m', c', k, l) { MergedOrder(m, cyc, i, m', c', k, l); }
    assert OrderAt(m, cyc, 0, i);
  }

  lemma MergedOrder(m: seq<Header>, cyc: seq<nat>, i: nat, m': seq<Header>, c': seq<nat>, k: nat, l: nat)
    requires Cycle(m, cyc) && 0 < i && i + 1 < |cyc| && OrderAt(m, cyc, i, i + 1) && LinkAt(m, cyc, i + 1)
    requires !Apart(m, cyc, i) && m' == Merged(m, cyc, i) && c' == Removed(cyc, i + 1) && k < l < |c'|
    ensures OrderAt(m', c', k, l)
  {
    var x, y := if k <= i then k else k + 1, if l <= i then l else l + 1;
    assert c'[k] == cyc[x] && c'[l] == cyc[y] && OrderAt(m, cyc, x, y);
    if x == i {
      assert OrderAt(m, cyc, i + 1, y);
    } else if x < i {
      assert OrderAt(m, cyc, x, i);
    } else {
      assert OrderAt(m, cyc, i, x);
    }
  }

  lemma MergeBlock(m: seq<Header>, cyc: seq<nat>, live: map<nat, nat>, owner: map<nat, nat>, i: nat, a: nat)
    requires Cycle(m, cyc) && Tiles(m, cyc, live, owner)
    requires 0 < i && i + 1 < |cyc| && OrderAt(m, cyc, i, i + 1) && LinkAt(m, cyc, i + 1) && !Apart(m, cyc, i)
    requires IsBlock(cyc, live, a) && a != cyc[i + 1]
    ensures BlockOk(Merged(m, cyc, i), Reowned(owner, cyc[i], cyc[i + 1]), a)
  {
    assert OrderAt(m, cyc, 0, i);
    assert BlockOk(m, owner, cyc[i]) && BlockOk(m, owner, cyc[i + 1]) && BlockOk(m, owner, a);
  }

  lemma MergeTiles(m: seq<Header>, cyc: seq<nat>, live: map<nat, nat>, owner: map<nat, nat>, i: nat)
    requires Cycle(m, cyc) && Tiles(m, cyc, live, owner)
    requires 0 < i && i + 1 < |cyc| && OrderAt(m, cyc, i, i + 1) && LinkAt(m, cyc, i + 1) && !Apart(m, cyc, i)
    ensures Tiles(Merged(m, cyc, i), Removed(cyc, i + 1), live, Reowned(owner, cyc[i], cyc[i + 1]))
  {
    var x, y := cyc[i], cyc[i + 1];
    var m', c', o' := Merged(m, cyc, i), Removed(cyc, i + 1), Reowned(owner, x, y);
    RemovedMembers(m, cyc, i + 1);
    assert OrderAt(m, cyc, 0, i);
    assert BlockOk(m, owner, x) && BlockOk(m, owner, y);
    forall a | IsBlock(c', live, a) ensures BlockOk(m', o', a) { MergeBlock(m, cyc, live, owner, i, a); }
    forall u | u in o' ensures UnitOk(m', c', live, o', u) { assert UnitOk(m, cyc, live, owner, u); }
  }

  lemma RemovedMembers(m: seq<Header>, cyc: seq<nat>, i: nat)
    requires Cycle(m, cyc) && i < |cyc|
    ensures forall a :: a in Removed(cyc, i) <==> a in cyc && a != cyc[i]
  {
    var c' := Removed(cyc, i);
    assert forall k :: 0 <= k < |c'| ==> c'[k] == if k < i then cyc[k] else cyc[k + 1];
    forall a | a in c' ensures a in cyc && a != cyc[i] {
      var k :| 0 <= k < |c'| && c'[k] == a;
      if k < i { assert OrderAt(m, cyc, k, i); } else { assert OrderAt(m, cyc, i, k + 1); }
    }
    forall a | a in cyc && a != cyc[i] ensures a in c' {
      var k :| 0 <= k < |cyc| && cyc[k] == a;
      assert c'[if k < i then k else k - 1] == a;
    }
  }

  /** The slot of bp, searched from g on. */
  ghost function SlotFrom(cyc: seq<nat>, bp: nat, g: nat): (r: nat)
    requires g < |cyc| && cyc[g] < bp && bp !in cyc
    ensures Slot(cyc, bp, r)
    decreases |cyc| - g
  {
    if g + 1 < |cyc| && cyc[g + 1] < bp then SlotFrom(cyc, bp, g + 1) else g
  }

  /** Steps from index i to index j going round a cycle of length n. */
  function Dist(i: nat, j: nat, n: nat): (d: nat)
    requires i < n && j < n
    ensures d < n && (d == 0 <==> i == j)
  {
    if i <= j then j - i else j - i + n
  }

  function Back(i: nat, n: nat): (r: nat)
    requires i < n
    ensures r < n && Step(r, n) == i && forall k: nat :: k < n && Step(k, n) == i ==> k == r
  {
    if i == 0 then n - 1 else i - 1
  }

  lemma Once(m: seq<Header>, cyc: seq<nat>, i: nat, j: nat)
    requires Cycle(m, cyc) && i < |cyc| && j < |cyc| && cyc[i] == cyc[j]
    ensures i == j
  {
    assert i < j ==> OrderAt(m, cyc, i, j);
    assert j < i ==> OrderAt(m, cyc, j, i);
  }

  function Step(i: nat, n: nat): (r: nat)
    requires i < n
    ensures r < n
  {
    if i + 1 < n then i + 1 else 0
  }

  /** Only the blocks at the indices in `ex` may touch their successors. */
  ghost predicate ApartBut(m: seq<Header>, cyc: seq<nat>, ex: set<nat>) {
    forall i: nat :: i !in ex ==> Apart(m, cyc, i)
  }

  lemma LinkApart(m: seq<Header>, cyc: seq<nat>, g: nat, bp: nat)
    requires Ring(m, cyc) && Slot(cyc, bp, g) && cyc[g] < |m| && bp < |m| && bp !in cyc
    ensures ApartBut(Linked(m, cyc, g, bp), Inserted(cyc, g, bp), {g, g + 1})
  {
    var m', c' := Linked(m, cyc, g, bp), Inserted(cyc, g, bp);
    forall i: nat | i !in {g, g + 1} ensures Apart(m', c', i) {
      if i < g { assert Apart(m, cyc, i); } else { assert Apart(m, cyc, i - 1); }
    }
  }

  lemma MergeApart(m: seq<Header>, cyc: seq<nat>, i: nat, ex: set<nat>)
    requires Cycle(m, cyc) && i + 1 < |cyc| && OrderAt(m, cyc, i, i + 1) && LinkAt(m, cyc, i + 1) && !Apart(m, cyc, i)
    requires ApartBut(m, cyc, ex) && forall x :: x in ex ==> x <= i
    ensures ApartBut(Merged(m, cyc, i), Removed(cyc, i + 1), ex - {i})
  {
    var m', c' := Merged(m, cyc, i), Removed(cyc, i + 1);
    forall k: nat | k !in ex - {i} ensures Apart(m', c', k) {
      if k < i {
        assert Apart(m, cyc, k);
        assert OrderAt(m, cyc, k, i);
      } else if k + 1 < |c'| {
        assert Apart(m, cyc, k + 1);
        assert OrderAt(m, cyc, i, k + 1);
      }
    }
  }

  datatype Arena = Arena(m: seq<Header>, cyc: seq<nat>, owner: map<nat, nat>)

  ghost predicate Sound(s: Arena, live: map<nat, nat>, ex: set<nat>) {
    Cycle(s.m, s.cyc) && Tiles(s.m, s.cyc, live, s.owner) && ApartBut(s.m, s.cyc, ex)
  }

  /** Merge block i with the next one if they touch. */
  ghost function Squeeze(s: Arena, i: nat): (r: Arena)
    requires Cycle(s.m, s.cyc) && i < |s.cyc|
  {
    if Apart(s.m, s.cyc, i) then s
    else
      assert LinkAt(s.m, s.cyc, i) && LinkAt(s.m, s.cyc, i + 1);
      Arena(Merged(s.m, s.cyc, i), Removed(s.cyc, i + 1), Reowned(s.owner, s.cyc[i], s.cyc[i + 1]))
  }

  lemma SqueezeSound(s: Arena, live: map<nat, nat>, i: nat, ex: set<nat>)
    requires Sound(s, live, ex) && i < |s.cyc| && forall x :: x in ex ==> x <= i
    ensures Sound(Squeeze(s, i), live, ex - {i})
    ensures Squeeze(s, i).owner.Keys == s.owner.Keys
    ensures i < |Squeeze(s, i).cyc| && Squeeze(s, i).cyc[..i + 1] == s.cyc[..i + 1]
  {
    if !Apart(s.m, s.cyc, i) {
      assert OrderAt(s.m, s.cyc, i, i + 1) && LinkAt(s.m, s.cyc, i) && LinkAt(s.m, s.cyc, i + 1);
      assert i > 0;
      MergeCycle(s.m, s.cyc, i);
      MergeTiles(s.m, s.cyc, live, s.owner, i);
      MergeApart(s.m, s.cyc, i, ex);
    }
  }

  /** What free does to the arena: link bp in, then merge upwards and downwards. */
  lemma FreeSound(s: Arena, live: map<nat, nat>, g: nat, bp: nat)
    requires Sound(s, live, {}) && bp in live && Slot(s.cyc, bp, g)
    ensures bp < |s.m| && s.cyc[g] < |s.m|
    ensures var s1 := Arena(Linked(s.m, s.cyc, g, bp), Inserted(s.cyc, g, bp), s.owner);
      && Cycle(s1.m, s1.cyc)
      && var s2 := Squeeze(s1, g + 1);
      && Cycle(s2.m, s2.cyc) && g < |s2.cyc|
      && var s3 := Squeeze(s2, g);
      Sound(s3, live - {bp}, {}) && s3.owner.Keys == s.owner.Keys && s3.cyc[..g + 1] == s.cyc[..g + 1]
  {
    LinkCycle(s.m, s.cyc, live, s.owner, g, bp);
    LinkTiles(s.m, s.cyc, live, s.owner, g, bp);
    LinkApart(s.m, s.cyc, g, bp);
    var s1 := Arena(Linked(s.m, s.cyc, g, bp), Inserted(s.cyc, g, bp), s.owner);
    SqueezeSound(s1, live - {bp}, g + 1, {g, g + 1});
    var s2 := Squeeze(s1, g + 1);
    assert s2.cyc[..g + 1] == s2.cyc[..g + 2][..g + 1] == s.cyc[..g + 1];
    SqueezeSound(s2, live - {bp}, g, {g, g + 1} - {g + 1});
    assert {g, g + 1} - {g + 1} - {g} == {};
  }

  /** The upward merge, on the words free reads and writes. */
  lemma UpWords(s: Arena, live: map<nat, nat>, g: nat, bp: nat, s1: Arena)
    requires Sound(s, live, {}) && bp in live && Slot(s.cyc, bp, g) && bp < |s.m| && s.cyc[g] < |s.m|
    requires s1 == Arena(Linked(s.m, s.cyc, g, bp), Inserted(s.cyc, g, bp), s.owner) && Cycle(s1.m, s1.cyc)
    ensures var up := After(s.cyc, g);
      && s.m[s.cyc[g]].ptr == up && up < |s.m| && up != bp
      && Squeeze(s1, g + 1).m ==
         if bp + s.m[bp].size == up
         then s1.m[bp := Header(s.m[up].ptr, s.m[bp].size + s.m[up].size)] else s1.m
    ensures var c := Squeeze(s1, g + 1).cyc; g + 1 < |c| && c[g] == s.cyc[g] && c[g + 1] == bp
  {
    assert LinkAt(s.m, s.cyc, g);
    if g + 1 < |s.cyc| { assert LinkAt(s.m, s.cyc, g + 1) && OrderAt(s.m, s.cyc, g, g + 1); }
  }

  /** The words written by free once p is known. */
  function FreedWords(m: seq<Header>, p: nat, bp: nat): (r: seq<Header>)
    requires p < |m| && bp < |m| && m[p].ptr < |m| && p != bp
  {
    var up := m[p].ptr;
    var n := if bp + m[bp].size == up then m[bp := Header(m[up].ptr, m[bp].size + m[up].size)]
             else m[bp := Header(up, m[bp].size)];
    if p + n[p].size == bp then n[p := Header(n[bp].ptr, n[p].size + n[bp].size)]
    else n[p := Header(bp, n[p].size)]
  }

  /** The words free writes are those of linking and two merges. */
  lemma WordsOf(s: Arena, live: map<nat, nat>, g: nat, bp: nat, s1: Arena)
    requires Sound(s, live, {}) && bp in live && Slot(s.cyc, bp, g) && bp < |s.m| && s.cyc[g] < |s.m|
    requires s1 == Arena(Linked(s.m, s.cyc, g, bp), Inserted(s.cyc, g, bp), s.owner) && Cycle(s1.m, s1.cyc)
    requires Cycle(Squeeze(s1, g + 1).m, Squeeze(s1, g + 1).cyc)
    ensures s.m[s.cyc[g]].ptr < |s.m| && s.cyc[g] != bp && g < |Squeeze(s1, g + 1).cyc|
    ensures Squeeze(Squeeze(s1, g + 1), g).m == FreedWords(s.m, s.cyc[g], bp)
  {
    UpWords(s, live, g, bp, s1);
    var s2 := Squeeze(s1, g + 1);
    var p := s.cyc[g];
    assert s2.m[p] == Header(bp, s.m[p].size);
  }

  /** free, from its words to the invariant. */
  lemma FreeEffect(s: Arena, live: map<nat, nat>, g: nat, bp: nat) returns (r: Arena)
    requires Sound(s, live, {}) && bp in live && Slot(s.cyc, bp, g)
    ensures bp < |s.m| && s.cyc[g] < |s.m| && s.m[s.cyc[g]].ptr < |s.m| && s.cyc[g] != bp
    ensures r.m == FreedWords(s.m, s.cyc[g], bp) && Sound(r, live - {bp}, {})
    ensures r.owner.Keys == s.owner.Keys && s.cyc[g] in r.cyc && r.m[s.cyc[g]].ptr < |r.m|
    ensures Kept(live - {bp}, s.m, r.m)
  {
    FreeSound(s, live, g, bp);
    var s1 := Arena(Linked(s.m, s.cyc, g, bp), Inserted(s.cyc, g, bp), s.owner);
    WordsOf(s, live, g, bp, s1);
    r := Squeeze(Squeeze(s1, g + 1), g);
    var p := s.cyc[g];
    assert r.cyc[..g + 1][g] == p;
    PtrInRange(r.m, r.cyc, g);
    FreeKept(s, live, g, bp, r.m);
  }

  lemma FreeKept(s: Arena, live: map<nat, nat>, g: nat, bp: nat, m': seq<Header>)
    requires Sound(s, live, {}) && bp in live && Slot(s.cyc, bp, g) && |m'| == |s.m|
    requires forall u :: 0 <= u < |s.m| && u != s.cyc[g] && u != bp ==> m'[u] == s.m[u]
    ensures Kept(live - {bp}, s.m, m')
  {
    assert s.owner[bp] == bp by { assert BlockOk(s.m, s.owner, bp); }
    NotLive(s, live, s.cyc[g]);
    KeptElsewhere(s, live, live - {bp}, m', s.cyc[g], bp);
  }

  lemma PtrInRange(m: seq<Header>, cyc: seq<nat>, i: nat)
    requires Cycle(m, cyc) && i < |cyc|
    ensures cyc[i] < |m| && m[cyc[i]].ptr < |m| && m[cyc[i]].ptr == cyc[Step(i, |cyc|)]
  {
    assert LinkAt(m, cyc, i) && LinkAt(m, cyc, Step(i, |cyc|));
  }

  /** No live block owns the header of a free block, nor base. */
  lemma NotLive(r: Arena, live: map<nat, nat>, p: nat)
    requires Sound(r, live, {}) && p in r.cyc
    ensures p in r.owner ==> r.owner[p] !in live
  {
    if p in r.owner {
      assert UnitOk(r.m, r.cyc, live, r.owner, p);
      assert p > 0 && BlockOk(r.m, r.owner, p);
    }
  }

  /** Every free block but base is a block, below any bound on the owned units. */
  lemma FreeBelow(s: Arena, live: map<nat, nat>, k: nat)
    requires Sound(s, live, {}) && k < |s.cyc|
    ensures s.cyc[k] == 0 || (s.cyc[k] < |s.m| && s.cyc[k] in s.owner && s.owner[s.cyc[k]] == s.cyc[k])
  {
    if k > 0 { assert OrderAt(s.m, s.cyc, 0, k) && BlockOk(s.m, s.owner, s.cyc[k]); }
  }

  /** Changing headers that are not on the list keeps the list. */
  lemma RingFrame(m: seq<Header>, m': seq<Header>, cyc: seq<nat>)
    requires Ring(m, cyc) && |m'| == |m| && forall k :: 0 <= k < |cyc| && cyc[k] < |m| ==> m'[cyc[k]] == m[cyc[k]]
    ensures Ring(m', cyc)
  {
    forall i | 0 <= i < |cyc| ensures LinkAt(m', cyc, i) { assert LinkAt(m, cyc, i); }
    forall i, j | 0 <= i < j < |cyc| ensures OrderAt(m', cyc, i, j) { assert OrderAt(m, cyc, i, j); }
    forall i: nat ensures Apart(m', cyc, i) { assert Apart(m, cyc, i); }
  }

  /** Units hp .. hp + nu become owned by hp. */
  ghost function Claim(owner: map<nat, nat>, hp: nat, nu: nat): (r: map<nat, nat>)
    ensures forall u :: u in r <==> u in owner || hp <= u < hp + nu
    ensures forall u :: u in r ==> r[u] == if hp <= u < hp + nu then hp else owner[u]
  {
    if nu == 0 then owner else Claim(owner, hp, nu - 1)[hp + nu - 1 := hp]
  }

  /** m' is m with a block of nu units started at hp. */
  ghost predicate Started(m: seq<Header>, m': seq<Header>, hp: nat, nu: nat) {
    && |m'| == |m| && 0 < hp < |m| && nu >= 1 && m'[hp].size == nu
    && forall a :: 0 <= a < |m| && a != hp ==> m'[a].size == m[a].size
  }

  lemma GrowBlock(m: seq<Header>, m': seq<Header>, owner: map<nat, nat>, hp: nat, nu: nat, a: nat)
    requires Started(m, m', hp, nu) && (forall u :: u in owner ==> u < hp) && (a != hp ==> BlockOk(m, owner, a))
    ensures BlockOk(m', Claim(owner, hp, nu), a)
  {
    var o' := Claim(owner, hp, nu);
    forall u | a <= u < a + m'[a].size ensures u in o' && o'[u] == a {
      if a != hp { assert u in owner && owner[u] == a; }
    }
  }

  lemma GrowUnit(s: Arena, m': seq<Header>, live: map<nat, nat>, hp: nat, nu: nat, u: nat)
    requires Started(s.m, m', hp, nu) && u in Claim(s.owner, hp, nu)
    requires u < hp ==> u in s.owner && UnitOk(s.m, s.cyc, live, s.owner, u)
    requires forall v :: v in s.owner ==> v < hp
    ensures UnitOk(m', s.cyc, live[hp := nu], Claim(s.owner, hp, nu), u)
  {
  }

  lemma GrowBlocks(s: Arena, live: map<nat, nat>, hp: nat, nu: nat, r: Arena, l': map<nat, nat>)
    requires Tiles(s.m, s.cyc, live, s.owner) && Started(s.m, r.m, hp, nu) && forall u :: u in s.owner ==> u < hp
    requires r.cyc == s.cyc && r.owner == Claim(s.owner, hp, nu) && l' == live[hp := nu]
    ensures forall a: nat :: IsBlock(r.cyc, l', a) ==> BlockOk(r.m, r.owner, a)
  {
    forall a: nat | IsBlock(r.cyc, l', a) ensures BlockOk(r.m, r.owner, a) {
      if a != hp { assert IsBlock(s.cyc, live, a); }
      GrowBlock(s.m, r.m, s.owner, hp, nu, a);
    }
  }

  lemma GrowTiles(s: Arena, live: map<nat, nat>, hp: nat, nu: nat, r: Arena, l': map<nat, nat>)
    requires Tiles(s.m, s.cyc, live, s.owner) && Started(s.m, r.m, hp, nu) && forall u :: u in s.owner ==> u < hp
    requires r.cyc == s.cyc && r.owner == Claim(s.owner, hp, nu) && l' == live[hp := nu] && hp !in s.cyc
    ensures Tiles(r.m, r.cyc, l', r.owner)
  {
    forall u | u in r.owner ensures UnitOk(r.m, r.cyc, l', r.owner, u) {
      if u < hp { assert UnitOk(s.m, s.cyc, live, s.owner, u); }
      GrowUnit(s, r.m, live, hp, nu, u);
    }
    GrowBlocks(s, live, hp, nu, r, l');
  }

  /** Fresh units above everything owned become one live block. */
  lemma GrowSound(s: Arena, live: map<nat, nat>, hp: nat, nu: nat, r: Arena)
    requires Sound(s, live, {}) && 0 < hp && hp + nu <= |s.m| && nu >= 1 && forall u :: u in s.owner ==> u < hp
    requires r == Arena(s.m[hp := s.m[hp].(size := nu)], s.cyc, Claim(s.owner, hp, nu))
    ensures hp !in live && hp !in s.cyc && Sound(r, live[hp := nu], {})
  {
    forall k | 0 <= k < |s.cyc| ensures s.cyc[k] != hp { FreeBelow(s, live, k); }
    assert hp in live ==> hp in s.owner by { if hp in live { LiveOwner(s, live, hp, hp); } }
    RingFrame(s.m, r.m, s.cyc);
    GrowTiles(s, live, hp, nu, r, live[hp := nu]);
  }

  /** The ring without block i, its predecessor linked to its successor: what block k of it then looks like. */
  lemma TakeLink(m: seq<Header>, cyc: seq<nat>, i: nat, m': seq<Header>, c': seq<nat>, k: nat)
    requires Ring(m, cyc) && 0 < i < |cyc| && cyc[i - 1] < |m| && cyc[i] < |m| && c' == Removed(cyc, i) && k < |c'|
    requires m' == m[cyc[i - 1] := m[cyc[i - 1]].(ptr := m[cyc[i]].ptr)]
    ensures LinkAt(m', c', k)
  {
    assert c'[k] == if k < i then cyc[k] else cyc[k + 1];
    var y := if k < i then k else k + 1;
    assert LinkAt(m, cyc, y) && LinkAt(m, cyc, i - 1) && LinkAt(m, cyc, i);
    if y < i - 1 { assert OrderAt(m, cyc, y, i - 1); } else if i - 1 < y { assert OrderAt(m, cyc, i - 1, y); }
  }

  lemma TakeRing(m: seq<Header>, cyc: seq<nat>, i: nat)
    requires Ring(m, cyc) && 0 < i < |cyc|
    ensures cyc[i - 1] < |m| && cyc[i] < |m|
    ensures Ring(m[cyc[i - 1] := m[cyc[i - 1]].(ptr := m[cyc[i]].ptr)], Removed(cyc, i))
  {
    assert LinkAt(m, cyc, i - 1) && LinkAt(m, cyc, i) && OrderAt(m, cyc, i - 1, i);
    var m', c' := m[cyc[i - 1] := m[cyc[i - 1]].(ptr := m[cyc[i]].ptr)], Removed(cyc, i);
    assert forall k :: 0 <= k < |c'| ==> c'[k] == if k < i then cyc[k] else cyc[k + 1];
    forall k | 0 <= k < |c'| ensures LinkAt(m', c', k) { TakeLink(m, cyc, i, m', c', k); }
    forall k, l | 0 <= k < l < |c'| ensures OrderAt(m', c', k, l) {
      assert OrderAt(m, cyc, if k < i then k else k + 1, if l < i then l else l + 1);
    }
    forall k: nat ensures Apart(m', c', k) {
      if k < i - 1 || i <= k { assert Apart(m, cyc, if k < i then k else k + 1); }
      if k == i - 1 && i + 1 < |cyc| { assert OrderAt(m, cyc, i, i + 1); }
    }
  }

  /** malloc takes the whole of free block i. */
  lemma TakeSound(s: Arena, live: map<nat, nat>, i: nat)
    requires Sound(s, live, {}) && 0 < i < |s.cyc|
    ensures s.cyc[i - 1] < |s.m| && s.cyc[i] < |s.m| && s.cyc[i] !in live
    ensures Sound(Arena(s.m[s.cyc[i - 1] := s.m[s.cyc[i - 1]].(ptr := s.m[s.cyc[i]].ptr)], Removed(s.cyc, i), s.owner),
                  live[s.cyc[i] := s.m[s.cyc[i]].size], {})
    ensures Kept(live, s.m, s.m[s.cyc[i - 1] := s.m[s.cyc[i - 1]].(ptr := s.m[s.cyc[i]].ptr)])
  {
    TakeRing(s.m, s.cyc, i);
    NotLive(s, live, s.cyc[i - 1]);
    var m' := s.m[s.cyc[i - 1] := s.m[s.cyc[i - 1]].(ptr := s.m[s.cyc[i]].ptr)];
    KeptElsewhere(s, live, live, m', s.cyc[i - 1], s.cyc[i - 1]);
    assert OrderAt(s.m, s.cyc, 0, i) && OrderAt(s.m, s.cyc, i - 1, i);
    var x := s.cyc[i];
    var c', l' := Removed(s.cyc, i), live[x := s.m[x].size];
    RemovedMembers(s.m, s.cyc, i);
    assert s.cyc[i - 1] in s.cyc;
    forall a | IsBlock(c', l', a) ensures BlockOk(m', s.owner, a) { assert BlockOk(s.m, s.owner, a); }
    forall u | u in s.owner ensures UnitOk(m', c', l', s.owner, u) { assert UnitOk(s.m, s.cyc, live, s.owner, u); }
  }

  lemma SplitRing(m: seq<Header>, cyc: seq<nat>, i: nat, n: nat)
    requires Ring(m, cyc) && 0 < i < |cyc| && cyc[i] < |m| && n < m[cyc[i]].size
    ensures Ring(m[cyc[i] := m[cyc[i]].(size := m[cyc[i]].size - n)], cyc)
  {
    var m' := m[cyc[i] := m[cyc[i]].(size := m[cyc[i]].size - n)];
    assert OrderAt(m, cyc, 0, i);
    forall k | 0 <= k < |cyc| ensures LinkAt(m', cyc, k) { assert LinkAt(m, cyc, k); }
    forall k, l | 0 <= k < l < |cyc| ensures OrderAt(m', cyc, k, l) { assert OrderAt(m, cyc, k, l); }
    forall k: nat ensures Apart(m', cyc, k) {
      assert Apart(m, cyc, k);
      if k + 1 < |cyc| { assert OrderAt(m, cyc, k, k + 1); }
    }
  }

  /** m' is m with the last n units of block x cut off as a block at y. */
  ghost predicate Cut(m: seq<Header>, m': seq<Header>, x: nat, y: nat, n: nat) {
    && |m'| == |m| && x < y < |m| && n >= 1 && m[x].size == y - x + n
    && m'[x].size == y - x && m'[y].size == n
    && forall a :: 0 <= a < |m| && a != x && a != y ==> m'[a].size == m[a].size
  }

  lemma CutBlock(m: seq<Header>, m': seq<Header>, owner: map<nat, nat>, x: nat, y: nat, n: nat, a: nat)
    requires Cut(m, m', x, y, n) && BlockOk(m, owner, x) && a != y && BlockOk(m, owner, a)
    ensures BlockOk(m', Claim(owner, y, n), a)
  {
    var o' := Claim(owner, y, n);
    forall u | a <= u < a + m'[a].size ensures u in o' && o'[u] == a { assert u in owner && owner[u] == a; }
  }

  lemma CutUnit(s: Arena, m': seq<Header>, live: map<nat, nat>, x: nat, y: nat, n: nat, u: nat)
    requires Cut(s.m, m', x, y, n) && BlockOk(s.m, s.owner, x) && IsBlock(s.cyc, live, x) && u in Claim(s.owner, y, n)
    requires !(y <= u < y + n) ==> UnitOk(s.m, s.cyc, live, s.owner, u) && s.owner[u] != y
    ensures UnitOk(m', s.cyc, live[y := n], Claim(s.owner, y, n), u)
  {
  }

  lemma CutBlocks(s: Arena, m': seq<Header>, live: map<nat, nat>, x: nat, y: nat, n: nat, r: Arena, l': map<nat, nat>)
    requires Tiles(s.m, s.cyc, live, s.owner) && IsBlock(s.cyc, live, x) && Cut(s.m, m', x, y, n)
    requires r == Arena(m', s.cyc, Claim(s.owner, y, n)) && l' == live[y := n]
    ensures forall a: nat :: IsBlock(r.cyc, l', a) ==> BlockOk(r.m, r.owner, a)
  {
    assert BlockOk(s.m, s.owner, x);
    forall a: nat | IsBlock(r.cyc, l', a) ensures BlockOk(r.m, r.owner, a) {
      if a != y { assert IsBlock(s.cyc, live, a); CutBlock(s.m, m', s.owner, x, y, n, a); }
    }
  }

  lemma CutTiles(s: Arena, m': seq<Header>, live: map<nat, nat>, x: nat, y: nat, n: nat, r: Arena, l': map<nat, nat>)
    requires Tiles(s.m, s.cyc, live, s.owner) && IsBlock(s.cyc, live, x) && Cut(s.m, m', x, y, n)
    requires x !in live && y !in live && y !in s.cyc
    requires r == Arena(m', s.cyc, Claim(s.owner, y, n)) && l' == live[y := n]
    ensures Tiles(r.m, r.cyc, l', r.owner)
  {
    forall u | u in r.owner ensures UnitOk(r.m, r.cyc, l', r.owner, u) {
      assert BlockOk(s.m, s.owner, x);
      if !(y <= u < y + n) { assert UnitOk(s.m, s.cyc, live, s.owner, u); }
      CutUnit(s, m', live, x, y, n, u);
    }
    CutBlocks(s, m', live, x, y, n, r, l');
  }

  /** malloc takes the last n units of the larger free block x = cyc[i]. */
  lemma SplitSound(s: Arena, live: map<nat, nat>, i: nat, n: nat, m': seq<Header>)
    requires Sound(s, live, {}) && 0 < i < |s.cyc| && s.cyc[i] < |s.m| && 1 <= n < s.m[s.cyc[i]].size
    requires s.cyc[i] + s.m[s.cyc[i]].size <= |s.m|
    requires var x, y := s.cyc[i], s.cyc[i] + s.m[s.cyc[i]].size - n;
      m' == s.m[x := s.m[x].(size := s.m[x].size - n)][y := s.m[y].(size := n)]
    ensures var y := s.cyc[i] + s.m[s.cyc[i]].size - n;
      && y !in live && y !in s.cyc && Sound(Arena(m', s.cyc, Claim(s.owner, y, n)), live[y := n], {})
  {
    var x, y := s.cyc[i], s.cyc[i] + s.m[s.cyc[i]].size - n;
    assert x > 0 by { assert OrderAt(s.m, s.cyc, 0, i); }
    assert y in s.owner && s.owner[y] == x by { assert BlockOk(s.m, s.owner, x); }
    forall k | 0 <= k < |s.cyc| ensures s.cyc[k] != y { FreeBelow(s, live, k); }
    assert y !in live by { if y in live { LiveOwner(s, live, y, y); } }
    assert x !in live;
    assert Ring(m', s.cyc) by {
      SplitRing(s.m, s.cyc, i, n);
      RingFrame(s.m[x := s.m[x].(size := s.m[x].size - n)], m', s.cyc);
    }
    CutTiles(s, m', live, x, y, n, Arena(m', s.cyc, Claim(s.owner, y, n)), live[y := n]);
  }

  lemma SplitKept(s: Arena, live: map<nat, nat>, i: nat, n: nat, y: nat, m': seq<Header>)
    requires Sound(s, live, {}) && 0 < i < |s.cyc| && s.cyc[i] < |s.m| && 1 <= n < s.m[s.cyc[i]].size && |m'| == |s.m|
    requires y == s.cyc[i] + s.m[s.cyc[i]].size - n
    requires forall u :: 0 <= u < |s.m| && u != s.cyc[i] && u != y ==> m'[u] == s.m[u]
    ensures Claim(s.owner, y, n).Keys == s.owner.Keys && Kept(live, s.m, m')
  {
    assert OrderAt(s.m, s.cyc, 0, i) && BlockOk(s.m, s.owner, s.cyc[i]);
    assert s.owner[y] == s.cyc[i];
    KeptElsewhere(s, live, live, m', s.cyc[i], y);
  }

  /** A live block owns exactly its own units. */
  lemma LiveOwner(s: Arena, live: map<nat, nat>, a: nat, u: nat)
    requires Tiles(s.m, s.cyc, live, s.owner) && a in live
    ensures u in s.owner && s.owner[u] == a <==> a <= u < a + live[a]
    ensures live[a] >= 1
  {
    assert IsBlock(s.cyc, live, a) && BlockOk(s.m, s.owner, a);
    if u in s.owner { assert UnitOk(s.m, s.cyc, live, s.owner, u); }
  }

  /** The memory of every live block is the same in both. */
  ghost predicate Kept(live: map<nat, nat>, m: seq<Header>, m': seq<Header>) {
    |m| == |m'| && forall a, u: nat :: a in live && a <= u < a + live[a] && u < |m| ==> m'[u] == m[u]
  }

  /** Writing two words no live block owns keeps the live blocks' memory. */
  lemma KeptElsewhere(s: Arena, all: map<nat, nat>, live: map<nat, nat>, m': seq<Header>, x: nat, y: nat)
    requires Tiles(s.m, s.cyc, all, s.owner) && |m'| == |s.m|
    requires forall a :: a in live ==> a in all && live[a] == all[a]
    requires forall u :: 0 <= u < |s.m| && u != x && u != y ==> m'[u] == s.m[u]
    requires (x in s.owner ==> s.owner[x] !in live) && (y in s.owner ==> s.owner[y] !in live)
    ensures Kept(live, s.m, m')
  {
    forall a, u: nat | a in live && a <= u < a + live[a] && u < |s.m| ensures m'[u] == s.m[u] {
      LiveOwner(s, all, a, u);
    }
  }

  lemma KeptChain(live: map<nat, nat>, m: seq<Header>, m': seq<Header>, m'': seq<Header>)
    requires Kept(live, m, m') && Kept(live, m', m'')
    ensures Kept(live, m, m'')
  {
  }

  lemma PutDrop(live: map<nat, nat>, a: nat, n: nat)
    requires a !in live
    ensures live[a := n] - {a} == live
  {
  }

  /** The byte count morecore hands to sbrk, as the int sbrk takes. */
  function SbrkArg(nu: nat): (n: int) {
    var b := nu * 8 % WORD;
    if b < WORD / 2 then b else b - WORD
  }

  /** sbrk is asked for the units wanted exactly up to 2^28 units; one more and it is asked to shrink. */
  lemma SbrkArgExact(nu: nat)
    requires nu <= WORD / 8
    ensures SbrkArg(nu) == 8 * nu <==> nu < 0x1000_0000
    ensures 0x1000_0000 <= nu < WORD / 8 ==> SbrkArg(nu) < 0
  {
  }

  /** Inputs at which they fail: a request for almost all of memory gets one unit, and 2^28 units ask sbrk to shrink. */
  lemma Wraps()
    ensures Units(0xFFFF_FFF9) == 1 && 8 * (Units(0xFFFF_FFF9) - 1) < 0xFFFF_FFF9
    ensures SbrkArg(0x1000_0000) == -0x8000_0000
  {
  }

  function Max(a: nat, b: nat): (r: nat) { if a < b then b else a }

  /** A unit inside a live block, behind its header, is no block's header. */
  lemma PayloadUnit(s: Arena, live: map<nat, nat>, a: nat, u: nat, b: nat)
    requires Tiles(s.m, s.cyc, live, s.owner) && a in live && a < u < a + live[a] && IsBlock(s.cyc, live, b)
    ensures b != u
  {
    assert BlockOk(s.m, s.owner, a) && BlockOk(s.m, s.owner, b);
    assert s.owner[u] == a && s.owner[b] == b;
  }

  /** What the program stores into the memory malloc gave it does not touch the allocator's own words. */
  lemma PayloadSound(s: Arena, live: map<nat, nat>, a: nat, u: nat, w: Header)
    requires Sound(s, live, {}) && a in live && a < u < a + live[a] && u < |s.m|
    ensures Sound(s.(m := s.m[u := w]), live, {})
  {
    var m := s.m[u := w];
    forall b: nat | IsBlock(s.cyc, live, b) || b == 0 ensures b < |m| && m[b] == s.m[b] {
      if b != 0 {
        PayloadUnit(s, live, a, u, b);
        assert BlockOk(s.m, s.owner, b);
      }
    }
    forall i | 0 <= i < |s.cyc| ensures LinkAt(m, s.cyc, i) { assert LinkAt(s.m, s.cyc, i); }
    forall i, j | 0 <= i < j < |s.cyc| ensures OrderAt(m, s.cyc, i, j) { assert OrderAt(s.m, s.cyc, i, j); }
    forall i: nat ensures Apart(m, s.cyc, i) { assert Apart(s.m, s.cyc, i); }
    forall b | IsBlock(s.cyc, live, b) ensures BlockOk(m, s.owner, b) { assert BlockOk(s.m, s.owner, b); }
    forall x | x in s.owner ensures UnitOk(m, s.cyc, live, s.owner, x) { assert UnitOk(s.m, s.cyc, live, s.owner, x); }
  }

  /** What malloc makes of the heap when it cuts the last n units off free block i. */
  lemma SplitEffect(s: Arena, live: map<nat, nat>, i: nat, n: nat, x: nat, y: nat) returns (r: Arena)
    requires Sound(s, live, {}) && 0 < i < |s.cyc| && x == s.cyc[i] < |s.m| && 1 <= n < s.m[x].size
    requires x + s.m[x].size <= |s.m| && y == x + s.m[x].size - n
    ensures r.m == s.m[x := s.m[x].(size := s.m[x].size - n)][y := s.m[y].(size := n)] && r.cyc == s.cyc
    ensures y !in live && Sound(r, live[y := n], {}) && r.owner.Keys == s.owner.Keys && Kept(live, s.m, r.m)
  {
    var m' := s.m[x := s.m[x].(size := s.m[x].size - n)][y := s.m[y].(size := n)];
    r := Arena(m', s.cyc, Claim(s.owner, y, n));
    assert y !in live && Sound(r, live[y := n], {}) by { SplitSound(s, live, i, n, m'); }
    SplitKept(s, live, i, n, y, m');
  }

  class Heap {
    const mem: array<Header>
    var freep: int
    var brk: nat               // end of the memory obtained so far
    ghost var cyc: seq<nat>
    ghost var live: map<nat, nat>
    ghost var owner: map<nat, nat>
    ghost var arena: set<nat>  // the units obtained from sbrk

    ghost predicate Valid()
      reads this, mem
    {
      && mem.Length >= 1 && 1 <= brk <= mem.Length
      && (freep == NULL ==> live == map[] && owner == map[])
      && (freep != NULL ==> freep in cyc && Sound(Arena(mem[..], cyc, owner), live, {}))
      && owner.Keys == arena && forall u :: u in owner ==> u < brk
    }

    constructor (units: nat)
      ensures Valid() && live == map[] && arena == {} && fresh(mem)
    {
      mem := new Header[units + 1](_ => Header(0, 0));
      freep, brk := NULL, 1;
      cyc, live, owner, arena := [], map[], map[], {};
    }

    /** The program's own store into the block that malloc returned as ap: the heap stays as it is. */
    method Store(ap: nat, u: nat, w: Header)
      requires Valid() && freep != NULL && ap >= 1 && ap - 1 in live && ap <= u < ap - 1 + live[ap - 1]
      modifies mem
      ensures Valid() && u < mem.Length && mem[..] == old(mem[..])[u := w]
    {
      ghost var s := Arena(mem[..], cyc, owner);
      assert u < mem.Length by {
        assert BlockOk(s.m, owner, ap - 1);
        assert u in owner;
      }
      PayloadSound(s, live, ap - 1, u, w);
      mem[u] := w;
      assert mem[..] == s.m[u := w];
    }

    /** The search loop of free: the free block after which bp belongs. */
    method Locate(bp: nat) returns (p: nat, ghost g: nat)
      requires Valid() && freep != NULL && bp in live
      ensures g < |cyc| && p == cyc[g] && Slot(cyc, bp, g) && p < mem.Length
    {
      ghost var goal := SlotFrom(cyc, bp, 0);
      p := freep;
      g :| 0 <= g < |cyc| && cyc[g] == freep;
      assert LinkAt(mem[..], cyc, g);
      while !(bp > p && bp < mem[p].ptr)
        invariant g < |cyc| && p == cyc[g] && p < mem.Length && LinkAt(mem[..], cyc, g)
        decreases Dist(g, goal, |cyc|)
      {
        if g + 1 < |cyc| { assert OrderAt(mem[..], cyc, g, g + 1); }
        if p >= mem[p].ptr && (bp > p || bp < mem[p].ptr) {
          break;
        }
        p := mem[p].ptr;
        assert g != goal;
        g := Step(g, |cyc|);
        assert LinkAt(mem[..], cyc, g);
      }
      if g + 1 < |cyc| { assert OrderAt(mem[..], cyc, g, g + 1); }
    }

    /** free(): the block leaves `live`, and no live block's memory changes. */
    method Free(ap: nat)
      requires Valid() && freep != NULL && ap >= 1 && ap - 1 in live
      modifies this`freep, this`cyc, this`owner, this`live, mem
      ensures Valid() && freep != NULL && 0 <= freep < mem.Length && live == old(live) - {ap - 1}
      ensures Kept(live, old(mem[..]), mem[..]) && FreeHas(old(live)[ap - 1])
    {
      var bp := ap - 1;
      var p, g := Locate(bp);
      ghost var r := FreeEffect(Arena(mem[..], cyc, owner), live, g, bp);
      WriteFreed(p, bp);
      freep := p;
      cyc, owner, live := r.cyc, r.owner, live - {bp};
    }

    /** The block at freep or the one after it has at least n units. */
    ghost predicate FreeHas(n: nat)
      reads this, mem
    {
      && 0 <= freep < mem.Length && mem[freep].ptr < mem.Length
      && (mem[freep].size >= n || mem[mem[freep].ptr].size >= n)
    }

    /** The body of free after its loop. */
    method WriteFreed(p: nat, bp: nat)
      requires p < mem.Length && bp < mem.Length && mem[p].ptr < mem.Length && p != bp
      modifies mem
      ensures mem[..] == old(FreedWords(mem[..], p, bp))
      ensures forall u :: 0 <= u < mem.Length && u != p && u != bp ==> mem[u] == old(mem[u])
      ensures mem[p].size >= old(mem[bp].size) || (mem[p].ptr == bp && mem[bp].size >= old(mem[bp].size))
    {
      var up := mem[p].ptr;
      if bp + mem[bp].size == up {
        mem[bp] := mem[bp].(size := mem[bp].size + mem[up].size);
        mem[bp] := mem[bp].(ptr := mem[up].ptr);
      } else {
        mem[bp] := mem[bp].(ptr := up);
      }
      if p + mem[p].size == bp {
        mem[p] := mem[p].(size := mem[p].size + mem[bp].size);
        mem[p] := mem[p].(ptr := mem[bp].ptr);
      } else {
        mem[p] := mem[p].(ptr := bp);
      }
    }

    /** The units sbrk returned become a block that is live until morecore frees it. */
    method Adopt(hp: nat, nu: nat)
      requires Valid() && freep != NULL && brk <= hp && nu >= 1 && hp + nu <= mem.Length
      modifies this`brk, this`owner, this`live, this`arena, mem
      ensures Valid() && brk == hp + nu && hp !in old(live) && live == old(live)[hp := nu]
      ensures Kept(old(live), old(mem[..]), mem[..])
      ensures forall u: nat :: u in arena <==> u in old(arena) || hp <= u < brk
    {
      brk := hp + nu;
      ghost var s := Arena(mem[..], cyc, owner);
      mem[hp] := mem[hp].(size := nu);
      ghost var r := Arena(mem[..], cyc, Claim(owner, hp, nu));
      GrowSound(s, live, hp, nu, r);
      ghost var was := live;
      owner, live := r.owner, live[hp := nu];
      arena := owner.Keys;
      KeptElsewhere(s, was, was, mem[..], hp, hp);
    }

    /**
      morecore(): `fail` says whether sbrk refuses, and gap how far the break
      was moved by others since the last call.
     */
    method MoreCore(units: nat, fail: bool, gap: nat) returns (r: int)
      requires Valid() && freep != NULL && 1 <= units < 0x1000_0000
      modifies this, mem
      ensures Valid() && live == old(live) && Kept(live, old(mem[..]), mem[..])
      ensures r == NULL <==> fail || old(brk) + gap + Max(units, 4096) > mem.Length
      ensures r == NULL ==> cyc == old(cyc) && freep == old(freep) && arena == old(arena) && mem[..] == old(mem[..])
      ensures r != NULL ==> r == freep && FreeHas(units)
      ensures r != NULL ==> forall u: nat :: u in arena <==> u in old(arena) || old(brk) + gap <= u < brk
    {
      var nu := units;
      if nu < 4096 { nu := 4096; }
      if fail || brk + gap + nu > mem.Length { return NULL; }
      var hp := brk + gap;
      Adopt(hp, nu);
      ghost var m := mem[..];
      Free(hp + 1);
      PutDrop(old(live), hp, nu);
      KeptChain(live, old(mem[..]), m, mem[..]);
      r := freep;
    }

    /** Some free block has at least n units. */
    ghost predicate HasFit(n: nat)
      reads this, mem
    {
      exists k :: 0 <= k < |cyc| && cyc[k] < mem.Length && mem[cyc[k]].size >= n
    }

    /** Free blocks already passed on the way from freep to index pj are too small. */
    ghost predicate Passed(pj: nat, fi: nat, n: nat)
      reads this, mem
    {
      pj < |cyc| && fi < |cyc| && forall k :: 0 <= k < |cyc| && Dist(pj, k, |cyc|) > Dist(pj, fi, |cyc|) ==>
        cyc[k] < mem.Length && mem[cyc[k]].size < n
    }

    /** Back at freep, every free block has been passed. */
    lemma AllPassed(pj: nat, fi: nat, n: nat)
      requires Valid() && freep != NULL && Passed(pj, fi, n) && pj == fi
      requires cyc[pj] < mem.Length && mem[cyc[pj]].size < n
      ensures !HasFit(n)
    {
    }

    lemma StartPassed(fi: nat, n: nat)
      requires fi < |cyc|
      ensures Passed(Step(fi, |cyc|), fi, n)
    {
    }

    lemma StepPassed(pj: nat, fi: nat, n: nat)
      requires Passed(pj, fi, n) && pj != fi && cyc[pj] < mem.Length && mem[cyc[pj]].size < n
      ensures Passed(Step(pj, |cyc|), fi, n)
    {
      ghost var next := Step(pj, |cyc|);
      forall k | 0 <= k < |cyc| && Dist(next, k, |cyc|) > Dist(next, fi, |cyc|)
        ensures cyc[k] < mem.Length && mem[cyc[k]].size < n
      {
        assert k != pj ==> Dist(pj, k, |cyc|) == Dist(next, k, |cyc|) + 1;
      }
    }

    /** The first call of malloc: the free list is base alone. */
    method InitBase()
      requires Valid() && freep == NULL
      modifies this`freep, this`cyc, mem
      ensures Valid() && freep == 0 && cyc == [0] && forall n: nat {:trigger HasFit(n)} :: n >= 1 ==> !HasFit(n)
    {
      mem[0] := Header(0, 0);
      freep := 0;
      cyc := [0];
      assert LinkAt(mem[..], cyc, 0);
    }

    /** morecore within the search: afterwards a fitting block is on the list. */
    method Refill(n: nat, fail: bool, gap: nat) returns (p: int, ghost fi: nat)
      requires Valid() && freep != NULL && 1 <= n < 0x1000_0000
      modifies this, mem
      ensures Valid() && freep != NULL && live == old(live) && Kept(live, old(mem[..]), mem[..])
      ensures old(arena) <= arena
      ensures p == NULL <==> fail || old(brk) + gap + Max(n, 4096) > mem.Length
      ensures p == NULL ==> arena == old(arena)
      ensures p != NULL ==> p == freep && fi < |cyc| && cyc[fi] == p && 0 <= p < mem.Length
      ensures p != NULL ==> HasFit(n) && Passed(Step(fi, |cyc|), fi, n)
    {
      p := MoreCore(n, fail, gap);
      fi := 0;
      if p != NULL {
        fi :| 0 <= fi < |cyc| && cyc[fi] == freep;
        PtrInRange(mem[..], cyc, fi);
        StartPassed(fi, n);
        assert cyc[Step(fi, |cyc|)] == mem[freep].ptr;
      }
    }

    lemma NextOf(i: nat)
      requires Valid() && freep != NULL && i < |cyc|
      ensures cyc[i] < mem.Length && mem[cyc[i]].ptr < mem.Length && mem[cyc[i]].ptr == cyc[Step(i, |cyc|)]
      ensures forall j :: 0 <= j < |cyc| && cyc[j] == cyc[i] ==> j == i
    {
      PtrInRange(mem[..], cyc, i);
      forall j | 0 <= j < |cyc| && cyc[j] == cyc[i] ensures j == i { Once(mem[..], cyc, i, j); }
    }

    /**
      A round of the search past the block p = cyc[pi], which is too small: back at
      freep, ask for more memory; in either case move on by one block.
     */
    method Round(p: nat, n: nat, fail: bool, gap: nat, ghost pi: nat, ghost fi: nat)
      returns (prevp: nat, q: int, ghost qi: nat, ghost fi': nat)
      requires Valid() && freep != NULL && 1 <= n < 0x1000_0000 && Passed(pi, fi, n)
      requires cyc[fi] == freep && cyc[pi] == p && p < mem.Length && mem[p].size < n
      modifies this, mem
      ensures Valid() && freep != NULL && live == old(live) && Kept(live, old(mem[..]), mem[..])
      ensures q != NULL ==> qi < |cyc| && cyc[qi] == q && 0 <= q < mem.Length && cyc[Back(qi, |cyc|)] == prevp
      ensures q != NULL ==> Passed(qi, fi', n) && cyc[fi'] == freep
      ensures p != old(freep) ==>
        q != NULL && cyc == old(cyc) && HasFit(n) == old(HasFit(n)) && brk == old(brk) && arena == old(arena) &&
        fi' == fi && Dist(qi, fi, |cyc|) < Dist(pi, fi, |cyc|)
      ensures p == old(freep) ==> old(!HasFit(n)) && (q != NULL ==> HasFit(n)) && old(arena) <= arena
      ensures p == old(freep) ==> (q == NULL <==> fail || old(brk) + gap + Max(n, 4096) > mem.Length)
      ensures q == NULL ==> arena == old(arena)
    {
      prevp, q, qi, fi' := p, p, pi, fi;
      NextOf(fi);
      if p == freep {
        AllPassed(pi, fi, n);
        q, fi' := Refill(n, fail, gap);
        if q == NULL { return; }
        qi := fi';
      } else {
        StepPassed(pi, fi, n);
      }
      NextOf(qi);
      prevp, q := q, mem[q].ptr;
      qi := Step(qi, |cyc|);
    }

    /** The search loop of malloc: a free block of at least n units and the one before it, or NULL. */
    method FindFit(n: nat, fail: bool, gap: nat) returns (prevp: nat, p: int, ghost pj: nat)
      requires Valid() && freep != NULL && 1 <= n < 0x1000_0000
      modifies this, mem
      ensures Valid() && freep != NULL && live == old(live) && Kept(live, old(mem[..]), mem[..])
      ensures p == NULL <==> old(!HasFit(n)) && (fail || old(brk) + gap + Max(n, 4096) > mem.Length)
      ensures old(arena) <= arena && (p == NULL || old(HasFit(n)) ==> arena == old(arena))
      ensures p != NULL ==> 0 < pj < |cyc| && cyc[pj - 1] == prevp && cyc[pj] == p
      ensures p != NULL ==> 0 <= p < mem.Length && mem[p].size >= n
    {
      prevp := freep;
      ghost var fi: nat :| 0 <= fi < |cyc| && cyc[fi] == freep;
      NextOf(fi);
      StartPassed(fi, n);
      p := mem[prevp].ptr;
      pj := Step(fi, |cyc|);
      ghost var grown, fit := false, HasFit(n);
      while mem[p].size < n
        invariant Valid() && freep != NULL && live == old(live) && Kept(live, old(mem[..]), mem[..])
        invariant Passed(pj, fi, n) && cyc[fi] == freep && cyc[pj] == p && 0 <= p < mem.Length
        invariant prevp == cyc[Back(pj, |cyc|)]
        invariant !grown ==> HasFit(n) == fit && brk == old(brk) && arena == old(arena)
        invariant grown ==> HasFit(n) && !fit && !(fail || old(brk) + gap + Max(n, 4096) > mem.Length)
        invariant old(arena) <= arena
        decreases !grown, Dist(pj, fi, |cyc|)
      {
        ghost var m, last := mem[..], p == freep;
        prevp, p, pj, fi := Round(p, n, fail, gap, pj, fi);
        KeptChain(live, old(mem[..]), m, mem[..]);
        if p == NULL { return; }
        grown := grown || last;
      }
      assert Sound(Arena(mem[..], cyc, owner), live, {});
    }

    /** Take all of the free block p = cyc[i]. */
    method TakeAll(prevp: nat, p: nat, ghost i: nat)
      requires Valid() && freep != NULL && 0 < i < |cyc| && cyc[i] == p && cyc[i - 1] == prevp && p < mem.Length
      modifies this`freep, this`cyc, this`live, mem
      ensures Valid() && freep != NULL && p !in old(live) && live == old(live)[p := old(mem[p].size)]
      ensures Kept(old(live), old(mem[..]), mem[..])
    {
      ghost var s := Arena(mem[..], cyc, owner);
      TakeSound(s, live, i);
      cyc, live := Removed(cyc, i), live[p := mem[p].size];
      assert cyc[i - 1] == prevp;
      freep := prevp;
      mem[prevp] := mem[prevp].(ptr := mem[p].ptr);
      assert mem[..] == s.m[prevp := s.m[prevp].(ptr := s.m[p].ptr)];
    }

    /** Cut the last n units off the block at x. */
    method CutTail(x: nat, n: nat) returns (p: nat)
      requires x < mem.Length && 1 <= n < mem[x].size && x + mem[x].size <= mem.Length
      modifies mem
      ensures p == x + old(mem[x].size) - n
      ensures mem[..] == old(mem[..][x := mem[x].(size := mem[x].size - n)][p := mem[p].(size := n)])
    {
      mem[x] := mem[x].(size := mem[x].size - n);
      p := x + mem[x].size;
      mem[p] := mem[p].(size := n);
    }

    /** Take the last n units of the larger free block x = cyc[i]. */
    method TakeTail(prevp: nat, x: nat, n: nat, ghost i: nat) returns (p: nat)
      requires Valid() && freep != NULL && 0 < i < |cyc| && cyc[i] == x && cyc[i - 1] == prevp
      requires x < mem.Length && 1 <= n < mem[x].size
      modifies this`freep, this`owner, this`live, mem
      ensures Valid() && freep != NULL && p !in old(live) && live == old(live)[p := n]
      ensures Kept(old(live), old(mem[..]), mem[..])
    {
      FreeInside(i);
      ghost var y := x + mem[x].size - n;
      ghost var r := SplitEffect(Arena(mem[..], cyc, owner), live, i, n, x, y);
      p := CutTail(x, n);
      freep := prevp;
      owner, live := r.owner, live[y := n];
      assert freep in cyc;
    }

    /** A free block lies within the memory obtained. */
    lemma FreeInside(i: nat)
      requires Valid() && freep != NULL && 0 < i < |cyc|
      ensures cyc[i] < mem.Length && cyc[i] + mem[cyc[i]].size <= brk
    {
      assert OrderAt(mem[..], cyc, 0, i);
      assert IsBlock(cyc, live, cyc[i]) && BlockOk(mem[..], owner, cyc[i]);
      assert cyc[i] + mem[cyc[i]].size - 1 in owner;
    }

    /**
      malloc(): a block of Units(nbytes) units disjoint from every live one, or
      NULL exactly when nothing on the list fits and sbrk refuses; the memory
      of the live blocks is untouched.
     */
    method Alloc(nbytes: nat, fail: bool, gap: nat) returns (ap: int)
      requires Valid() && nbytes < WORD && Units(nbytes) < 0x1000_0000
      modifies this, mem
      ensures Valid() && freep != NULL && Kept(old(live), old(mem[..]), mem[..]) && old(arena) <= arena
      ensures var n := Units(nbytes);
        ap == NULL <==> old(freep == NULL || !HasFit(n)) && (fail || old(brk) + gap + Max(n, 4096) > mem.Length)
      ensures ap == NULL ==> live == old(live) && arena == old(arena)
      ensures ap != NULL ==> ap >= 1 && ap - 1 !in old(live) && live == old(live)[ap - 1 := Units(nbytes)]
      ensures old(freep != NULL && HasFit(Units(nbytes))) ==> arena == old(arena)
    {
      var nunits := Units(nbytes);
      if freep == NULL { InitBase(); }
      ap := AllocUnits(nunits, fail, gap);
    }

    /** malloc() once the list exists. */
    method AllocUnits(n: nat, fail: bool, gap: nat) returns (ap: int)
      requires Valid() && freep != NULL && 1 <= n < 0x1000_0000
      modifies this, mem
      ensures Valid() && freep != NULL && Kept(old(live), old(mem[..]), mem[..]) && old(arena) <= arena
      ensures ap == NULL <==> old(!HasFit(n)) && (fail || old(brk) + gap + Max(n, 4096) > mem.Length)
      ensures ap == NULL ==> live == old(live) && arena == old(arena)
      ensures ap != NULL ==> ap >= 1 && ap - 1 !in old(live) && live == old(live)[ap - 1 := n]
      ensures old(HasFit(n)) ==> arena == old(arena)
    {
      var prevp, p, i := FindFit(n, fail, gap);
      if p == NULL { return NULL; }
      ghost var m := mem[..];
      var q := Take(prevp, p, n, i);
      KeptChain(old(live), old(mem[..]), m, mem[..]);
      ap := q + 1;
    }

    /** Take n units from the free block p = cyc[i], whose size is at least n. */
    method Take(prevp: nat, p: nat, n: nat, ghost i: nat) returns (q: nat)
      requires Valid() && freep != NULL && 0 < i < |cyc| && cyc[i] == p && cyc[i - 1] == prevp
      requires p < mem.Length && 1 <= n <= mem[p].size
      modifies this`freep, this`cyc, this`owner, this`live, mem
      ensures Valid() && freep != NULL && q !in old(live) && live == old(live)[q := n]
      ensures Kept(old(live), old(mem[..]), mem[..])
    {
      if mem[p].size == n {
        TakeAll(prevp, p, i);
        q := p;
      } else {
        q := TakeTail(prevp, p, n, i);
      }
    }
  }
}
