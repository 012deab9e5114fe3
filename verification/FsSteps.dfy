/** How single writes of fs.c change the volume and its books. */
module FsSteps {
  import opened FsModel

  /** blk' is blk with exactly the bitmap bit of b flipped; of the data blocks only b may differ. */
  ghost predicate Toggled(lay: Layout, blk: seq<Block>, blk': seq<Block>, b: nat)
    requires lay.Ok() && |blk| == lay.size && b < lay.size
  {
    && |blk'| == |blk|
    && (forall x: nat :: x < lay.size ==>
          Marked(lay, blk', x) == if x == b then !Marked(lay, blk, b) else Marked(lay, blk, x))
    && (forall a :: lay.datastart <= a < lay.size && a != b ==> blk'[a] == blk[a])
  }

  lemma FlipToggles(lay: Layout, blk: seq<Block>, b: nat)
    requires lay.Ok() && |blk| == lay.size && b < lay.size
    ensures Toggled(lay, blk, Flip(lay, blk, b), b)
    ensures lay.datastart <= b ==> Flip(lay, blk, b)[b] == blk[b]
  {
    forall x: nat | x < lay.size
      ensures Marked(lay, Flip(lay, blk, b), x) == if x == b then !Marked(lay, blk, b) else Marked(lay, blk, x)
    {
      FlipOne(lay, blk, b, x);
    }
  }

  /** Rewriting data blocks does not touch the bitmap. */
  lemma DataKeepsMarks(lay: Layout, blk: seq<Block>, a: nat, s: Block, x: nat)
    requires lay.Ok() && |blk| == lay.size && lay.datastart <= a < lay.size && x < lay.size
    ensures Marked(lay, blk[a := s], x) == Marked(lay, blk, x)
  {
  }

  /** Slot k of inode i keeps its address and, if it is a data block, its contents. */
  ghost predicate KeepsSlot(v: Vol, v': Vol, i: nat, k: nat)
    requires i < |v.ino| && i < |v'.ino| && k < NSLOT && |v.blk| == |v'.blk|
  {
    var a := SlotAddr(v.ino[i], v.blk, k);
    SlotAddr(v'.ino[i], v'.blk, k) == a && (k != NDIRECT && 0 < a < |v.blk| ==> v'.blk[a] == v.blk[a])
  }

  lemma KeepsByte(v: Vol, v': Vol, i: nat, x: nat)
    requires i < |v.ino| && i < |v'.ino| && |v.blk| == |v'.blk|
    requires x < MAXFILE * BSIZE ==> KeepsSlot(v, v', i, FileSlot(x / BSIZE))
    ensures ByteAt(v', i, x) == ByteAt(v, i, x)
  {
  }

  /** What a slot holds is a data block of its own. */
  lemma SlotBlock(v: Vol, bk: Books, hi: nat, h: nat, i: nat, k: nat)
    requires InvBut(v, bk, hi, h) && i < |v.ino| && k < NSLOT && bk.tab[i][k] != 0
    ensures var b := bk.tab[i][k];
      v.lay.datastart <= b < v.lay.size && Marked(v.lay, v.blk, b) && b in bk.owner && bk.owner[b] == (i, k)
  {
    assert SlotOwns(bk, i, k);
    assert MarkMatches(v, bk, bk.tab[i][k]);
  }

  /** The indirect pointer is never hidden. */
  lemma IndirectBlock(v: Vol, bk: Books, hi: nat, h: nat, i: nat)
    requires InvBut(v, bk, hi, h) && i < |v.ino|
    ensures bk.tab[i][NDIRECT] == v.ino[i].addrs[NDIRECT]
    ensures var b := v.ino[i].addrs[NDIRECT];
      b != 0 ==> v.lay.datastart <= b < v.lay.size && b in bk.owner && bk.owner[b] == (i, NDIRECT)
  {
    assert SlotMatches(v, bk, hi, h, i, NDIRECT);
    if bk.tab[i][NDIRECT] != 0 { SlotBlock(v, bk, hi, h, i, NDIRECT); }
  }

  // ------------------------------------------------------------ assigning

  /** A free block b goes to the empty slot k <= 12 of inode i. */
  lemma AssignDirect(v: Vol, bk: Books, i: nat, k: nat, b: nat, v': Vol)
    requires Inv(v, bk) && i < |v.ino| && k <= NDIRECT && bk.tab[i][k] == 0
    requires b < v.lay.size && !Marked(v.lay, v.blk, b)
    requires Toggled(v.lay, v.blk, v'.blk, b) && v'.blk[b] == Zero()
    requires v' == Vol(v.lay, v.ino[i := v.ino[i].(addrs := v.ino[i].addrs[k := b])], v'.blk)
    ensures Inv(v', Assign(bk, i, k, b))
    ensures forall j: nat, l: nat :: j < |v.ino| && l < NSLOT && !(j == i && l == k) ==> KeepsSlot(v, v', j, l)
  {
    var bk' := Assign(bk, i, k, b);
    assert MarkMatches(v, bk, b);
    AssignOneToOne(bk, i, k, b);
    forall j: nat, l: nat | j < |v.ino| && l < NSLOT && !(j == i && l == k) ensures KeepsSlot(v, v', j, l) {
      AssignKeeps(v, bk, i, k, b, v', j, l);
    }
    forall j: nat, l: nat | j < |v'.ino| && l < NSLOT ensures SlotMatches(v', bk', 0, 0, j, l) {
      assert SlotMatches(v, bk, 0, 0, j, l);
      if !(j == i && l == k) { assert KeepsSlot(v, v', j, l); }
    }
    forall x: nat | x < v'.lay.size ensures MarkMatches(v', bk', x) { assert MarkMatches(v, bk, x); }
  }

  lemma AssignKeeps(v: Vol, bk: Books, i: nat, k: nat, b: nat, v': Vol, j: nat, l: nat)
    requires Inv(v, bk) && i < |v.ino| && k <= NDIRECT && bk.tab[i][k] == 0
    requires b < v.lay.size && !Marked(v.lay, v.blk, b)
    requires Toggled(v.lay, v.blk, v'.blk, b) && v'.blk[b] == Zero()
    requires v' == Vol(v.lay, v.ino[i := v.ino[i].(addrs := v.ino[i].addrs[k := b])], v'.blk)
    requires j < |v.ino| && l < NSLOT && !(j == i && l == k)
    ensures KeepsSlot(v, v', j, l)
  {
    assert MarkMatches(v, bk, b);
    assert SlotMatches(v, bk, 0, 0, j, l) && SlotMatches(v, bk, 0, 0, i, k);
    IndirectBlock(v, bk, 0, 0, j);
    if bk.tab[j][l] != 0 { SlotBlock(v, bk, 0, 0, j, l); }
    if l > NDIRECT && j == i && k == NDIRECT { assert Word(Zero(), l - NDIRECT - 1) == 0; }
  }

  /** A free block b goes to the empty indirect entry k > 12 of inode i. */
  lemma AssignEntry(v: Vol, bk: Books, i: nat, k: nat, b: nat, v': Vol)
    requires Inv(v, bk) && i < |v.ino| && NDIRECT < k < NSLOT && bk.tab[i][k] == 0 && bk.tab[i][NDIRECT] != 0
    requires b < v.lay.size && !Marked(v.lay, v.blk, b) && |v'.blk| == |v.blk| && bk.tab[i][NDIRECT] < |v.blk|
    requires Toggled(v.lay, v.blk, v'.blk[bk.tab[i][NDIRECT] := v.blk[bk.tab[i][NDIRECT]]], b)
    requires v'.blk[bk.tab[i][NDIRECT]] == PutWord(v.blk[bk.tab[i][NDIRECT]], k - NDIRECT - 1, b)
    requires v' == Vol(v.lay, v.ino, v'.blk)
    ensures Inv(v', Assign(bk, i, k, b))
    ensures forall j: nat, l: nat :: j < |v.ino| && l < NSLOT && !(j == i && l == k) ==> KeepsSlot(v, v', j, l)
    ensures SlotAddr(v'.ino[i], v'.blk, k) == b
  {
    var bk', ind := Assign(bk, i, k, b), bk.tab[i][NDIRECT];
    assert MarkMatches(v, bk, b);
    AssignOneToOne(bk, i, k, b);
    forall j: nat, l: nat | j < |v.ino| && l < NSLOT
      ensures if j == i && l == k then SlotAddr(v'.ino[j], v'.blk, l) == b else KeepsSlot(v, v', j, l)
    {
      EntryKeeps(v, bk, i, k, b, v', j, l);
    }
    forall j: nat, l: nat | j < |v'.ino| && l < NSLOT ensures SlotMatches(v', bk', 0, 0, j, l) {
      assert SlotMatches(v, bk, 0, 0, j, l);
      if !(j == i && l == k) { assert KeepsSlot(v, v', j, l); }
    }
    forall x: nat | x < v'.lay.size ensures MarkMatches(v', bk', x) {
      assert MarkMatches(v, bk, x);
      IndirectBlock(v, bk, 0, 0, i);
      DataKeepsMarks(v.lay, v'.blk, ind, v.blk[ind], x);
    }
  }

  lemma EntryKeeps(v: Vol, bk: Books, i: nat, k: nat, b: nat, v': Vol, j: nat, l: nat)
    requires Inv(v, bk) && i < |v.ino| && NDIRECT < k < NSLOT && bk.tab[i][k] == 0 && bk.tab[i][NDIRECT] != 0
    requires b < v.lay.size && !Marked(v.lay, v.blk, b) && |v'.blk| == |v.blk| && bk.tab[i][NDIRECT] < |v.blk|
    requires Toggled(v.lay, v.blk, v'.blk[bk.tab[i][NDIRECT] := v.blk[bk.tab[i][NDIRECT]]], b)
    requires v'.blk[bk.tab[i][NDIRECT]] == PutWord(v.blk[bk.tab[i][NDIRECT]], k - NDIRECT - 1, b)
    requires v' == Vol(v.lay, v.ino, v'.blk) && j < |v.ino| && l < NSLOT
    ensures if j == i && l == k then SlotAddr(v'.ino[j], v'.blk, l) == b else KeepsSlot(v, v', j, l)
  {
    var ind := bk.tab[i][NDIRECT];
    assert MarkMatches(v, bk, b);
    assert SlotMatches(v, bk, 0, 0, j, l);
    IndirectBlock(v, bk, 0, 0, j);
    IndirectBlock(v, bk, 0, 0, i);
    if bk.tab[j][l] != 0 { SlotBlock(v, bk, 0, 0, j, l); }
    if l > NDIRECT && j == i { WordPut(v.blk[ind], k - NDIRECT - 1, b, l - NDIRECT - 1); }
  }

  /** Writing the data block of slot k of inode i changes nothing else. */
  lemma WriteData(v: Vol, bk: Books, i: nat, k: nat, s: Block, v': Vol)
    requires Inv(v, bk) && i < |v.ino| && k < NSLOT && k != NDIRECT && bk.tab[i][k] != 0 && bk.tab[i][k] < |v.blk|
    requires v' == Vol(v.lay, v.ino, v.blk[bk.tab[i][k] := s])
    ensures Inv(v', bk) && SlotAddr(v'.ino[i], v'.blk, k) == bk.tab[i][k]
    ensures forall j: nat, l: nat :: j < |v.ino| && l < NSLOT && !(j == i && l == k) ==> KeepsSlot(v, v', j, l)
  {
    SlotBlock(v, bk, 0, 0, i, k);
    forall j: nat, l: nat | j < |v.ino| && l < NSLOT
      ensures SlotAddr(v'.ino[j], v'.blk, l) == bk.tab[j][l]
      ensures !(j == i && l == k) ==> KeepsSlot(v, v', j, l)
    {
      assert SlotMatches(v, bk, 0, 0, j, l);
      IndirectBlock(v, bk, 0, 0, j);
      if bk.tab[j][l] != 0 { SlotBlock(v, bk, 0, 0, j, l); }
    }
    forall j: nat, l: nat | j < |v'.ino| && l < NSLOT ensures SlotMatches(v', bk, 0, 0, j, l) {
      assert SlotAddr(v'.ino[j], v'.blk, l) == bk.tab[j][l];
    }
    forall x: nat | x < v'.lay.size ensures MarkMatches(v', bk, x) {
      assert MarkMatches(v, bk, x);
      DataKeepsMarks(v.lay, v.blk, bk.tab[i][k], s, x);
    }
  }

  // ------------------------------------------------------------ releasing

  /** bfree of the block in direct slot k of inode i, whose address is then zeroed. */
  lemma ReleaseDirect(v: Vol, bk: Books, i: nat, k: nat, v': Vol)
    requires Inv(v, bk) && i < |v.ino| && k < NDIRECT && 0 < bk.tab[i][k] < v.lay.size
    requires Toggled(v.lay, v.blk, v'.blk, bk.tab[i][k]) && v'.blk[bk.tab[i][k]] == v.blk[bk.tab[i][k]]
    requires v' == Vol(v.lay, v.ino[i := v.ino[i].(addrs := v.ino[i].addrs[k := 0])], v'.blk)
    ensures Inv(v', Release(bk, i, k))
    ensures forall j: nat, l: nat :: j < |v.ino| && l < NSLOT && !(j == i && l == k) ==> KeepsSlot(v, v', j, l)
  {
    var bk' := Release(bk, i, k);
    SlotBlock(v, bk, 0, 0, i, k);
    ReleaseOneToOne(bk, i, k);
    forall j: nat, l: nat | j < |v.ino| && l < NSLOT && !(j == i && l == k) ensures KeepsSlot(v, v', j, l) {
      assert SlotMatches(v, bk, 0, 0, j, l);
      IndirectBlock(v, bk, 0, 0, j);
      if bk.tab[j][l] != 0 { SlotBlock(v, bk, 0, 0, j, l); }
    }
    forall j: nat, l: nat | j < |v'.ino| && l < NSLOT ensures SlotMatches(v', bk', 0, 0, j, l) {
      assert SlotMatches(v, bk, 0, 0, j, l);
      if !(j == i && l == k) { assert KeepsSlot(v, v', j, l); }
    }
    forall x: nat | x < v'.lay.size ensures MarkMatches(v', bk', x) { assert MarkMatches(v, bk, x); }
  }

  /** bfree of the block in indirect entry h of inode i, the entries before it being already freed. */
  lemma ReleaseEntry(v: Vol, bk: Books, i: nat, h: nat, v': Vol)
    requires InvBut(v, bk, i, h) && i < |v.ino| && h < NINDIRECT && 0 < bk.tab[i][NDIRECT + 1 + h] < v.lay.size
    requires Toggled(v.lay, v.blk, v'.blk, bk.tab[i][NDIRECT + 1 + h])
    requires v'.blk[bk.tab[i][NDIRECT + 1 + h]] == v.blk[bk.tab[i][NDIRECT + 1 + h]]
    requires v' == Vol(v.lay, v.ino, v'.blk)
    ensures InvBut(v', Release(bk, i, NDIRECT + 1 + h), i, h + 1)
    ensures forall j: nat, l: nat :: j < |v.ino| && l < NSLOT && j != i ==> KeepsSlot(v, v', j, l)
  {
    var k := NDIRECT + 1 + h;
    var bk', b := Release(bk, i, k), bk.tab[i][k];
    SlotBlock(v, bk, i, h, i, k);
    ReleaseOneToOne(bk, i, k);
    assert forall a :: v.lay.datastart <= a < v.lay.size ==> v'.blk[a] == v.blk[a];
    var h' := h + 1;
    forall j: nat, l: nat | j < |v.ino| && l < NSLOT && !(j == i && NDIRECT < l <= NDIRECT + h)
      ensures KeepsSlot(v, v', j, l)
    {
      MarksKeep(v, bk, i, h, v', j, l);
    }
    forall j: nat, l: nat | j < |v'.ino| && l < NSLOT ensures SlotMatches(v', bk', i, h', j, l) {
      assert SlotMatches(v, bk, i, h, j, l);
      if !(j == i && NDIRECT < l <= NDIRECT + h) { assert KeepsSlot(v, v', j, l); }
    }
    forall x: nat | x < v'.lay.size ensures MarkMatches(v', bk', x) { assert MarkMatches(v, bk, x); }
  }

  /** An empty entry needs no bfree. */
  lemma SkipEntry(v: Vol, bk: Books, i: nat, h: nat)
    requires InvBut(v, bk, i, h) && i < |v.ino| && h < NINDIRECT && bk.tab[i][NDIRECT + 1 + h] == 0
    ensures InvBut(v, bk, i, h + 1)
  {
    var h' := h + 1;
    forall j: nat, l: nat | j < |v.ino| && l < NSLOT ensures SlotMatches(v, bk, i, h', j, l) {
      assert SlotMatches(v, bk, i, h, j, l);
    }
  }

  /** bfree of the indirect block itself, all of whose entries are freed. */
  lemma ReleaseIndirect(v: Vol, bk: Books, i: nat, v': Vol)
    requires InvBut(v, bk, i, NINDIRECT) && i < |v.ino| && 0 < bk.tab[i][NDIRECT] < v.lay.size
    requires Toggled(v.lay, v.blk, v'.blk, bk.tab[i][NDIRECT])
    requires v'.blk[bk.tab[i][NDIRECT]] == v.blk[bk.tab[i][NDIRECT]]
    requires v' == Vol(v.lay, v.ino[i := v.ino[i].(addrs := v.ino[i].addrs[NDIRECT := 0])], v'.blk)
    ensures Inv(v', Release(bk, i, NDIRECT))
    ensures forall j: nat, l: nat :: j < |v.ino| && l < NSLOT && j != i ==> KeepsSlot(v, v', j, l)
  {
    var bk', b := Release(bk, i, NDIRECT), bk.tab[i][NDIRECT];
    SlotBlock(v, bk, i, NINDIRECT, i, NDIRECT);
    ReleaseOneToOne(bk, i, NDIRECT);
    assert forall a :: v.lay.datastart <= a < v.lay.size ==> v'.blk[a] == v.blk[a];
    var u := Vol(v.lay, v.ino, v'.blk);
    forall j: nat, l: nat | j < |v.ino| && l < NSLOT && j != i ensures KeepsSlot(v, v', j, l) {
      MarksKeep(v, bk, i, NINDIRECT, u, j, l);
    }
    forall j: nat, l: nat | j < |v'.ino| && l < NSLOT ensures SlotMatches(v', bk', 0, 0, j, l) {
      assert SlotMatches(v, bk, i, NINDIRECT, j, l);
      if j != i { assert KeepsSlot(v, v', j, l); }
    }
    forall x: nat | x < v'.lay.size ensures MarkMatches(v', bk', x) { assert MarkMatches(v, bk, x); }
  }

  /** Changing bitmap blocks alone keeps every slot. */
  lemma MarksKeep(v: Vol, bk: Books, i: nat, h: nat, v': Vol, j: nat, l: nat)
    requires InvBut(v, bk, i, h) && |v'.blk| == |v.blk| && v' == Vol(v.lay, v.ino, v'.blk)
    requires forall a :: v.lay.datastart <= a < v.lay.size ==> v'.blk[a] == v.blk[a]
    requires j < |v.ino| && l < NSLOT && !(j == i && NDIRECT < l <= NDIRECT + h)
    ensures KeepsSlot(v, v', j, l)
  {
    IndirectBlock(v, bk, i, h, j);
    assert SlotMatches(v, bk, i, h, j, l);
    if bk.tab[j][l] != 0 { SlotBlock(v, bk, i, h, j, l); }
  }

  /** Nothing is hidden at the start, whichever inode is named. */
  lemma NoneHidden(v: Vol, bk: Books, i: nat)
    requires Inv(v, bk)
    ensures InvBut(v, bk, i, 0)
  {
    forall j: nat, l: nat | j < |v.ino| && l < NSLOT ensures SlotMatches(v, bk, i, 0, j, l) {
      assert SlotMatches(v, bk, 0, 0, j, l);
    }
  }

  /** Fields other than the addresses do not matter to ownership. */
  lemma MetaKeeps(v: Vol, bk: Books, i: nat, d: Dinode, v': Vol)
    requires Inv(v, bk) && i < |v.ino| && d.addrs == v.ino[i].addrs && v' == v.(ino := v.ino[i := d])
    ensures Inv(v', bk) && forall j: nat, l: nat :: j < |v.ino| && l < NSLOT ==> KeepsSlot(v, v', j, l)
  {
    forall j: nat, l: nat | j < |v.ino| && l < NSLOT ensures SlotMatches(v', bk, 0, 0, j, l) && KeepsSlot(v, v', j, l) {
      assert SlotMatches(v, bk, 0, 0, j, l);
    }
    forall x: nat | x < v'.lay.size ensures MarkMatches(v', bk, x) { assert MarkMatches(v, bk, x); }
  }
}
