/** balloc, bfree, bmap, itrunc, readi, writei, iupdate, ialloc and iput of fs.c. */
module FsImpl {
  import opened FsModel
  import opened FsSteps

  const T_DEV: int := 3

  /** Every slot but the empty ones of inode i is kept. */
  ghost predicate Grown(v: Vol, v': Vol, i: nat) {
    && |v'.ino| == |v.ino| && |v'.blk| == |v.blk|
    && forall j: nat, l: nat :: j < |v.ino| && l < NSLOT && (j != i || SlotAddr(v.ino[j], v.blk, l) != 0) ==>
         KeepsSlot(v, v', j, l)
  }

  lemma GrownTrans(v: Vol, v': Vol, v'': Vol, i: nat)
    requires Grown(v, v', i) && Grown(v', v'', i)
    ensures Grown(v, v'', i)
  {
    forall j: nat, l: nat | j < |v.ino| && l < NSLOT && (j != i || SlotAddr(v.ino[j], v.blk, l) != 0)
      ensures KeepsSlot(v, v'', j, l)
    {
      assert KeepsSlot(v, v', j, l) && KeepsSlot(v', v'', j, l);
    }
  }

  /** An unmarked block is a data block that no slot holds, and balloc's writes mark and zero just it. */
  lemma AllocToggles(v: Vol, bk: Books, b: nat)
    requires Inv(v, bk) && b < v.lay.size && !Marked(v.lay, v.blk, b)
    ensures v.lay.datastart <= b && Toggled(v.lay, v.blk, Flip(v.lay, v.blk, b)[b := Zero()], b)
  {
    assert MarkMatches(v, bk, b);
    FlipToggles(v.lay, v.blk, b);
    forall x: nat | x < v.lay.size
      ensures Marked(v.lay, Flip(v.lay, v.blk, b)[b := Zero()], x) == Marked(v.lay, Flip(v.lay, v.blk, b), x)
    {
      DataKeepsMarks(v.lay, Flip(v.lay, v.blk, b), b, Zero(), x);
    }
  }

  function Min(a: nat, b: nat): (r: nat) { if a < b then a else b }

  function Max(a: nat, b: nat): (r: nat) { if a < b then b else a }

  /** s with w in place of its bytes from off on. */
  function Splice(s: seq<byte>, off: nat, w: seq<byte>): (r: seq<byte>)
    requires off <= |s|
  {
    s[..off] + w + if off + |w| < |s| then s[off + |w|..] else []
  }

  ghost predicate OthersKept(v: Vol, v': Vol, i: nat) {
    && |v'.ino| == |v.ino| && |v'.blk| == |v.blk|
    && (forall j :: 0 <= j < |v.ino| && j != i ==> v'.ino[j] == v.ino[j])
    && (forall j: nat, l: nat :: j < |v.ino| && l < NSLOT && j != i ==> KeepsSlot(v, v', j, l))
  }

  lemma OthersTrans(v: Vol, v': Vol, v'': Vol, i: nat)
    requires OthersKept(v, v', i) && OthersKept(v', v'', i)
    ensures OthersKept(v, v'', i)
  {
    forall j: nat, l: nat | j < |v.ino| && l < NSLOT && j != i ensures KeepsSlot(v, v'', j, l) {
      assert KeepsSlot(v, v', j, l) && KeepsSlot(v', v'', j, l);
    }
  }

  /** Inode j and its bytes are the same, and it has gained no hole. */
  ghost predicate SameFile(v: Vol, v': Vol, j: nat)
    requires j < |v.ino| && j < |v'.ino|
  {
    v'.ino[j] == v.ino[j] && Content(v', j) == Content(v, j) && (HoleFree(v, j) ==> HoleFree(v', j))
  }

  /** Every file but that of inode i is the same. */
  ghost predicate OthersSame(v: Vol, v': Vol, i: nat) {
    |v'.ino| == |v.ino| && forall j: nat :: j < |v.ino| && j != i ==> SameFile(v, v', j)
  }

  /** No file has a hole: writei refuses to start behind the end, so none ever arises. */
  ghost predicate NoHoles(v: Vol) {
    forall i: nat :: i < |v.ino| ==> HoleFree(v, i)
  }

  /** What every operation on inode i leaves: if the others are the same and i has no hole, none has. */
  lemma HolesKept(v: Vol, v': Vol, i: nat)
    requires NoHoles(v) && OthersSame(v, v', i) && i < |v.ino| && HoleFree(v', i)
    ensures NoHoles(v')
  {
    forall j: nat | j < |v'.ino| ensures HoleFree(v', j) { if j != i { assert SameFile(v, v', j); } }
  }

  lemma OthersSameTrans(v: Vol, v': Vol, v'': Vol, i: nat)
    requires OthersSame(v, v', i) && OthersSame(v', v'', i)
    ensures OthersSame(v, v'', i)
  {
    forall j: nat | j < |v.ino| && j != i ensures SameFile(v, v'', j) {
      assert SameFile(v, v', j) && SameFile(v', v'', j);
    }
  }

  lemma OthersContent(v: Vol, v': Vol, i: nat, j: nat)
    requires OthersKept(v, v', i) && j < |v.ino| && j != i
    ensures SameFile(v, v', j)
  {
    forall x: nat | x < v.ino[j].size ensures ByteAt(v', j, x) == ByteAt(v, j, x) { KeepsByte(v, v', j, x); }
    forall bn: nat | bn < MAXFILE
      ensures SlotAddr(v'.ino[j], v'.blk, FileSlot(bn)) == SlotAddr(v.ino[j], v.blk, FileSlot(bn))
    {
      assert KeepsSlot(v, v', j, FileSlot(bn));
    }
  }

  /** The slots of the others are kept, and then inode i itself is changed. */
  lemma OthersFiles(v: Vol, v': Vol, v'': Vol, i: nat)
    requires OthersKept(v, v', i) && i < |v.ino| == |v''.ino| && v''.blk == v'.blk && v''.ino == v'.ino[i := v''.ino[i]]
    ensures OthersSame(v, v'', i)
  {
    forall j: nat | j < |v.ino| && j != i ensures SameFile(v, v'', j) {
      OthersContent(v, v', i, j);
      forall x: nat | x < v.ino[j].size ensures ByteAt(v'', j, x) == ByteAt(v', j, x) { }
    }
  }

  /** File block bn of inode i is mapped. */
  ghost predicate Mapped(v: Vol, i: nat, bn: nat)
    requires i < |v.ino|
  {
    bn < MAXFILE && SlotAddr(v.ino[i], v.blk, FileSlot(bn)) != 0
  }

  /** v' is v with the bytes s written at off, inside one block. */
  ghost predicate Chunk(v: Vol, v': Vol, i: nat, off: nat, s: seq<byte>) {
    && i < |v.ino| && OthersKept(v, v', i)
    && (forall bn: nat :: Mapped(v, i, bn) || bn == off / BSIZE ==> Mapped(v', i, bn))
    && (forall x: nat :: off <= x < off + |s| ==> ByteAt(v', i, x) == s[x - off])
    && (forall x: nat :: !(off <= x < off + |s|) && Mapped(v, i, x / BSIZE) ==> ByteAt(v', i, x) == ByteAt(v, i, x))
  }

  /** bmap took v to v', and writing s into the block of off took v' to v''. */
  ghost predicate Wrote(v: Vol, v': Vol, v'': Vol, i: nat, off: nat, s: seq<byte>) {
    && i < |v.ino| && Grown(v, v', i) && |v'.blk| == |v''.blk| && |v'.ino| == |v''.ino|
    && off / BSIZE < MAXFILE && off % BSIZE + |s| <= BSIZE && Mapped(v', i, off / BSIZE)
    && (forall j: nat, l: nat :: j < |v.ino| && l < NSLOT && !(j == i && l == FileSlot(off / BSIZE)) ==>
          KeepsSlot(v', v'', j, l))
    && var k := FileSlot(off / BSIZE);
    var a := SlotAddr(v'.ino[i], v'.blk, k);
    && SlotAddr(v''.ino[i], v''.blk, k) == a && a < |v.blk|
    && v''.blk[a] == v'.blk[a][..off % BSIZE] + s + v'.blk[a][off % BSIZE + |s|..]
  }

  lemma WroteSlot(v: Vol, v': Vol, v'': Vol, i: nat, off: nat, s: seq<byte>, bn: nat)
    requires Wrote(v, v', v'', i, off, s) && (Mapped(v, i, bn) || bn == off / BSIZE)
    ensures Mapped(v'', i, bn)
  {
    if bn != off / BSIZE { assert KeepsSlot(v, v', i, FileSlot(bn)) && KeepsSlot(v', v'', i, FileSlot(bn)); }
  }

  lemma WroteByte(v: Vol, v': Vol, v'': Vol, i: nat, off: nat, s: seq<byte>, x: nat)
    requires Wrote(v, v', v'', i, off, s)
    ensures off <= x < off + |s| ==> ByteAt(v'', i, x) == s[x - off]
    ensures !(off <= x < off + |s|) && Mapped(v, i, x / BSIZE) ==> ByteAt(v'', i, x) == ByteAt(v, i, x)
  {
    if Mapped(v, i, x / BSIZE) {
      assert KeepsSlot(v, v', i, FileSlot(x / BSIZE));
      if x / BSIZE != off / BSIZE { assert KeepsSlot(v', v'', i, FileSlot(x / BSIZE)); }
    }
  }

  lemma ChunkFacts(v: Vol, v': Vol, v'': Vol, i: nat, off: nat, s: seq<byte>)
    requires Wrote(v, v', v'', i, off, s)
    requires forall j :: 0 <= j < |v.ino| && j != i ==> v''.ino[j] == v'.ino[j] == v.ino[j]
    ensures Chunk(v, v'', i, off, s)
  {
    forall j: nat, l: nat | j < |v.ino| && l < NSLOT && j != i ensures KeepsSlot(v, v'', j, l) {
      assert KeepsSlot(v, v', j, l) && KeepsSlot(v', v'', j, l);
    }
    forall bn: nat | Mapped(v, i, bn) || bn == off / BSIZE ensures Mapped(v'', i, bn) {
      WroteSlot(v, v', v'', i, off, s, bn);
    }
    forall x: nat ensures off <= x < off + |s| ==> ByteAt(v'', i, x) == s[x - off] {
      WroteByte(v, v', v'', i, off, s, x);
    }
    forall x: nat | !(off <= x < off + |s|) && Mapped(v, i, x / BSIZE) ensures ByteAt(v'', i, x) == ByteAt(v, i, x) {
      WroteByte(v, v', v'', i, off, s, x);
    }
  }

  /** writei has written src[..off - off0] at off0. */
  ghost predicate Mid(v: Vol, v': Vol, i: nat, src: seq<byte>, off0: nat, off: nat)
  {
    && i < |v.ino| && off0 <= off <= off0 + |src| && OthersKept(v, v', i)
    && (forall bn: nat :: bn * BSIZE < Max(v.ino[i].size, off) ==> Mapped(v', i, bn))
    && (forall x: nat :: x < Max(v.ino[i].size, off) ==>
          ByteAt(v', i, x) == if off0 <= x < off then src[x - off0] else ByteAt(v, i, x))
  }

  lemma MidStart(v: Vol, i: nat, src: seq<byte>, off0: nat)
    requires i < |v.ino| && HoleFree(v, i) && off0 <= v.ino[i].size
    ensures Mid(v, v, i, src, off0, off0)
  {
  }

  /** A block that lies partly below the size or the bytes written is mapped. */
  lemma SetBelow(v: Vol, v': Vol, i: nat, src: seq<byte>, off0: nat, off: nat)
    requires Mid(v, v', i, src, off0, off)
    ensures off < v.ino[i].size || (off <= v.ino[i].size && off % BSIZE != 0) ==> Mapped(v', i, off / BSIZE)
  {
    assert off / BSIZE * BSIZE < v.ino[i].size ==> Mapped(v', i, off / BSIZE);
  }

  lemma MidStep(v: Vol, v': Vol, v'': Vol, i: nat, src: seq<byte>, off0: nat, off: nat, m: nat)
    requires Mid(v, v', i, src, off0, off) && off + m <= off0 + |src| && off % BSIZE + m <= BSIZE && m > 0
    requires Chunk(v', v'', i, off, src[off - off0..off + m - off0])
    ensures Mid(v, v'', i, src, off0, off + m)
  {
    OthersTrans(v, v', v'', i);
    forall bn: nat | bn * BSIZE < Max(v.ino[i].size, off + m) ensures Mapped(v'', i, bn) {
      assert bn * BSIZE < Max(v.ino[i].size, off) || bn == off / BSIZE;
    }
    forall x: nat | x < Max(v.ino[i].size, off + m)
      ensures ByteAt(v'', i, x) == if off0 <= x < off + m then src[x - off0] else ByteAt(v, i, x)
    {
      if !(off <= x < off + m) { assert x / BSIZE * BSIZE < Max(v.ino[i].size, off); }
    }
  }

  lemma MidContent(v: Vol, v': Vol, v'': Vol, i: nat, src: seq<byte>, off0: nat, off: nat)
    requires Mid(v, v', i, src, off0, off) && off0 <= v.ino[i].size && Max(v.ino[i].size, off) <= MAXFILE * BSIZE
    requires v''.blk == v'.blk && |v''.ino| == |v'.ino| && v''.ino == v'.ino[i := v''.ino[i]]
    requires v''.ino[i].addrs == v'.ino[i].addrs
    requires v''.ino[i].size == Max(v.ino[i].size, off)
    ensures HoleFree(v'', i) && Content(v'', i) == Splice(Content(v, i), off0, src[..off - off0])
    ensures OthersSame(v, v'', i)
  {
    forall bn: nat | bn < MAXFILE && bn * BSIZE < v''.ino[i].size
      ensures SlotAddr(v''.ino[i], v''.blk, FileSlot(bn)) != 0
    {
      assert Mapped(v', i, bn);
    }
    var s := Splice(Content(v, i), off0, src[..off - off0]);
    assert |s| == Max(v.ino[i].size, off);
    forall x: nat | x < |s| ensures Content(v'', i)[x] == s[x] {
      assert ByteAt(v'', i, x) == ByteAt(v', i, x);
    }
    OthersFiles(v, v', v'', i);
  }

  /** Reading what was just written. */
  lemma ReadBack(s: seq<byte>, off: nat, w: seq<byte>)
    requires off <= |s|
    ensures |Splice(s, off, w)| == Max(|s|, off + |w|) && Splice(s, off, w)[off..off + |w|] == w
    ensures forall x :: 0 <= x < |s| && !(off <= x < off + |w|) ==> Splice(s, off, w)[x] == s[x]
  {
  }

  /** The order in which itrunc frees slots: direct, then indirect entries, then the indirect block. */
  function Rank(k: nat): (r: nat)
    requires k < NSLOT
    ensures r < NSLOT
  {
    if k < NDIRECT then k else if k == NDIRECT then NSLOT - 1 else k - 1
  }

  ghost predicate OwnerLeft(bk: Books, bk': Books, i: nat, r: nat, b: nat) {
    && (b in bk.owner ==> bk.owner[b].1 < NSLOT)
    && (b in bk'.owner <==> b in bk.owner && !(bk.owner[b].0 == i && Rank(bk.owner[b].1) < r))
    && (b in bk'.owner ==> bk'.owner[b] == bk.owner[b])
  }

  /** bk' is bk with the first r slots of inode i released, and nothing else. */
  ghost predicate Freed(bk: Books, bk': Books, i: nat, r: nat) {
    && i < |bk.tab| == |bk'.tab| && |bk.tab[i]| == |bk'.tab[i]| == NSLOT
    && (forall j :: 0 <= j < |bk.tab| && j != i ==> bk'.tab[j] == bk.tab[j])
    && (forall k: nat :: k < NSLOT ==> bk'.tab[i][k] == if Rank(k) < r then 0 else bk.tab[i][k])
    && (forall b: nat :: OwnerLeft(bk, bk', i, r, b))
  }

  lemma FreedStep(bk: Books, bk': Books, i: nat, k: nat)
    requires OneToOne(bk) && k < NSLOT && Freed(bk, bk', i, Rank(k)) && bk.tab[i][k] != 0
    ensures Freed(bk, Release(bk', i, k), i, Rank(k) + 1)
  {
    var bk'', r := Release(bk', i, k), Rank(k) + 1;
    assert SlotOwns(bk, i, k);
    forall b: nat ensures OwnerLeft(bk, bk'', i, r, b) {
      assert OwnerLeft(bk, bk', i, Rank(k), b);
      if b in bk.owner { assert OwnerHolds(bk, b); }
    }
  }

  lemma FreedSkip(bk: Books, bk': Books, i: nat, k: nat)
    requires OneToOne(bk) && k < NSLOT && Freed(bk, bk', i, Rank(k)) && bk.tab[i][k] == 0
    ensures Freed(bk, bk', i, Rank(k) + 1)
  {
    var r := Rank(k) + 1;
    forall b: nat ensures OwnerLeft(bk, bk', i, r, b) {
      assert OwnerLeft(bk, bk', i, Rank(k), b);
      if b in bk.owner { assert OwnerHolds(bk, b); }
    }
  }

  lemma FreedNone(v: Vol, bk: Books, i: nat)
    requires Inv(v, bk) && i < |v.ino|
    ensures Freed(bk, bk, i, 0)
  {
    forall b: nat ensures OwnerLeft(bk, bk, i, 0, b) { if b in bk.owner { assert OwnerHolds(bk, b); } }
  }

  /** Some slot of the inode holds block b. */
  ghost predicate HeldBy(d: Dinode, blk: seq<Block>, b: nat) {
    b != 0 && exists k: nat :: k < NSLOT && SlotAddr(d, blk, k) == b
  }

  /** Once all slots are released, the bits cleared are exactly those of the inode's blocks. */
  lemma FreedMarks(v: Vol, bk: Books, v': Vol, bk': Books, i: nat, b: nat)
    requires Inv(v, bk) && Inv(v', bk') && v'.lay == v.lay && i < |v.ino| && b < v.lay.size && Freed(bk, bk', i, NSLOT)
    ensures Marked(v'.lay, v'.blk, b) <==> Marked(v.lay, v.blk, b) && !HeldBy(v.ino[i], v.blk, b)
  {
    assert MarkMatches(v, bk, b) && MarkMatches(v', bk', b) && OwnerLeft(bk, bk', i, NSLOT, b);
    if b in bk.owner {
      assert OwnerHolds(bk, b);
      assert SlotMatches(v, bk, 0, 0, bk.owner[b].0, bk.owner[b].1);
    }
    if k: nat :| k < NSLOT && b != 0 && SlotAddr(v.ino[i], v.blk, k) == b {
      assert SlotMatches(v, bk, 0, 0, i, k) && SlotOwns(bk, i, k);
    }
  }

  /** Without an indirect block the remaining slots are empty. */
  lemma NoEntries(v: Vol, bk0: Books, bk: Books, i: nat)
    requires Inv(v, bk) && i < |v.ino| && v.ino[i].addrs[NDIRECT] == 0 && OneToOne(bk0) && Freed(bk0, bk, i, NDIRECT)
    ensures Freed(bk0, bk, i, NSLOT)
  {
    forall k: nat | k < NSLOT ensures bk.tab[i][k] == 0 { assert SlotMatches(v, bk, 0, 0, i, k); }
    forall k: nat | k < NSLOT && Rank(k) >= NDIRECT ensures bk0.tab[i][k] == 0 { assert bk.tab[i][k] == 0; }
    forall b: nat ensures OwnerLeft(bk0, bk, i, NSLOT, b) {
      assert OwnerLeft(bk0, bk, i, NDIRECT, b);
      if b in bk0.owner { assert OwnerHolds(bk0, b); }
    }
  }

  lemma Glue(c: seq<byte>, i: nat, j: nat, k: nat)
    requires i <= j <= k <= |c|
    ensures c[i..j] + c[j..k] == c[i..k]
  {
  }

  /** m bytes at off, inside one mapped block. */
  lemma ReadChunk(v: Vol, bk: Books, i: nat, off: nat, m: nat)
    requires Inv(v, bk) && i < |v.ino| && Mapped(v, i, off / BSIZE) && off % BSIZE + m <= BSIZE
    requires off + m <= v.ino[i].size
    ensures var a := SlotAddr(v.ino[i], v.blk, FileSlot(off / BSIZE));
      a < |v.blk| && v.blk[a][off % BSIZE..off % BSIZE + m] == Content(v, i)[off..off + m]
  {
    var k := FileSlot(off / BSIZE);
    assert SlotMatches(v, bk, 0, 0, i, k);
    SlotBlock(v, bk, 0, 0, i, k);
    var a := v.blk[bk.tab[i][k]];
    var piece, c := a[off % BSIZE..off % BSIZE + m], Content(v, i);
    forall x | off <= x < off + m ensures c[x] == piece[x - off] {
      assert x / BSIZE == off / BSIZE && x % BSIZE == off % BSIZE + (x - off);
      assert c[x] == ByteAt(v, i, x);
    }
  }

  /** What is left when every slot of inode i is released. */
  lemma TruncDone(v: Vol, bk: Books, v1: Vol, v': Vol, bk': Books, i: nat)
    requires Inv(v, bk) && Inv(v1, bk') && Inv(v', bk') && i < |v.ino| && v'.lay == v.lay && Freed(bk, bk', i, NSLOT)
    requires OthersKept(v, v1, i) && v'.blk == v1.blk && v'.ino == v1.ino[i := v'.ino[i]]
    ensures Blank(v'.ino[i].addrs)
    ensures forall b: nat :: b < v.lay.size ==>
              (Marked(v'.lay, v'.blk, b) <==> Marked(v.lay, v.blk, b) && !HeldBy(v.ino[i], v.blk, b))
    ensures OthersSame(v, v', i)
  {
    forall k: nat | k <= NDIRECT ensures v'.ino[i].addrs[k] == 0 { assert SlotMatches(v', bk', 0, 0, i, k); }
    forall b: nat | b < v.lay.size
      ensures Marked(v'.lay, v'.blk, b) <==> Marked(v.lay, v.blk, b) && !HeldBy(v.ino[i], v.blk, b)
    {
      FreedMarks(v, bk, v', bk', i, b);
    }
    OthersFiles(v, v1, v', i);
  }

  class Inode {
    const inum: nat
    var d: Dinode
    var refs: nat
    var valid: bool
    var busy: bool

    constructor (inum: nat, d: Dinode)
      ensures this.inum == inum && this.d == d && refs == 1 && valid && !busy
    {
      this.inum, this.d, refs, valid, busy := inum, d, 1, true, false;
    }
  }

  class Fs {
    const lay: Layout
    var ino: seq<Dinode>      // the inode blocks
    var blk: seq<Block>       // every block, as the log presents it
    ghost var bk: Books

    constructor (lay: Layout, ino: seq<Dinode>, blk: seq<Block>, ghost bk: Books)
      requires Inv(Vol(lay, ino, blk), bk)
      ensures this.lay == lay && this.ino == ino && this.blk == blk && this.bk == bk
    {
      this.lay, this.ino, this.blk, this.bk := lay, ino, blk, bk;
    }

    /** The volume with the in-memory inode in the place of its copy on disk. */
    ghost function View(ip: Inode): (v: Vol)
      requires ip.inum < |ino|
      reads this, ip
    {
      Vol(lay, ino[ip.inum := ip.d], blk)
    }

    ghost predicate Valid(ip: Inode)
      reads this, ip
    {
      ip.inum < |ino| && |ip.d.addrs| == NDIRECT + 1 && Inv(View(ip), bk)
    }

    /** No block is free. */
    ghost predicate Full()
      reads this
    {
      lay.Ok() && |blk| == lay.size && forall x: nat :: x < lay.size ==> Marked(lay, blk, x)
    }

    /** balloc(): the lowest free block, marked and zeroed; it fails, where the source panics, if none is free. */
    method Balloc() returns (b: nat, ok: bool)
      requires lay.Ok() && |blk| == lay.size
      modifies this`blk
      ensures !ok ==> blk == old(blk) && Full()
      ensures ok ==> b < lay.size && !old(Marked(lay, blk, b)) && forall x: nat :: x < b ==> old(Marked(lay, blk, x))
      ensures ok ==> blk == old(Flip(lay, blk, b)[b := Zero()])
    {
      b, ok := 0, false;
      while b < lay.size
        invariant b % BPB == 0 && blk == old(blk)
        invariant forall x: nat :: x < b && x < lay.size ==> Marked(lay, blk, x)
      {
        var n := lay.bmapstart + b / BPB;
        var bi := 0;
        while bi < BPB && b + bi < lay.size
          invariant bi <= BPB && blk == old(blk)
          invariant forall x: nat :: x < b + bi && x < lay.size ==> Marked(lay, blk, x)
        {
          assert (b + bi) / BPB == b / BPB && (b + bi) % BPB == bi;
          if !Bit(blk[n][bi / 8], bi % 8) {
            b, ok := b + bi, true;
            Take(b, n, bi);
            return;
          }
          assert Marked(lay, blk, b + bi);
          bi := bi + 1;
        }
        b := b + BPB;
      }
    }

    /** Within balloc: set the bit of the free block b, bit bi of bitmap block n, and zero the block. */
    method Take(b: nat, n: nat, bi: nat)
      requires |blk| == lay.size && b < lay.size && n == lay.bmapstart + b / BPB < |blk| && bi == b % BPB
      requires !Bit(blk[n][bi / 8], bi % 8)
      modifies this`blk
      ensures blk == old(Flip(lay, blk, b)[b := Zero()])
    {
      ByteMask(blk[n][bi / 8], bi % 8);
      var x: byte := blk[n][bi / 8] + Pow(bi % 8);
      blk := blk[n := blk[n][bi / 8 := x]];
      blk := blk[b := Zero()];
    }

    /** bfree(): clears the bit of a marked block; an unmarked one is a panic. */
    method Bfree(b: nat)
      requires lay.Ok() && |blk| == lay.size && b < lay.size && Marked(lay, blk, b)
      modifies this`blk
      ensures blk == old(Flip(lay, blk, b))
    {
      var n, bi := lay.bmapstart + b / BPB, b % BPB;
      ByteMask(blk[n][bi / 8], bi % 8);
      var x: byte := blk[n][bi / 8] - Pow(bi % 8);
      blk := blk[n := blk[n][bi / 8 := x]];
    }

    /** The address in slot k <= 12, allocating a block if there is none. */
    method DirectSlot(ip: Inode, k: nat) returns (addr: nat, ok: bool)
      requires Valid(ip) && k <= NDIRECT
      modifies this`blk, this`bk, ip`d
      ensures ip.d == old(ip.d).(addrs := ip.d.addrs)
      ensures !ok ==> Full()
      ensures ok ==> Valid(ip) && addr == ip.d.addrs[k] && addr != 0 && Grown(old(View(ip)), View(ip), ip.inum)
      ensures old(Set(ip, k)) ==> ok && ip.d == old(ip.d) && blk == old(blk) && bk == old(bk)
      ensures ok && !old(Set(ip, k)) ==> addr < |blk| && blk[addr] == Zero()
      ensures ok ==> forall l: nat :: l < NSLOT && l != k ==> KeepsSlot(old(View(ip)), View(ip), ip.inum, l)
    {
      ghost var v := View(ip);
      assert SlotMatches(v, bk, 0, 0, ip.inum, k);
      addr, ok := ip.d.addrs[k], true;
      if addr == 0 {
        addr, ok := Balloc();
        if !ok { return; }
        AllocToggles(v, bk, addr);
        ip.d := ip.d.(addrs := ip.d.addrs[k := addr]);
        AssignDirect(v, bk, ip.inum, k, addr, View(ip));
        bk := Assign(bk, ip.inum, k, addr);
      }
    }

    ghost predicate Set(ip: Inode, k: nat)
      reads this, ip
    {
      k < NSLOT && SlotAddr(ip.d, blk, k) != 0
    }

    /** The address in indirect entry k > 12, allocating a block if there is none. */
    method Entry(ip: Inode, k: nat) returns (addr: nat, ok: bool)
      requires Valid(ip) && NDIRECT < k < NSLOT && ip.d.addrs[NDIRECT] != 0
      modifies this`blk, this`bk
      ensures !ok ==> Full()
      ensures ok ==> Valid(ip) && addr == SlotAddr(ip.d, blk, k) && addr != 0 && Grown(old(View(ip)), View(ip), ip.inum)
      ensures old(Set(ip, k)) ==> ok && blk == old(blk) && bk == old(bk)
      ensures ok && !old(Set(ip, k)) ==> addr < |blk| && blk[addr] == Zero()
    {
      ghost var v := View(ip);
      IndirectBlock(v, bk, 0, 0, ip.inum);
      assert SlotMatches(v, bk, 0, 0, ip.inum, k);
      var ind := ip.d.addrs[NDIRECT];
      var data := blk[ind];
      addr, ok := Word(data, k - NDIRECT - 1), true;
      if addr == 0 {
        addr, ok := Balloc();
        if !ok { return; }
        AllocToggles(v, bk, addr);
        assert addr != ind by { assert MarkMatches(v, bk, addr); }
        ghost var blk1 := blk;
        data := PutWord(data, k - NDIRECT - 1, addr);
        blk := blk[ind := data];
        assert blk[ind := v.blk[ind]] == blk1;
        AssignEntry(v, bk, ip.inum, k, addr, View(ip));
        bk := Assign(bk, ip.inum, k, addr);
      }
    }

    /** bmap(): the block of file block bn, allocated (and zero) if it was missing. */
    method Bmap(ip: Inode, bn: nat) returns (addr: nat, ok: bool)
      requires Valid(ip) && bn < MAXFILE
      modifies this`blk, this`bk, ip`d
      ensures ip.d == old(ip.d).(addrs := ip.d.addrs)
      ensures !ok ==> Full()
      ensures ok ==> Valid(ip) && addr == SlotAddr(ip.d, blk, FileSlot(bn)) && addr != 0
      ensures ok ==> Grown(old(View(ip)), View(ip), ip.inum)
      ensures old(Set(ip, FileSlot(bn))) ==> ok && ip.d == old(ip.d) && blk == old(blk) && bk == old(bk)
      ensures ok && !old(Set(ip, FileSlot(bn))) ==> addr < |blk| && blk[addr] == Zero()
    {
      if bn < NDIRECT {
        addr, ok := DirectSlot(ip, bn);
        return;
      }
      ghost var v := View(ip);
      assert Shape(v);
      addr, ok := DirectSlot(ip, NDIRECT);
      if !ok { return; }
      ghost var v' := View(ip);
      assert KeepsSlot(v, v', ip.inum, FileSlot(bn));
      addr, ok := Entry(ip, FileSlot(bn));
      if ok { GrownTrans(v, v', View(ip), ip.inum); }
    }

    /** iupdate(): copies the in-memory inode to its place on disk. */
    method Iupdate(ip: Inode)
      requires Valid(ip)
      modifies this`ino
      ensures ino == old(ino)[ip.inum := ip.d] && Valid(ip) && View(ip) == old(View(ip))
    {
      ino := ino[ip.inum := ip.d];
      assert View(ip) == old(View(ip));
    }

    /**
      writei() on a file or directory: the bytes become the old ones with src
      spliced in at off, no other inode changes, and the copy on disk agrees.
      !ok stands for balloc's panic.
     */
    method Writei(ip: Inode, src: seq<byte>, off0: nat, n: nat) returns (r: int, ok: bool)
      requires Valid(ip) && HoleFree(View(ip), ip.inum) && ip.d == ino[ip.inum] && ip.d.typ != T_DEV
      requires off0 < WORD && n < WORD && n <= |src|
      modifies this`blk, this`bk, this`ino, ip`d
      ensures off0 > old(ip.d.size) || off0 + n > MAXFILE * BSIZE <==> r == -1
      ensures r == -1 ==> ok && ip.d == old(ip.d) && ino == old(ino) && blk == old(blk) && bk == old(bk)
      ensures r != -1 ==> r == n && |ino| == old(|ino|)
      ensures !ok ==> Full() && off0 + n > old(ip.d.size)
      ensures ok && r != -1 ==> Valid(ip) && HoleFree(View(ip), ip.inum) && ip.d == ino[ip.inum]
      ensures ok && r != -1 ==> Content(View(ip), ip.inum) == Splice(old(Content(View(ip), ip.inum)), off0, src[..n])
      ensures ok && r != -1 ==> OthersSame(old(View(ip)), View(ip), ip.inum)
      ensures ok && r != -1 ==> ip.d == old(ip.d).(size := ip.d.size, addrs := ip.d.addrs)
    {
      if off0 > ip.d.size || (off0 + n) % WORD < off0 { return -1, true; }
      if (off0 + n) % WORD > MAXFILE * BSIZE { return -1, true; }
      ghost var v := View(ip);
      ok := WriteBytes(ip, src, off0, n);
      r := n;
      if ok { Extend(ip, n, off0 + n, v, src, off0); }
    }

    /** The loop of writei. */
    method WriteBytes(ip: Inode, src: seq<byte>, off0: nat, n: nat) returns (ok: bool)
      requires Valid(ip) && HoleFree(View(ip), ip.inum)
      requires off0 <= ip.d.size && off0 + n <= MAXFILE * BSIZE && n <= |src|
      modifies this`blk, this`bk, ip`d
      ensures !ok ==> Full()
      ensures ok ==> Valid(ip) && Mid(old(View(ip)), View(ip), ip.inum, src, off0, off0 + n)
      ensures ip.d == old(ip.d).(addrs := ip.d.addrs) && (ok && ip.d != old(ip.d) ==> off0 + n > ip.d.size)
      ensures off0 + n <= old(ip.d.size) ==> ok
    {
      ghost var v := View(ip);
      var tot, off := 0, off0;
      MidStart(v, ip.inum, src, off0);
      while tot < n
        invariant tot <= n && off == off0 + tot && Valid(ip)
        invariant ip.d == old(ip.d).(addrs := ip.d.addrs) && (ip.d == old(ip.d) || off > ip.d.size)
        invariant Mid(v, View(ip), ip.inum, src, off0, off)
      {
        var m := Min(n - tot, BSIZE - off % BSIZE);
        ghost var next := off + m;
        ok := WriteRound(ip, src, tot, off, m, v, off0, next);
        if !ok { return; }
        tot, off := tot + m, off + m;
      }
      ok := true;
    }

    /** A round of writei's loop: m bytes of src from tot on, at off. */
    method WriteRound(ip: Inode, src: seq<byte>, tot: nat, off: nat, m: nat, ghost v: Vol, ghost off0: nat,
                      ghost next: nat)
      returns (ok: bool)
      requires Valid(ip) && Mid(v, View(ip), ip.inum, src, off0, off) && off == off0 + tot && next == off + m
      requires 0 < m && tot + m <= |src| && off % BSIZE + m <= BSIZE && off + m <= MAXFILE * BSIZE
      requires ip.d.size == v.ino[ip.inum].size
      modifies this`blk, this`bk, ip`d
      ensures ip.d == old(ip.d).(addrs := ip.d.addrs) && (!ok ==> Full())
      ensures ok ==> Valid(ip) && Mid(v, View(ip), ip.inum, src, off0, next)
      ensures off < ip.d.size || (off <= ip.d.size && off % BSIZE != 0) ==> ok && ip.d == old(ip.d)
    {
      ghost var v0 := View(ip);
      SetBelow(v, v0, ip.inum, src, off0, off);
      ok := WriteChunk(ip, off, src[tot..tot + m]);
      if ok { MidStep(v, v0, View(ip), ip.inum, src, off0, off, m); }
    }

    /** The end of writei: a longer file gets its new size, and its inode is written. */
    method Extend(ip: Inode, n: nat, off: nat, ghost v: Vol, ghost src: seq<byte>, ghost off0: nat)
      requires Valid(ip) && Mid(v, View(ip), ip.inum, src, off0, off) && off == off0 + n && off <= MAXFILE * BSIZE
      requires off0 <= v.ino[ip.inum].size == ip.d.size <= MAXFILE * BSIZE && (ip.d == ino[ip.inum] || off > ip.d.size)
      modifies this`ino, ip`d
      ensures Valid(ip) && HoleFree(View(ip), ip.inum) && ip.d == ino[ip.inum] && |ino| == old(|ino|)
      ensures ip.d == old(ip.d).(size := ip.d.size)
      ensures Content(View(ip), ip.inum) == Splice(Content(v, ip.inum), off0, src[..n])
      ensures OthersSame(v, View(ip), ip.inum)
    {
      ghost var v1 := View(ip);
      if n > 0 && off > ip.d.size {
        ip.d := ip.d.(size := off);
        MetaKeeps(v1, bk, ip.inum, ip.d, View(ip));
        Iupdate(ip);
      }
      MidContent(v, v1, View(ip), ip.inum, src, off0, off);
    }

    /** Within writei: one block's worth of bytes. */
    method WriteChunk(ip: Inode, off: nat, s: seq<byte>) returns (ok: bool)
      requires Valid(ip) && off / BSIZE < MAXFILE && 0 < |s| && off % BSIZE + |s| <= BSIZE
      modifies this`blk, this`bk, ip`d
      ensures ip.d == old(ip.d).(addrs := ip.d.addrs)
      ensures !ok ==> Full()
      ensures ok ==> Valid(ip) && Chunk(old(View(ip)), View(ip), ip.inum, off, s)
      ensures old(Set(ip, FileSlot(off / BSIZE))) ==> ok && ip.d == old(ip.d)
    {
      ghost var v := View(ip);
      var bn, o := off / BSIZE, off % BSIZE;
      var addr;
      addr, ok := Bmap(ip, bn);
      if !ok { return; }
      ghost var v' := View(ip);
      assert SlotMatches(v', bk, 0, 0, ip.inum, FileSlot(bn));
      SlotBlock(v', bk, 0, 0, ip.inum, FileSlot(bn));
      var data := blk[addr];
      data := data[..o] + s + data[o + |s|..];
      blk := blk[addr := data];
      WriteData(v', bk, ip.inum, FileSlot(bn), data, View(ip));
      ChunkFacts(v, v', View(ip), ip.inum, off, s);
    }

    /** readi() on a file or directory: the bytes asked for, up to the end of the file; nothing changes. */
    method Readi(ip: Inode, off0: nat, n0: nat) returns (r: int, dst: seq<byte>)
      requires Valid(ip) && HoleFree(View(ip), ip.inum) && ip.d.typ != T_DEV && off0 < WORD && n0 < WORD
      modifies this`blk, this`bk, ip`d
      ensures ip.d == old(ip.d) && blk == old(blk) && bk == old(bk)
      ensures r == -1 <==> off0 > ip.d.size || off0 + n0 >= WORD
      ensures r != -1 ==> r == Min(n0, ip.d.size - off0) && dst == Content(View(ip), ip.inum)[off0..off0 + r]
    {
      dst := [];
      if off0 > ip.d.size || (off0 + n0) % WORD < off0 { return -1, []; }
      var n := n0;
      if off0 + n > ip.d.size { n := ip.d.size - off0; }
      dst := ReadBytes(ip, off0, n);
      r := n;
    }

    /** The loop of readi. */
    method ReadBytes(ip: Inode, off0: nat, n: nat) returns (dst: seq<byte>)
      requires Valid(ip) && HoleFree(View(ip), ip.inum) && off0 + n <= ip.d.size
      modifies this`blk, this`bk, ip`d
      ensures ip.d == old(ip.d) && blk == old(blk) && bk == old(bk)
      ensures dst == Content(View(ip), ip.inum)[off0..off0 + n]
    {
      dst := [];
      var tot, off := 0, off0;
      ghost var v := View(ip);
      ghost var c := Content(v, ip.inum);
      while tot < n
        invariant tot <= n && off == off0 + tot && ip.d == old(ip.d) && blk == old(blk) && bk == old(bk)
        invariant dst == c[off0..off]
      {
        var m := Min(n - tot, BSIZE - off % BSIZE);
        var piece := ReadPiece(ip, off, m);
        assert View(ip) == v && piece == c[off..off + m];
        Glue(c, off0, off, off + m);
        dst := dst + piece;
        tot, off := tot + m, off + m;
      }
    }

    /** Within readi: the bytes asked for of one block. */
    method ReadPiece(ip: Inode, off: nat, m: nat) returns (piece: seq<byte>)
      requires Valid(ip) && HoleFree(View(ip), ip.inum) && 0 < m && off + m <= ip.d.size && off % BSIZE + m <= BSIZE
      modifies this`blk, this`bk, ip`d
      ensures ip.d == old(ip.d) && blk == old(blk) && bk == old(bk)
      ensures piece == Content(View(ip), ip.inum)[off..off + m]
    {
      var bn := off / BSIZE;
      assert bn * BSIZE < ip.d.size;
      assert Mapped(View(ip), ip.inum, bn);
      var addr, ok := Bmap(ip, bn);
      ReadChunk(View(ip), bk, ip.inum, off, m);
      piece := blk[addr][off % BSIZE..off % BSIZE + m];
    }

    /** itrunc(): frees exactly the inode's blocks and leaves it empty, on disk too. */
    method Itrunc(ip: Inode)
      requires Valid(ip)
      modifies this`blk, this`bk, this`ino, ip`d
      ensures Valid(ip) && ip.d == old(ip.d).(size := 0, addrs := ip.d.addrs) && Blank(ip.d.addrs)
      ensures ino == old(ino)[ip.inum := ip.d]
      ensures forall b: nat :: b < lay.size ==>
                (Marked(lay, blk, b) <==> old(Marked(lay, blk, b)) && !HeldBy(old(ip.d), old(blk), b))
      ensures OthersSame(old(View(ip)), View(ip), ip.inum)
    {
      ghost var v, bk0 := View(ip), bk;
      FreedNone(v, bk, ip.inum);
      var i := 0;
      while i < NDIRECT
        invariant i <= NDIRECT && Valid(ip) && ino == old(ino) && ip.d == old(ip.d).(addrs := ip.d.addrs)
        invariant Freed(bk0, bk, ip.inum, i) && OthersKept(v, View(ip), ip.inum)
      {
        FreeDirect(ip, i, v, bk0);
        i := i + 1;
      }
      FreeIndirect(ip, v, bk0);
      ghost var v1 := View(ip);
      ip.d := ip.d.(size := 0);
      MetaKeeps(v1, bk, ip.inum, ip.d, View(ip));
      Iupdate(ip);
      TruncDone(v, bk0, v1, View(ip), bk, ip.inum);
    }

    method FreeDirect(ip: Inode, k: nat, ghost v: Vol, ghost bk0: Books)
      requires Valid(ip) && k < NDIRECT && OneToOne(bk0) && Freed(bk0, bk, ip.inum, k)
      requires OthersKept(v, View(ip), ip.inum)
      modifies this`blk, this`bk, ip`d
      ensures Valid(ip) && ip.d == old(ip.d).(addrs := ip.d.addrs)
      ensures Freed(bk0, bk, ip.inum, k + 1) && OthersKept(v, View(ip), ip.inum)
    {
      ghost var v0 := View(ip);
      assert SlotMatches(v0, bk, 0, 0, ip.inum, k);
      if ip.d.addrs[k] != 0 {
        SlotBlock(v0, bk, 0, 0, ip.inum, k);
        FlipToggles(lay, blk, ip.d.addrs[k]);
        Bfree(ip.d.addrs[k]);
        ip.d := ip.d.(addrs := ip.d.addrs[k := 0]);
        ReleaseDirect(v0, bk, ip.inum, k, View(ip));
        FreedStep(bk0, bk, ip.inum, k);
        bk := Release(bk, ip.inum, k);
        OthersTrans(v, v0, View(ip), ip.inum);
      } else {
        FreedSkip(bk0, bk, ip.inum, k);
      }
    }

    method FreeIndirect(ip: Inode, ghost v: Vol, ghost bk0: Books)
      requires Valid(ip) && OneToOne(bk0) && Freed(bk0, bk, ip.inum, NDIRECT) && OthersKept(v, View(ip), ip.inum)
      modifies this`blk, this`bk, ip`d
      ensures Valid(ip) && ip.d == old(ip.d).(addrs := ip.d.addrs)
      ensures Freed(bk0, bk, ip.inum, NSLOT) && OthersKept(v, View(ip), ip.inum)
    {
      ghost var v0 := View(ip);
      IndirectBlock(v0, bk, 0, 0, ip.inum);
      if ip.d.addrs[NDIRECT] != 0 {
        FreeEntries(ip, v, bk0);
        FreePointer(ip, v, bk0);
      } else {
        NoEntries(v0, bk0, bk, ip.inum);
      }
    }

    /** itrunc's freeing of the indirect block itself, all its entries freed. */
    method FreePointer(ip: Inode, ghost v: Vol, ghost bk0: Books)
      requires ip.inum < |ino| && |ip.d.addrs| == NDIRECT + 1 && 0 < ip.d.addrs[NDIRECT] < |blk|
      requires InvBut(View(ip), bk, ip.inum, NINDIRECT) && OneToOne(bk0)
      requires Freed(bk0, bk, ip.inum, NDIRECT + NINDIRECT) && OthersKept(v, View(ip), ip.inum)
      modifies this`blk, this`bk, ip`d
      ensures Valid(ip) && ip.d == old(ip.d).(addrs := ip.d.addrs)
      ensures Freed(bk0, bk, ip.inum, NSLOT) && OthersKept(v, View(ip), ip.inum)
    {
      var ind := ip.d.addrs[NDIRECT];
      ghost var v1 := View(ip);
      assert SlotMatches(v1, bk, ip.inum, NINDIRECT, ip.inum, NDIRECT);
      SlotBlock(v1, bk, ip.inum, NINDIRECT, ip.inum, NDIRECT);
      FlipToggles(lay, blk, ind);
      Bfree(ind);
      ip.d := ip.d.(addrs := ip.d.addrs[NDIRECT := 0]);
      ReleaseIndirect(v1, bk, ip.inum, View(ip));
      FreedStep(bk0, bk, ip.inum, NDIRECT);
      bk := Release(bk, ip.inum, NDIRECT);
      OthersTrans(v, v1, View(ip), ip.inum);
    }

    /** The loop of itrunc over the indirect block. */
    method FreeEntries(ip: Inode, ghost v: Vol, ghost bk0: Books)
      requires Valid(ip) && OneToOne(bk0) && Freed(bk0, bk, ip.inum, NDIRECT) && OthersKept(v, View(ip), ip.inum)
      requires 0 < ip.d.addrs[NDIRECT] < |blk|
      modifies this`blk, this`bk
      ensures InvBut(View(ip), bk, ip.inum, NINDIRECT) && |blk| == old(|blk|)
      ensures Freed(bk0, bk, ip.inum, NDIRECT + NINDIRECT) && OthersKept(v, View(ip), ip.inum)
    {
      var ind := ip.d.addrs[NDIRECT];
      var a := blk[ind];
      NoneHidden(View(ip), bk, ip.inum);
      var j := 0;
      while j < NINDIRECT
        invariant j <= NINDIRECT && InvBut(View(ip), bk, ip.inum, j) && |blk| == old(|blk|) && blk[ind] == a
        invariant Freed(bk0, bk, ip.inum, NDIRECT + j) && OthersKept(v, View(ip), ip.inum)
      {
        FreeEntry(ip, j, ind, a, v, bk0);
        j := j + 1;
      }
    }

    method FreeEntry(ip: Inode, j: nat, ind: nat, a: Block, ghost v: Vol, ghost bk0: Books)
      requires ip.inum < |ino| && |ip.d.addrs| == NDIRECT + 1 && InvBut(View(ip), bk, ip.inum, j) && j < NINDIRECT
      requires ip.d.addrs[NDIRECT] == ind && 0 < ind < |blk| && blk[ind] == a
      requires OneToOne(bk0) && Freed(bk0, bk, ip.inum, NDIRECT + j) && OthersKept(v, View(ip), ip.inum)
      modifies this`blk, this`bk
      ensures InvBut(View(ip), bk, ip.inum, j + 1) && |blk| == old(|blk|) && blk[ind] == a
      ensures Freed(bk0, bk, ip.inum, NDIRECT + j + 1) && OthersKept(v, View(ip), ip.inum)
    {
      ghost var v0, k := View(ip), NDIRECT + 1 + j;
      assert SlotMatches(v0, bk, ip.inum, j, ip.inum, k);
      if Word(a, j) != 0 {
        SlotBlock(v0, bk, ip.inum, j, ip.inum, k);
        IndirectBlock(v0, bk, ip.inum, j, ip.inum);
        FlipToggles(lay, blk, Word(a, j));
        Bfree(Word(a, j));
        ReleaseEntry(v0, bk, ip.inum, j, View(ip));
        FreedStep(bk0, bk, ip.inum, k);
        bk := Release(bk, ip.inum, k);
        OthersTrans(v, v0, View(ip), ip.inum);
      } else {
        SkipEntry(v0, bk, ip.inum, j);
        FreedSkip(bk0, bk, ip.inum, k);
      }
    }

    /** iput(): the last reference to an unlinked inode frees its blocks and the inode. */
    method Iput(ip: Inode)
      requires Valid(ip) && ip.d == ino[ip.inum] && ip.refs >= 1 && FreeClean(View(ip))
      requires ip.refs == 1 && ip.valid && ip.d.nlink == 0 ==> !ip.busy
      modifies this`blk, this`bk, this`ino, ip
      ensures Valid(ip) && ip.d == ino[ip.inum] && FreeClean(View(ip)) && ip.refs == old(ip.refs) - 1
      ensures OthersSame(old(View(ip)), View(ip), ip.inum)
      ensures var last := old(ip.refs == 1 && ip.valid && ip.d.nlink == 0);
        && (!last ==> ip.d == old(ip.d) && blk == old(blk) && ino == old(ino) && bk == old(bk))
        && (last ==> ip.d == old(ip.d).(typ := 0, size := 0, addrs := ip.d.addrs) && !ip.valid)
        && (last ==> forall b: nat :: b < lay.size ==>
              (Marked(lay, blk, b) <==> old(Marked(lay, blk, b)) && !HeldBy(old(ip.d), old(blk), b)))
    {
      if ip.refs == 1 && ip.valid && ip.d.nlink == 0 {
        ip.busy := true;
        Discard(ip);
        ip.valid, ip.busy := false, false;
      }
      ghost var v := View(ip);
      ip.refs := ip.refs - 1;
      assert View(ip) == v;
    }

    /** Within iput: truncate, and mark the inode free on disk. */
    method Discard(ip: Inode)
      requires Valid(ip) && FreeClean(View(ip))
      modifies this`blk, this`bk, this`ino, ip`d
      ensures Valid(ip) && ip.d == old(ip.d).(typ := 0, size := 0, addrs := ip.d.addrs)
      ensures ino == old(ino)[ip.inum := ip.d] && FreeClean(View(ip))
      ensures OthersSame(old(View(ip)), View(ip), ip.inum)
      ensures forall b: nat :: b < lay.size ==>
                (Marked(lay, blk, b) <==> old(Marked(lay, blk, b)) && !HeldBy(old(ip.d), old(blk), b))
    {
      Itrunc(ip);
      ghost var v := View(ip);
      ip.d := ip.d.(typ := 0);
      MetaKeeps(v, bk, ip.inum, ip.d, View(ip));
      Iupdate(ip);
      OthersFiles(v, v, View(ip), ip.inum);
      OthersSameTrans(old(View(ip)), v, View(ip), ip.inum);
      forall i | 0 <= i < |ino| && View(ip).ino[i].typ == 0 ensures Blank(View(ip).ino[i].addrs) {
        if i != ip.inum { assert View(ip).ino[i] == old(View(ip)).ino[i]; }
      }
    }

    /** ialloc(): the first inode of type 0, cleared and given its type; it fails, where the source panics, if none. */
    method Ialloc(typ: int) returns (inum: nat, ok: bool)
      requires Inv(Vol(lay, ino, blk), bk) && FreeClean(Vol(lay, ino, blk)) && typ != 0
      modifies this`ino
      ensures Inv(Vol(lay, ino, blk), bk) && FreeClean(Vol(lay, ino, blk)) && |ino| == old(|ino|)
      ensures !ok <==> forall i :: 1 <= i < |ino| ==> old(ino[i].typ) != 0
      ensures !ok ==> ino == old(ino)
      ensures ok ==> 1 <= inum < |ino| && old(ino[inum].typ) == 0 && forall i :: 1 <= i < inum ==> old(ino[i].typ) != 0
      ensures ok ==> ino == old(ino)[inum := Dinode(typ, 0, 0, 0, 0, seq(NDIRECT + 1, _ => 0))]
    {
      inum, ok := 1, false;
      while inum < |ino|
        invariant 1 <= inum && ino == old(ino) && forall i :: 1 <= i < inum && i < |ino| ==> ino[i].typ != 0
      {
        if ino[inum].typ == 0 {
          ghost var v := Vol(lay, ino, blk);
          var d := Dinode(typ, 0, 0, 0, 0, seq(NDIRECT + 1, _ => 0));
          assert d.addrs == ino[inum].addrs;
          MetaKeeps(v, bk, inum, d, v.(ino := v.ino[inum := d]));
          ino := ino[inum := d];
          return inum, true;
        }
        inum := inum + 1;
      }
    }
  }
}
