/**
  The block and inode layer of fs.c over the logical block contents that the
  log supplies: bitmap bits, direct and indirect slots, file bytes, and the
  book-keeping that says which slot owns which block.
 */
module FsModel {

  const BSIZE: nat := 512
  const NDIRECT: nat := 12
  const NINDIRECT: nat := 128
  const MAXFILE: nat := 140
  const BPB: nat := 4096
  const NSLOT: nat := 141
  const WORD: nat := 0x1_0000_0000

  type byte = x: int | 0 <= x < 256
  type Block = s: seq<byte> | |s| == BSIZE witness seq(BSIZE, _ => 0)

  /** The block that bzero leaves. */
  function Zero(): (r: Block)
    ensures forall x :: 0 <= x < BSIZE ==> r[x] == 0
  {
    seq<byte>(BSIZE, _ => 0)
  }

  // ------------------------------------------------------ bits and words

  function Pow(k: nat): (r: nat)
    ensures r >= 1
  {
    if k == 0 then 1 else 2 * Pow(k - 1)
  }

  function Bit(b: nat, k: nat): (r: bool) {
    if k == 0 then b % 2 == 1 else Bit(b / 2, k - 1)
  }

  lemma Halve(b: nat, p: nat)
    ensures (b + 2 * p) / 2 == b / 2 + p && (b + 2 * p) % 2 == b % 2 && b == 2 * (b / 2) + b % 2
  {
  }

  /** Adding the mask of a clear bit sets that bit and no other. */
  lemma {:induction false} SetBit(b: nat, k: nat, j: nat, width: nat)
    requires k < width && b < Pow(width) && !Bit(b, k)
    ensures b + Pow(k) < Pow(width) && Bit(b + Pow(k), j) == (j == k || Bit(b, j))
    decreases k
  {
    if k > 0 {
      SetBit(b / 2, k - 1, if j > 0 then j - 1 else k - 1, width - 1);
      Halve(b, Pow(k - 1));
    } else {
      assert (b + 1) / 2 == b / 2;
    }
  }

  /** Subtracting the mask of a set bit clears that bit and no other. */
  lemma {:induction false} ClearBit(b: nat, k: nat, j: nat)
    requires Bit(b, k)
    ensures b - Pow(k) >= 0 && Bit(b - Pow(k), j) == (j != k && Bit(b, j))
    decreases k
  {
    if k > 0 {
      ClearBit(b / 2, k - 1, if j > 0 then j - 1 else k - 1);
      Halve(b - Pow(k), Pow(k - 1));
    } else {
      assert (b - 1) / 2 == b / 2;
    }
  }

  lemma ByteMask(b: byte, k: nat)
    requires k < 8
    ensures Bit(b, k) ==> 0 <= b - Pow(k) < 256
    ensures !Bit(b, k) ==> 0 <= b + Pow(k) < 256
  {
    assert Pow(8) == 2 * Pow(7) == 4 * Pow(6) == 8 * Pow(5) == 16 * Pow(4) == 32 * Pow(3) == 256;
    if Bit(b, k) { ClearBit(b, k, k); } else { SetBit(b, k, k, 8); }
  }

  /** Entry j of a block read as an array of 32-bit little-endian words. */
  function Word(s: Block, j: nat): (w: nat)
    requires j < NINDIRECT
    ensures w < WORD
  {
    var b0: nat, b1: nat, b2: nat, b3: nat := s[4 * j], s[4 * j + 1], s[4 * j + 2], s[4 * j + 3];
    b0 + 256 * b1 + 0x1_0000 * b2 + 0x100_0000 * b3
  }

  function PutWord(s: Block, j: nat, w: nat): (r: Block)
    requires j < NINDIRECT && w < WORD
  {
    s[4 * j := w % 256][4 * j + 1 := w / 256 % 256][4 * j + 2 := w / 0x1_0000 % 256][4 * j + 3 := w / 0x100_0000]
  }

  lemma Digits(w: nat)
    requires w < WORD
    ensures w == w % 256 + 256 * (w / 256 % 256) + 0x1_0000 * (w / 0x1_0000 % 256) + 0x100_0000 * (w / 0x100_0000)
  {
  }

  /** Writing entry j and reading it back; no other entry changes. */
  lemma WordPut(s: Block, j: nat, w: nat, k: nat)
    requires j < NINDIRECT && k < NINDIRECT && w < WORD
    ensures Word(PutWord(s, j, w), k) == if k == j then w else Word(s, k)
  {
    if k == j { Digits(w); }
  }

  // ------------------------------------------------------------- volume

  /** The sizes the superblock fixes; data blocks start at datastart. */
  datatype Layout = Layout(size: nat, bmapstart: nat, datastart: nat) {
    ghost predicate Ok() {
      0 < datastart <= size < WORD && bmapstart + (size - 1) / BPB < datastart
    }
  }

  datatype Dinode = Dinode(typ: int, major: int, minor: int, nlink: int, size: nat, addrs: seq<nat>)

  datatype Vol = Vol(lay: Layout, ino: seq<Dinode>, blk: seq<Block>)

  ghost predicate Shape(v: Vol) {
    && v.lay.Ok() && |v.blk| == v.lay.size
    && forall i :: 0 <= i < |v.ino| ==> |v.ino[i].addrs| == NDIRECT + 1
  }

  /** The bitmap bit of block b. */
  function Marked(lay: Layout, blk: seq<Block>, b: nat): (r: bool)
    requires lay.bmapstart + b / BPB < |blk|
  {
    Bit(blk[lay.bmapstart + b / BPB][b % BPB / 8], b % BPB % 8)
  }

  /** The volume's blocks with bit b added to (or taken from) its bitmap byte. */
  function Flip(lay: Layout, blk: seq<Block>, b: nat): (r: seq<Block>)
    requires lay.bmapstart + b / BPB < |blk|
  {
    var n, o, k := lay.bmapstart + b / BPB, b % BPB / 8, b % BPB % 8;
    ByteMask(blk[n][o], k);
    var x: byte := if Bit(blk[n][o], k) then blk[n][o] - Pow(k) else blk[n][o] + Pow(k);
    blk[n := blk[n][o := x]]
  }

  /** Exactly the bit of b changes. */
  lemma FlipOne(lay: Layout, blk: seq<Block>, b: nat, x: nat)
    requires lay.bmapstart + b / BPB < |blk| && lay.bmapstart + x / BPB < |blk|
    ensures Marked(lay, Flip(lay, blk, b), x) == if x == b then !Marked(lay, blk, b) else Marked(lay, blk, x)
  {
    var n, o, k := lay.bmapstart + b / BPB, b % BPB / 8, b % BPB % 8;
    assert Pow(8) == 2 * Pow(7) == 4 * Pow(6) == 8 * Pow(5) == 16 * Pow(4) == 32 * Pow(3) == 256;
    if Bit(blk[n][o], k) { ClearBit(blk[n][o], k, x % BPB % 8); } else { SetBit(blk[n][o], k, x % BPB % 8, 8); }
  }

  /**
    What slot k of an inode holds: slots 0..11 are the direct addresses, 12
    the indirect pointer, and 13..140 the entries of the indirect block.
   */
  function SlotAddr(d: Dinode, blk: seq<Block>, k: nat): (a: nat)
    requires k < NSLOT
  {
    if k <= NDIRECT then (if k < |d.addrs| then d.addrs[k] else 0)
    else if NDIRECT < |d.addrs| && 0 < d.addrs[NDIRECT] < |blk| then Word(blk[d.addrs[NDIRECT]], k - NDIRECT - 1)
    else 0
  }

  /** The slot of file block bn. */
  function FileSlot(bn: nat): (k: nat)
    requires bn < MAXFILE
    ensures k < NSLOT && k != NDIRECT
  {
    if bn < NDIRECT then bn else bn + 1
  }

  /** Byte x of inode i, zero where no block is mapped. */
  function ByteAt(v: Vol, i: nat, x: nat): (b: byte)
    requires i < |v.ino|
  {
    if x >= MAXFILE * BSIZE then 0
    else
      var a := SlotAddr(v.ino[i], v.blk, FileSlot(x / BSIZE));
      if 0 < a < |v.blk| then v.blk[a][x % BSIZE] else 0
  }

  /** The first n bytes of inode i. */
  function Bytes(v: Vol, i: nat, n: nat): (s: seq<byte>)
    requires i < |v.ino|
    ensures |s| == n && forall x :: 0 <= x < n ==> s[x] == ByteAt(v, i, x)
  {
    seq(n, x requires 0 <= x < n => ByteAt(v, i, x))
  }

  /** The file: its bytes up to its size. */
  function Content(v: Vol, i: nat): (s: seq<byte>)
    requires i < |v.ino|
  {
    Bytes(v, i, v.ino[i].size)
  }

  /** Every file block below the size is mapped. */
  ghost predicate HoleFree(v: Vol, i: nat)
    requires i < |v.ino|
  {
    v.ino[i].size <= MAXFILE * BSIZE &&
    forall bn :: 0 <= bn < MAXFILE && bn * BSIZE < v.ino[i].size ==> SlotAddr(v.ino[i], v.blk, FileSlot(bn)) != 0
  }

  // -------------------------------------------------------- book-keeping

  /** tab[i][k] is what slot k of inode i holds; owner names the slot that holds a block. */
  datatype Books = Books(tab: seq<seq<nat>>, owner: map<nat, (nat, nat)>)

  ghost predicate SlotOwns(bk: Books, i: nat, k: nat)
    requires i < |bk.tab| && k < |bk.tab[i]|
  {
    bk.tab[i][k] != 0 ==> bk.tab[i][k] in bk.owner && bk.owner[bk.tab[i][k]] == (i, k)
  }

  ghost predicate OwnerHolds(bk: Books, b: nat)
    requires b in bk.owner
  {
    var (i, k) := bk.owner[b];
    b != 0 && i < |bk.tab| && k < |bk.tab[i]| && bk.tab[i][k] == b
  }

  /** Nonzero slots and owned blocks correspond one to one. */
  ghost predicate OneToOne(bk: Books) {
    && (forall i: nat, k: nat :: i < |bk.tab| && k < |bk.tab[i]| ==> SlotOwns(bk, i, k))
    && (forall b :: b in bk.owner ==> OwnerHolds(bk, b))
  }

  function Assign(bk: Books, i: nat, k: nat, b: nat): (r: Books)
    requires i < |bk.tab| && k < |bk.tab[i]|
  {
    var row: seq<nat> := bk.tab[i][k := b];
    Books(bk.tab[i := row], bk.owner[b := (i, k)])
  }

  function Release(bk: Books, i: nat, k: nat): (r: Books)
    requires i < |bk.tab| && k < |bk.tab[i]|
  {
    var row: seq<nat> := bk.tab[i][k := 0];
    Books(bk.tab[i := row], bk.owner - {bk.tab[i][k]})
  }

  lemma AssignOneToOne(bk: Books, i: nat, k: nat, b: nat)
    requires OneToOne(bk) && i < |bk.tab| && k < |bk.tab[i]| && bk.tab[i][k] == 0 && b != 0 && b !in bk.owner
    ensures OneToOne(Assign(bk, i, k, b))
  {
    var r := Assign(bk, i, k, b);
    forall j: nat, l: nat | j < |r.tab| && l < |r.tab[j]| ensures SlotOwns(r, j, l) { assert SlotOwns(bk, j, l); }
    forall c | c in r.owner ensures OwnerHolds(r, c) {
      if c != b {
        assert OwnerHolds(bk, c);
        var (j, l) := bk.owner[c];
        assert r.tab[j][l] == bk.tab[j][l];
      }
    }
  }

  lemma ReleaseOneToOne(bk: Books, i: nat, k: nat)
    requires OneToOne(bk) && i < |bk.tab| && k < |bk.tab[i]| && bk.tab[i][k] != 0
    ensures OneToOne(Release(bk, i, k))
  {
    var r := Release(bk, i, k);
    forall j: nat, l: nat | j < |r.tab| && l < |r.tab[j]| ensures SlotOwns(r, j, l) {
      assert SlotOwns(bk, j, l) && SlotOwns(bk, i, k);
    }
    forall c | c in r.owner ensures OwnerHolds(r, c) {
      assert OwnerHolds(bk, c) && SlotOwns(bk, i, k);
      var (j, l) := bk.owner[c];
      assert r.tab[j][l] == bk.tab[j][l];
    }
  }

  /** The table agrees with slot k of inode i; of inode hi the first h indirect entries count as empty. */
  ghost predicate SlotMatches(v: Vol, bk: Books, hi: nat, h: nat, i: nat, k: nat)
    requires i < |v.ino| && i < |bk.tab| && k < |bk.tab[i]| && k < NSLOT
  {
    bk.tab[i][k] == if i == hi && NDIRECT < k <= NDIRECT + h then 0 else SlotAddr(v.ino[i], v.blk, k)
  }

  ghost predicate MarkMatches(v: Vol, bk: Books, b: nat)
    requires Shape(v) && b < v.lay.size
  {
    Marked(v.lay, v.blk, b) <==> b < v.lay.datastart || b in bk.owner
  }

  ghost predicate TabShape(v: Vol, bk: Books) {
    && Shape(v) && |bk.tab| == |v.ino|
    && (forall i :: 0 <= i < |bk.tab| ==> |bk.tab[i]| == NSLOT)
    && (forall b :: b in bk.owner ==> v.lay.datastart <= b < v.lay.size)
  }

  /** The books are those of the volume, its slots and its bitmap, but for the hidden entries. */
  ghost predicate ReflectsBut(v: Vol, bk: Books, hi: nat, h: nat) {
    && TabShape(v, bk)
    && (forall i: nat, k: nat :: i < |v.ino| && k < NSLOT ==> SlotMatches(v, bk, hi, h, i, k))
    && (forall b: nat :: b < v.lay.size ==> MarkMatches(v, bk, b))
  }

  ghost predicate InvBut(v: Vol, bk: Books, hi: nat, h: nat) {
    ReflectsBut(v, bk, hi, h) && OneToOne(bk)
  }

  ghost predicate Inv(v: Vol, bk: Books) {
    InvBut(v, bk, 0, 0)
  }

  /** A free inode maps no block. */
  ghost predicate FreeClean(v: Vol) {
    forall i :: 0 <= i < |v.ino| && v.ino[i].typ == 0 ==> Blank(v.ino[i].addrs)
  }

  predicate Blank(addrs: seq<nat>) {
    forall k :: 0 <= k < |addrs| ==> addrs[k] == 0
  }

  /** Every marked data block has exactly one slot, and every slot's block is marked. */
  lemma Ownership(v: Vol, bk: Books)
    requires Inv(v, bk)
    ensures forall b: nat :: v.lay.datastart <= b < v.lay.size && Marked(v.lay, v.blk, b) ==>
      exists i: nat, k: nat :: i < |v.ino| && k < NSLOT && SlotAddr(v.ino[i], v.blk, k) == b
    ensures forall i: nat, k: nat :: i < |v.ino| && k < NSLOT && SlotAddr(v.ino[i], v.blk, k) != 0 ==>
      var b := SlotAddr(v.ino[i], v.blk, k);
      v.lay.datastart <= b < v.lay.size && Marked(v.lay, v.blk, b)
    ensures forall i: nat, k: nat, j: nat, l: nat ::
      (i < |v.ino| && k < NSLOT && j < |v.ino| && l < NSLOT && (i != j || k != l) &&
       SlotAddr(v.ino[i], v.blk, k) == SlotAddr(v.ino[j], v.blk, l)) ==> SlotAddr(v.ino[i], v.blk, k) == 0
  {
    forall b: nat | v.lay.datastart <= b < v.lay.size && Marked(v.lay, v.blk, b)
      ensures exists i: nat, k: nat :: i < |v.ino| && k < NSLOT && SlotAddr(v.ino[i], v.blk, k) == b
    {
      assert MarkMatches(v, bk, b) && OwnerHolds(bk, b);
      var (i, k) := bk.owner[b];
      assert SlotMatches(v, bk, 0, 0, i, k);
    }
    forall i: nat, k: nat | i < |v.ino| && k < NSLOT && SlotAddr(v.ino[i], v.blk, k) != 0
      ensures var b := SlotAddr(v.ino[i], v.blk, k);
        v.lay.datastart <= b < v.lay.size && Marked(v.lay, v.blk, b) && b in bk.owner && bk.owner[b] == (i, k)
    {
      assert SlotMatches(v, bk, 0, 0, i, k) && SlotOwns(bk, i, k);
      assert MarkMatches(v, bk, bk.tab[i][k]);
    }
  }
}
