/** The doubly linked buffer list of bio.c, and its operations as steps of BioModel. */
module BioImpl {
  import opened BioModel

  const HEAD: nat := NBUF

  function After(ring: seq<nat>, i: nat): (b: nat)
    requires i < |ring|
  {
    if i + 1 < |ring| then ring[i + 1] else ring[0]
  }

  ghost predicate LinkAt(nx: seq<nat>, pv: seq<nat>, ring: seq<nat>, i: nat)
    requires i < |ring|
  {
    && ring[i] < |nx| && ring[i] < |pv| && After(ring, i) < |pv|
    && nx[ring[i]] == After(ring, i) && pv[After(ring, i)] == ring[i]
  }

  ghost predicate Differ(ring: seq<nat>, i: nat, j: nat)
    requires i < |ring| && j < |ring|
  {
    ring[i] != ring[j]
  }

  /** nx and pv link the distinct nodes of the ring in order, and back to the first. */
  ghost predicate Ring(nx: seq<nat>, pv: seq<nat>, ring: seq<nat>) {
    && ring != []
    && (forall i: nat :: i < |ring| ==> LinkAt(nx, pv, ring, i))
    && (forall i: nat, j: nat :: i < j < |ring| ==> Differ(ring, i, j))
  }

  function Cut(s: seq<nat>, i: nat): (r: seq<nat>)
    requires i < |s|
  {
    s[..i] + s[i + 1..]
  }

  lemma Unlink(nx: seq<nat>, pv: seq<nat>, ring: seq<nat>, i: nat)
    requires Ring(nx, pv, ring) && 0 < i < |ring|
    ensures ring[i] < |nx| && ring[i] < |pv| && pv[ring[i]] < |nx| && nx[ring[i]] < |pv|
    ensures Ring(nx[pv[ring[i]] := nx[ring[i]]], pv[nx[ring[i]] := pv[ring[i]]], Cut(ring, i))
  {
    assert LinkAt(nx, pv, ring, i) && LinkAt(nx, pv, ring, i - 1);
    var r := Cut(ring, i);
    var nx', pv' := nx[pv[ring[i]] := nx[ring[i]]], pv[nx[ring[i]] := pv[ring[i]]];
    forall j: nat, k: nat | j < k < |r| ensures Differ(r, j, k) {
      assert Differ(ring, if j < i then j else j + 1, if k < i then k else k + 1);
    }
    forall j: nat | j < |r| ensures LinkAt(nx', pv', r, j) {
      var y := if j < i then j else j + 1;
      assert LinkAt(nx, pv, ring, y);
      if y < i - 1 { assert Differ(ring, y, i - 1) && Differ(ring, y + 1, i); }
      if i < y { assert Differ(ring, i - 1, y); }
      if i + 1 < |ring| {
        if y + 1 < |ring| && y + 1 < i + 1 { assert Differ(ring, y + 1, i + 1); }
        if y + 1 < |ring| && i + 1 < y + 1 { assert Differ(ring, i + 1, y + 1); }
        assert Differ(ring, 0, i + 1);
      } else if y + 1 < |ring| {
        assert Differ(ring, 0, y + 1);
      }
    }
  }

  function Pushed(ring: seq<nat>, b: nat): (r: seq<nat>)
    requires ring != []
  {
    [ring[0], b] + ring[1..]
  }

  lemma PushFront(nx: seq<nat>, pv: seq<nat>, ring: seq<nat>, b: nat)
    requires Ring(nx, pv, ring) && b !in ring && b < |nx| && b < |pv|
    ensures ring[0] < |nx| && nx[ring[0]] < |pv|
    ensures Ring(nx[b := nx[ring[0]]][ring[0] := b], pv[b := ring[0]][nx[ring[0]] := b], Pushed(ring, b))
  {
    assert LinkAt(nx, pv, ring, 0);
    var r := Pushed(ring, b);
    var nx', pv' := nx[b := nx[ring[0]]][ring[0] := b], pv[b := ring[0]][nx[ring[0]] := b];
    forall j: nat, k: nat | j < k < |r| ensures Differ(r, j, k) {
      if j == 0 && k > 1 { assert Differ(ring, 0, k - 1); }
      if j > 1 { assert Differ(ring, j - 1, k - 1); }
    }
    forall j: nat | j < |r| ensures LinkAt(nx', pv', r, j) {
      if j > 1 {
        assert LinkAt(nx, pv, ring, j - 1) && Differ(ring, 0, j - 1);
        if j < |ring| { assert Differ(ring, 1, j) && Differ(ring, 0, j); }
        assert Differ(ring, 0, 1);
      }
    }
  }

  /** On a list without repetitions, leaving out b is cutting its one place. */
  lemma {:induction false} WithoutCut(s: seq<nat>, i: nat)
    requires i < |s| && forall j: nat, k: nat :: j < k < |s| ==> Differ(s, j, k)
    ensures Without(s, s[i]) == Cut(s, i)
    decreases |s|
  {
    var t := s[1..];
    forall j: nat, k: nat | j < k < |t| ensures Differ(t, j, k) { assert Differ(s, j + 1, k + 1); }
    if i == 0 {
      forall j: nat | j < |t| ensures t[j] != s[0] { assert Differ(s, 0, j + 1); }
      WithoutNone(t, s[0]);
    } else {
      assert Differ(s, 0, i);
      assert t[i - 1] == s[i];
      WithoutCut(t, i - 1);
    }
  }

  lemma {:induction false} WithoutNone(s: seq<nat>, b: nat)
    requires forall j: nat :: j < |s| ==> s[j] != b
    ensures Without(s, b) == s
  {
    if s != [] { WithoutNone(s[1..], b); }
  }

  class Bcache {
    const nx: array<nat>
    const pv: array<nat>
    const buf: array<Buf>
    var disk: map<Key, Data>
    ghost var order: seq<nat>
    ghost var stamp: seq<nat>
    ghost var clock: nat
    ghost var touched: set<nat>

    ghost function Abs(): (c: Cache)
      reads this, buf
    {
      Cache(order, buf[..], stamp, clock, disk, touched)
    }

    ghost predicate Valid()
      reads this, nx, pv, buf
    {
      && nx.Length == NBUF + 1 == pv.Length && buf.Length == NBUF && nx != pv
      && Ring(nx[..], pv[..], [HEAD] + order) && Inv(Abs())
    }

    /** binit(): every buffer is on the list and caches nothing. */
    constructor (disk: map<Key, Data>)
      ensures Valid() && fresh(nx) && fresh(pv) && fresh(buf) && this.disk == disk && touched == {}
      ensures forall b :: 0 <= b < NBUF ==> buf[b].dev == NODEV && !buf[b].busy && !buf[b].valid && !buf[b].dirty
    {
      nx := new nat[NBUF + 1](_ => HEAD);
      pv := new nat[NBUF + 1](_ => HEAD);
      buf := new Buf[NBUF](_ => Buf(NODEV, 0, false, false, false, []));
      this.disk := disk;
      order, touched, clock, stamp := [], {}, NBUF, seq(NBUF, i => i);
      new;
      var b := 0;
      assert LinkAt(nx[..], pv[..], [HEAD] + order, 0);
      while b < NBUF
        invariant b <= NBUF && |order| == b && forall i :: 0 <= i < b ==> order[i] == b - 1 - i
        invariant Ring(nx[..], pv[..], [HEAD] + order)
        invariant this.disk == disk && touched == {} && clock == NBUF == |stamp|
        invariant forall i :: 0 <= i < NBUF ==> stamp[i] == i
        invariant forall i :: 0 <= i < NBUF ==> buf[i] == Buf(NODEV, 0, false, false, false, [])
      {
        PushFront(nx[..], pv[..], [HEAD] + order, b);
        assert Pushed([HEAD] + order, b) == [HEAD] + ([b] + order);
        Push(b);
        order := [b] + order;
        b := b + 1;
      }
      forall i: nat | i < NBUF ensures i in order { assert order[NBUF - 1 - i] == i; }
      forall i: nat, j: nat | i < j < |order| ensures Later(stamp, order[i], order[j]) { }
      forall i: nat | i < NBUF ensures BufOk(Abs(), i) { }
    }

    /** Link b in behind the list head. */
    method Push(b: nat)
      requires nx.Length == NBUF + 1 == pv.Length && nx != pv && b <= NBUF && nx[HEAD] <= NBUF
      modifies nx, pv
      ensures nx[..] == old(nx[..][b := nx[HEAD]][HEAD := b])
      ensures pv[..] == old(pv[..][b := HEAD][nx[HEAD] := b])
    {
      var first := nx[HEAD];
      nx[b] := nx[HEAD];
      pv[b] := HEAD;
      pv[first] := b;
      nx[HEAD] := b;
    }

    /** The first loop of bget: the buffer that caches the block, if any. */
    method Scan(dev: int, blockno: nat) returns (b: nat)
      requires Valid()
      ensures b == if Find(order, buf[..], (dev, blockno)) == -1 then HEAD else Find(order, buf[..], (dev, blockno))
    {
      ghost var ring, i := [HEAD] + order, 0;
      assert LinkAt(nx[..], pv[..], ring, 0);
      b := nx[HEAD];
      while b != HEAD
        invariant i <= |order| && b == (if i < |order| then order[i] else HEAD)
        invariant Find(order, buf[..], (dev, blockno)) == Find(order[i..], buf[..], (dev, blockno))
        decreases |order| - i
      {
        if buf[b].dev == dev && buf[b].blockno == blockno { return; }
        assert LinkAt(nx[..], pv[..], ring, i + 1);
        b := nx[b];
        i := i + 1;
      }
    }

    /** The second loop of bget: the buffer to recycle, if any. */
    method ScanBack() returns (b: nat)
      requires Valid()
      ensures b == if Victim(order, buf[..]) == -1 then HEAD else Victim(order, buf[..])
    {
      ghost var ring, i: nat := [HEAD] + order, |order|;
      assert LinkAt(nx[..], pv[..], ring, |order|);
      b := pv[HEAD];
      assert order[..i] == order;
      while b != HEAD
        invariant i <= |order| && b == (if i > 0 then order[i - 1] else HEAD)
        invariant Victim(order, buf[..]) == Victim(order[..i], buf[..])
        decreases i
      {
        if !buf[b].busy && !buf[b].dirty { return; }
        assert LinkAt(nx[..], pv[..], ring, i - 1);
        assert order[..i][..i - 1] == order[..i - 1];
        b := pv[b];
        i := i - 1;
      }
    }

    /** bget() up to its return, or up to its sleep when somebody holds the block. */
    method Bget(dev: int, blockno: nat) returns (b: nat, sleeps: bool)
      requires Valid() && Enabled(Abs(), Get(dev, blockno))
      modifies this`touched, buf
      ensures Valid() && Abs() == old(Next(Abs(), Get(dev, blockno))) && b < NBUF && buf[b].K() == (dev, blockno)
      ensures sleeps ==> Abs() == old(Abs()) && buf[b].busy
      ensures !sleeps ==> !old(buf[b].busy) && buf[b].busy
      ensures sleeps <==> exists i: nat :: i < NBUF && old(buf[i]).K() == (dev, blockno) && old(buf[i]).busy
      ensures forall i: nat :: i < NBUF && i != b ==> buf[i] == old(buf[i])
    {
      FindSpec(order, buf[..], (dev, blockno));
      VictimSpec(order, buf[..]);
      ghost var c := Abs();
      StepInv(c, Get(dev, blockno));
      b := Scan(dev, blockno);
      if b != HEAD {
        sleeps := buf[b].busy;
        if !sleeps { buf[b] := buf[b].(busy := true); }
        assert Abs().buf == Next(c, Get(dev, blockno)).buf;
        return;
      }
      sleeps := false;
      b := ScanBack();
      buf[b] := Buf(dev, blockno, true, false, false, buf[b].data);
      touched := touched - {b};
      assert Abs().buf == Next(c, Get(dev, blockno)).buf;
    }

    /** iderw() on a held buffer. */
    method Iderw(b: nat)
      requires Valid() && Enabled(Abs(), Transfer(b))
      modifies this`disk, this`touched, buf
      ensures Valid() && Abs() == old(Next(Abs(), Transfer(b)))
    {
      ghost var c := Abs();
      StepInv(c, Transfer(b));
      if buf[b].dirty {
        disk := disk[buf[b].K() := buf[b].data];
        buf[b] := buf[b].(dirty := false, valid := true);
        touched := touched - {b};
      } else {
        buf[b] := buf[b].(data := OnDisk(disk, buf[b].K()), valid := true);
      }
      assert Abs().buf == Next(c, Transfer(b)).buf;
    }

    /** bread(): a held, valid buffer with the block's contents, or a sleep. */
    method Bread(dev: int, blockno: nat) returns (b: nat, sleeps: bool)
      requires Valid() && Enabled(Abs(), Get(dev, blockno))
      modifies this`disk, this`touched, buf
      ensures Valid() && b < NBUF && buf[b].K() == (dev, blockno) && buf[b].busy
      ensures sleeps ==> Abs() == old(Abs())
      ensures !sleeps ==> buf[b].valid && buf[b].data == old(Logical(Abs(), (dev, blockno)))
      ensures forall k: Key :: k.0 != NODEV ==> Logical(Abs(), k) == old(Logical(Abs(), k))
    {
      ghost var c0 := Abs();
      b, sleeps := Bget(dev, blockno);
      ghost var c := Abs();
      forall k: Key | k.0 != NODEV ensures Logical(c, k) == Logical(c0, k) { Refines(c0, Get(dev, blockno), k); }
      if !sleeps && !buf[b].valid {
        assert BufOk(c, b);
        Iderw(b);
        forall k: Key | k.0 != NODEV ensures Logical(Abs(), k) == Logical(c, k) { Refines(c, Transfer(b), k); }
      }
      if !sleeps { HolderReads(Abs(), b); }
    }

    /** bwrite(): the disk block takes the buffer's contents. */
    method Bwrite(b: nat)
      requires Valid() && b < NBUF && buf[b].busy && buf[b].valid
      modifies this`disk, this`touched, buf
      ensures Valid() && Abs() == old(Next(Next(Abs(), Pin(b)), Transfer(b)))
      ensures disk == old(disk)[buf[b].K() := old(buf[b].data)] && buf[b] == old(buf[b]).(dirty := false)
    {
      ghost var c := Abs();
      StepInv(c, Pin(b));
      buf[b] := buf[b].(dirty := true);
      touched := touched - {b};
      assert Abs().buf == Next(c, Pin(b)).buf;
      Iderw(b);
    }

    /** brelse(): the buffer moves to the front of the list. */
    method Brelse(b: nat)
      requires Valid() && Enabled(Abs(), Release(b))
      modifies this`order, this`stamp, this`clock, nx, pv, buf
      ensures Valid() && Abs() == old(Next(Abs(), Release(b))) && order[0] == b
      ensures buf[b] == old(buf[b]).(busy := false) && forall i: nat :: i < NBUF && i != b ==> buf[i] == old(buf[i])
    {
      ghost var c := Abs();
      StepInv(c, Release(b));
      Relink(b);
      buf[b] := buf[b].(busy := false);
      order, stamp, clock := [b] + Without(order, b), stamp[b := clock], clock + 1;
      assert Abs().buf == Next(c, Release(b)).buf;
    }

    /** Take b out of the list, and link it in again at the front. */
    method Relink(b: nat)
      requires Valid() && b < NBUF
      modifies nx, pv
      ensures Ring(nx[..], pv[..], [HEAD] + ([b] + Without(order, b)))
    {
      TakeOut(b);
      ghost var rest := [HEAD] + Without(order, b);
      assert LinkAt(nx[..], pv[..], rest, 0);
      PushFront(nx[..], pv[..], rest, b);
      assert Pushed(rest, b) == [HEAD] + ([b] + Without(order, b));
      Push(b);
    }

    method TakeOut(b: nat)
      requires Valid() && b < NBUF
      modifies nx, pv
      ensures Ring(nx[..], pv[..], [HEAD] + Without(order, b))
    {
      ghost var ring := [HEAD] + order;
      assert b in order;
      ghost var i :| 0 <= i < |order| && order[i] == b;
      assert ring[i + 1] == b;
      Unlink(nx[..], pv[..], ring, i + 1);
      CutRing(order, i);
      ghost var nx0, pv0 := nx[..], pv[..];
      pv[nx[b]] := pv[b];
      assert pv[b] == pv0[b] by { NotSelf(nx0, pv0, ring, i + 1); }
      nx[pv[b]] := nx[b];
      assert nx[..] == nx0[pv0[b] := nx0[b]] && pv[..] == pv0[nx0[b] := pv0[b]];
    }

    /** With two nodes or more, none is its own neighbour. */
    lemma NotSelf(nx: seq<nat>, pv: seq<nat>, ring: seq<nat>, i: nat)
      requires Ring(nx, pv, ring) && 0 < i < |ring|
      ensures ring[i] < |nx| && nx[ring[i]] != ring[i]
    {
      assert LinkAt(nx, pv, ring, i);
      assert if i + 1 < |ring| then Differ(ring, i, i + 1) else Differ(ring, 0, i);
    }

    lemma CutRing(s: seq<nat>, i: nat)
      requires i < |s| && forall j: nat, k: nat :: j < k < |[HEAD] + s| ==> Differ([HEAD] + s, j, k)
      ensures Cut([HEAD] + s, i + 1) == [HEAD] + Without(s, s[i])
    {
      forall j: nat, k: nat | j < k < |s| ensures Differ(s, j, k) { assert Differ([HEAD] + s, j + 1, k + 1); }
      WithoutCut(s, i);
    }
  }
}
