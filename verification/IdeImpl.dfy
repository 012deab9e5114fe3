/** iderw and ideintr of ide.c over the linked request queue, and memide.c's iderw. */
module IdeImpl {
  import opened IdeModel
  import B = BioModel

  const NIL: int := -1

  /** The queue reached from head through the qnext links. */
  ghost predicate Chain(next: seq<int>, head: int, q: seq<nat>)
    decreases |q|
  {
    if q == [] then head == NIL else head == q[0] && q[0] < |next| && Chain(next, next[q[0]], q[1..])
  }

  /** Links of buffers that are not on the chain do not matter. */
  lemma {:induction false} ChainFrame(next: seq<int>, head: int, q: seq<nat>, b: nat, x: int)
    requires Chain(next, head, q) && b !in q && b < |next|
    ensures Chain(next[b := x], head, q)
    decreases |q|
  {
    if q != [] { ChainFrame(next, next[q[0]], q[1..], b, x); }
  }

  /** Linking b behind the last request. */
  lemma {:induction false} ChainAppend(next: seq<int>, head: int, q: seq<nat>, b: nat)
    requires Chain(next, head, q) && q != [] && b < |next| && next[b] == NIL && b !in q && q[|q| - 1] < |next|
    requires forall i: nat, j: nat :: i < j < |q| ==> Differ(q, i, j)
    ensures Chain(next[q[|q| - 1] := b], head, q + [b])
    decreases |q|
  {
    var last := q[|q| - 1];
    var n' := next[last := b];
    assert (q + [b])[1..] == q[1..] + [b];
    if |q| == 1 {
      assert Chain(n', n'[b], []);
      assert [b][1..] == [] && Chain(n', b, [b]);
    } else {
      assert Differ(q, 0, |q| - 1);
      forall i: nat, j: nat | i < j < |q[1..]| ensures Differ(q[1..], i, j) { assert Differ(q, i + 1, j + 1); }
      ChainAppend(next, next[q[0]], q[1..], b);
    }
  }

  /** The link field after position i of the chain. */
  lemma {:induction false} ChainAt(next: seq<int>, head: int, q: seq<nat>, i: nat)
    requires Chain(next, head, q) && i < |q|
    ensures q[i] < |next| && next[q[i]] == if i + 1 < |q| then q[i + 1] else NIL
    decreases |q|
  {
    if i > 0 { ChainAt(next, next[q[0]], q[1..], i - 1); }
  }

  class Ide {
    const buf: array<Buf>
    const qnext: array<int>
    var idequeue: int
    var cmd: Command              // the controller
    var disk: map<Key, Data>
    ghost var queue: seq<nat>
    ghost var waiting: set<nat>
    ghost var asked: seq<nat>
    ghost var done: seq<nat>

    ghost function Abs(): (s: Disk)
      reads this, buf
    {
      Disk(buf[..], queue, cmd, disk, waiting, asked, done)
    }

    ghost predicate Valid()
      reads this, buf, qnext
    {
      qnext.Length == buf.Length && Inv(Abs()) && Shape(Abs()) && Chain(qnext[..], idequeue, queue)
    }

    constructor (n: nat, disk: map<Key, Data>)
      ensures Valid() && Fresh(Abs()) && buf.Length == n && fresh(buf) && fresh(qnext) && this.disk == disk
    {
      buf := new Buf[n](_ => B.Buf(0, 0, false, false, false, []));
      qnext := new int[n](_ => NIL);
      idequeue, cmd, this.disk := NIL, Idle, disk;
      queue, waiting, asked, done := [], {}, [], [];
    }

    /** iderw() up to its wait: append the request, and start the disk if it is the only one. */
    method Iderw(b: nat)
      requires Valid() && Enabled(Abs(), Rw(b))
      modifies this`idequeue, this`cmd, this`queue, this`waiting, this`asked, qnext
      ensures Valid() && Abs() == old(Next(Abs(), Rw(b))) && queue == old(queue) + [b]
    {
      StepInv(Abs(), Rw(b));
      Append(b);
      queue, waiting, asked := queue + [b], waiting + {b}, asked + [b];
      if idequeue == b { cmd := Start(buf[b]); }
    }

    /** The queue insertion of iderw; pp is the link followed last, NIL standing for idequeue itself. */
    method Append(b: nat)
      requires Valid() && b < buf.Length && b !in waiting
      modifies this`idequeue, qnext
      ensures Chain(qnext[..], idequeue, queue + [b])
      ensures idequeue == b <==> queue == []
    {
      assert b !in queue by { if b in queue { QueueWaits(Abs(), b); } }
      ChainFrame(qnext[..], idequeue, queue, b, NIL);
      qnext[b] := NIL;
      var pp := NIL;
      ghost var i := 0;
      while (if pp == NIL then idequeue else qnext[pp]) != NIL
        invariant Chain(qnext[..], idequeue, queue) && i <= |queue| && qnext[b] == NIL
        invariant if i == 0 then pp == NIL else pp == queue[i - 1] && 0 <= pp < qnext.Length
        decreases |queue| - i
      {
        if i > 0 { ChainAt(qnext[..], idequeue, queue, i - 1); }
        pp := if pp == NIL then idequeue else qnext[pp];
        if i < |queue| { ChainAt(qnext[..], idequeue, queue, i); }
        i := i + 1;
      }
      if pp == NIL {
        idequeue := b;
        assert queue == [] && [b][1..] == [];
        assert Chain(qnext[..], b, [b]);
        assert queue + [b] == [b];
      } else {
        ChainAt(qnext[..], idequeue, queue, i - 1);
        ChainAppend(qnext[..], idequeue, queue, b);
        qnext[pp] := b;
      }
    }

    /** ideintr(). */
    method Ideintr()
      requires Valid()
      modifies this`idequeue, this`cmd, this`disk, this`queue, this`done, buf
      ensures Valid() && Abs() == old(Next(Abs(), Intr)) && queue == if old(queue) == [] then [] else old(queue)[1..]
      ensures old(queue) != [] ==> (buf[..], disk) == Sync(old(buf[..]), old(disk), old(queue)[0])
    {
      ghost var s := Abs();
      StepInv(s, Intr);
      Refines(s, Intr);
      if idequeue == NIL { return; }
      assert s.queue[0] < |s.buf|;
      var b := idequeue;
      idequeue := qnext[b];
      Complete(b);
      queue, done := queue[1..], done + [queue[0]];
      NextHead(s, qnext[..], idequeue, queue);
      cmd := Idle;
      if idequeue != NIL { cmd := Start(buf[idequeue]); }
      assert Abs() == Next(s, Intr);
    }

    /** The controller's command is done: the disk has a write's data, the buffer a read's, and its flags say so. */
    method Complete(b: nat)
      requires b < buf.Length
      modifies this`disk, buf
      ensures disk == old(Finish(disk, cmd))
      ensures buf[..] == old(buf[..][b := Completed(buf[b], if cmd.ReadCmd? then B.OnDisk(disk, cmd.k) else [])])
    {
      var data := if cmd.ReadCmd? then B.OnDisk(disk, cmd.k) else [];
      disk := Finish(disk, cmd);
      if !buf[b].dirty { buf[b] := buf[b].(data := data); }
      buf[b] := buf[b].(valid := true);
      buf[b] := buf[b].(dirty := false);
    }
  }

  /** The new head, if any, is another buffer of the cache. */
  lemma NextHead(s: Disk, next: seq<int>, head: int, q: seq<nat>)
    requires Inv(s) && Shape(s) && s.queue != [] && q == s.queue[1..] && Chain(next, head, q)
    ensures head == NIL <==> q == []
    ensures q != [] ==> head == q[0] && 0 <= head < |s.buf| && q[0] != s.queue[0]
  {
    if q != [] { assert Differ(s.queue, 0, 1) && Queued(s, 1); }
  }

  lemma QueueWaits(s: Disk, b: nat)
    requires Inv(s) && b in s.queue
    ensures b in s.waiting
  {
    var i :| 0 <= i < |s.queue| && s.queue[i] == b;
    assert Queued(s, i);
  }

  /** memide.c: the disk is memory, and iderw copies at once. */
  class Memide {
    const buf: array<Buf>
    var disk: map<Key, Data>

    constructor (n: nat, disk: map<Key, Data>)
      ensures buf.Length == n && fresh(buf) && this.disk == disk
    {
      buf := new Buf[n](_ => B.Buf(0, 0, false, false, false, []));
      this.disk := disk;
    }

    method Iderw(b: nat)
      requires b < buf.Length && buf[b].busy && Needs(buf[b])
      modifies this`disk, buf
      ensures (buf[..], disk) == old(Sync(buf[..], disk, b))
    {
      if buf[b].dirty {
        buf[b] := buf[b].(dirty := false);
        disk := disk[buf[b].K() := buf[b].data];
      } else {
        buf[b] := buf[b].(data := B.OnDisk(disk, buf[b].K()));
      }
      buf[b] := buf[b].(valid := true);
      assert buf[..] == old(Sync(buf[..], disk, b)).0;
    }
  }
}
