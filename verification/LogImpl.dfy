/**
  log.c itself: the in-place code of begin_op, log_write, end_op, commit and
  recovery, over a disk array and a buffer cache.  Every primitive appends the
  state it reaches to a ghost trace, and the trace is always a run of
  LogModel; so a machine stopped after any single block write is covered.
 */
module LogImpl {
  import opened LogModel
  import opened LogProofs
  import opened LogRuns

  /** Others hold the buffers of `held`; every other buffer has been released, with no change left unlogged. */
  ghost predicate FreeBut(cache: map<nat, Buf>, held: map<nat, Buf>) {
    && (forall b :: b in held ==> b in cache && cache[b] == held[b])
    && (forall b :: b in cache && b !in held ==> cache[b].holder == Nobody && !cache[b].modified)
  }

  /** None of them is a block that commit() or recovery takes: it would wait for it in bread. */
  ghost predicate Elsewhere(held: map<nat, Buf>, start: nat, size: nat, lh: seq<nat>) {
    forall b :: b in held ==> b !in lh && !(start <= b < start + size)
  }

  ghost function Holding(cache: map<nat, Buf>): (held: map<nat, Buf>) {
    map b | b in cache && cache[b].holder != Nobody :: cache[b]
  }

  /** From state `from` on: up to k a crash recovers `pre`, from k on it recovers `post`. */
  ghost predicate Atomic(states: seq<Sys>, from: nat, k: nat, pre: Disk, post: Disk) {
    && from <= k <= |states|
    && (forall i :: from <= i < k ==> RecoversTo(states[i], pre))
    && (forall i :: k <= i < |states| ==> RecoversTo(states[i], post))
  }

  /** Every crash from state `from` on recovers all of the change from pre to post, or none of it. */
  ghost predicate AllOrNothing(states: seq<Sys>, from: nat, pre: Disk, post: Disk) {
    exists k: nat :: Atomic(states, from, k, pre, post)
  }

  /**
    The last commit() seen from the trace: it was entered when the trace was
    `base`; a crash recovered `pre` until state `since`, and recovers `now` from then on.
   */
  datatype Point = Point(base: seq<Sys>, pre: Disk, since: nat, now: Disk)

  /** A trace ending in s, described by p. */
  ghost predicate TraceOk(states: seq<Sys>, events: seq<Event>, p: Point, s: Sys) {
    && Run(states, events) && Start(states[0]) && states[|events|] == s
    && p.base <= states && p.since <= |events|
    && (forall i :: |p.base| <= i < p.since ==> History(states, events)[i] == p.pre)
    && (forall i :: p.since <= i <= |events| ==> History(states, events)[i] == p.now)
  }

  lemma TraceStep(states: seq<Sys>, events: seq<Event>, p: Point, s: Sys, e: Event)
    requires TraceOk(states, events, p, s) && Enabled(s, e) && !e.WriteHead?
    ensures TraceOk(states + [Next(s, e)], events + [e], p, Next(s, e))
  {
    RunAppend(states, events, e);
  }

  lemma TraceInv(states: seq<Sys>, events: seq<Event>, p: Point, s: Sys)
    requires TraceOk(states, events, p, s)
    ensures Inv(s, p.now)
  {
    RunInv(states, events, |events|);
    assert History(states, events)[|events|] == p.now;
  }

  lemma TraceShape(states: seq<Sys>, events: seq<Event>, p: Point, s: Sys)
    requires TraceOk(states, events, p, s)
    ensures Shape(s)
  {
    TraceInv(states, events, p, s);
  }

  // One lemma per primitive, stated on the fields it changes.

  lemma TraceGet(states: seq<Sys>, events: seq<Event>, p: Point, s: Sys, t: Sys, b: nat, h: Holder)
    requires TraceOk(states, events, p, s) && b < |s.disk| && h != Nobody && (h.ByOp? ==> h.id in s.ops)
    requires b in s.cache ==> s.cache[b].holder == Nobody
    requires t == s.(cache := s.cache[b :=
      if b in s.cache then s.cache[b].(holder := h) else Buf(s.disk[b], h, false, false)])
    ensures TraceOk(states + [t], events + [Get(b, h)], p, t)
  {
    TraceShape(states, events, p, s);
    TraceStep(states, events, p, s, Get(b, h));
  }

  lemma TraceRelease(states: seq<Sys>, events: seq<Event>, p: Point, s: Sys, t: Sys, b: nat)
    requires TraceOk(states, events, p, s) && b in s.cache && s.cache[b].holder != Nobody && !s.cache[b].modified
    requires t == s.(cache := s.cache[b := s.cache[b].(holder := Nobody)])
    ensures TraceOk(states + [t], events + [Release(b)], p, t)
  {
    TraceShape(states, events, p, s);
    TraceStep(states, events, p, s, Release(b));
  }

  lemma TraceModify(states: seq<Sys>, events: seq<Event>, p: Point, s: Sys, t: Sys, b: nat, d: Block)
    requires TraceOk(states, events, p, s) && b in s.cache && s.cache[b].holder.ByOp? && s.cache[b].holder.id in s.ops
    requires Home(s.start, s.size, |s.disk|, b) && |d| == WORDS
    requires t == s.(cache := s.cache[b := s.cache[b].(data := d, modified := true)])
    ensures TraceOk(states + [t], events + [Modify(b, d)], p, t)
  {
    TraceShape(states, events, p, s);
    TraceStep(states, events, p, s, Modify(b, d));
  }

  lemma StoreLogical(s: Sys, t: Sys, b: nat, d: Block)
    requires b in s.cache && b < |s.disk| && t == s.(cache := s.cache[b := s.cache[b].(data := d, modified := true)])
    ensures Logical(t) == Logical(s)[b := d]
  {
  }

  /** bwrite of a buffer the kernel holds, as a change of the fields. */
  ghost predicate Wrote(s: Sys, t: Sys, b: nat, d: Block) {
    && Held(s, b, Kernel) && b < |s.disk| && t.disk == s.disk[b := d]
    && t.cache == s.cache[b := s.cache[b].(data := d, dirty := false)]
    && t == s.(disk := t.disk, cache := t.cache, lh := t.lh, phase := t.phase)
  }

  lemma TraceCopyToLog(states: seq<Sys>, events: seq<Event>, p: Point, s: Sys, t: Sys, tail: nat)
    requires TraceOk(states, events, p, s) && s.phase == WriteLog(tail) && tail < |s.lh| && Held(s, s.lh[tail], Kernel)
    requires Wrote(s, t, s.start + 1 + tail, s.cache[s.lh[tail]].data) && t.lh == s.lh && t.phase == WriteLog(tail + 1)
    ensures TraceOk(states + [t], events + [CopyToLog], p, t)
  {
    TraceShape(states, events, p, s);
    TraceStep(states, events, p, s, CopyToLog);
  }

  lemma TraceCommit(states: seq<Sys>, events: seq<Event>, p: Point, s: Sys, t: Sys, d: Block)
    requires TraceOk(states, events, p, s) && s.phase == WriteLog(|s.lh|) && p.since <= |p.base|
    requires s.start in s.cache && |s.cache[s.start].data| == WORDS && |s.lh| <= LOGSIZE
    requires d == Encode(s.cache[s.start].data, s.lh)
    requires Wrote(s, t, s.start, d) && t.lh == s.lh && t.phase == Install(0, false)
    ensures TraceOk(states + [t], events + [WriteHead], Point(p.base, p.now, |states|, Logical(s)), t)
  {
    TraceShape(states, events, p, s);
    assert t == DoWriteHead(s);
    RunAppend(states, events, WriteHead);
  }

  lemma TraceInstallOne(states: seq<Sys>, events: seq<Event>, p: Point, s: Sys, t: Sys, tail: nat)
    requires TraceOk(states, events, p, s) && s.phase.Install? && s.phase.tail == tail < |s.lh|
    requires Held(s, s.start + 1 + tail, Kernel)
    requires Wrote(s, t, s.lh[tail], s.cache[s.start + 1 + tail].data)
    requires t.lh == s.lh && t.phase == Install(tail + 1, s.phase.recovering)
    ensures TraceOk(states + [t], events + [InstallOne], p, t)
  {
    TraceShape(states, events, p, s);
    TraceStep(states, events, p, s, InstallOne);
  }

  lemma TraceClearHead(states: seq<Sys>, events: seq<Event>, p: Point, s: Sys, t: Sys, d: Block)
    requires TraceOk(states, events, p, s) && s.phase.Install? && s.phase.tail == |s.lh|
    requires s.start in s.cache && |s.cache[s.start].data| == WORDS && d == Encode(s.cache[s.start].data, [])
    requires Wrote(s, t, s.start, d) && t.lh == [] && t.phase == if s.phase.recovering then Running else Finish
    ensures TraceOk(states + [t], events + [ClearHead], p, t)
  {
    TraceShape(states, events, p, s);
    TraceStep(states, events, p, s, ClearHead);
  }

  /** log_write as a change of the fields: b is dirty, and in the list. */
  ghost predicate Listed(s: Sys, t: Sys, b: nat, id: nat) {
    && b in s.cache && id in s.ops
    && t == s.(cache := s.cache[b := s.cache[b].(dirty := true, modified := false)], lh := t.lh, ops := t.ops)
    && t.lh == (if b in s.lh then s.lh else s.lh + [b])
    && t.ops == (if b in s.lh then s.ops else s.ops[id := s.ops[id] + 1])
  }

  lemma TraceLogWrite(states: seq<Sys>, events: seq<Event>, p: Point, s: Sys, t: Sys, b: nat, id: nat)
    requires TraceOk(states, events, p, s) && Held(s, b, ByOp(id)) && id in s.ops && !LogFull(s)
    requires Home(s.start, s.size, |s.disk|, b)
    requires Listed(s, t, b, id)
    ensures Enabled(s, LogWrite(b)) && t == Next(s, LogWrite(b))
    ensures TraceOk(states + [t], events + [LogWrite(b)], p, t)
  {
    TraceShape(states, events, p, s);
    TraceStep(states, events, p, s, LogWrite(b));
  }

  lemma TraceCrash(states: seq<Sys>, events: seq<Event>, p: Point, s: Sys, t: Sys)
    requires TraceOk(states, events, p, s)
    requires t == s.(cache := map[], lh := [], ops := map[], phase := Boot)
    ensures TraceOk(states + [t], events + [Crash], p, t)
  {
    TraceShape(states, events, p, s);
    TraceStep(states, events, p, s, Crash);
  }

  lemma TraceCommitDone(states: seq<Sys>, events: seq<Event>, p: Point, s: Sys, t: Sys)
    requires TraceOk(states, events, p, s) && s.phase.Finish? && t == s.(phase := Running)
    ensures TraceOk(states + [t], events + [CommitDone], p, t)
  {
    TraceShape(states, events, p, s);
    TraceStep(states, events, p, s, CommitDone);
  }

  lemma TraceEndOp(states: seq<Sys>, events: seq<Event>, p: Point, s: Sys, t: Sys, id: nat)
    requires TraceOk(states, events, p, s) && id in s.ops
    requires forall b :: b in s.cache ==> s.cache[b].holder != ByOp(id)
    requires t.ops == s.ops - {id} && t == s.(ops := t.ops, phase := t.phase)
    requires t.phase == if t.ops != map[] then Running else if |s.lh| > 0 then WriteLog(0) else Finish
    ensures TraceOk(states + [t], events + [EndOp(id)], p, t)
    ensures s.phase.Running?
  {
    TraceInv(states, events, p, s);
    TraceStep(states, events, p, s, EndOp(id));
  }

  lemma TraceReadHead(states: seq<Sys>, events: seq<Event>, p: Point, s: Sys)
    requires TraceOk(states, events, p, s) && s.phase.Boot? && Held(s, s.start, Kernel)
    ensures HeaderFits(s.cache[s.start].data)
    ensures var t := s.(lh := Entries(s.cache[s.start].data), phase := Install(0, true));
      TraceOk(states + [t], events + [ReadHead], p, t)
  {
    TraceInv(states, events, p, s);
    assert BufOk(s, s.start);
    TraceStep(states, events, p, s, ReadHead);
  }

  lemma FivePuts(m: map<nat, Buf>, x: nat, y: nat, a: Buf, b: Buf, c: Buf, d: Buf, e: Buf)
    requires x != y
    ensures m[x := a][y := b][x := c][y := d][x := e] == m[x := e][y := d]
  {
  }

  lemma FivePuts2(m: map<nat, Buf>, x: nat, y: nat, a: Buf, b: Buf, c: Buf, d: Buf, e: Buf)
    requires x != y
    ensures m[x := a][y := b][y := c][x := d][y := e] == m[x := d][y := e]
  {
  }

  lemma FreeButPut(cache: map<nat, Buf>, held: map<nat, Buf>, x: nat, f: Buf, y: nat, g: Buf)
    requires FreeBut(cache, held) && f.holder == g.holder == Nobody && !f.modified && !g.modified
    requires x !in held && y !in held
    ensures FreeBut(cache[x := f][y := g], held)
  {
  }

  /** Copying a block into the log region, with buffers taken and released, is invisible. */
  lemma CopyHome(s: Sys, t: Sys, to: nat, f: Buf, from: nat, g: Buf)
    requires s.start <= to < s.start + s.size && to < |s.disk| && from < |s.disk| && from != to
    requires |t.disk| == |s.disk| && (forall b :: 0 <= b < |s.disk| && b != to ==> t.disk[b] == s.disk[b])
    requires t.cache == s.cache[to := f][from := g]
    requires g.data == if from in s.cache then s.cache[from].data else s.disk[from]
    ensures SameHome(Logical(t), Logical(s), s.start, s.size)
  {
  }

  /** Taking a buffer is invisible. */
  lemma GetHome(s: Sys, t: Sys, b: nat)
    requires b < |s.disk| && t == s.(cache := t.cache)
    requires exists h :: t.cache == s.cache[b :=
      if b in s.cache then s.cache[b].(holder := h) else Buf(s.disk[b], h, false, false)]
    ensures Logical(t) == Logical(s)
  {
  }

  lemma SameLogical(s: Sys, t: Sys)
    requires t.disk == s.disk && t.cache == s.cache
    ensures Logical(t) == Logical(s)
  {
  }

  lemma ThreePuts(m: map<nat, Buf>, held: map<nat, Buf>, x: nat, a: Buf, b: Buf, c: Buf)
    requires FreeBut(m, held) && x !in held && c.holder == Nobody && !c.modified
    ensures FreeBut(m[x := a][x := b][x := c], held)
  {
  }

  /** Before the commit point the home blocks on disk are what is committed. */
  lemma NotYetInstalled(s: Sys, c: Disk)
    requires Inv(s, c) && Entries(s.disk[s.start]) == []
    ensures SameHome(s.disk, c, s.start, s.size)
  {
    forall b | 0 <= b < |s.disk| && Home(s.start, s.size, |s.disk|, b) ensures s.disk[b] == c[b] {
      assert HomeOk(s.disk, c, s.start, s.size, b, [], 0);
    }
  }

  /** With nothing pinned and nothing changed, the cache shows the disk. */
  lemma CleanLogical(s: Sys, c: Disk)
    requires Inv(s, c) && s.ops == map[] && (s.phase.Finish? || s.phase.Boot?)
    ensures Logical(s) == s.disk
  {
    forall b | 0 <= b < |s.disk| ensures Logical(s)[b] == s.disk[b] {
      if b in s.cache { assert BufOk(s, b); }
    }
  }

  lemma FreeUnmodified(s: Sys, c: Disk)
    requires Inv(s, c)
    ensures FreeBut(s.cache, Holding(s.cache))
  {
    forall b | b in s.cache && s.cache[b].holder == Nobody ensures !s.cache[b].modified { assert BufOk(s, b); }
  }

  lemma {:induction false} SameGeometry(states: seq<Sys>, events: seq<Event>, i: nat)
    requires Run(states, events) && Start(states[0]) && i < |states|
    ensures states[i].start == states[|events|].start && states[i].size == states[|events|].size
    decreases |events| - i
  {
    if i < |events| {
      assert Shape(states[i]) by { RunInv(states, events, i); }
      assert StepAt(states, events, i);
      SameGeometry(states, events, i + 1);
    }
  }

  class Log {
    const start: nat
    const size: nat
    const disk: array<Block>
    const block: array<nat>   // log.lh.block
    var n: nat                // log.lh.n
    var cache: map<nat, Buf>
    var outstanding: nat
    var committing: bool
    ghost var ops: map<nat, nat>
    ghost var phase: Phase
    ghost var states: seq<Sys>
    ghost var events: seq<Event>
    ghost var point: Point

    ghost function Abs(): (s: Sys)
      reads this`n, this`cache, this`ops, this`phase, disk, block
      requires n <= block.Length
    {
      Sys(start, size, disk[..], cache, block[..n], ops, phase)
    }

    ghost predicate Fields()
      reads this`n, this`cache, this`ops, this`phase, this`outstanding, this`committing, disk, block
    {
      && block.Length == LOGSIZE && n <= LOGSIZE
      && outstanding == |ops|
      && committing == (phase.Finish? || InCommit(Abs()))
    }

    ghost predicate Traced(s: Sys)
      reads this`states, this`events, this`point
    {
      TraceOk(states, events, point, s)
    }

    ghost predicate Valid()
      reads this, disk, block
    {
      Fields() && Traced(Abs())
    }

    lemma InvNow()
      requires Valid()
      ensures Inv(Abs(), point.now)
    {
      TraceInv(states, events, point, Abs());
    }

    lemma ShapeNow()
      requires Valid()
      ensures Shape(Abs())
    {
      InvNow();
    }

    /** commit() entered with trace b has passed its commit point. */
    ghost predicate Split(b: seq<Sys>, pre: Disk, post: Disk)
      reads this`point
    {
      && point.base == b && |b| <= point.since
      && SameHome(point.pre, pre, start, size) && SameHome(point.now, post, start, size)
    }

    /** Then every state of the trace since b recovers to `pre` or to `post`. */
    lemma SplitAtomic(pre: Disk, post: Disk)
      requires Valid() && Split(point.base, pre, post)
      ensures Atomic(states, |point.base|, point.since, pre, post)
    {
      forall i | |point.base| <= i < |states|
        ensures RecoversTo(states[i], if i < point.since then pre else post)
      {
        RunInv(states, events, i);
        var c := if i < point.since then point.pre else point.now;
        assert History(states, events)[i] == c;
        InvRecovers(states[i], c);
        SameGeometry(states, events, i);
      }
    }

    /** The trace gains the state just reached. */
    ghost method Trace(e: Event)
      requires Fields() && TraceOk(states + [Abs()], events + [e], point, Abs())
      modifies this`states, this`events
      ensures Valid() && states == old(states) + [old(Abs())] && events == old(events) + [e]
    {
      states, events := states + [Abs()], events + [e];
    }

    /** initlog() on any disk with a well-formed header: whatever was committed is recovered. */
    constructor (start: nat, size: nat, disk: array<Block>)
      requires DiskOk(disk[..], start, size)
      modifies disk
      ensures this.start == start && this.size == size && this.disk == disk && fresh(block)
      ensures Valid() && phase == Running && n == 0 && outstanding == 0 && !committing && FreeBut(cache, map[])
      ensures SameHome(disk[..], old(Recovered(disk[..], start, size)), start, size)
    {
      this.start, this.size, this.disk := start, size, disk;
      block := new nat[LOGSIZE];
      n, cache, outstanding, committing := 0, map[], 0, false;
      ops, phase := map[], Boot;
      var s := Sys(start, size, disk[..], map[], [], map[], Boot);
      states, events, point := [s], [], Point([s], AtStart(s), 0, AtStart(s));
      new;
      RecoverFromLog();
    }

    // ------------------------------------------------------- buffer cache

    method Bread(b: nat, h: Holder)
      requires Valid() && b < disk.Length && h != Nobody && (h.ByOp? ==> h.id in ops)
      requires b in cache ==> cache[b].holder == Nobody
      modifies this`cache, this`states, this`events
      ensures Valid()
      ensures cache == old(cache[b := if b in cache then cache[b].(holder := h) else Buf(disk[b], h, false, false)])
    {
      ghost var s := Abs();
      ShapeNow();
      if b in cache {
        cache := cache[b := cache[b].(holder := h)];
      } else {
        cache := cache[b := Buf(disk[b], h, false, false)];
      }
      TraceGet(states, events, point, s, Abs(), b, h);
      Trace(Get(b, h));
    }

    method Brelse(b: nat)
      requires Valid() && b in cache && cache[b].holder != Nobody && !cache[b].modified
      modifies this`cache, this`states, this`events
      ensures Valid()
      ensures cache == old(cache[b := cache[b].(holder := Nobody)])
    {
      ghost var s := Abs();
      ShapeNow();
      cache := cache[b := cache[b].(holder := Nobody)];
      TraceRelease(states, events, point, s, Abs(), b);
      Trace(Release(b));
    }

    /** An operation writes into the data of a buffer it holds. */
    method Store(b: nat, d: Block)
      requires Valid() && b in cache && cache[b].holder.ByOp? && cache[b].holder.id in ops
      requires Home(start, size, disk.Length, b) && |d| == WORDS
      modifies this`cache, this`states, this`events
      ensures Valid() && Logical(Abs()) == old(Logical(Abs()))[b := d]
      ensures cache == old(cache[b := cache[b].(data := d, modified := true)]) && events == old(events) + [Modify(b, d)]
    {
      ghost var s := Abs();
      ShapeNow();
      cache := cache[b := cache[b].(data := d, modified := true)];
      StoreLogical(s, Abs(), b, d);
      TraceModify(states, events, point, s, Abs(), b, d);
      Trace(Modify(b, d));
    }

    // ---------------------------------------------------------- operations

    /** One pass of begin_op's loop; false is the pass that goes to sleep. */
    method BeginOp(id: nat) returns (admitted: bool)
      requires Valid() && id !in ops && !phase.Boot? && !(phase.Install? && phase.recovering)
      modifies this
      ensures Valid()
      ensures admitted <==> !old(committing) && old(n) + (old(outstanding) + 1) * MAXOPBLOCKS <= LOGSIZE
      ensures admitted ==> old(Enabled(Abs(), Event.BeginOp(id))) && Abs() == old(Next(Abs(), Event.BeginOp(id)))
      ensures admitted ==> outstanding == old(outstanding) + 1 && ops.Keys == old(ops.Keys) + {id}
      ensures !admitted ==> Abs() == old(Abs()) && states == old(states)
    {
      ghost var s := Abs();
      ShapeNow();
      if committing {
        return false;
      } else if n + (outstanding + 1) * MAXOPBLOCKS > LOGSIZE {
        return false;
      } else {
        outstanding := outstanding + 1;
        ops := ops[id := 0];
        TraceStep(states, events, point, s, Event.BeginOp(id));
        Trace(Event.BeginOp(id));
        return true;
      }
    }

    /** The scan of log_write: the slot holding b, or the first free one. */
    method Slot(b: nat) returns (i: nat)
      requires n <= block.Length
      ensures i <= n && (i < n ==> block[i] == b)
      ensures i < n <==> b in block[..n]
    {
      i := 0;
      while i < n && block[i] != b
        invariant 0 <= i <= n
        invariant b !in block[..i]
      {
        i := i + 1;
      }
    }

    /** Absorb b into the header, or append it and charge operation id for the slot. */
    method Enter(b: nat, ghost id: nat)
      requires n < block.Length && id in ops
      modifies this`n, this`ops, block
      ensures n <= block.Length && |ops| == |old(ops)|
      ensures block[..n] == if b in old(block[..n]) then old(block[..n]) else old(block[..n]) + [b]
      ensures ops == if b in old(block[..n]) then old(ops) else old(ops)[id := old(ops)[id] + 1]
    {
      var i := Slot(b);
      block[i] := b;
      if i == n {
        n := n + 1;
        ops := ops[id := ops[id] + 1];
      }
    }

    /** What log_write does to the header and to the buffer. */
    method Pin(b: nat, ghost id: nat)
      requires n < block.Length && id in ops && b in cache
      modifies this`n, this`ops, this`cache, block
      ensures n <= block.Length && |ops| == |old(ops)| && Listed(old(Abs()), Abs(), b, id)
      ensures b in cache && cache[b].holder == old(cache[b].holder)
    {
      Enter(b, id);
      cache := cache[b := cache[b].(dirty := true, modified := false)];
    }

    /** log_write past its capacity test. */
    method Record(b: nat)
      requires Valid() && !LogFull(Abs()) && b in cache && cache[b].holder.ByOp? && cache[b].holder.id in ops
      requires Home(start, size, disk.Length, b)
      modifies this, block
      ensures Valid()
      ensures old(Enabled(Abs(), Event.LogWrite(b))) && Abs() == old(Next(Abs(), Event.LogWrite(b)))
    {
      ghost var s, id := Abs(), cache[b].holder.id;
      Pin(b, id);
      TraceLogWrite(states, events, point, s, Abs(), b, id);
      Trace(Event.LogWrite(b));
    }

    /** log_write; false is the "too big a transaction" panic. */
    method LogWrite(b: nat) returns (ok: bool)
      requires Valid() && b in cache && cache[b].holder.ByOp? && cache[b].holder.id in ops
      requires Home(start, size, disk.Length, b)
      modifies this, block
      ensures Valid()
      ensures ok <==> !LogFull(old(Abs()))
      ensures ok ==> old(Enabled(Abs(), Event.LogWrite(b))) && Abs() == old(Next(Abs(), Event.LogWrite(b)))
      ensures ok ==> n <= block.Length && b in block[..n] && outstanding == old(outstanding)
      ensures ok ==> cache == old(cache[b := cache[b].(dirty := true, modified := false)])
      ensures !ok ==> Abs() == old(Abs()) && states == old(states)
    {
      if n >= LOGSIZE || n + 1 >= size { return false; }
      Record(b);
      return true;
    }

    // -------------------------------------------------------------- commit

    /** write_log: copy modified blocks from cache to log. */
    method WriteLog(ghost held: map<nat, Buf>)
      requires Valid() && phase == Phase.WriteLog(0) && FreeBut(cache, held)
      requires Elsewhere(held, start, size, block[..n])
      modifies this`cache, this`phase, this`states, this`events, disk
      ensures Valid() && phase == Phase.WriteLog(n) && FreeBut(cache, held)
      ensures SameHome(Logical(Abs()), old(Logical(Abs())), start, size)
    {
      var tail := 0;
      while tail < n
        invariant 0 <= tail <= n
        invariant Valid() && phase == Phase.WriteLog(tail) && FreeBut(cache, held)
        invariant SameHome(Logical(Abs()), old(Logical(Abs())), start, size)
      {
        WriteLogOne(tail, held);
        tail := tail + 1;
      }
    }

    /** One turn of write_log's loop. */
    method WriteLogOne(tail: nat, ghost held: map<nat, Buf>)
      requires Valid() && phase == Phase.WriteLog(tail) && tail < n && FreeBut(cache, held)
      requires Elsewhere(held, start, size, block[..n])
      modifies this`cache, this`phase, this`states, this`events, disk
      ensures Valid() && phase == Phase.WriteLog(tail + 1) && FreeBut(cache, held)
      ensures SameHome(Logical(Abs()), old(Logical(Abs())), start, size)
    {
      ghost var s := Abs();
      var to, from := start + tail + 1, block[tail];
      assert from != to && from < disk.Length && to < start + size <= disk.Length && from !in held && to !in held by {
        ShapeNow();
        assert from == s.lh[tail];
      }
      CopyRound(tail, to, from, held);
      FreeButPut(s.cache, held, to, cache[to], from, cache[from]);
      CopyHome(s, Abs(), to, cache[to], from, cache[from]);
    }

    /** Take both buffers, copy, write the log block, release both. */
    method CopyRound(tail: nat, to: nat, from: nat, ghost held: map<nat, Buf>)
      requires Valid() && phase == Phase.WriteLog(tail) && tail < n
      requires FreeBut(cache, held) && to !in held && from !in held
      requires to == start + tail + 1 && from == block[tail] && to < disk.Length && from < disk.Length && to != from
      modifies this`cache, this`phase, this`states, this`events, disk
      ensures Valid() && phase == Phase.WriteLog(tail + 1)
      ensures to in cache && from in cache && cache == old(cache)[to := cache[to]][from := cache[from]]
      ensures cache[to].holder == cache[from].holder == Nobody && !cache[to].modified && !cache[from].modified
      ensures cache[from].data == old(if from in cache then cache[from].data else disk[from])
      ensures disk[..] == old(disk[..])[to := cache[from].data]
    {
      Bread(to, Kernel);
      ghost var a := cache[to];
      Bread(from, Kernel);
      ghost var b := cache[from];
      CopyToLog(tail, to, from);
      ghost var d := cache[to];
      Brelse(from);
      Brelse(to);
      FivePuts(old(cache), to, from, a, b, d, cache[from], cache[to]);
    }

    /** memmove(to, from) and bwrite(to). */
    method CopyToLog(tail: nat, to: nat, from: nat)
      requires Valid() && phase == Phase.WriteLog(tail) && tail < n
      requires to == start + tail + 1 && from == block[tail] && to < disk.Length
      requires Held(Abs(), to, Kernel) && Held(Abs(), from, Kernel)
      modifies this`cache, this`phase, this`states, this`events, disk
      ensures Valid() && phase == Phase.WriteLog(tail + 1)
      ensures cache == old(cache[to := cache[to].(data := cache[from].data, dirty := false)])
      ensures disk[..] == old(disk[..][to := cache[from].data])
    {
      ghost var s := Abs();
      assert from == s.lh[tail];
      var d := cache[from].data;
      cache := cache[to := cache[to].(data := d, dirty := false)];
      disk[to] := d;
      phase := Phase.WriteLog(tail + 1);
      TraceCopyToLog(states, events, point, s, Abs(), tail);
      Trace(Event.CopyToLog);
    }

    /** The loop of write_head that fills the header buffer. */
    method FillHeader(was: Block) returns (d: Block)
      requires |was| == WORDS && block.Length == LOGSIZE && n <= LOGSIZE
      ensures d == Encode(was, block[..n])
    {
      d := was[0 := n];
      var i := 0;
      while i < n
        invariant 0 <= i <= n
        invariant d == [n] + block[..i] + was[1 + i..]
      {
        d := d[1 + i := block[i]];
        i := i + 1;
      }
    }

    /** write_head with lh.n > 0: the one block write that commits. */
    method WriteHead(ghost held: map<nat, Buf>)
      requires Valid() && phase == Phase.WriteLog(n) && FreeBut(cache, held) && point.since <= |point.base|
      requires Elsewhere(held, start, size, block[..n])
      modifies this`cache, this`phase, this`states, this`events, this`point, disk
      ensures Valid() && phase == Install(0, false) && FreeBut(cache, held)
      ensures point == Point(old(point.base), old(point.now), point.since, old(Logical(Abs())))
      ensures |point.base| <= point.since
    {
      ghost var s := Abs();
      assert start < disk.Length && start !in held by { ShapeNow(); }
      Bread(start, Kernel);
      GetHome(s, Abs(), start);
      ghost var a := cache[start];
      PutHead();
      ghost var b := cache[start];
      Brelse(start);
      ThreePuts(s.cache, held, start, a, b, cache[start]);
    }

    /** write_head on the header buffer already held: fill it and bwrite it. */
    method StoreHeader() returns (d: Block)
      requires block.Length == LOGSIZE && n <= LOGSIZE && start < disk.Length
      requires start in cache && |cache[start].data| == WORDS
      modifies this`cache, disk
      ensures d == Encode(old(cache[start].data), block[..n])
      ensures cache == old(cache[start := cache[start].(data := d, dirty := false)])
      ensures disk[..] == old(disk[..])[start := d]
    {
      d := FillHeader(cache[start].data);
      cache := cache[start := cache[start].(data := d, dirty := false)];
      disk[start] := d;
    }

    method PutHead()
      requires Valid() && phase == Phase.WriteLog(n) && Held(Abs(), start, Kernel) && point.since <= |point.base|
      modifies this`cache, this`phase, this`states, this`events, this`point, disk
      ensures Valid() && phase == Install(0, false)
      ensures point == Point(old(point.base), old(point.now), old(|states|), old(Logical(Abs())))
      ensures start in cache && cache == old(cache)[start := cache[start]]
      ensures cache[start].holder == Kernel && cache[start].modified == old(cache[start].modified)
    {
      ghost var s := Abs();
      assert start < disk.Length && |cache[start].data| == WORDS by { ShapeNow(); }
      var d := StoreHeader();
      phase := Install(0, false);
      TraceCommit(states, events, point, s, Abs(), d);
      point := Point(point.base, point.now, |states|, Logical(s));
      Trace(Event.WriteHead);
    }

    /** install_trans: copy blocks from the log to their home locations. */
    method InstallTrans(recovering: bool, ghost held: map<nat, Buf>)
      requires Valid() && phase == Install(0, recovering) && FreeBut(cache, held)
      requires Elsewhere(held, start, size, block[..n])
      modifies this`cache, this`phase, this`states, this`events, disk
      ensures Valid() && phase == Install(n, recovering) && FreeBut(cache, held)
    {
      var tail := 0;
      while tail < n
        invariant 0 <= tail <= n
        invariant Valid() && phase == Install(tail, recovering) && FreeBut(cache, held)
      {
        InstallTransOne(tail, recovering, held);
        tail := tail + 1;
      }
    }

    /** One turn of install_trans's loop. */
    method InstallTransOne(tail: nat, recovering: bool, ghost held: map<nat, Buf>)
      requires Valid() && phase == Install(tail, recovering) && tail < n && FreeBut(cache, held)
      requires Elsewhere(held, start, size, block[..n])
      modifies this`cache, this`phase, this`states, this`events, disk
      ensures Valid() && phase == Install(tail + 1, recovering) && FreeBut(cache, held)
    {
      ghost var was := cache;
      var from: nat, to: nat := start + tail + 1, block[tail];
      assert from != to && to < disk.Length && from < disk.Length && from !in held && to !in held by {
        ShapeNow();
        assert to == Abs().lh[tail];
      }
      InstallRound(tail, recovering, to, from, held);
      FreeButPut(was, held, from, cache[from], to, cache[to]);
    }

    /** Take both buffers, copy, write the home block, release both. */
    method InstallRound(tail: nat, recovering: bool, to: nat, from: nat, ghost held: map<nat, Buf>)
      requires Valid() && phase == Install(tail, recovering) && tail < n
      requires FreeBut(cache, held) && to !in held && from !in held
      requires from == start + tail + 1 && to == block[tail] && to < disk.Length && from < disk.Length && to != from
      modifies this`cache, this`phase, this`states, this`events, disk
      ensures Valid() && phase == Install(tail + 1, recovering)
      ensures to in cache && from in cache && cache == old(cache)[from := cache[from]][to := cache[to]]
      ensures cache[to].holder == cache[from].holder == Nobody && !cache[to].modified && !cache[from].modified
    {
      Bread(from, Kernel);
      ghost var a := cache[from];
      Bread(to, Kernel);
      ghost var b := cache[to];
      InstallBlock(tail, recovering, to, from);
      ghost var d := cache[to];
      Brelse(from);
      Brelse(to);
      FivePuts2(old(cache), from, to, a, b, d, cache[from], cache[to]);
    }

    /** memmove(dbuf, lbuf) and bwrite(dbuf). */
    method InstallBlock(tail: nat, recovering: bool, to: nat, from: nat)
      requires Valid() && phase == Install(tail, recovering) && tail < n
      requires from == start + tail + 1 && to == block[tail] && to < disk.Length
      requires Held(Abs(), to, Kernel) && Held(Abs(), from, Kernel)
      modifies this`cache, this`phase, this`states, this`events, disk
      ensures Valid() && phase == Install(tail + 1, recovering)
      ensures cache == old(cache[to := cache[to].(data := cache[from].data, dirty := false)])
      ensures disk[..] == old(disk[..][to := cache[from].data])
    {
      ghost var s := Abs();
      assert to == s.lh[tail];
      var d := cache[from].data;
      cache := cache[to := cache[to].(data := d, dirty := false)];
      disk[to] := d;
      phase := Install(tail + 1, recovering);
      TraceInstallOne(states, events, point, s, Abs(), tail);
      Trace(Event.InstallOne);
    }

    /** lh.n = 0 and write_head: erase the transaction. */
    method ClearHead(recovering: bool, ghost held: map<nat, Buf>)
      requires Valid() && phase == Install(n, recovering) && FreeBut(cache, held)
      requires Elsewhere(held, start, size, block[..n])
      modifies this`n, this`cache, this`phase, this`states, this`events, disk
      ensures Valid() && phase == (if recovering then Running else Finish) && FreeBut(cache, held) && n == 0
    {
      ghost var was := cache;
      assert start < disk.Length && start !in held by { ShapeNow(); }
      Bread(start, Kernel);
      ghost var a := cache[start];
      PutClearHead(recovering);
      ghost var b := cache[start];
      Brelse(start);
      ThreePuts(was, held, start, a, b, cache[start]);
    }

    method PutClearHead(recovering: bool)
      requires Valid() && phase == Install(n, recovering) && Held(Abs(), start, Kernel)
      modifies this`n, this`cache, this`phase, this`states, this`events, disk
      ensures Valid() && phase == (if recovering then Running else Finish) && n == 0
      ensures start in cache && cache == old(cache)[start := cache[start]]
      ensures cache[start].holder == Kernel && cache[start].modified == old(cache[start].modified)
    {
      ghost var s := Abs();
      assert start < disk.Length && |cache[start].data| == WORDS by { ShapeNow(); }
      n := 0;
      var d := StoreHeader();
      phase := if recovering then Running else Finish;
      TraceClearHead(states, events, point, s, Abs(), d);
      Trace(Event.ClearHead);
    }

    /** commit() up to its first header write. */
    method CommitPoint(ghost held: map<nat, Buf>)
      requires Valid() && phase == Phase.WriteLog(0) && FreeBut(cache, held)
      requires Elsewhere(held, start, size, block[..n])
      modifies this`cache, this`phase, this`states, this`events, this`point, disk
      ensures Valid() && phase == Install(0, false) && FreeBut(cache, held)
      ensures Split(old(states), old(disk[..]), old(Logical(Abs())))
    {
      assert SameHome(disk[..], point.now, start, size) by { InvNow(); NotYetInstalled(Abs(), point.now); }
      point := point.(base := states);
      WriteLog(held);
      WriteHead(held);
    }

    /** commit() with something to commit. */
    method CommitBlocks(ghost held: map<nat, Buf>)
      requires Valid() && n > 0 && phase == Phase.WriteLog(0) && FreeBut(cache, held)
      requires Elsewhere(held, start, size, block[..n])
      modifies this, disk
      ensures Valid() && phase == Finish && FreeBut(cache, held) && n == 0 && ops == old(ops)
      ensures SameHome(disk[..], old(Logical(Abs())), start, size)
      ensures Split(old(states), old(disk[..]), old(Logical(Abs())))
    {
      CommitPoint(held);
      InstallTrans(false, held);
      ClearHead(false, held);
      assert SameHome(disk[..], point.now, start, size) by { InvNow(); NotYetInstalled(Abs(), point.now); }
    }

    /**
      commit(): the log is emptied, the home blocks hold the logical contents
      on entry, and a crash after any single block write recovers either all
      of the transaction or none of it, decided by the first header write.
     */
    method Commit(ghost held: map<nat, Buf>)
      requires Valid() && phase == (if n > 0 then Phase.WriteLog(0) else Finish) && FreeBut(cache, held)
      requires Elsewhere(held, start, size, block[..n])
      modifies this, disk
      ensures Valid() && phase == Finish && FreeBut(cache, held) && n == 0
      ensures ops == old(ops)
      ensures old(states) <= states
      ensures SameHome(disk[..], old(Logical(Abs())), start, size)
      ensures old(n) == 0 ==> Abs() == old(Abs()) && states == old(states)
      ensures old(n) > 0 ==> Split(old(states), old(disk[..]), old(Logical(Abs())))
      ensures AllOrNothing(states, old(|states|), old(disk[..]), old(Logical(Abs())))
    {
      ghost var s := Abs();
      if n > 0 {
        CommitBlocks(held);
        SplitAtomic(s.disk, Logical(s));
      } else {
        assert Logical(s) == s.disk by { InvNow(); CleanLogical(s, point.now); }
        assert Atomic(states, |states|, |states|, s.disk, Logical(s));
      }
    }

    /** end_op; the last outstanding operation commits. */
    method EndOp(id: nat)
      requires Valid() && id in ops
      requires forall b :: b in cache ==> cache[b].holder != ByOp(id)
      requires |ops| == 1 ==> Elsewhere(Holding(cache), start, size, block[..n])
      modifies this, disk
      ensures Valid() && phase == Running && !committing && ops == old(ops) - {id}
      ensures old(|ops|) > 1 ==> n == old(n) && cache == old(cache) && disk[..] == old(disk[..])
      ensures old(|ops|) == 1 ==>
        && n == 0 && SameHome(disk[..], old(Logical(Abs())), start, size)
        && FreeBut(cache, old(Holding(cache)))
        && AllOrNothing(states, old(|states|) + 1, old(disk[..]), old(Logical(Abs())))
    {
      ghost var held, was := Holding(cache), Logical(Abs());
      assert FreeBut(cache, held) by { InvNow(); FreeUnmodified(Abs(), point.now); }
      var last := StartEndOp(id, was);
      if last { CommitLast(held, was); }
    }

    /** The commit of the last operation, and log.committing = 0. */
    method CommitLast(ghost held: map<nat, Buf>, ghost was: Disk)
      requires Valid() && phase == (if n > 0 then Phase.WriteLog(0) else Finish) && FreeBut(cache, held)
      requires Elsewhere(held, start, size, block[..n])
      requires Logical(Abs()) == was
      modifies this, disk
      ensures Valid() && phase == Running && !committing && n == 0 && ops == old(ops) && FreeBut(cache, held)
      ensures SameHome(disk[..], was, start, size)
      ensures AllOrNothing(states, old(|states|), old(disk[..]), was)
    {
      ghost var s, from := Abs(), |states|;
      assert n == 0 ==> Logical(s) == s.disk by { InvNow(); if n == 0 { CleanLogical(s, point.now); } }
      Commit(held);
      FinishCommit();
      if |s.lh| > 0 {
        SplitAtomic(s.disk, Logical(s));
      } else {
        assert RecoversTo(Abs(), s.disk) by {
          InvNow();
          NotYetInstalled(Abs(), point.now);
          InvRecovers(Abs(), point.now);
        }
        assert Atomic(states, from, from, s.disk, Logical(s));
      }
    }

    /** The first critical section of end_op: whether it was the last operation. */
    method StartEndOp(id: nat, ghost was: Disk) returns (last: bool)
      requires Valid() && id in ops && (forall b :: b in cache ==> cache[b].holder != ByOp(id)) && was == Logical(Abs())
      modifies this`outstanding, this`committing, this`ops, this`phase, this`states, this`events
      ensures Valid() && ops == old(ops) - {id} && |states| == old(|states|) + 1 && was == Logical(Abs())
      ensures last <==> old(|ops|) == 1
      ensures phase == if !last then Running else if n > 0 then Phase.WriteLog(0) else Finish
    {
      ghost var s := Abs();
      outstanding := outstanding - 1;
      ops := ops - {id};
      phase := if ops != map[] then Running else if n > 0 then Phase.WriteLog(0) else Finish;
      last := outstanding == 0;
      if last { committing := true; }
      ghost var t := Abs();
      TraceEndOp(states, events, point, s, t, id);
      SameLogical(s, t);
      Trace(Event.EndOp(id));
    }

    method FinishCommit()
      requires Valid() && phase == Finish
      modifies this`committing, this`phase, this`states, this`events
      ensures Valid() && phase == Running && !committing
      ensures states == old(states) + [Abs()]
    {
      ghost var s := Abs();
      committing := false;
      phase := Running;
      TraceCommitDone(states, events, point, s, Abs());
      Trace(CommitDone);
    }

    // ------------------------------------------------------------ recovery

    /** The machine stops: memory is gone, the disk stays as it is. */
    method Crash()
      requires Valid()
      modifies this`n, this`cache, this`outstanding, this`committing, this`ops, this`phase, this`states, this`events
      ensures Valid() && phase == Boot && cache == map[] && n == 0 && outstanding == 0
    {
      ghost var s := Abs();
      n, cache, outstanding, committing := 0, map[], 0, false;
      ops, phase := map[], Boot;
      TraceCrash(states, events, point, s, Abs());
      Trace(Event.Crash);
    }

    /** read_head: the header block is read into memory. */
    method ReadHead()
      requires Valid() && phase == Boot && cache == map[]
      modifies this`n, this`cache, this`phase, this`states, this`events, block
      ensures Valid() && phase == Install(0, true) && FreeBut(cache, map[])
    {
      assert start < disk.Length by { ShapeNow(); }
      Bread(start, Kernel);
      LoadHead();
      Brelse(start);
    }

    /** The loop of read_head. */
    method CopyEntries(d: Block)
      requires HeaderFits(d) && block.Length == LOGSIZE
      modifies this`n, block
      ensures n <= LOGSIZE && block[..n] == Entries(d)
    {
      n := d[0];
      var i := 0;
      while i < n
        invariant 0 <= i <= n == d[0]
        invariant block[..i] == d[1..1 + i]
      {
        block[i] := d[1 + i];
        i := i + 1;
      }
    }

    method LoadHead()
      requires Valid() && phase == Boot && Held(Abs(), start, Kernel)
      modifies this`n, this`phase, this`states, this`events, block
      ensures Valid() && phase == Install(0, true)
    {
      ghost var s := Abs();
      TraceReadHead(states, events, point, s);
      CopyEntries(cache[start].data);
      phase := Install(0, true);
      Trace(Event.ReadHead);
    }

    /**
      recover_from_log: afterwards the home blocks are Recovered of the disk on
      entry, and a crash at any point of recovery recovers the same contents.
     */
    method RecoverFromLog()
      requires Valid() && phase == Boot && cache == map[]
      modifies this, disk, block
      ensures Valid() && phase == Running && n == 0 && outstanding == old(outstanding) && FreeBut(cache, map[])
      ensures DiskOk(old(disk[..]), start, size)
      ensures SameHome(disk[..], Recovered(old(disk[..]), start, size), start, size)
      ensures forall i :: old(|states|) <= i < |states| ==>
                RecoversTo(states[i], Recovered(old(disk[..]), start, size))
    {
      ghost var d, from := disk[..], |states|;
      assert DiskOk(d, start, size) && SameHome(Recovered(d, start, size), point.now, start, size) by {
        InvNow();
        InvRecovers(Abs(), point.now);
      }
      ReadHead();
      InstallTrans(true, map[]);
      ClearHead(true, map[]);
      assert SameHome(disk[..], point.now, start, size) by { InvNow(); NotYetInstalled(Abs(), point.now); }
      forall i | from <= i < |states| ensures RecoversTo(states[i], Recovered(d, start, size)) {
        RunInv(states, events, i);
        assert History(states, events)[i] == point.now;
        InvRecovers(states[i], point.now);
        SameGeometry(states, events, i);
      }
    }
  }
}
