/**
  The buffer cache of bio.c as a state machine.  Each step is one critical
  section of bcache.lock, one disk transfer, or one change a process makes to
  a buffer it holds; any number of processes interleave their steps.
 */
module BioModel {

  const NBUF: nat := 30
  const NODEV: int := -1

  type Data = seq<int>
  type Key = (int, nat)

  datatype Buf = Buf(dev: int, blockno: nat, busy: bool, valid: bool, dirty: bool, data: Data) {
    function K(): (k: Key) { (dev, blockno) }
  }

  /**
    order lists the buffers from head.next to head.prev; stamp says when each
    was last moved to the front; touched are the held buffers changed since
    they were last marked dirty or written.
   */
  datatype Cache = Cache(order: seq<nat>, buf: seq<Buf>, stamp: seq<nat>, clock: nat, disk: map<Key, Data>,
                         touched: set<nat>)

  datatype Event =
    | Get(dev: int, blockno: nat)   // bget, up to its return or its sleep
    | Transfer(b: nat)              // iderw
    | Change(b: nat, data: Data)    // the holder writes b->data
    | Pin(b: nat)                   // the holder sets B_DIRTY (bwrite, log_write)
    | Release(b: nat)               // brelse

  function OnDisk(disk: map<Key, Data>, k: Key): (d: Data) {
    if k in disk then disk[k] else []
  }

  // ------------------------------------------------------------ searches

  /** The first buffer of the list that caches k. */
  function Find(order: seq<nat>, buf: seq<Buf>, k: Key): (r: int)
    ensures r == -1 || r in order
  {
    if order == [] then -1
    else if order[0] < |buf| && buf[order[0]].K() == k then order[0]
    else Find(order[1..], buf, k)
  }

  predicate Idle(buf: seq<Buf>, b: nat) {
    b < |buf| && !buf[b].busy && !buf[b].dirty
  }

  /** The last buffer of the list that is neither busy nor dirty. */
  function Victim(order: seq<nat>, buf: seq<Buf>): (r: int)
    ensures r == -1 || r in order
  {
    if order == [] then -1
    else
      var last := order[|order| - 1];
      if Idle(buf, last) then last else Victim(order[..|order| - 1], buf)
  }

  ghost predicate Below(s: seq<nat>, n: nat) {
    forall i :: 0 <= i < |s| ==> s[i] < n
  }

  lemma {:induction false} FindSpec(order: seq<nat>, buf: seq<Buf>, k: Key)
    requires Below(order, |buf|)
    ensures var r := Find(order, buf, k);
      if r == -1 then forall b: nat :: b in order && b < |buf| ==> buf[b].K() != k
      else r in order && 0 <= r < |buf| && buf[r].K() == k
  {
    if order != [] && buf[order[0]].K() != k { FindSpec(order[1..], buf, k); }
  }

  ghost predicate NoIdle(order: seq<nat>, buf: seq<Buf>, i: nat) {
    forall j :: i <= j < |order| ==> !Idle(buf, order[j])
  }

  lemma {:induction false} VictimSpec(order: seq<nat>, buf: seq<Buf>)
    ensures var r := Victim(order, buf);
      if r == -1 then forall b :: b in order ==> !Idle(buf, b)
      else exists i :: 0 <= i < |order| && order[i] == r && Idle(buf, order[i]) && NoIdle(order, buf, i + 1)
    decreases |order|
  {
    if order != [] {
      var n := |order| - 1;
      var s := order[..n];
      if !Idle(buf, order[n]) {
        VictimSpec(s, buf);
        if Victim(s, buf) != -1 {
          var i :| 0 <= i < |s| && s[i] == Victim(s, buf) && Idle(buf, s[i]) && NoIdle(s, buf, i + 1);
          forall j | i + 1 <= j < |order| ensures !Idle(buf, order[j]) {
            if j < n { assert s[j] == order[j]; }
          }
          assert NoIdle(order, buf, i + 1);
        }
      } else {
        assert NoIdle(order, buf, n + 1);
      }
    }
  }

  // --------------------------------------------------------------- steps

  function Recycled(c: Cache, v: nat, k: Key): (r: Cache)
    requires v < |c.buf|
  {
    c.(buf := c.buf[v := Buf(k.0, k.1, true, false, false, c.buf[v].data)], touched := c.touched - {v})
  }

  predicate Enabled(c: Cache, e: Event) {
    match e
    case Get(dev, blockno) =>
      dev != NODEV && (Find(c.order, c.buf, (dev, blockno)) == -1 ==> Victim(c.order, c.buf) != -1)
    case Transfer(b) => b < |c.buf| && c.buf[b].busy && (c.buf[b].dirty || !c.buf[b].valid)
    case Change(b, data) => b < |c.buf| && c.buf[b].busy && c.buf[b].valid
    case Pin(b) => b < |c.buf| && c.buf[b].busy && c.buf[b].valid
    case Release(b) => b < |c.buf| && c.buf[b].busy && b !in c.touched
  }

  function Next(c: Cache, e: Event): (r: Cache)
    requires Shape(c) && Enabled(c, e)
  {
    match e
    case Get(dev, blockno) =>
      var h := Find(c.order, c.buf, (dev, blockno));
      if h != -1 then (if c.buf[h].busy then c else c.(buf := c.buf[h := c.buf[h].(busy := true)]))
      else Recycled(c, Victim(c.order, c.buf), (dev, blockno))
    case Transfer(b) =>
      if c.buf[b].dirty then
        c.(disk := c.disk[c.buf[b].K() := c.buf[b].data], buf := c.buf[b := c.buf[b].(dirty := false, valid := true)],
           touched := c.touched - {b})
      else c.(buf := c.buf[b := c.buf[b].(data := OnDisk(c.disk, c.buf[b].K()), valid := true)])
    case Change(b, data) => c.(buf := c.buf[b := c.buf[b].(data := data)], touched := c.touched + {b})
    case Pin(b) => c.(buf := c.buf[b := c.buf[b].(dirty := true)], touched := c.touched - {b})
    case Release(b) =>
      c.(buf := c.buf[b := c.buf[b].(busy := false)], order := [b] + Without(c.order, b),
         stamp := c.stamp[b := c.clock], clock := c.clock + 1)
  }

  function Without(s: seq<nat>, b: nat): (r: seq<nat>)
    ensures forall x :: x in r <==> x in s && x != b
  {
    if s == [] then [] else if s[0] == b then Without(s[1..], b) else [s[0]] + Without(s[1..], b)
  }

  // ----------------------------------------------------------- invariant

  ghost predicate Shape(c: Cache) {
    && |c.buf| == NBUF == |c.stamp|
    && Below(c.order, NBUF) && (forall b: nat :: b < NBUF ==> b in c.order)
  }

  ghost predicate Later(stamp: seq<nat>, a: nat, b: nat) {
    a < |stamp| && b < |stamp| && stamp[a] > stamp[b]
  }

  ghost predicate Descending(s: seq<nat>, stamp: seq<nat>) {
    Below(s, |stamp|) && forall i: nat, j: nat :: i < j < |s| ==> Later(stamp, s[i], s[j])
  }

  /** The list is strictly sorted by recency, so each buffer is on it once. */
  ghost predicate Recent(c: Cache) {
    Descending(c.order, c.stamp) && Below(c.stamp, c.clock)
  }

  /** No two buffers cache the same block. */
  ghost predicate Unique(c: Cache) {
    forall a, b :: 0 <= a < b < |c.buf| && c.buf[a].K() == c.buf[b].K() ==> c.buf[a].dev == NODEV
  }

  ghost predicate BufOk(c: Cache, b: nat)
    requires b < |c.buf|
  {
    var u := c.buf[b];
    && (u.dirty ==> u.valid)
    && (u.valid && !u.dirty && b !in c.touched ==> u.data == OnDisk(c.disk, u.K()))
    && (u.dev == NODEV ==> !u.busy && !u.valid)
    && (b in c.touched ==> u.busy && u.valid)
  }

  ghost predicate Inv(c: Cache) {
    Shape(c) && Recent(c) && Unique(c) && forall b: nat :: b < |c.buf| ==> BufOk(c, b)
  }

  /** A valid, clean buffer that nobody holds equals its disk block. */
  lemma CleanIsDisk(c: Cache, b: nat)
    requires Inv(c) && b < NBUF && c.buf[b].valid && !c.buf[b].dirty && !c.buf[b].busy
    ensures c.buf[b].data == OnDisk(c.disk, c.buf[b].K())
  {
    assert BufOk(c, b);
  }

  /** bget recycles, of the buffers that are neither busy nor dirty, the one released longest ago. */
  lemma VictimIsOldest(c: Cache, b: nat)
    requires Inv(c) && b < NBUF && Idle(c.buf, b)
    ensures 0 <= Victim(c.order, c.buf) < NBUF && Idle(c.buf, Victim(c.order, c.buf))
    ensures b != Victim(c.order, c.buf) ==> c.stamp[Victim(c.order, c.buf)] < c.stamp[b]
  {
    VictimSpec(c.order, c.buf);
    var v := Victim(c.order, c.buf);
    assert b in c.order;
    var i :| 0 <= i < |c.order| && c.order[i] == v && NoIdle(c.order, c.buf, i + 1);
    var k :| 0 <= k < |c.order| && c.order[k] == b;
    assert k != i ==> Later(c.stamp, c.order[k], c.order[i]);
  }

  // ---------------------------------------------------- invariant, steps

  lemma WithoutRecent(order: seq<nat>, stamp: seq<nat>, clock: nat, b: nat)
    requires Descending(order, stamp) && Below(stamp, clock) && b < |stamp|
    ensures Descending([b] + Without(order, b), stamp[b := clock])
  {
    WithoutDescending(order, stamp, b);
    var w := Without(order, b);
    var s, stamp' := [b] + w, stamp[b := clock];
    forall i: nat, j: nat | i < j < |s| ensures Later(stamp', s[i], s[j]) {
      assert s[j] == w[j - 1] && w[j - 1] in w;
      if i > 0 {
        assert s[i] == w[i - 1] && w[i - 1] in w;
        assert Later(stamp, w[i - 1], w[j - 1]);
      }
    }
  }

  lemma {:induction false} WithoutDescending(s: seq<nat>, stamp: seq<nat>, b: nat)
    requires Descending(s, stamp)
    ensures Descending(Without(s, b), stamp)
  {
    if s != [] {
      var w, t := Without(s, b), Without(s[1..], b);
      forall i: nat, j: nat | i < j < |s[1..]| ensures Later(stamp, s[1..][i], s[1..][j]) {
        assert Later(stamp, s[i + 1], s[j + 1]);
      }
      WithoutDescending(s[1..], stamp, b);
      if s[0] != b {
        forall i: nat, j: nat | i < j < |w| ensures Later(stamp, w[i], w[j]) {
          assert w[j] == t[j - 1] && t[j - 1] in t;
          if i > 0 {
            assert w[i] == t[i - 1] && Later(stamp, t[i - 1], t[j - 1]);
          } else {
            assert t[j - 1] in s[1..];
            var m :| 0 <= m < |s[1..]| && s[1..][m] == t[j - 1];
            assert Later(stamp, s[0], s[m + 1]);
          }
        }
      }
    }
  }

  lemma StepGet(c: Cache, dev: int, blockno: nat)
    requires Inv(c) && Enabled(c, Get(dev, blockno))
    ensures Inv(Next(c, Get(dev, blockno)))
  {
    var k := (dev, blockno);
    var c' := Next(c, Get(dev, blockno));
    FindSpec(c.order, c.buf, k);
    VictimSpec(c.order, c.buf);
    forall b: nat | b < NBUF ensures BufOk(c', b) { assert BufOk(c, b); }
    forall a, b | 0 <= a < b < NBUF && c'.buf[a].K() == c'.buf[b].K() ensures c'.buf[a].dev == NODEV {
      assert a in c.order && b in c.order;
      assert c.buf[a].K() == c.buf[b].K() ==> c.buf[a].dev == NODEV;
    }
  }

  lemma StepTransfer(c: Cache, x: nat)
    requires Inv(c) && Enabled(c, Transfer(x))
    ensures Inv(Next(c, Transfer(x)))
  {
    var c' := Next(c, Transfer(x));
    assert BufOk(c, x);
    forall b: nat | b < NBUF ensures BufOk(c', b) {
      assert BufOk(c, b);
      assert b != x ==> c.buf[b].K() != c.buf[x].K();
    }
  }

  lemma StepHolder(c: Cache, e: Event)
    requires Inv(c) && Enabled(c, e) && (e.Change? || e.Pin?)
    ensures Inv(Next(c, e))
  {
    var c' := Next(c, e);
    forall b: nat | b < NBUF ensures BufOk(c', b) { assert BufOk(c, b); }
  }

  lemma StepRelease(c: Cache, x: nat)
    requires Inv(c) && Enabled(c, Release(x))
    ensures Inv(Next(c, Release(x)))
  {
    var c' := Next(c, Release(x));
    WithoutRecent(c.order, c.stamp, c.clock, x);
    forall i | 0 <= i < |c'.order| ensures c'.order[i] < NBUF { assert c'.order[i] == x || c'.order[i] in c.order; }
    forall b: nat | b < NBUF ensures BufOk(c', b) { assert BufOk(c, b); }
  }

  lemma StepInv(c: Cache, e: Event)
    requires Inv(c) && Enabled(c, e)
    ensures Inv(Next(c, e))
  {
    match e
    case Get(dev, blockno) => StepGet(c, dev, blockno);
    case Transfer(b) => StepTransfer(c, b);
    case Change(_, _) => StepHolder(c, e);
    case Pin(_) => StepHolder(c, e);
    case Release(b) => StepRelease(c, b);
  }

  // ---------------------------------------------------------- refinement

  /** What a process reading block k is to see: the cached copy, or else the disk's. */
  function Logical(c: Cache, k: Key): (d: Data)
    requires Shape(c)
  {
    var h := Find(c.order, c.buf, k);
    if h != -1 && c.buf[h].valid then c.buf[h].data else OnDisk(c.disk, k)
  }

  lemma LogicalAt(c: Cache, b: nat, k: Key)
    requires Inv(c) && b < NBUF && c.buf[b].K() == k && k.0 != NODEV
    ensures Find(c.order, c.buf, k) == b
    ensures Logical(c, k) == if c.buf[b].valid then c.buf[b].data else OnDisk(c.disk, k)
  {
    FindSpec(c.order, c.buf, k);
    assert b in c.order;
    var h := Find(c.order, c.buf, k);
    assert c.buf[h].K() == c.buf[b].K() && c.buf[b].dev != NODEV;
  }

  lemma LogicalNone(c: Cache, k: Key)
    requires Shape(c) && forall b :: 0 <= b < NBUF ==> c.buf[b].K() != k
    ensures Logical(c, k) == OnDisk(c.disk, k)
  {
    FindSpec(c.order, c.buf, k);
  }

  /**
    The cache refines a plain block map: only a holder's change alters what
    is read, and it alters the holder's block alone.
   */
  lemma Refines(c: Cache, e: Event, k: Key)
    requires Inv(c) && Enabled(c, e) && k.0 != NODEV
    ensures Inv(Next(c, e))
    ensures Logical(Next(c, e), k) ==
      if e.Change? && c.buf[e.b].K() == k then e.data else Logical(c, k)
  {
    StepInv(c, e);
    var c' := Next(c, e);
    FindSpec(c.order, c.buf, k);
    var h := Find(c.order, c.buf, k);
    if h != -1 {
      if c'.buf[h].K() == k { Stays(c, e, h, k); } else { Evicted(c, e, h, k); }
    } else if b :| 0 <= b < NBUF && c'.buf[b].K() == k {
      Enters(c, e, b, k);
    } else {
      forall b | 0 <= b < NBUF ensures c.buf[b].K() != k { assert b in c.order; }
      LogicalNone(c', k);
    }
  }

  /** A block that keeps its buffer. */
  lemma Stays(c: Cache, e: Event, h: nat, k: Key)
    requires Inv(c) && Enabled(c, e) && Inv(Next(c, e)) && k.0 != NODEV
    requires h < NBUF && c.buf[h].K() == k && Next(c, e).buf[h].K() == k
    ensures Logical(Next(c, e), k) == if e.Change? && c.buf[e.b].K() == k then e.data else Logical(c, k)
  {
    assert BufOk(c, h);
    LogicalAt(c, h, k);
    LogicalAt(Next(c, e), h, k);
    if e.Get? {
      FindSpec(c.order, c.buf, (e.dev, e.blockno));
      VictimSpec(c.order, c.buf);
    } else {
      assert e.b != h ==> c.buf[e.b].K() != k;
    }
  }

  /** A block that was not cached and now is. */
  lemma Enters(c: Cache, e: Event, b: nat, k: Key)
    requires Inv(c) && Enabled(c, e) && Inv(Next(c, e)) && k.0 != NODEV && Find(c.order, c.buf, k) == -1
    requires b < NBUF && Next(c, e).buf[b].K() == k
    ensures !e.Change? && Logical(Next(c, e), k) == Logical(c, k)
  {
    FindSpec(c.order, c.buf, k);
    assert b in c.order && c.buf[b].K() != k;
    LogicalAt(Next(c, e), b, k);
  }

  /** The block whose buffer is recycled loses nothing: the buffer was clean. */
  lemma Evicted(c: Cache, e: Event, h: nat, k: Key)
    requires Inv(c) && Enabled(c, e) && Inv(Next(c, e)) && k.0 != NODEV
    requires h < NBUF && c.buf[h].K() == k && Next(c, e).buf[h].K() != k
    ensures Logical(Next(c, e), k) == Logical(c, k)
  {
    var c' := Next(c, e);
    assert e.Get?;
    FindSpec(c.order, c.buf, (e.dev, e.blockno));
    VictimSpec(c.order, c.buf);
    LogicalAt(c, h, k);
    assert BufOk(c, h);
    forall b | 0 <= b < NBUF ensures c'.buf[b].K() != k {
      if b < h { assert c.buf[b].K() != k; } else if h < b { assert c.buf[b].K() != k; }
    }
    LogicalNone(c', k);
  }

  // ----------------------------------------------------------------- runs

  ghost predicate StepAt(states: seq<Cache>, events: seq<Event>, i: nat)
    requires i < |events| && i + 1 < |states|
  {
    Shape(states[i]) ==> Enabled(states[i], events[i]) && states[i + 1] == Next(states[i], events[i])
  }

  ghost predicate Run(states: seq<Cache>, events: seq<Event>) {
    |states| == |events| + 1 && forall i: nat :: i < |events| ==> StepAt(states, events, i)
  }

  /** The last data written to block k in the first n events, or else what was read before them. */
  function Written(states: seq<Cache>, events: seq<Event>, n: nat, k: Key, first: Data): (d: Data)
    requires n <= |events| && |states| == |events| + 1
  {
    if n == 0 then first
    else if events[n - 1].Change? && events[n - 1].b < |states[n - 1].buf| &&
            states[n - 1].buf[events[n - 1].b].K() == k
    then events[n - 1].data
    else Written(states, events, n - 1, k, first)
  }

  /** In every run, every block reads as the data last written to it. */
  lemma {:induction false} RunReads(states: seq<Cache>, events: seq<Event>, n: nat, k: Key)
    requires Run(states, events) && Inv(states[0]) && n <= |events| && k.0 != NODEV
    ensures Inv(states[n])
    ensures Logical(states[n], k) == Written(states, events, n, k, Logical(states[0], k))
    decreases n
  {
    if n > 0 {
      RunReads(states, events, n - 1, k);
      assert StepAt(states, events, n - 1);
      Refines(states[n - 1], events[n - 1], k);
    }
  }

  /** A buffer that is held and valid holds what its block reads as. */
  lemma HolderReads(c: Cache, b: nat)
    requires Inv(c) && b < NBUF && c.buf[b].busy && c.buf[b].valid
    ensures c.buf[b].data == Logical(c, c.buf[b].K())
  {
    assert BufOk(c, b);
    LogicalAt(c, b, c.buf[b].K());
  }
}
