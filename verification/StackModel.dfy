/**
  The buffer cache of bio.c on the interrupt-driven disk of ide.c.  A transfer
  is a queued request; between the call of iderw and its interrupt the other
  processes go on using the cache.
 */
module StackModel {

  import B = BioModel
  import I = IdeModel

  /** The cache, with the driver's queue, command and waiting callers beside it. */
  datatype Stack = Stack(cache: B.Cache, queue: seq<nat>, cmd: I.Command, waiting: set<nat>, asked: seq<nat>,
                         done: seq<nat>)

  datatype Event =
    | Use(u: B.Event)   // bget, brelse, or a holder's change of its buffer
    | Call(b: nat)      // a holder calls iderw
    | Intr              // the controller is done with its command
    | Return(b: nat)    // iderw returns to the holder

  /** What the driver sees: it works on the cache's own buffers. */
  function View(s: Stack): (d: I.Disk) {
    I.Disk(s.cache.buf, s.queue, s.cmd, s.cache.disk, s.waiting, s.asked, s.done)
  }

  function Request(e: Event): (r: I.Event)
    requires !e.Use?
  {
    match e
    case Call(b) => I.Rw(b)
    case Intr => I.Intr
    case Return(b) => I.Return(b)
  }

  /** A process inside iderw does nothing else with its buffer. */
  predicate Enabled(s: Stack, e: Event) {
    if e.Use? then !e.u.Transfer? && B.Enabled(s.cache, e.u) && (e.u.Get? || e.u.b !in s.waiting)
    else I.Enabled(View(s), Request(e))
  }

  function Next(s: Stack, e: Event): (r: Stack)
    requires B.Shape(s.cache) && I.Shape(View(s)) && Enabled(s, e)
  {
    if e.Use? then s.(cache := B.Next(s.cache, e.u))
    else
      var d := I.Next(View(s), Request(e));
      var sent := if e.Intr? && s.queue != [] && s.cache.buf[s.queue[0]].dirty then {s.queue[0]} else {};
      Stack(s.cache.(buf := d.buf, disk := d.disk, touched := s.cache.touched - sent),
            d.queue, d.cmd, d.waiting, d.asked, d.done)
  }

  // ------------------------------------------------------------ invariant

  /** A waiting caller holds its buffer, which is unchanged since its transfer. */
  ghost predicate WaitOk(s: Stack, b: nat) {
    b < |s.cache.buf| && s.cache.buf[b].busy && (b in s.queue || b !in s.cache.touched)
  }

  ghost predicate Inv(s: Stack) {
    B.Inv(s.cache) && I.Inv(View(s)) && forall b :: b in s.waiting ==> WaitOk(s, b)
  }

  /** The cache event that a step of the whole stands for, if any. */
  function Seen(s: Stack, e: Event): (r: seq<B.Event>) {
    if e.Use? then [e.u] else if e.Intr? && s.queue != [] then [B.Transfer(s.queue[0])] else []
  }

  /** The cache follows the event. */
  ghost predicate Follows(c: B.Cache, es: seq<B.Event>, c': B.Cache)
    requires B.Shape(c)
  {
    if es == [] then c' == c else B.Enabled(c, es[0]) && c' == B.Next(c, es[0])
  }

  /** A holder's step, a release or a bget leaves waiting buffers and the disk alone. */
  lemma UseApart(s: Stack, u: B.Event)
    requires Inv(s) && I.Shape(View(s)) && Enabled(s, Use(u))
    ensures var c := B.Next(s.cache, u);
      |c.buf| == |s.cache.buf| && c.disk == s.cache.disk && B.Inv(c) &&
      (c.buf == s.cache.buf ||
       exists b: nat :: b < |c.buf| && b !in s.waiting && c.buf == s.cache.buf[b := c.buf[b]]) &&
      (forall b :: b in s.waiting ==> b < |c.buf| && c.buf[b] == s.cache.buf[b]) &&
      (forall b :: b in s.waiting ==> (b in c.touched <==> b in s.cache.touched))
  {
    var c := B.Next(s.cache, u);
    B.StepInv(s.cache, u);
    forall b | b in s.waiting ensures b < |c.buf| && s.cache.buf[b].busy { assert WaitOk(s, b); }
    if u.Get? {
      var k := (u.dev, u.blockno);
      B.FindSpec(s.cache.order, s.cache.buf, k);
      B.VictimSpec(s.cache.order, s.cache.buf);
      var h := B.Find(s.cache.order, s.cache.buf, k);
      var b := if h != -1 then h else B.Victim(s.cache.order, s.cache.buf);
      assert c.buf == s.cache.buf || c.buf == s.cache.buf[b := c.buf[b]];
    } else {
      assert c.buf == s.cache.buf[u.b := c.buf[u.b]];
    }
  }

  lemma StepUse(s: Stack, u: B.Event)
    requires Inv(s) && I.Shape(View(s)) && Enabled(s, Use(u))
    ensures Inv(Next(s, Use(u)))
  {
    UseApart(s, u);
    var t := Next(s, Use(u));
    if t.cache.buf != s.cache.buf {
      var b: nat :| b < |t.cache.buf| && b !in s.waiting && t.cache.buf == s.cache.buf[b := t.cache.buf[b]];
      I.StepInv(View(s), I.Touch(b, t.cache.buf[b]));
      assert View(t) == I.Next(View(s), I.Touch(b, t.cache.buf[b]));
    } else {
      assert View(t) == View(s);
    }
    forall b | b in t.waiting ensures WaitOk(t, b) { assert WaitOk(s, b); }
  }

  lemma StepIntr(s: Stack)
    requires Inv(s) && I.Shape(View(s)) && s.queue != []
    ensures Inv(Next(s, Intr)) && Follows(s.cache, Seen(s, Intr), Next(s, Intr).cache)
  {
    var t, b := Next(s, Intr), s.queue[0];
    assert I.Queued(View(s), 0);
    I.Refines(View(s), I.Intr);
    I.CacheTransfer(s.cache, b);
    assert t.cache == B.Next(s.cache, B.Transfer(b));
    B.StepInv(s.cache, B.Transfer(b));
    I.StepInv(View(s), I.Intr);
    assert View(t) == I.Next(View(s), I.Intr);
    forall a | a in t.waiting ensures WaitOk(t, a) {
      assert WaitOk(s, a) && B.BufOk(s.cache, b);
      if a != b && a in s.queue {
        var i :| 0 <= i < |s.queue| && s.queue[i] == a;
        assert t.queue[i - 1] == a;
      }
    }
  }

  /** The cache on the queued driver refines the cache with transfers done at once, at the interrupt. */
  lemma StepRefines(s: Stack, e: Event)
    requires Inv(s) && I.Shape(View(s)) && Enabled(s, e)
    ensures Inv(Next(s, e)) && I.Shape(View(Next(s, e)))
    ensures Follows(s.cache, Seen(s, e), Next(s, e).cache)
  {
    var t := Next(s, e);
    if e.Use? {
      StepUse(s, e.u);
    } else if e.Intr? && s.queue != [] {
      StepIntr(s);
    } else {
      I.StepInv(View(s), Request(e));
      assert View(t) == I.Next(View(s), Request(e));
      assert t.cache == s.cache;
      forall b | b in t.waiting ensures WaitOk(t, b) {
        if b in s.waiting { assert WaitOk(s, b); } else { assert t.queue[|s.queue|] == b; }
        if b in s.queue { var i :| 0 <= i < |s.queue| && s.queue[i] == b; assert t.queue[i] == b; }
      }
    }
    I.ShapeOf(View(t));
  }

  /** When iderw returns, the buffer, its disk block and what the block reads as are the same. */
  lemma ReturnSynced(s: Stack, b: nat)
    requires Inv(s) && Enabled(s, Return(b))
    ensures s.cache.buf[b].data == B.OnDisk(s.cache.disk, s.cache.buf[b].K()) == B.Logical(s.cache, s.cache.buf[b].K())
  {
    assert WaitOk(s, b) && B.BufOk(s.cache, b);
    if b in s.queue { I.QueuedNeeds(View(s), b); }
    B.HolderReads(s.cache, b);
  }

  // ----------------------------------------------------------------- runs

  ghost predicate Steps(s: Stack, e: Event, t: Stack) {
    B.Shape(s.cache) && I.Shape(View(s)) && Enabled(s, e) && t == Next(s, e)
  }

  ghost predicate Run(states: seq<Stack>, events: seq<Event>) {
    |states| == |events| + 1 && forall i: nat :: i < |events| ==> Steps(states[i], events[i], states[i + 1])
  }

  lemma {:induction false} RunInv(states: seq<Stack>, events: seq<Event>, n: nat)
    requires Run(states, events) && Inv(states[0]) && n <= |events|
    ensures Inv(states[n])
  {
    if n > 0 {
      RunInv(states, events, n - 1);
      assert Steps(states[n - 1], events[n - 1], states[n]);
      StepRefines(states[n - 1], events[n - 1]);
    }
  }

  /** The event is a holder's change of block k. */
  predicate Changes(s: Stack, e: Event, k: B.Key) {
    e.Use? && e.u.Change? && e.u.b < |s.cache.buf| && s.cache.buf[e.u.b].K() == k
  }

  /** The last data a holder put in block k in the first n events, or else what was read before them. */
  function Written(states: seq<Stack>, events: seq<Event>, n: nat, k: B.Key, first: B.Data): (d: B.Data)
    requires n <= |events| && |states| == |events| + 1
  {
    if n == 0 then first
    else if Changes(states[n - 1], events[n - 1], k) then events[n - 1].u.data
    else Written(states, events, n - 1, k, first)
  }

  /** At step i the cache takes the step the whole stands for, or none. */
  ghost predicate FollowsAt(states: seq<Stack>, events: seq<Event>, i: nat)
    requires i < |events| && |states| == |events| + 1
  {
    B.Shape(states[i].cache) && Follows(states[i].cache, Seen(states[i], events[i]), states[i + 1].cache)
  }

  /** Every run of the whole is a run of the cache, its transfers done at the interrupts. */
  lemma RunRefines(states: seq<Stack>, events: seq<Event>, i: nat)
    requires Run(states, events) && Inv(states[0]) && i < |events|
    ensures FollowsAt(states, events, i)
  {
    RunInv(states, events, i);
    assert Steps(states[i], events[i], states[i + 1]);
    StepRefines(states[i], events[i]);
  }

  /** Only a holder's change alters what is read; calls, interrupts and returns do not. */
  lemma StepReads(states: seq<Stack>, events: seq<Event>, i: nat, k: B.Key)
    requires i < |events| && |states| == |events| + 1 && FollowsAt(states, events, i)
    requires B.Inv(states[i].cache) && k.0 != B.NODEV
    ensures B.Inv(states[i + 1].cache)
    ensures B.Logical(states[i + 1].cache, k) ==
      if Changes(states[i], events[i], k) then events[i].u.data else B.Logical(states[i].cache, k)
  {
    var es := Seen(states[i], events[i]);
    if es != [] { B.Refines(states[i].cache, es[0], k); }
  }

  lemma {:induction false} FollowReads(states: seq<Stack>, events: seq<Event>, n: nat, k: B.Key, first: B.Data)
    requires n <= |events| && |states| == |events| + 1 && forall i: nat :: i < n ==> FollowsAt(states, events, i)
    requires B.Inv(states[0].cache) && first == B.Logical(states[0].cache, k) && k.0 != B.NODEV
    ensures B.Inv(states[n].cache) && B.Logical(states[n].cache, k) == Written(states, events, n, k, first)
  {
    if n > 0 {
      FollowReads(states, events, n - 1, k, first);
      StepReads(states, events, n - 1, k);
    }
  }

  /** In every run, whatever requests are in flight, every block reads as the data last written to it. */
  lemma RunReads(states: seq<Stack>, events: seq<Event>, n: nat, k: B.Key)
    requires Run(states, events) && Inv(states[0]) && n <= |events| && k.0 != B.NODEV
    ensures B.Inv(states[n].cache)
    ensures B.Logical(states[n].cache, k) == Written(states, events, n, k, B.Logical(states[0].cache, k))
  {
    forall i: nat | i < n ensures FollowsAt(states, events, i) { RunRefines(states, events, i); }
    FollowReads(states, events, n, k, B.Logical(states[0].cache, k));
  }

  /** A step that is not b's return leaves a waiting write's block, data and caller as they are. */
  lemma StepKeeps(s: Stack, e: Event, b: nat)
    requires Inv(s) && I.Shape(View(s)) && Enabled(s, e) && b in s.waiting && e != Return(b)
    ensures var t := Next(s, e);
      b in t.waiting && b < |s.cache.buf| && b < |t.cache.buf| && t.cache.buf[b].K() == s.cache.buf[b].K() &&
      (s.cache.buf[b].valid ==> t.cache.buf[b].valid && t.cache.buf[b].data == s.cache.buf[b].data)
  {
    assert WaitOk(s, b);
    if e.Use? {
      UseApart(s, e.u);
    } else if e.Intr? && s.queue != [] {
      assert I.Queued(View(s), 0);
      I.Refines(View(s), I.Intr);
    }
  }

  lemma {:induction false} Held(states: seq<Stack>, events: seq<Event>, i: nat, m: nat, b: nat)
    requires Run(states, events) && Inv(states[0]) && i < m <= |events| && events[i] == Call(b)
    requires forall l :: i < l < m ==> events[l] != Return(b)
    ensures b in states[m].waiting && b < |states[i].cache.buf| && b < |states[m].cache.buf|
    ensures states[m].cache.buf[b].K() == states[i].cache.buf[b].K()
    ensures states[i].cache.buf[b].valid ==>
      states[m].cache.buf[b].valid && states[m].cache.buf[b].data == states[i].cache.buf[b].data
    decreases m
  {
    RunInv(states, events, m - 1);
    assert Steps(states[m - 1], events[m - 1], states[m]);
    if i + 1 < m {
      Held(states, events, i, m - 1, b);
      StepKeeps(states[m - 1], events[m - 1], b);
    }
  }

  /** bwrite: when iderw returns, the data the buffer had at the call is on the disk. */
  lemma WriteThrough(states: seq<Stack>, events: seq<Event>, i: nat, j: nat, b: nat)
    requires Run(states, events) && Inv(states[0]) && i < j < |events| && events[i] == Call(b) && events[j] == Return(b)
    requires forall l :: i < l < j ==> events[l] != Return(b)
    requires b < |states[i].cache.buf| && states[i].cache.buf[b].dirty
    ensures B.OnDisk(states[j].cache.disk, states[i].cache.buf[b].K()) == states[i].cache.buf[b].data
  {
    RunInv(states, events, i);
    assert B.BufOk(states[i].cache, b);
    Held(states, events, i, j, b);
    RunInv(states, events, j);
    assert Steps(states[j], events[j], states[j + 1]);
    ReturnSynced(states[j], b);
  }
}
