/**
  The disk driver of ide.c as a state machine: requests queue up, the
  controller works on the head, and its interrupt completes one request.
  memide.c's driver is the same transfer done at once.
 */
module IdeModel {

  import B = BioModel

  const FSSIZE: nat := 1000

  type Data = B.Data
  type Key = B.Key
  type Buf = B.Buf

  /** The buffer has something to transfer. */
  predicate Needs(u: Buf) { u.dirty || !u.valid }

  /** What the controller has been told to do; a write carries the data sent with it. */
  datatype Command = Idle | ReadCmd(k: Key) | WriteCmd(k: Key, data: Data)

  /** waiting are the buffers whose callers are inside iderw; asked and done log requests and completions. */
  datatype Disk = Disk(buf: seq<Buf>, queue: seq<nat>, cmd: Command, disk: map<Key, Data>, waiting: set<nat>,
                       asked: seq<nat>, done: seq<nat>)

  datatype Event =
    | Rw(b: nat)              // a holder calls iderw
    | Intr                    // the controller is done with its command
    | Return(b: nat)          // iderw's caller sees its flags and returns
    | Touch(b: nat, u: Buf)   // a buffer nobody is transferring is changed, taken or released

  /** idestart(): the command for a buffer's request. */
  function Start(u: Buf): (c: Command) { if u.dirty then WriteCmd(u.K(), u.data) else ReadCmd(u.K()) }

  /** What a finished command leaves on the disk. */
  function Finish(disk: map<Key, Data>, c: Command): (r: map<Key, Data>) {
    if c.WriteCmd? then disk[c.k := c.data] else disk
  }

  /** ideintr()'s effect on the buffer at the head: data is what the controller delivers for a read. */
  function Completed(u: Buf, data: Data): (r: Buf) {
    u.(data := if u.dirty then u.data else data, valid := true, dirty := false)
  }

  predicate Enabled(s: Disk, e: Event) {
    match e
    case Rw(b) => b < |s.buf| && s.buf[b].busy && Needs(s.buf[b]) && s.buf[b].blockno < FSSIZE && b !in s.waiting
    case Intr => true
    case Return(b) => b < |s.buf| && b in s.waiting && s.buf[b].valid && !s.buf[b].dirty
    case Touch(b, u) => b < |s.buf| && b !in s.waiting
  }

  function Next(s: Disk, e: Event): (r: Disk)
    requires Enabled(s, e) && Shape(s)
  {
    match e
    case Rw(b) =>
      s.(queue := s.queue + [b], waiting := s.waiting + {b}, asked := s.asked + [b],
         cmd := if s.queue == [] then Start(s.buf[b]) else s.cmd)
    case Intr =>
      if s.queue == [] then s
      else
        var b, q := s.queue[0], s.queue[1..];
        var data := if s.cmd.ReadCmd? then B.OnDisk(s.disk, s.cmd.k) else [];
        s.(queue := q, done := s.done + [b], disk := Finish(s.disk, s.cmd),
           buf := s.buf[b := Completed(s.buf[b], data)],
           cmd := if q == [] then Idle else if q[0] == b then Start(Completed(s.buf[b], data)) else Start(s.buf[q[0]]))
    case Return(b) => s.(waiting := s.waiting - {b})
    case Touch(b, u) => s.(buf := s.buf[b := u])
  }

  // ------------------------------------------------------------ invariant

  ghost predicate Shape(s: Disk) {
    forall i :: 0 <= i < |s.queue| ==> s.queue[i] < |s.buf|
  }

  ghost predicate Differ(q: seq<nat>, i: nat, j: nat)
    requires i < |q| && j < |q|
  {
    q[i] != q[j]
  }

  ghost predicate Queued(s: Disk, i: nat)
    requires i < |s.queue|
  {
    var b := s.queue[i];
    b < |s.buf| && s.buf[b].busy && Needs(s.buf[b]) && b in s.waiting
  }

  /**
    No buffer is queued twice; a queued buffer still needs its transfer and
    its caller waits; the head is the controller's request; a waiting caller
    whose buffer has left the queue has its transfer done; requests complete
    in order.
   */
  ghost predicate Inv(s: Disk) {
    && (forall i: nat :: i < |s.queue| ==> Queued(s, i))
    && (forall i: nat, j: nat :: i < j < |s.queue| ==> Differ(s.queue, i, j))
    && s.cmd == (if s.queue == [] then Idle else if s.queue[0] < |s.buf| then Start(s.buf[s.queue[0]]) else Idle)
    && (forall b :: b in s.waiting ==> b < |s.buf| && (b in s.queue || !Needs(s.buf[b])))
    && s.asked == s.done + s.queue
  }

  lemma StepRw(s: Disk, b: nat)
    requires Inv(s) && Shape(s) && Enabled(s, Rw(b))
    ensures Inv(Next(s, Rw(b)))
  {
    var t := Next(s, Rw(b));
    forall i: nat | i < |t.queue| ensures Queued(t, i) { if i < |s.queue| { assert Queued(s, i); } }
    forall i: nat, j: nat | i < j < |t.queue| ensures Differ(t.queue, i, j) {
      if j < |s.queue| { assert Differ(s.queue, i, j); } else { assert Queued(s, i); }
    }
    assert t.queue[|s.queue|] == b;
    forall c | c in t.waiting ensures c < |t.buf| && (c in t.queue || !Needs(t.buf[c])) {
      if c != b { assert c in s.waiting; }
    }
  }

  lemma StepIntr(s: Disk)
    requires Inv(s) && Shape(s)
    ensures Inv(Next(s, Intr))
  {
    var t := Next(s, Intr);
    if s.queue != [] {
      assert Queued(s, 0);
      forall i: nat | i < |t.queue| ensures Queued(t, i) { assert Queued(s, i + 1) && Differ(s.queue, 0, i + 1); }
      forall i: nat, j: nat | i < j < |t.queue| ensures Differ(t.queue, i, j) { assert Differ(s.queue, i + 1, j + 1); }
      forall c | c in t.waiting ensures c < |t.buf| && (c in t.queue || !Needs(t.buf[c])) {
        assert c in s.waiting;
        if c in s.queue {
          var i :| 0 <= i < |s.queue| && s.queue[i] == c;
          if i > 0 { assert t.queue[i - 1] == c; }
        }
      }
      assert s.queue == [s.queue[0]] + t.queue;
      if t.queue != [] { assert Differ(s.queue, 0, 1) && Queued(s, 1); }
    }
  }

  lemma StepInv(s: Disk, e: Event)
    requires Inv(s) && Shape(s) && Enabled(s, e)
    ensures Inv(Next(s, e)) && Shape(Next(s, e))
  {
    var t := Next(s, e);
    match e
    case Rw(b) => StepRw(s, b);
    case Intr => StepIntr(s);
    case Return(b) =>
      forall i: nat | i < |t.queue| ensures Queued(t, i) { assert Queued(s, i); }
    case Touch(b, u) =>
      forall i: nat | i < |t.queue| ensures Queued(t, i) { assert Queued(s, i); }
      if s.queue != [] { assert Queued(s, 0); }
    ShapeOf(t);
  }

  lemma QueuedNeeds(s: Disk, b: nat)
    requires Inv(s) && b in s.queue
    ensures b < |s.buf| && Needs(s.buf[b])
  {
    var i :| 0 <= i < |s.queue| && s.queue[i] == b;
    assert Queued(s, i);
  }

  lemma ShapeOf(s: Disk)
    requires Inv(s)
    ensures Shape(s)
  {
    forall i | 0 <= i < |s.queue| ensures s.queue[i] < |s.buf| { assert Queued(s, i); }
  }

  // ----------------------------------------------------------- refinement

  /** memide.c's iderw: the whole transfer at once. */
  function Sync(buf: seq<Buf>, disk: map<Key, Data>, b: nat): (r: (seq<Buf>, map<Key, Data>))
    requires b < |buf|
  {
    var u := buf[b];
    if u.dirty then (buf[b := u.(dirty := false, valid := true)], disk[u.K() := u.data])
    else (buf[b := u.(data := B.OnDisk(disk, u.K()), valid := true)], disk)
  }

  /**
    Buffers and disk change as if the head's iderw were memide's, done at
    the interrupt; calling and returning change neither.
   */
  lemma Refines(s: Disk, e: Event)
    requires Inv(s) && Shape(s) && Enabled(s, e)
    ensures var t := Next(s, e);
      match e
      case Rw(_) => t.buf == s.buf && t.disk == s.disk
      case Return(_) => t.buf == s.buf && t.disk == s.disk
      case Touch(b, u) => t.buf == s.buf[b := u] && t.disk == s.disk
      case Intr => if s.queue == [] then t == s else (t.buf, t.disk) == Sync(s.buf, s.disk, s.queue[0])
  {
    if e.Intr? && s.queue != [] {
      var b := s.queue[0];
      var data := if s.cmd.ReadCmd? then B.OnDisk(s.disk, s.cmd.k) else [];
      assert s.cmd == Start(s.buf[b]);
      assert Next(s, e).buf[b] == Completed(s.buf[b], data) == Sync(s.buf, s.disk, b).0[b];
    }
  }

  // ----------------------------------------------------------------- runs

  ghost predicate StepAt(states: seq<Disk>, events: seq<Event>, i: nat)
    requires i < |events| && i + 1 < |states|
  {
    Shape(states[i]) ==> Enabled(states[i], events[i]) && states[i + 1] == Next(states[i], events[i])
  }

  ghost predicate Run(states: seq<Disk>, events: seq<Event>) {
    |states| == |events| + 1 && forall i: nat :: i < |events| ==> StepAt(states, events, i)
  }

  ghost predicate Fresh(s: Disk) {
    s.queue == [] && s.cmd == Idle && s.waiting == {} && s.asked == [] == s.done
  }

  lemma {:induction false} RunInv(states: seq<Disk>, events: seq<Event>, n: nat)
    requires Run(states, events) && Fresh(states[0]) && n <= |events|
    ensures Inv(states[n]) && Shape(states[n])
    decreases n
  {
    if n > 0 {
      RunInv(states, events, n - 1);
      assert StepAt(states, events, n - 1);
      StepInv(states[n - 1], events[n - 1]);
    }
  }

  /** The buffers iderw was called for, in order, and whether b's caller is still inside. */
  function Requests(events: seq<Event>, n: nat): (r: seq<nat>)
    requires n <= |events|
  {
    if n == 0 then []
    else if events[n - 1].Rw? then Requests(events, n - 1) + [events[n - 1].b]
    else Requests(events, n - 1)
  }

  function Inside(events: seq<Event>, n: nat, b: nat): (r: bool)
    requires n <= |events|
  {
    n > 0 && (events[n - 1] == Rw(b) || (events[n - 1] != Return(b) && Inside(events, n - 1, b)))
  }

  /** First come, first served: the transfers done are the first requests, in order, and the queue holds the others. */
  lemma {:induction false} Served(states: seq<Disk>, events: seq<Event>, n: nat, b: nat)
    requires Run(states, events) && Fresh(states[0]) && n <= |events|
    ensures states[n].done + states[n].queue == Requests(events, n)
    ensures b in states[n].waiting <==> Inside(events, n, b)
  {
    RunInv(states, events, n);
    if n > 0 {
      Served(states, events, n - 1, b);
      RunInv(states, events, n - 1);
      assert StepAt(states, events, n - 1);
    }
  }

  /** Buffer b's transfer happens at step k: the interrupt comes with b at the head. */
  ghost predicate TransferAt(states: seq<Disk>, events: seq<Event>, k: nat, b: nat)
    requires |states| == |events| + 1
  {
    k < |events| && events[k].Intr? && states[k].queue != [] && states[k].queue[0] == b
  }

  /** After a call for b and before its return: queued and untouched, or transferred exactly once. */
  lemma {:induction false} InFlight(states: seq<Disk>, events: seq<Event>, i: nat, m: nat, b: nat) returns (k: nat)
    requires Run(states, events) && Fresh(states[0]) && i < m <= |events| && events[i] == Rw(b)
    requires forall l :: i < l < m ==> events[l] != Return(b)
    ensures b < |states[i].buf| && b < |states[m].buf| && b in states[m].waiting
    ensures if b in states[m].queue
      then states[m].buf[b] == states[i].buf[b] && forall l: nat :: i < l < m ==> !TransferAt(states, events, l, b)
      else i < k < m && TransferAt(states, events, k, b) &&
           (forall l: nat :: i < l < m && l != k ==> !TransferAt(states, events, l, b)) &&
           b < |states[k].buf| && states[k].buf[b] == states[i].buf[b] &&
           states[m].buf[b] == Sync(states[k].buf, states[k].disk, b).0[b]
    decreases m
  {
    assert StepAt(states, events, m - 1);
    RunInv(states, events, m - 1);
    RunInv(states, events, m);
    var s, t := states[m - 1], states[m];
    k := 0;
    if m == i + 1 {
      assert t.queue[|s.queue|] == b;
    } else {
      k := InFlight(states, events, i, m - 1, b);
      InFlightStep(s, t, events[m - 1], b);
      if b in s.queue && b !in t.queue { k := m - 1; }
    }
  }

  /** One step of a run, seen from a waiting buffer. */
  lemma InFlightStep(s: Disk, t: Disk, e: Event, b: nat)
    requires Inv(s) && Shape(s) && Enabled(s, e) && t == Next(s, e) && b in s.waiting && b < |s.buf| && e != Return(b)
    ensures b in t.waiting && b < |t.buf|
    ensures b !in s.queue ==> b !in t.queue && t.buf[b] == s.buf[b] && !(e.Intr? && s.queue != [] && s.queue[0] == b)
    ensures b in s.queue && b in t.queue ==> t.buf[b] == s.buf[b] && !(e.Intr? && s.queue[0] == b)
    ensures b in s.queue && b !in t.queue ==> e.Intr? && s.queue[0] == b && t.buf[b] == Sync(s.buf, s.disk, b).0[b]
  {
    if e.Intr? && s.queue != [] {
      Refines(s, e);
      var q := s.queue[1..];
      assert s.queue == [s.queue[0]] + q;
      forall i | 0 <= i < |q| ensures q[i] != s.queue[0] { assert Differ(s.queue, 0, i + 1); }
    }
  }

  /** A call returns only after its own transfer, which happened once, on the buffer as it was handed in. */
  lemma CallsAtomic(states: seq<Disk>, events: seq<Event>, i: nat, j: nat, b: nat) returns (k: nat)
    requires Run(states, events) && Fresh(states[0]) && i < j < |events| && events[i] == Rw(b) && events[j] == Return(b)
    requires forall l :: i < l < j ==> events[l] != Return(b)
    ensures i < k < j && TransferAt(states, events, k, b) && b < |states[i].buf| && b < |states[j].buf|
    ensures b < |states[k].buf|
    ensures forall l: nat :: i < l < j && l != k ==> !TransferAt(states, events, l, b)
    ensures states[k].buf[b] == states[i].buf[b] && states[j].buf[b] == Sync(states[k].buf, states[k].disk, b).0[b]
  {
    k := InFlight(states, events, i, j, b);
    assert StepAt(states, events, j);
    RunInv(states, events, j);
    assert b !in states[j].queue by { if b in states[j].queue { QueuedNeeds(states[j], b); } }
  }

  /** Buffers and disk after n events, had every completed request been memide's iderw run in queue order. */
  ghost function Replay(states: seq<Disk>, events: seq<Event>, n: nat): (r: (seq<Buf>, map<Key, Data>))
    requires |states| == |events| + 1 && n <= |events|
  {
    if n == 0 then (states[0].buf, states[0].disk)
    else
      var (buf, disk), e, q := Replay(states, events, n - 1), events[n - 1], states[n - 1].queue;
      if e.Touch? && e.b < |buf| then (buf[e.b := e.u], disk)
      else if e.Intr? && q != [] && q[0] < |buf| then Sync(buf, disk, q[0])
      else (buf, disk)
  }

  /** Every run leaves the buffers and the disk that the synchronous driver would, requests served first come first. */
  lemma {:induction false} Linearized(states: seq<Disk>, events: seq<Event>, n: nat)
    requires Run(states, events) && Fresh(states[0]) && n <= |events|
    ensures Replay(states, events, n) == (states[n].buf, states[n].disk)
    ensures states[n].asked == states[n].done + states[n].queue
    decreases n
  {
    RunInv(states, events, n);
    if n > 0 {
      Linearized(states, events, n - 1);
      assert StepAt(states, events, n - 1);
      RunInv(states, events, n - 1);
      Refines(states[n - 1], events[n - 1]);
    }
  }

  /** The buffer cache's transfer step is memide's iderw. */
  lemma CacheTransfer(c: B.Cache, b: nat)
    requires B.Shape(c) && B.Enabled(c, B.Transfer(b))
    ensures var d := B.Next(c, B.Transfer(b)); (d.buf, d.disk) == Sync(c.buf, c.disk, b)
  {
  }
}
