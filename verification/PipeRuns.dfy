/**
  What runs of the pipe have done, told from their events: which ends are
  closed, what each writer has put in, what each reader asked for, and what
  a write or a read returns.
 */
module PipeRuns {
  import opened PipeModel

  // ------------------------------------------------------- ends and kills

  predicate Closed(events: seq<Event>, n: nat, writable: bool)
    requires n <= |events|
  {
    exists i :: 0 <= i < n && events[i] == Close(writable)
  }

  predicate WasKilled(events: seq<Event>, n: nat, p: nat)
    requires n <= |events|
  {
    exists i :: 0 <= i < n && events[i] == Kill(p)
  }

  lemma StepEnds(s: Pipe, e: Event, p: nat)
    requires Inv(s) && Enabled(s, e)
    ensures Next(s, e).wopen <==> s.wopen && e != Close(true)
    ensures Next(s, e).ropen <==> s.ropen && e != Close(false)
    ensures p in Next(s, e).killed <==> p in s.killed || e == Kill(p)
  {
    match e
    case Write(q, buf) => WriteStores(s, q, buf, 0);
    case WriteOn(q) => assert CallOk(s, q); WriteStores(s, q, s.calls[q].buf, s.calls[q].i);
    case Read(q, n) => DrainInv(s, n);
    case ReadOn(q) => DrainInv(s, s.calls[q].n);
    case _ =>
  }

  /** In every run from pipealloc an end is open while it has not been closed, and a process killed once it has been. */
  lemma {:induction false} RunEnds(states: seq<Pipe>, events: seq<Event>, n: nat, p: nat)
    requires Run(states, events) && Fresh(states[0]) && n <= |events|
    ensures states[n].wopen <==> !Closed(events, n, true)
    ensures states[n].ropen <==> !Closed(events, n, false)
    ensures p in states[n].killed <==> p in states[0].killed || WasKilled(events, n, p)
  {
    if n > 0 {
      RunEnds(states, events, n - 1, p);
      RunInv(states, events, n - 1);
      assert StepAt(states, events, n - 1);
      StepEnds(states[n - 1], events[n - 1], p);
    }
  }

  ghost predicate Awake(s: Pipe, p: nat) {
    p in s.calls && p in s.killed ==>
      !(s.calls[p].Writing? && s.calls[p].asleep) && !(s.calls[p].Reading? && s.calls[p].asleep)
  }

  lemma StepAwake(s: Pipe, e: Event, p: nat)
    requires Inv(s) && Enabled(s, e) && Awake(s, p)
    ensures Awake(Next(s, e), p)
  {
    match e
    case Write(q, buf) => WriteStores(s, q, buf, 0);
    case WriteOn(q) => assert CallOk(s, q); WriteStores(s, q, s.calls[q].buf, s.calls[q].i);
    case Read(q, n) => DrainInv(s, n);
    case ReadOn(q) => DrainInv(s, s.calls[q].n);
    case _ =>
  }

  /** In every run a killed process does not sleep in the pipe. */
  lemma {:induction false} KilledAwake(states: seq<Pipe>, events: seq<Event>, n: nat, p: nat)
    requires Run(states, events) && Fresh(states[0]) && n <= |events|
    ensures Awake(states[n], p)
  {
    if n > 0 {
      KilledAwake(states, events, n - 1, p);
      RunInv(states, events, n - 1);
      assert StepAt(states, events, n - 1);
      StepAwake(states[n - 1], events[n - 1], p);
    }
  }

  /** The state after a read by p that wants n bytes, first section or resumed. */
  ghost predicate Reads(s: Pipe, e: Event, p: nat, n: nat) {
    p in s.calls && (e == Read(p, n) || (e == ReadOn(p) && s.calls[p].Reading? && s.calls[p].n == n))
  }

  /**
    Once the write end is closed nobody sleeps in a read: a read returns the
    bytes that are left, as many as it wants, and none at all exactly when
    everything written has been read.
   */
  lemma ReadAfterClose(states: seq<Pipe>, events: seq<Event>, n: nat, p: nat, k: nat)
    requires Run(states, events) && Fresh(states[0]) && n < |events| && Closed(events, n, true)
    requires Reads(states[n], events[n], p, k)
    ensures var s, r := states[n], states[n + 1];
      && !ReaderAsleep(s) && p in r.calls && r.calls[p].Outside? && |s.got| <= |s.written|
      && r.got == s.got + s.written[|s.got|..|s.got| + Min(k, |s.written| - |s.got|)]
      && (k > 0 ==> (r.got == s.got <==> s.got == s.written))
  {
    RunInv(states, events, n);
    RunEnds(states, events, n, p);
    assert StepAt(states, events, n);
    var s := states[n];
    forall q | q in s.calls ensures !(s.calls[q].Reading? && s.calls[q].asleep) { assert CallOk(s, q); }
    ReadReturns(s, p, k);
    DrainInv(s, k);
  }

  // ---------------------------------------------------------------- calls

  predicate WritesFor(e: Event, p: nat) { (e.Write? || e.WriteOn?) && e.p == p }

  /** The bytes that p's latest write is to put in, and the number p's latest read wants. */
  function Handed(events: seq<Event>, n: nat, p: nat): (buf: seq<int>)
    requires n <= |events|
  {
    if n == 0 then [] else if events[n - 1].Write? && events[n - 1].p == p then events[n - 1].buf
    else Handed(events, n - 1, p)
  }

  function Wanted(events: seq<Event>, n: nat, p: nat): (k: nat)
    requires n <= |events|
  {
    if n == 0 then 0 else if events[n - 1].Read? && events[n - 1].p == p then events[n - 1].n
    else Wanted(events, n - 1, p)
  }

  /** What went into the pipe from one state to the next. */
  function Gained(s: Pipe, t: Pipe): (r: seq<int>) {
    if |s.written| <= |t.written| then t.written[|s.written|..] else []
  }

  /** The bytes p's latest write has put in, over all its sections. */
  function Sent(states: seq<Pipe>, events: seq<Event>, n: nat, p: nat): (r: seq<int>)
    requires n <= |events| && |states| == |events| + 1
  {
    if n == 0 then []
    else if !WritesFor(events[n - 1], p) then Sent(states, events, n - 1, p)
    else (if events[n - 1].Write? then [] else Sent(states, events, n - 1, p)) + Gained(states[n - 1], states[n])
  }

  /** p's call, if it is writing, is at byte |sent| of handed; if it is reading, wants that many. */
  ghost predicate CallIs(s: Pipe, p: nat, handed: seq<int>, sent: seq<int>, wanted: nat) {
    && sent <= handed
    && (p in s.calls && s.calls[p].Writing? ==> s.calls[p].buf == handed && s.calls[p].i == |sent|)
    && (p in s.calls && s.calls[p].Reading? ==> s.calls[p].n == wanted)
  }

  lemma WriterCall(s: Pipe, p: nat, buf: seq<int>, i: nat, sent: seq<int>, wanted: nat)
    requires Ring(s) && i <= |buf| && sent == buf[..i]
    ensures var t := WriteFrom(s, p, buf, i);
      CallIs(t, p, buf, sent + Gained(s, t), wanted) && p in t.calls
  {
    WriteStores(s, p, buf, i);
    var t, k := WriteFrom(s, p, buf, i), Fit(s, buf, i);
    assert Gained(s, t) == buf[i..i + k];
    assert sent + buf[i..i + k] == buf[..i + k];
  }

  /** Other processes' sections leave p's call as it was, but for the sleep. */
  lemma OtherCall(s: Pipe, e: Event, p: nat, handed: seq<int>, sent: seq<int>, wanted: nat)
    requires Inv(s) && Enabled(s, e) && !WritesFor(e, p) && !(e.Read? && e.p == p)
    requires CallIs(s, p, handed, sent, wanted)
    ensures CallIs(Next(s, e), p, handed, sent, wanted)
  {
    match e
    case Write(q, buf) => WriteStores(s, q, buf, 0);
    case WriteOn(q) => assert CallOk(s, q); WriteStores(s, q, s.calls[q].buf, s.calls[q].i);
    case Read(q, n) => DrainInv(s, n);
    case ReadOn(q) => DrainInv(s, s.calls[q].n);
    case _ =>
  }

  /** In every run a call is where it left off: a writer behind the bytes it has put in, a reader with its n. */
  lemma {:induction false} RunCalls(states: seq<Pipe>, events: seq<Event>, n: nat, p: nat)
    requires Run(states, events) && Fresh(states[0]) && n <= |events|
    ensures CallIs(states[n], p, Handed(events, n, p), Sent(states, events, n, p), Wanted(events, n, p))
  {
    if n > 0 {
      var s, e := states[n - 1], events[n - 1];
      RunCalls(states, events, n - 1, p);
      RunInv(states, events, n - 1);
      assert StepAt(states, events, n - 1);
      if e.Write? && e.p == p {
        WriterCall(s, p, e.buf, 0, [], Wanted(events, n, p));
      } else if e.WriteOn? && e.p == p {
        assert CallOk(s, p);
        var sent := Sent(states, events, n - 1, p);
        assert sent == s.calls[p].buf[..|sent|];
        WriterCall(s, p, s.calls[p].buf, |sent|, sent, Wanted(events, n, p));
      } else if e.Read? && e.p == p {
        DrainInv(s, e.n);
      } else {
        OtherCall(s, e, p, Handed(events, n - 1, p), Sent(states, events, n - 1, p), Wanted(events, n - 1, p));
      }
    }
  }

  /** A writer's section that ends outside has put in the rest, or finds the pipe full and no point in waiting. */
  lemma SectionReturns(s: Pipe, p: nat, buf: seq<int>, i: nat, sent: seq<int>)
    requires Ring(s) && i <= |buf| && sent == buf[..i]
    ensures var t := WriteFrom(s, p, buf, i);
      p in t.calls && t.calls[p].Outside? ==>
        var all := sent + Gained(s, t);
        all == buf || (all < buf && |t.written| == |t.got| + PIPESIZE && (!s.ropen || p in s.killed))
  {
    WriteStores(s, p, buf, i);
    var t, k := WriteFrom(s, p, buf, i), Fit(s, buf, i);
    assert Gained(s, t) == buf[i..i + k];
    assert sent + buf[i..i + k] == buf[..i + k];
  }

  /**
    A write that returns has put in all of its bytes, in order, over however
    many sections; or, with the pipe full and the reader gone or the writer
    killed, some of them.
   */
  lemma WriteReturns(states: seq<Pipe>, events: seq<Event>, n: nat, p: nat)
    requires Run(states, events) && Fresh(states[0]) && n < |events| && WritesFor(events[n], p)
    requires p in states[n + 1].calls && states[n + 1].calls[p].Outside?
    ensures var sent, buf := Sent(states, events, n + 1, p), Handed(events, n + 1, p);
      sent == buf ||
      (sent < buf && |states[n + 1].written| == |states[n + 1].got| + PIPESIZE &&
       (Closed(events, n, false) || p in states[0].killed || WasKilled(events, n, p)))
  {
    var s, e := states[n], events[n];
    RunInv(states, events, n);
    RunEnds(states, events, n, p);
    assert StepAt(states, events, n);
    if e.Write? {
      SectionReturns(s, p, e.buf, 0, []);
    } else {
      RunCalls(states, events, n, p);
      assert CallOk(s, p);
      var sent := Sent(states, events, n, p);
      SectionReturns(s, p, s.calls[p].buf, |sent|, sent);
    }
  }
}
