/**
  What runs of the buffer cache have done, told from their events: who sleeps
  in bget, and which buffer is recycled.
 */
module BioRuns {
  import opened BioModel

  /** After binit, or whenever nobody holds a buffer. */
  ghost predicate Quiet(c: Cache) { Inv(c) && forall b: nat :: b < NBUF ==> !c.buf[b].busy }

  lemma {:induction false} RunInv(states: seq<Cache>, events: seq<Event>, n: nat)
    requires Run(states, events) && Inv(states[0]) && n <= |events|
    ensures Inv(states[n])
  {
    if n > 0 {
      RunInv(states, events, n - 1);
      assert StepAt(states, events, n - 1);
      StepInv(states[n - 1], events[n - 1]);
    }
  }

  // ---------------------------------------------------------------- holders

  ghost predicate HeldIn(c: Cache, k: Key, b: nat) { b < |c.buf| && c.buf[b].K() == k && c.buf[b].busy }

  /** Some process holds block k. */
  ghost predicate Held(c: Cache, k: Key) { exists b: nat :: HeldIn(c, k, b) }

  /** A process calling bget for k has to sleep. */
  ghost predicate Sleeps(c: Cache, k: Key)
    requires Shape(c)
  {
    var h := Find(c.order, c.buf, k);
    h != -1 && c.buf[h].busy
  }

  lemma SleepsHeld(c: Cache, k: Key)
    requires Inv(c) && k.0 != NODEV
    ensures Sleeps(c, k) <==> Held(c, k)
  {
    FindSpec(c.order, c.buf, k);
    if b: nat :| HeldIn(c, k, b) { LogicalAt(c, b, k); }
    if Sleeps(c, k) { assert HeldIn(c, k, Find(c.order, c.buf, k)); }
  }

  /** A bget for block k, and a brelse of its buffer. */
  predicate Takes(e: Event, k: Key) { e.Get? && (e.dev, e.blockno) == k }

  predicate Drops(c: Cache, e: Event, k: Key) { e.Release? && e.b < |c.buf| && c.buf[e.b].K() == k }

  lemma GetHeld(c: Cache, e: Event, k: Key)
    requires Inv(c) && Enabled(c, e) && e.Get? && k.0 != NODEV
    ensures Held(Next(c, e), k) <==> Takes(e, k) || Held(c, k)
  {
    var q, d := (e.dev, e.blockno), Next(c, e);
    FindSpec(c.order, c.buf, q);
    VictimSpec(c.order, c.buf);
    var h := Find(c.order, c.buf, q);
    var b := if h != -1 then h else Victim(c.order, c.buf);
    assert HeldIn(d, q, b);
    assert forall a: nat :: a != b ==> HeldIn(d, k, a) == HeldIn(c, k, a);
    if a: nat :| HeldIn(c, k, a) { assert a == b ==> k == q; assert HeldIn(d, k, a); }
  }

  lemma OwnHeld(c: Cache, e: Event, k: Key)
    requires Inv(c) && Enabled(c, e) && !e.Get? && k.0 != NODEV
    ensures Held(Next(c, e), k) <==> Held(c, k) && !Drops(c, e, k)
  {
    var d := Next(c, e);
    assert forall a: nat :: HeldIn(d, k, a) == (HeldIn(c, k, a) && !(e.Release? && a == e.b));
    if a: nat :| HeldIn(d, k, a) {
      assert HeldIn(c, k, a);
      assert !Drops(c, e, k);
    }
    if Held(c, k) && !Drops(c, e, k) {
      var a: nat :| HeldIn(c, k, a);
      assert HeldIn(d, k, a);
    }
  }

  /** Block k has been taken by a bget and not released since. */
  function Taken(states: seq<Cache>, events: seq<Event>, n: nat, k: Key): (t: bool)
    requires n <= |events| && |states| == |events| + 1
  {
    n > 0 && (Takes(events[n - 1], k) || (!Drops(states[n - 1], events[n - 1], k) && Taken(states, events, n - 1, k)))
  }

  /** In every run from binit a bget sleeps exactly when its block has been taken and not released since. */
  lemma {:induction false} SleepExact(states: seq<Cache>, events: seq<Event>, n: nat, k: Key)
    requires Run(states, events) && Quiet(states[0]) && n <= |events| && k.0 != NODEV
    ensures Inv(states[n]) && (Held(states[n], k) <==> Taken(states, events, n, k))
    ensures Sleeps(states[n], k) <==> Taken(states, events, n, k)
  {
    RunInv(states, events, n);
    if n > 0 {
      SleepExact(states, events, n - 1, k);
      assert StepAt(states, events, n - 1);
      if events[n - 1].Get? { GetHeld(states[n - 1], events[n - 1], k); }
      else { OwnHeld(states[n - 1], events[n - 1], k); }
    }
    SleepsHeld(states[n], k);
  }

  // -------------------------------------------------------------- recycling

  /** When buffer b was last released; 0 is never. */
  function Released(events: seq<Event>, n: nat, b: nat): (t: nat)
    requires n <= |events|
    ensures t <= n
  {
    if n == 0 then 0 else if events[n - 1] == Release(b) then n else Released(events, n - 1, b)
  }

  ghost predicate Ranked(c: Cache, events: seq<Event>, n: nat, a: nat, b: nat)
    requires n <= |events|
  {
    a < |c.stamp| && b < |c.stamp| && Released(events, n, a) < Released(events, n, b) ==> c.stamp[a] < c.stamp[b]
  }

  lemma {:induction false} RunRanked(states: seq<Cache>, events: seq<Event>, n: nat, a: nat, b: nat)
    requires Run(states, events) && Inv(states[0]) && n <= |events|
    ensures Ranked(states[n], events, n, a, b)
  {
    if n > 0 {
      RunRanked(states, events, n - 1, a, b);
      RunInv(states, events, n - 1);
      assert StepAt(states, events, n - 1);
    }
  }

  /** In every run bget recycles, of the buffers neither busy nor dirty, the one whose last release is the oldest. */
  lemma RecyclesOldest(states: seq<Cache>, events: seq<Event>, n: nat, b: nat)
    requires Run(states, events) && Inv(states[0]) && n <= |events|
    requires b < |states[n].buf| && Idle(states[n].buf, b)
    ensures Victim(states[n].order, states[n].buf) >= 0 && Idle(states[n].buf, Victim(states[n].order, states[n].buf))
    ensures Released(events, n, Victim(states[n].order, states[n].buf)) <= Released(events, n, b)
  {
    RunInv(states, events, n);
    VictimIsOldest(states[n], b);
    RunRanked(states, events, n, b, Victim(states[n].order, states[n].buf));
  }
}
