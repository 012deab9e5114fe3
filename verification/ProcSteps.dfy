/**
  What each critical section of proc.c does to every slot and every list,
  and what it comes to over runs: whom a wakeup wakes, what exit leaves, how
  long a process sleeps, and that a pid names one process.
 */
module ProcSteps {
  import opened ProcModel
  import opened ProcRuns

  // ---------------------------------------------------------------- wakeup

  predicate SleepsOn(x: Proc, chan: int) { x.state == SLEEPING && x.chan == chan }

  /** The slots from k on, in slot order, that sleep on chan at priority q. */
  function Sleepers(procs: seq<Proc>, chan: int, q: int, k: nat): (s: seq<nat>)
    requires k <= |procs|
    decreases |procs| - k
  {
    if k == |procs| then []
    else (if SleepsOn(procs[k], chan) && procs[k].priority == q then [k] else []) + Sleepers(procs, chan, q, k + 1)
  }

  lemma {:induction false} SleepersSpec(procs: seq<Proc>, chan: int, q: int, k: nat)
    requires k <= |procs|
    ensures forall i, j :: 0 <= i < j < |Sleepers(procs, chan, q, k)| ==>
              Sleepers(procs, chan, q, k)[i] < Sleepers(procs, chan, q, k)[j]
    ensures forall p: nat :: p in Sleepers(procs, chan, q, k) <==>
              k <= p < |procs| && SleepsOn(procs[p], chan) && procs[p].priority == q
    decreases |procs| - k
  {
    if k < |procs| {
      SleepersSpec(procs, chan, q, k + 1);
      var s, t := Sleepers(procs, chan, q, k), Sleepers(procs, chan, q, k + 1);
      forall i, j | 0 <= i < j < |s| ensures s[i] < s[j] {
        if |s| == |t| + 1 { assert s[j] == t[j - 1] && t[j - 1] in t; }
      }
    }
  }

  /** The list depends on nothing but state, channel and priority. */
  lemma {:induction false} SleepersSame(a: seq<Proc>, b: seq<Proc>, chan: int, q: int, k: nat)
    requires k <= |a| == |b|
    requires forall i :: k <= i < |a| ==>
      SleepsOn(a[i], chan) == SleepsOn(b[i], chan) && (SleepsOn(a[i], chan) ==> a[i].priority == b[i].priority)
    ensures Sleepers(a, chan, q, k) == Sleepers(b, chan, q, k)
    decreases |a| - k
  {
    if k < |a| { SleepersSame(a, b, chan, q, k + 1); }
  }

  /** Ready list q, for q in 0..2, gains s[q] behind; nothing else but the slots changes. */
  ghost predicate Gains(t: Table, r: Table, q: nat, s: seq<nat>)
    requires |t.lists| == 4 == |r.lists| && q < 3
  {
    r.lists[q] == t.lists[q] + s
  }

  function Woken(x: Proc, chan: int): (r: Proc) { if SleepsOn(x, chan) then x.(state := RUNNABLE) else x }

  /** r is t with everybody from slot k on who sleeps on chan made RUNNABLE and queued, in slot order. */
  ghost predicate Wakes(t: Table, r: Table, chan: int, k: nat)
    requires |t.lists| == 4 == |r.lists| && k <= |t.procs|
  {
    && |r.procs| == |t.procs| && r.timer == t.timer && r.nextpid == t.nextpid && r.lists[FREE] == t.lists[FREE]
    && (forall p :: 0 <= p < |t.procs| ==> r.procs[p] == if p >= k then Woken(t.procs[p], chan) else t.procs[p])
    && forall q: nat :: q < 3 ==> Gains(t, r, q, Sleepers(t.procs, chan, q, k))
  }

  lemma WakesOne(t: Table, u: Table, r: Table, chan: int, k: nat)
    requires Inv(t) && k < NPROC && SleepsOn(t.procs[k], chan) && 0 <= t.procs[k].priority <= 2 && u == Queue(t, k)
    requires |r.lists| == 4 && Wakes(u, r, chan, k + 1)
    ensures Wakes(t, r, chan, k)
  {
    forall q: nat | q < 3 ensures Gains(t, r, q, Sleepers(t.procs, chan, q, k)) {
      SleepersSame(t.procs, u.procs, chan, q, k + 1);
      assert Gains(u, r, q, Sleepers(u.procs, chan, q, k + 1));
    }
  }

  lemma WakesSkip(t: Table, r: Table, chan: int, k: nat)
    requires |t.lists| == 4 == |r.lists| && k < |t.procs| && !SleepsOn(t.procs[k], chan) && Wakes(t, r, chan, k + 1)
    ensures Wakes(t, r, chan, k)
  {
    forall q: nat | q < 3 ensures Gains(t, r, q, Sleepers(t.procs, chan, q, k)) {
      assert Gains(t, r, q, Sleepers(t.procs, chan, q, k + 1));
    }
  }

  /** wakeup1 wakes exactly the sleepers on chan. */
  lemma {:induction false} WakeExact(t: Table, chan: int, k: nat)
    requires Inv(t) && k <= NPROC
    ensures Wakes(t, WakeFrom(t, chan, k), chan, k)
    decreases NPROC - k
  {
    if k < NPROC {
      assert PriorityOk(t.procs[k]);
      if SleepsOn(t.procs[k], chan) {
        QueueInv(t, k);
        WakeExact(Queue(t, k), chan, k + 1);
        WakesOne(t, Queue(t, k), WakeFrom(t, chan, k), chan, k);
      } else {
        WakeExact(t, chan, k + 1);
        WakesSkip(t, WakeFrom(t, chan, k + 1), chan, k);
      }
    } else {
      forall q: nat | q < 3 ensures Gains(t, t, q, Sleepers(t.procs, chan, q, k)) {}
    }
  }

  lemma {:induction false} SleepersNone(procs: seq<Proc>, chan: int, q: int, k: nat)
    requires k <= |procs| && forall i :: k <= i < |procs| ==> !SleepsOn(procs[i], chan)
    ensures Sleepers(procs, chan, q, k) == []
    decreases |procs| - k
  {
    if k < |procs| { SleepersNone(procs, chan, q, k + 1); }
  }

  // ------------------------------------------------------------------ exit

  predicate ZombieOf(x: Proc, p: nat) { x.parent == p && x.state == ZOMBIE }

  /** A child of p from slot k on has exited and not been waited for. */
  ghost predicate ZombieChild(procs: seq<Proc>, p: nat, k: nat) {
    exists i :: k <= i < |procs| && ZombieOf(procs[i], p)
  }

  function Adopted(x: Proc, p: nat, init: nat): (r: Proc) { if x.parent == p then x.(parent := init) else x }

  /** Who sleeps on init at priority q and is woken because a zombie is passed to it. */
  ghost function Inheriting(procs: seq<Proc>, p: nat, init: nat, k: nat, q: nat): (s: seq<nat>) {
    if ZombieChild(procs, p, k) then Sleepers(procs, init, q, 0) else []
  }

  /** r is t with the children of p from slot k on passed to init, which is woken if one of them is a zombie. */
  ghost predicate Abandons(t: Table, r: Table, p: nat, init: nat, k: nat)
    requires |t.lists| == 4 == |r.lists|
  {
    var z := ZombieChild(t.procs, p, k);
    && |r.procs| == |t.procs| && r.timer == t.timer && r.nextpid == t.nextpid && r.lists[FREE] == t.lists[FREE]
    && (forall i :: 0 <= i < |t.procs| ==>
          var x := if z then Woken(t.procs[i], init) else t.procs[i];
          r.procs[i] == if i >= k then Adopted(x, p, init) else x)
    && forall q: nat :: q < 3 ==> Gains(t, r, q, Inheriting(t.procs, p, init, k, q))
  }

  lemma AbandonsNext(t: Table, u: Table, r: Table, p: nat, init: nat, k: nat)
    requires |t.lists| == 4 == |r.lists| && k < |t.procs| && u == SetProc(t, k, Adopted(t.procs[k], p, init))
    requires !ZombieOf(t.procs[k], p) && Abandons(u, r, p, init, k + 1)
    ensures Abandons(t, r, p, init, k)
  {
    assert ZombieChild(u.procs, p, k + 1) == ZombieChild(t.procs, p, k) by {
      if i :| k + 1 <= i < |u.procs| && ZombieOf(u.procs[i], p) { assert ZombieOf(t.procs[i], p); }
      if i :| k <= i < |t.procs| && ZombieOf(t.procs[i], p) { assert ZombieOf(u.procs[i], p); }
    }
    var z := ZombieChild(t.procs, p, k);
    forall i | 0 <= i < |t.procs|
      ensures var x := if z then Woken(t.procs[i], init) else t.procs[i];
        r.procs[i] == if i >= k then Adopted(x, p, init) else x
    {
      assert r.procs[i] == var x := if z then Woken(u.procs[i], init) else u.procs[i];
        if i >= k + 1 then Adopted(x, p, init) else x;
    }
    forall q: nat | q < 3 ensures Gains(t, r, q, Inheriting(t.procs, p, init, k, q)) {
      SleepersSame(t.procs, u.procs, init, q, 0);
      assert Gains(u, r, q, Inheriting(u.procs, p, init, k + 1, q));
    }
  }

  lemma AbandonsZombie(t: Table, u: Table, w: Table, r: Table, p: nat, init: nat, k: nat)
    requires |t.lists| == 4 == |w.lists| && |r.lists| == 4 && k < |t.procs|
    requires ZombieOf(t.procs[k], p) && u == SetProc(t, k, Adopted(t.procs[k], p, init))
    requires Wakes(u, w, init, 0) && Abandons(w, r, p, init, k + 1)
    ensures Abandons(t, r, p, init, k)
  {
    assert ZombieChild(t.procs, p, k);
    forall q: nat | q < 3 ensures Gains(t, r, q, Inheriting(t.procs, p, init, k, q)) {
      SleepersSame(t.procs, u.procs, init, q, 0);
      SleepersNone(w.procs, init, q, 0);
      assert Gains(u, w, q, Sleepers(u.procs, init, q, 0));
      assert Gains(w, r, q, Inheriting(w.procs, p, init, k + 1, q));
    }
  }

  lemma {:induction false} AbandonExact(t: Table, p: nat, init: nat, k: nat)
    requires Inv(t) && k <= NPROC
    ensures Abandons(t, Abandon(t, p, init, k), p, init, k)
    decreases NPROC - k
  {
    if k == NPROC {
      assert !ZombieChild(t.procs, p, k);
      forall q: nat | q < 3 ensures Gains(t, t, q, Inheriting(t.procs, p, init, k, q)) {}
    } else {
      var u := SetProc(t, k, Adopted(t.procs[k], p, init));
      assert PriorityOk(t.procs[k]);
      SetProcInv(t, k, Adopted(t.procs[k], p, init));
      if ZombieOf(t.procs[k], p) {
        var w := WakeFrom(u, init, 0);
        WakeInv(u, init, 0);
        WakeExact(u, init, 0);
        AbandonExact(w, p, init, k + 1);
        AbandonsZombie(t, u, w, Abandon(w, p, init, k + 1), p, init, k);
      } else {
        assert t.procs[k].parent != p ==> u == t;
        AbandonExact(u, p, init, k + 1);
        AbandonsNext(t, u, Abandon(u, p, init, k + 1), p, init, k);
      }
    }
  }

  /** Whom p's exit wakes: its parent, and init if it inherits a zombie. */
  ghost predicate WokenByExit(t: Table, p: nat, init: nat, x: Proc)
    requires p < |t.procs|
  {
    SleepsOn(x, t.procs[p].parent) || (ZombieChild(t.procs, p, 0) && SleepsOn(x, init))
  }

  /** The slot of x, slot i, once p has exited. */
  ghost function AfterExit(t: Table, p: nat, init: nat, i: nat): (r: Proc)
    requires p < |t.procs| && i < |t.procs|
  {
    var x := t.procs[i];
    x.(state := if i == p then ZOMBIE else if WokenByExit(t, p, init, x) then RUNNABLE else x.state,
       parent := if x.parent == p then init else x.parent)
  }

  /** The slots that p's exit puts on ready list q. */
  ghost function QueuedByExit(t: Table, p: nat, init: nat, q: nat): (s: seq<nat>)
    requires p < |t.procs|
  {
    Sleepers(t.procs, t.procs[p].parent, q, 0) +
    if ZombieChild(t.procs, p, 0) && t.procs[p].parent != init then Sleepers(t.procs, init, q, 0) else []
  }

  lemma GainsTwice(t: Table, a: Table, u: Table, q: nat, x: seq<nat>, y: seq<nat>)
    requires |t.lists| == |a.lists| == |u.lists| == 4 && q < 3 && Gains(t, a, q, x) && Gains(a, u, q, y)
    ensures Gains(t, u, q, x + y)
  {
  }

  /** Once par has been woken, init still is to be, unless it is par. */
  lemma StillAsleep(t: seq<Proc>, a: seq<Proc>, par: int, init: nat, q: nat)
    requires |a| == |t| && forall i :: 0 <= i < |t| ==> a[i] == Woken(t[i], par)
    ensures Sleepers(a, init, q, 0) == if par == init then [] else Sleepers(t, init, q, 0)
  {
    if par == init { SleepersNone(a, init, q, 0); } else { SleepersSame(t, a, init, q, 0); }
  }

  lemma ExitLists(t: Table, a: Table, u: Table, p: nat, init: nat, q: nat)
    requires p < |t.procs| && q < 3 && |t.lists| == |a.lists| == |u.lists| == 4
    requires Wakes(t, a, t.procs[p].parent, 0) && Abandons(a, u, p, init, 0)
    requires ZombieChild(a.procs, p, 0) == ZombieChild(t.procs, p, 0)
    ensures Gains(t, u, q, QueuedByExit(t, p, init, q))
  {
    var par := t.procs[p].parent;
    StillAsleep(t.procs, a.procs, par, init, q);
    GainsTwice(t, a, u, q, Sleepers(t.procs, par, q, 0), Inheriting(a.procs, p, init, 0, q));
  }

  /** Every slot and every list once p has exited. */
  ghost predicate Exited(t: Table, r: Table, p: nat, init: nat)
    requires |t.lists| == 4 && p < |t.procs|
  {
    && |r.procs| == |t.procs| && |r.lists| == 4 && r.timer == t.timer && r.nextpid == t.nextpid
    && (forall i: nat :: i < |t.procs| ==> r.procs[i] == AfterExit(t, p, init, i))
    && r.lists[FREE] == t.lists[FREE]
    && forall q: nat :: q < 3 ==> Gains(t, r, q, QueuedByExit(t, p, init, q))
  }

  /**
    exit() makes p a zombie, passes its children to init, wakes who sleeps on
    its parent, wakes who sleeps on init exactly if it inherits a zombie, and
    changes nothing else.
   */
  lemma ExitExact(t: Table, p: nat, init: nat)
    requires Enabled(t, Exit(p, init))
    ensures Exited(t, Next(t, Exit(p, init)), p, init)
  {
    var a := WakeFrom(t, t.procs[p].parent, 0);
    var u := Abandon(a, p, init, 0);
    WakeInv(t, t.procs[p].parent, 0);
    WakeExact(t, t.procs[p].parent, 0);
    AbandonExact(a, p, init, 0);
    SameZombies(t.procs, a.procs, t.procs[p].parent, p);
    forall q: nat | q < 3 ensures Gains(t, u, q, QueuedByExit(t, p, init, q)) { ExitLists(t, a, u, p, init, q); }
  }

  lemma SameZombies(a: seq<Proc>, b: seq<Proc>, chan: int, p: nat)
    requires |a| == |b| && forall i :: 0 <= i < |a| ==> b[i] == Woken(a[i], chan)
    ensures ZombieChild(b, p, 0) == ZombieChild(a, p, 0)
  {
    if i :| 0 <= i < |b| && ZombieOf(b[i], p) { assert ZombieOf(a[i], p); }
    if i :| 0 <= i < |a| && ZombieOf(a[i], p) { assert ZombieOf(b[i], p); }
  }

  // ----------------------------------------------------------- lost wakeups

  /** The event makes p, if it sleeps, RUNNABLE. */
  ghost predicate WakesUp(t: Table, e: Event, p: nat)
    requires |t.procs| == NPROC && p < NPROC
  {
    match e
    case Wakeup(chan) => SleepsOn(t.procs[p], chan)
    case Kill(pid) => t.procs[p].state == SLEEPING && Find(t.procs, pid, 0) == p
    case Exit(x, init) => x < NPROC && WokenByExit(t, x, init, t.procs[p])
    case _ => false
  }

  /** What the event leaves of a sleeper. */
  ghost predicate SleptOn(t: Table, e: Event, p: nat, chan: int, x: Proc)
    requires |t.procs| == NPROC && p < NPROC
  {
    if WakesUp(t, e, p) then x.state == RUNNABLE && x.pid == t.procs[p].pid else SleepsOn(x, chan)
  }

  /** Slot i once p has been chosen to run. */
  function AfterDecide(t: Table, p: nat, i: nat): (r: Proc)
    requires i < |t.procs|
  {
    t.procs[i].(priority := if t.timer == 0 then 1 else t.procs[i].priority,
                state := if i == p then RUNNING else t.procs[i].state)
  }

  ghost predicate Decided(t: Table, r: Table, p: nat) {
    && |r.procs| == |t.procs| && r.nextpid == t.nextpid && p < |t.procs| && t.procs[p].state == RUNNABLE
    && r.timer == (if t.timer == 0 then MAXTIMETORESET else t.timer - 1)
    && forall i: nat :: i < |t.procs| ==> r.procs[i] == AfterDecide(t, p, i)
  }

  /** A decision runs the first process of the best list, and resets all priorities when the timer has run down. */
  lemma DecideExact(t: Table)
    requires Enabled(t, Decide)
    ensures Decided(t, Next(t, Decide), Chosen(Tick(t)))
  {
    TickInv(t);
    ChosenFacts(Tick(t));
    DispatchInv(Tick(t));
  }

  lemma AllocSleeper(t: Table, p: nat)
    requires Enabled(t, Alloc) && p < NPROC && t.procs[p].state == SLEEPING
    ensures |Next(t, Alloc).procs| == NPROC && Next(t, Alloc).procs[p] == t.procs[p]
  {
    if t.lists[FREE] != [] { assert Tags(t.procs)[t.lists[FREE][0]] == FREE; }
  }

  /** A sleeper stays as it is until an event wakes it. */
  lemma StepSleeper(t: Table, e: Event, p: nat, chan: int)
    requires Enabled(t, e) && p < NPROC && SleepsOn(t.procs[p], chan)
    ensures |Next(t, e).procs| == NPROC && SleptOn(t, e, p, chan, Next(t, e).procs[p])
  {
    match e
    case Wakeup(c) => WakeExact(t, c, 0);
    case Exit(x, init) =>
      ExitExact(t, x, init);
      assert Next(t, e).procs[p] == AfterExit(t, x, init, p);
    case Decide => DecideExact(t);
    case Alloc => AllocSleeper(t, p);
    case _ =>
  }

  /**
    No wakeup is lost.  A process that went to sleep on chan sleeps on it
    until the first event that wakes it: a wakeup of chan, its being killed,
    or an exit that concerns it.  Then it is RUNNABLE, on its ready list.
   */
  lemma {:induction false} NoLostWakeup(states: seq<Table>, events: seq<Event>, i: nat, n: nat, p: nat, chan: int)
    requires Run(states, events) && i < n < |states| && p < NPROC && events[i] == Sleep(p, chan)
    requires forall l :: i < l < n ==> |states[l].procs| == NPROC && !WakesUp(states[l], events[l], p)
    ensures Inv(states[n]) && SleepsOn(states[n].procs[p], chan)
    ensures n < |events| && WakesUp(states[n], events[n], p) ==>
      && Inv(states[n + 1]) && states[n + 1].procs[p].state == RUNNABLE
      && 0 <= states[n + 1].procs[p].priority <= 2 && p in states[n + 1].lists[states[n + 1].procs[p].priority]
    decreases n
  {
    RunInv(states, events, n);
    assert StepAt(states, events, n - 1);
    RunInv(states, events, n - 1);
    if n > i + 1 {
      NoLostWakeup(states, events, i, n - 1, p, chan);
      StepSleeper(states[n - 1], events[n - 1], p, chan);
    }
    if n < |events| && WakesUp(states[n], events[n], p) {
      assert StepAt(states, events, n);
      StepSleeper(states[n], events[n], p, chan);
      RunInv(states, events, n + 1);
      ReadyListed(states[n + 1], p);
    }
  }

  lemma ReadyListed(t: Table, p: nat)
    requires Inv(t) && p < NPROC && t.procs[p].state == RUNNABLE
    ensures 0 <= t.procs[p].priority <= 2 && p in t.lists[t.procs[p].priority]
  {
    assert PriorityOk(t.procs[p]);
    assert Tags(t.procs)[p] == t.procs[p].priority;
  }

  // ------------------------------------------------------------------ pids

  /** Two slots have different pids, unless both are 0; none has been given out twice. */
  ghost predicate PidsOk(t: Table) {
    && t.nextpid >= 1 && (forall i :: 0 <= i < |t.procs| ==> 0 <= t.procs[i].pid < t.nextpid)
    && forall i, j :: 0 <= i < j < |t.procs| && t.procs[i].pid == t.procs[j].pid ==> t.procs[i].pid == 0
  }

  /** Apart from Alloc and Reap no event changes a pid. */
  lemma StepPid(t: Table, e: Event, i: nat)
    requires Enabled(t, e) && i < NPROC
    ensures |Next(t, e).procs| == NPROC
    ensures Next(t, e).nextpid == if e.Alloc? && t.lists[FREE] != [] then t.nextpid + 1 else t.nextpid
    ensures Next(t, e).procs[i].pid ==
      if e.Alloc? && t.lists[FREE] != [] && t.lists[FREE][0] == i then t.nextpid
      else if e.Reap? && e.p == i then 0
      else t.procs[i].pid
  {
    match e
    case Wakeup(c) => WakeExact(t, c, 0);
    case Exit(x, init) =>
      ExitExact(t, x, init);
      assert Next(t, e).procs[i] == AfterExit(t, x, init, i);
    case Decide => DecideExact(t);
    case _ =>
  }

  /** In every run from boot a pid names one process. */
  lemma {:induction false} PidsDistinct(states: seq<Table>, events: seq<Event>, n: nat)
    requires Run(states, events) && PidsOk(states[0]) && n < |states|
    ensures PidsOk(states[n])
  {
    if n > 0 {
      PidsDistinct(states, events, n - 1);
      RunInv(states, events, n - 1);
      assert StepAt(states, events, n - 1);
      PidsStep(states[n - 1], events[n - 1]);
    }
  }

  lemma PidsStep(t: Table, e: Event)
    requires Enabled(t, e) && PidsOk(t)
    ensures PidsOk(Next(t, e))
  {
    var r := Next(t, e);
    StepPid(t, e, 0);
    forall i | 0 <= i < |r.procs| ensures 0 <= r.procs[i].pid < r.nextpid { StepPid(t, e, i); }
    forall i, j | 0 <= i < j < |r.procs| && r.procs[i].pid == r.procs[j].pid ensures r.procs[i].pid == 0 {
      StepPid(t, e, i);
      StepPid(t, e, j);
    }
  }

  /** kill() marks the process that has the pid, wakes it if it sleeps, and leaves the others alone. */
  lemma KillExact(t: Table, pid: int, i: nat)
    requires Enabled(t, Kill(pid)) && PidsOk(t) && pid > 0 && i < NPROC
    ensures |Next(t, Kill(pid)).procs| == NPROC
    ensures Next(t, Kill(pid)).procs[i] ==
      if t.procs[i].pid != pid then t.procs[i]
      else t.procs[i].(killed := true, state := if t.procs[i].state == SLEEPING then RUNNABLE else t.procs[i].state)
  {
    assert PriorityOk(t.procs[i]);
  }
}
