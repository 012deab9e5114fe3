/**
  Theorems over runs of the process table: every step keeps the partition of
  the slots into lists, and no RUNNABLE process waits for more than a fixed
  number of scheduler decisions.
 */
module ProcRuns {
  import opened ProcModel

  // ------------------------------------------------------ partition is kept

  lemma TagsSet(procs: seq<Proc>, p: nat, x: Proc)
    requires p < |procs|
    ensures Tags(procs[p := x]) == Tags(procs)[p := Tag(x)]
  {
  }

  /** A slot on no list may change to any state that belongs on none. */
  lemma SetProcInv(t: Table, p: nat, x: Proc)
    requires Inv(t) && p < NPROC && Tag(x) == Tag(t.procs[p]) && PriorityOk(x)
    ensures Inv(SetProc(t, p, x))
  {
    TagsSet(t.procs, p, x);
    assert Tags(t.procs)[p := Tag(x)] == Tags(t.procs);
  }

  lemma QueueInv(t: Table, p: nat)
    requires Inv(t) && p < NPROC && Tag(t.procs[p]) == -1 && 0 <= t.procs[p].priority <= 2
    ensures Inv(Queue(t, p))
  {
    var x := t.procs[p].(state := RUNNABLE);
    TagsSet(t.procs, p, x);
    PartAppend(t.lists, Tags(t.procs), p, x.priority);
  }

  lemma FreedInv(t: Table, p: nat, x: Proc)
    requires Inv(t) && p < NPROC && Tag(t.procs[p]) == -1 && x.state == UNUSED
    ensures Inv(Freed(t, p, x))
  {
    TagsSet(t.procs, p, x);
    PartPush(t.lists, Tags(t.procs), p, FREE);
  }

  lemma AllocInv(t: Table)
    requires Inv(t)
    ensures Inv(DoAlloc(t))
  {
    if t.lists[FREE] != [] {
      var p := t.lists[FREE][0];
      assert t.lists[FREE][0] < NPROC;
      TagsSet(t.procs, p, t.procs[p].(state := EMBRYO, pid := t.nextpid));
      PartPop(t.lists, Tags(t.procs), FREE);
    }
  }

  lemma DispatchInv(t: Table)
    requires Inv(t) && SomeReady(t)
    ensures Chosen(t) < NPROC && 0 <= t.procs[Chosen(t)].priority <= 2
    ensures Inv(Dispatch(t))
    ensures var q := t.procs[Chosen(t)].priority; Dispatch(t).lists == t.lists[q := t.lists[q][1..]]
  {
    ChosenFacts(t);
    var p := Chosen(t);
    var q := t.procs[p].priority;
    TagsSet(t.procs, p, t.procs[p].(state := RUNNING));
    PartPop(t.lists, Tags(t.procs), q);
    assert |t.lists[q]| == 1 ==> t.lists[q][1..] == [];
  }

  lemma {:induction false} WakeInv(t: Table, chan: int, k: nat)
    requires Inv(t) && k <= NPROC
    ensures Inv(WakeFrom(t, chan, k))
    decreases NPROC - k
  {
    if k < NPROC {
      assert PriorityOk(t.procs[k]);
      if t.procs[k].state == SLEEPING && t.procs[k].chan == chan {
        QueueInv(t, k);
        WakeInv(Queue(t, k), chan, k + 1);
      } else {
        WakeInv(t, chan, k + 1);
      }
    }
  }

  lemma {:induction false} AbandonInv(t: Table, p: nat, init: nat, k: nat)
    requires Inv(t) && k <= NPROC
    ensures Inv(Abandon(t, p, init, k))
    decreases NPROC - k
  {
    if k < NPROC {
      if t.procs[k].parent == p {
        assert PriorityOk(t.procs[k]);
        var u := SetProc(t, k, t.procs[k].(parent := init));
        SetProcInv(t, k, t.procs[k].(parent := init));
        if u.procs[k].state == ZOMBIE {
          WakeInv(u, init, 0);
          AbandonInv(WakeFrom(u, init, 0), p, init, k + 1);
        } else {
          AbandonInv(u, p, init, k + 1);
        }
      } else {
        AbandonInv(t, p, init, k + 1);
      }
    }
  }

  /** A wakeup changes only sleepers. */
  lemma {:induction false} WakeFrame(t: Table, chan: int, k: nat, i: nat)
    requires Inv(t) && k <= NPROC && i < NPROC && t.procs[i].state != SLEEPING
    ensures WakeFrom(t, chan, k).procs[i] == t.procs[i]
    decreases NPROC - k
  {
    if k < NPROC {
      assert PriorityOk(t.procs[k]);
      if t.procs[k].state == SLEEPING && t.procs[k].chan == chan {
        QueueInv(t, k);
        WakeFrame(Queue(t, k), chan, k + 1, i);
      } else {
        WakeFrame(t, chan, k + 1, i);
      }
    }
  }

  lemma {:induction false} AbandonFrame(t: Table, p: nat, init: nat, k: nat, i: nat)
    requires Inv(t) && k <= NPROC && i < NPROC && t.procs[i].state != SLEEPING
    ensures var x := Abandon(t, p, init, k).procs[i]; x.state == t.procs[i].state && x.priority == t.procs[i].priority
    decreases NPROC - k
  {
    if k < NPROC {
      if t.procs[k].parent == p {
        assert PriorityOk(t.procs[k]);
        var u := SetProc(t, k, t.procs[k].(parent := init));
        SetProcInv(t, k, t.procs[k].(parent := init));
        if u.procs[k].state == ZOMBIE {
          WakeInv(u, init, 0);
          WakeFrame(u, init, 0, i);
          AbandonFrame(WakeFrom(u, init, 0), p, init, k + 1, i);
        } else {
          AbandonFrame(u, p, init, k + 1, i);
        }
      } else {
        AbandonFrame(t, p, init, k + 1, i);
      }
    }
  }

  lemma ExitInv(t: Table, p: nat, init: nat)
    requires Enabled(t, Exit(p, init))
    ensures Inv(Next(t, Exit(p, init)))
  {
    var a := WakeFrom(t, t.procs[p].parent, 0);
    WakeInv(t, t.procs[p].parent, 0);
    WakeFrame(t, t.procs[p].parent, 0, p);
    AbandonInv(a, p, init, 0);
    AbandonFrame(a, p, init, 0, p);
    var u := Abandon(a, p, init, 0);
    SetProcInv(u, p, u.procs[p].(state := ZOMBIE));
  }

  /** Process-list partition: every critical section keeps it. */
  lemma StepInv(t: Table, e: Event)
    requires Enabled(t, e)
    ensures Inv(Next(t, e))
  {
    match e
    case Alloc => AllocInv(t);
    case Undo(p) => FreedInv(t, p, t.procs[p].(state := UNUSED));
    case Start(p, parent) =>
      SetProcInv(t, p, t.procs[p].(parent := parent, priority := 1));
      QueueInv(SetProc(t, p, t.procs[p].(parent := parent, priority := 1)), p);
    case Exit(p, init) => ExitInv(t, p, init);
    case Reap(p) => FreedInv(t, p, t.procs[p].(state := UNUSED, pid := 0, parent := -1, killed := false));
    case Yield(p) => assert PriorityOk(t.procs[p]); QueueInv(t, p);
    case Sleep(p, chan) =>
      assert PriorityOk(t.procs[p]);
      SetProcInv(t, p, t.procs[p].(state := SLEEPING, chan := chan));
    case Wakeup(chan) => WakeInv(t, chan, 0);
    case Kill(pid) =>
      var p := Find(t.procs, pid, 0);
      if p < NPROC {
        assert PriorityOk(t.procs[p]);
        SetProcInv(t, p, t.procs[p].(killed := true));
        if t.procs[p].state == SLEEPING { QueueInv(SetProc(t, p, t.procs[p].(killed := true)), p); }
      }
    case SetPriority(pid, q) =>
      var p := Find(t.procs, pid, 0);
      if p < NPROC { SetProcInv(t, p, t.procs[p].(priority := q)); }
    case Decide => TickInv(t); DispatchInv(Tick(t));
  }

  // ------------------------------------------------------------------ runs

  /** Step i of a run.  Only the first table of a run is assumed sound; the steps keep it so. */
  ghost predicate StepAt(states: seq<Table>, events: seq<Event>, i: nat)
    requires |states| == |events| + 1
  {
    i < |events| && (Inv(states[i]) ==> Enabled(states[i], events[i]) && states[i + 1] == Next(states[i], events[i]))
  }

  ghost predicate Run(states: seq<Table>, events: seq<Event>) {
    && |states| == |events| + 1 && Inv(states[0])
    && forall i :: 0 <= i < |events| ==> StepAt(states, events, i)
  }

  /** The partition holds in every state of every run. */
  lemma {:induction false} RunInv(states: seq<Table>, events: seq<Event>, k: nat)
    requires Run(states, events) && k < |states|
    ensures Inv(states[k])
    decreases k
  {
    if k > 0 {
      RunInv(states, events, k - 1);
      assert StepAt(states, events, k - 1);
      StepInv(states[k - 1], events[k - 1]);
    }
  }

  // ----------------------------------------------------------- setpriority

  /** setpriority keeps the table sound exactly under SafePriority. */
  lemma SetPriorityExact(t: Table, pid: int, q: int)
    requires Inv(t)
    ensures var p := Find(t.procs, pid, 0);
      Inv(if p == NPROC then t else SetProc(t, p, t.procs[p].(priority := q))) <==> SafePriority(t, pid, q)
  {
    var p := Find(t.procs, pid, 0);
    if SafePriority(t, pid, q) {
      if p < NPROC { SetProcInv(t, p, t.procs[p].(priority := q)); }
    } else {
      var x := t.procs[p];
      var r := SetProc(t, p, x.(priority := q));
      assert PriorityOk(x);
      if x.state == RUNNABLE {
        assert Tags(t.procs)[p] == x.priority && p in t.lists[x.priority];
        var i :| 0 <= i < |r.lists[x.priority]| && r.lists[x.priority][i] == p;
        assert Tags(r.procs)[p] == q;
      } else {
        assert !PriorityOk(r.procs[p]);
      }
    }
  }

  /**
    What goes wrong otherwise: moving the head of list 1 to priority 2 by hand
    lets the next decision run it while it stays queued, to be run again, and
    empties list 2.
   */
  lemma UnsafePriority(t: Table)
    requires Inv(t) && t.timer > 0 && t.lists[0] == [] && t.lists[1] != [] && |t.lists[2]| <= 1
    ensures t.lists[1][0] < NPROC
    ensures var p := t.lists[1][0];
      var u := Tick(SetProc(t, p, t.procs[p].(priority := 2)));
      var r := Dispatch(u);
      r.procs[p].state == RUNNING && r.lists[1] == t.lists[1] && r.lists[2] == []
  {
    assert t.lists[1][0] < NPROC;
  }

  /** The table at boot, as userinit leaves it: every slot free, the last one first. */
  ghost predicate Boot(t: Table) {
    && |t.procs| == NPROC && t.timer == 0 && |t.lists| == 4
    && (forall p :: 0 <= p < NPROC ==> t.procs[p].state == UNUSED)
    && t.lists[0] == [] && t.lists[1] == [] && t.lists[2] == [] && |t.lists[FREE]| == NPROC
    && forall i :: 0 <= i < NPROC ==> t.lists[FREE][i] == NPROC - 1 - i
  }

  lemma BootInv(t: Table)
    requires Boot(t)
    ensures Inv(t)
  {
    forall p | 0 <= p < NPROC ensures p in t.lists[FREE] { assert t.lists[FREE][NPROC - 1 - p] == p; }
  }

  lemma Extend(states: seq<Table>, events: seq<Event>, e: Event) returns (ss: seq<Table>, es: seq<Event>)
    requires Run(states, events) && Enabled(states[|events|], e)
    ensures Run(ss, es) && ss[0] == states[0] && |es| == |events| + 1 && ss[|es|] == Next(states[|events|], e)
    ensures Inv(ss[|es|])
  {
    ss, es := states + [Next(states[|events|], e)], events + [e];
    forall i | 0 <= i < |es| ensures StepAt(ss, es, i) { if i < |events| { assert StepAt(states, events, i); } }
    RunInv(ss, es, |es|);
  }

  /** One process in the given state, with the ready lists and the timer that go with it. */
  ghost predicate Alone(t: Table, p: nat, state: State, timer: nat) {
    && Inv(t) && p < NPROC && t.procs[p].state == state && t.timer == timer
    && t.lists[0] == [] && t.lists[2] == [] && t.lists[1] == if state == RUNNABLE then [p] else []
  }

  lemma FirstProcess(t: Table) returns (states: seq<Table>, events: seq<Event>)
    requires Boot(t)
    ensures Run(states, events) && states[0] == t && Alone(states[|events|], NPROC - 1, RUNNABLE, 0)
  {
    BootInv(t);
    states, events := [t], [];
    states, events := Extend(states, events, Alloc);
    assert Alone(states[|events|], NPROC - 1, EMBRYO, 0);
    states, events := Extend(states, events, Start(NPROC - 1, -1));
  }

  /** Such a table is reached from boot: a process is started, chosen and gives way. */
  lemma UnsafeReachable(t: Table) returns (states: seq<Table>, events: seq<Event>)
    requires Boot(t)
    ensures Run(states, events) && states[0] == t
    ensures var u := states[|events|];
      Inv(u) && u.timer > 0 && u.lists[0] == [] && u.lists[1] != [] && |u.lists[2]| <= 1
  {
    states, events := FirstProcess(t);
    states, events := Extend(states, events, Decide);
    assert Alone(states[|events|], NPROC - 1, RUNNING, MAXTIMETORESET);
    states, events := Extend(states, events, Yield(NPROC - 1));
  }

  // ------------------------------------------------------------ starvation

  ghost function Index(s: seq<nat>, p: nat): (i: nat)
    requires p in s
    ensures i < |s| && s[i] == p && p !in s[..i]
  {
    if s[0] == p then 0 else
      assert s == [s[0]] + s[1..];
      var j := Index(s[1..], p);
      assert s[..1 + j] == [s[0]] + s[1..][..j];
      1 + j
  }

  lemma IndexUnique(s: seq<nat>, p: nat, i: nat)
    requires NoDup(s) && i < |s| && s[i] == p
    ensures Index(s, p) == i
  {
  }

  lemma {:induction false} Pigeonhole(s: seq<nat>, n: nat)
    requires NoDup(s) && forall i :: 0 <= i < |s| ==> s[i] < n
    ensures |s| <= n
    decreases n
  {
    if s != [] {
      var m := s[0];
      assert m < n;
      if x :| 0 <= x < |s| && s[x] == n - 1 {
        var r := s[..x] + s[x + 1..];
        assert forall i :: 0 <= i < |r| ==> r[i] == if i < x then s[i] else s[i + 1];
        Pigeonhole(r, n - 1);
      } else {
        Pigeonhole(s, n - 1);
      }
    }
  }

  const PERIOD: nat := MAXTIMETORESET + 1

  /** Scheduler decisions after which p must have been chosen. */
  ghost function Wait(t: Table, p: nat): (w: nat)
    requires Inv(t) && p < NPROC && t.procs[p].state == RUNNABLE
  {
    if t.procs[p].priority == 1 then
      assert Tags(t.procs)[p] == 1;
      t.timer + PERIOD * Index(t.lists[1], p)
    else t.timer + PERIOD * (NPROC - 1)
  }

  lemma WaitBound(t: Table, p: nat)
    requires Inv(t) && p < NPROC && t.procs[p].state == RUNNABLE
    ensures Wait(t, p) <= t.timer + PERIOD * (NPROC - 1)
  {
    Pigeonhole(t.lists[1], NPROC);
  }

  /** Ready lists only grow at the tail, and p keeps its place. */
  ghost predicate Grew(t: Table, r: Table, p: nat) {
    && |t.lists| == |r.lists| == 4 && |t.procs| == |r.procs| && p < |t.procs|
    && (forall a :: 0 <= a < 3 ==> t.lists[a] <= r.lists[a])
    && r.timer == t.timer
    && r.procs[p].state == t.procs[p].state && r.procs[p].priority == t.procs[p].priority
  }

  lemma {:induction false} WakeGrew(t: Table, chan: int, k: nat, p: nat)
    requires Inv(t) && k <= NPROC && p < NPROC && t.procs[p].state == RUNNABLE
    ensures Grew(t, WakeFrom(t, chan, k), p)
    decreases NPROC - k
  {
    if k < NPROC {
      assert PriorityOk(t.procs[k]);
      if t.procs[k].state == SLEEPING && t.procs[k].chan == chan {
        QueueInv(t, k);
        WakeGrew(Queue(t, k), chan, k + 1, p);
      } else {
        WakeGrew(t, chan, k + 1, p);
      }
    }
  }

  lemma {:induction false} AbandonGrew(t: Table, x: nat, init: nat, k: nat, p: nat)
    requires Inv(t) && k <= NPROC && p < NPROC && t.procs[p].state == RUNNABLE
    ensures Grew(t, Abandon(t, x, init, k), p)
    decreases NPROC - k
  {
    if k < NPROC {
      if t.procs[k].parent == x {
        assert PriorityOk(t.procs[k]);
        var u := SetProc(t, k, t.procs[k].(parent := init));
        SetProcInv(t, k, t.procs[k].(parent := init));
        if u.procs[k].state == ZOMBIE {
          WakeInv(u, init, 0);
          WakeGrew(u, init, 0, p);
          AbandonGrew(WakeFrom(u, init, 0), x, init, k + 1, p);
        } else {
          AbandonGrew(u, x, init, k + 1, p);
        }
      } else {
        AbandonGrew(t, x, init, k + 1, p);
      }
    }
  }

  lemma OtherGrew(t: Table, e: Event, p: nat)
    requires Enabled(t, e) && !e.Decide? && p < NPROC && t.procs[p].state == RUNNABLE
    ensures Grew(t, Next(t, e), p)
  {
    if e.Exit? {
      var a := WakeFrom(t, t.procs[e.p].parent, 0);
      WakeInv(t, t.procs[e.p].parent, 0);
      WakeGrew(t, t.procs[e.p].parent, 0, p);
      AbandonGrew(a, e.p, e.init, 0, p);
    } else if e.Wakeup? {
      WakeGrew(t, e.chan, 0, p);
    } else if e.Alloc? {
      if t.lists[FREE] != [] { assert Tags(t.procs)[t.lists[FREE][0]] == FREE; }
    }
  }

  lemma GrewWait(t: Table, r: Table, p: nat)
    requires Inv(t) && Inv(r) && p < NPROC && t.procs[p].state == RUNNABLE && Grew(t, r, p)
    ensures Wait(r, p) == Wait(t, p)
  {
    if t.procs[p].priority == 1 {
      assert Tags(t.procs)[p] == 1 && Tags(r.procs)[p] == 1;
      IndexUnique(r.lists[1], p, Index(t.lists[1], p));
    }
  }

  /** p's place in list 1 before the decision pops its head, in terms of Wait. */
  lemma TickWait(t: Table, u: Table, p: nat)
    requires Inv(t) && u == Tick(t) && Inv(u) && p < NPROC && t.procs[p].state == RUNNABLE
    ensures u.procs[p].state == RUNNABLE
    ensures u.procs[p].priority == 1 ==> p in u.lists[1] && PERIOD * Index(u.lists[1], p) + t.timer <= Wait(t, p)
    ensures t.timer == 0 ==> u.procs[p].priority == 1 && u.lists[0] == []
  {
    assert Tags(u.procs)[p] == u.procs[p].priority;
    if t.timer == 0 {
      ResetIndex(t, u, p);
    }
  }

  /** The reset puts lists 0 and 2 behind list 1, where at most NPROC - 1 slots precede p. */
  lemma ResetIndex(t: Table, u: Table, p: nat)
    requires Inv(t) && Inv(u) && p < NPROC && t.procs[p].state == RUNNABLE && t.timer == 0
    requires u.lists[1] == t.lists[1] + t.lists[0] + t.lists[2] && p in u.lists[1]
    ensures PERIOD * Index(u.lists[1], p) <= Wait(t, p)
  {
    if t.procs[p].priority == 1 {
      assert Tags(t.procs)[p] == 1;
      IndexUnique(u.lists[1], p, Index(t.lists[1], p));
    } else {
      Pigeonhole(u.lists[1], NPROC);
      PeriodMore(Index(u.lists[1], p), NPROC - 1);
    }
  }

  lemma PeriodMore(i: nat, j: nat)
    requires i <= j
    ensures PERIOD * i <= PERIOD * j
  {
  }

  /** A decision that chooses someone else brings p one decision nearer. */
  lemma DispatchWait(t: Table, u: Table, p: nat)
    requires Inv(t) && u == Tick(t) && Inv(u) && SomeReady(u) && p < NPROC && t.procs[p].state == RUNNABLE
    requires Chosen(u) != p
    ensures Chosen(u) < NPROC && 0 <= u.procs[Chosen(u)].priority <= 2
    ensures Inv(Dispatch(u)) && Dispatch(u).procs[p].state == RUNNABLE
    ensures Wait(Dispatch(u), p) < Wait(t, p)
  {
    DispatchInv(u);
    ChosenFacts(u);
    TickWait(t, u, p);
    var r := Dispatch(u);
    if u.procs[p].priority == 1 {
      var j := Index(u.lists[1], p);
      DispatchIndex(u, p);
      if u.lists[0] == [] {
        assert Wait(r, p) == u.timer + PERIOD * (j - 1);
        PeriodTimes(j);
      } else {
        assert Wait(r, p) == u.timer + PERIOD * j;
      }
    } else {
      assert t.timer != 0 && Wait(r, p) == u.timer + PERIOD * (NPROC - 1) == Wait(t, p) - 1;
    }
  }

  lemma PeriodTimes(j: nat)
    requires j >= 1
    ensures PERIOD * j == PERIOD * (j - 1) + PERIOD
  {
  }

  /** With priority 1, p moves up when the process chosen has priority 1 too, and otherwise stays. */
  lemma DispatchIndex(u: Table, p: nat)
    requires Inv(u) && SomeReady(u) && p < NPROC && u.procs[p].state == RUNNABLE && u.procs[p].priority == 1
    requires Chosen(u) != p && Chosen(u) < NPROC && 0 <= u.procs[Chosen(u)].priority <= 2 && Inv(Dispatch(u))
    requires p in u.lists[1]
    ensures Dispatch(u).procs[p] == u.procs[p] && p in Dispatch(u).lists[1]
    ensures Index(Dispatch(u).lists[1], p) == Index(u.lists[1], p) - if u.lists[0] == [] then 1 else 0
  {
    var r, j := Dispatch(u), Index(u.lists[1], p);
    ChosenFacts(u);
    assert Tags(r.procs)[p] == 1;
    if u.lists[0] == [] {
      assert u.lists[1][0] != p;
      IndexUnique(r.lists[1], p, j - 1);
    }
  }

  lemma WaitStep(t: Table, e: Event, p: nat)
    requires Enabled(t, e) && p < NPROC && t.procs[p].state == RUNNABLE
    requires e.Decide? ==> Chosen(t) < NPROC && SomeReady(Tick(t)) && Chosen(Tick(t)) != p
    ensures Inv(Next(t, e)) && Next(t, e).procs[p].state == RUNNABLE
    ensures Wait(Next(t, e), p) + (if e.Decide? then 1 else 0) <= Wait(t, p)
  {
    StepInv(t, e);
    if e.Decide? {
      TickInv(t);
      DispatchWait(t, Tick(t), p);
    } else {
      OtherGrew(t, e, p);
      GrewWait(t, Next(t, e), p);
    }
  }

  function Decisions(events: seq<Event>): (n: nat) {
    if events == [] then 0 else Decisions(events[..|events| - 1]) + (if events[|events| - 1].Decide? then 1 else 0)
  }

  /** Event i is a scheduler decision that picks p. */
  ghost predicate Picks(states: seq<Table>, events: seq<Event>, i: nat, p: nat)
    requires Run(states, events)
  {
    i < |events| && events[i].Decide? && Inv(states[i]) && SomeReady(Tick(states[i])) && Chosen(Tick(states[i])) == p
  }

  lemma WaitRunStep(states: seq<Table>, events: seq<Event>, p: nat, i: nat, k: nat)
    requires Run(states, events) && p < NPROC && i + 1 == k <= |events| && !Picks(states, events, i, p)
    requires Inv(states[i]) && states[i].procs[p].state == RUNNABLE
    ensures Inv(states[k]) && states[k].procs[p].state == RUNNABLE
    ensures Wait(states[k], p) + (if events[i].Decide? then 1 else 0) <= Wait(states[i], p)
  {
    assert StepAt(states, events, i);
    if events[i].Decide? { TickInv(states[i]); ChosenFacts(states[i]); }
    WaitStep(states[i], events[i], p);
  }

  lemma {:induction false} WaitRun(states: seq<Table>, events: seq<Event>, p: nat, k: nat)
    requires Run(states, events) && p < NPROC && states[0].procs[p].state == RUNNABLE && k <= |events|
    requires forall i :: 0 <= i < k ==> !Picks(states, events, i, p)
    ensures Inv(states[k]) && states[k].procs[p].state == RUNNABLE
    ensures Wait(states[k], p) + Decisions(events[..k]) <= Wait(states[0], p)
  {
    if k > 0 {
      var i := k - 1;
      WaitRun(states, events, p, i);
      WaitRunStep(states, events, p, i, k);
      assert events[..k][..i] == events[..i];
    }
  }

  lemma {:induction false} FirstPick(states: seq<Table>, events: seq<Event>, p: nat, k: nat) returns (i: nat)
    requires Run(states, events) && k <= |events|
    requires forall j :: 0 <= j < k ==> !Picks(states, events, j, p)
    ensures k <= i <= |events| && (i < |events| ==> Picks(states, events, i, p))
    ensures forall j :: 0 <= j < i ==> !Picks(states, events, j, p)
    decreases |events| - k
  {
    if k == |events| || Picks(states, events, k, p) {
      i := k;
    } else {
      i := FirstPick(states, events, p, k + 1);
    }
  }

  /**
    No starvation: in any run, a RUNNABLE process is chosen within
    TimeToReset + 1 + 101 * (NPROC - 1) scheduler decisions, whatever the
    other processes do in between.
   */
  lemma Starvation(states: seq<Table>, events: seq<Event>, p: nat)
    requires Run(states, events) && p < NPROC && states[0].procs[p].state == RUNNABLE
    requires Decisions(events) >= states[0].timer + 1 + PERIOD * (NPROC - 1)
    ensures exists i :: 0 <= i < |events| && Picks(states, events, i, p) &&
                        Decisions(events[..i]) + 1 <= states[0].timer + 1 + PERIOD * (NPROC - 1) <= 6464
  {
    var i := FirstPick(states, events, p, 0);
    WaitRun(states, events, p, i);
    WaitBound(states[0], p);
    assert events[..|events|] == events;
  }
}
