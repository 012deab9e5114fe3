/**
  Theorems over whole runs of the log: what a crash recovers, log reservation,
  and the exact condition under which log_write refuses a block.
 */
module LogRuns {
  import opened LogModel
  import opened LogProofs

  // ------------------------------------------------------------ durability

  ghost function NextCommitted(s: Sys, c: Disk, e: Event): (r: Disk) {
    if e.WriteHead? then Logical(s) else c
  }

  /** Only the header write of commit() changes what a crash would recover. */
  lemma StepInv(s: Sys, c: Disk, e: Event)
    requires Inv(s, c) && Enabled(s, e)
    ensures Inv(Next(s, e), NextCommitted(s, c, e))
  {
    match e
    case BeginOp(_) => StepBeginOp(s, c, e);
    case EndOp(_) => StepEndOp(s, c, e);
    case Get(b, h) => StepGet(s, c, b, h);
    case Modify(_, _) => StepModify(s, c, e);
    case LogWrite(b) => StepLogWrite(s, c, b);
    case Release(b) => StepRelease(s, c, b);
    case Evict(b) => StepEvict(s, c, b);
    case CopyToLog => StepCopyToLog(s, c);
    case WriteHead => StepWriteHead(s, c);
    case InstallOne => StepInstallOne(s, c);
    case ClearHead => StepClearHead(s, c);
    case CommitDone => StepBeginOp(s, c, e);
    case Crash => StepCrash(s, c);
    case ReadHead => StepReadHead(s, c);
  }

  /** No operation in progress, none being committed: the logical contents are whole operations. */
  ghost predicate Quiet(s: Sys) {
    s.ops == map[] && (s.phase.Running? || s.phase.WriteLog?)
  }

  /** The last operation has ended and its commit has finished. */
  ghost predicate Idle(s: Sys) {
    s.ops == map[] && s.phase.Running?
  }

  /** What is committed where a run starts: whatever recovery makes of the disk. */
  ghost function AtStart(s: Sys): (c: Disk) {
    if DiskOk(s.disk, s.start, s.size) then Recovered(s.disk, s.start, s.size) else s.disk
  }

  lemma StartInv(s: Sys)
    requires Start(s)
    ensures Inv(s, AtStart(s))
  {
    var c, lh := AtStart(s), Entries(s.disk[s.start]);
    forall i | 0 <= i < |lh| ensures s.disk[s.start + 1 + i] == c[lh[i]] {
      InstalledAt(s.disk, s.start, s.size, lh, |lh|, lh[i]);
    }
    forall b: nat ensures HomeOk(s.disk, c, s.start, s.size, b, lh, 0) {
      if b < |s.disk| { InstalledAt(s.disk, s.start, s.size, lh, |lh|, b); }
    }
  }

  /** With nothing outstanding, what would be recovered is exactly what is seen. */
  lemma IdleIsCommitted(s: Sys, c: Disk)
    requires Inv(s, c) && Idle(s)
    ensures Inv(s, Logical(s))
  {
    forall b: nat ensures HomeOk(s.disk, Logical(s), s.start, s.size, b, [], 0) {
      if b in s.cache { assert BufOk(s, b); }
    }
  }

  /** The contents committed at each state of a run: only WriteHead changes them. */
  ghost function History(states: seq<Sys>, events: seq<Event>): (h: seq<Disk>)
    requires |states| == |events| + 1
    ensures |h| == |states|
    decreases |events|
  {
    if events == [] then [AtStart(states[0])]
    else
      var k := |events| - 1;
      var h := History(states[..k + 1], events[..k]);
      h + [NextCommitted(states[k], h[k], events[k])]
  }

  lemma RunPrefix(states: seq<Sys>, events: seq<Event>)
    requires Run(states, events) && events != []
    ensures Run(states[..|events|], events[..|events| - 1])
  {
    var ss, es := states[..|events|], events[..|events| - 1];
    forall i | 0 <= i < |es| ensures StepAt(ss, es, i) { assert StepAt(states, events, i); }
  }

  /** A run extended by one enabled event. */
  lemma RunAppend(states: seq<Sys>, events: seq<Event>, e: Event)
    requires Run(states, events) && Enabled(states[|events|], e)
    ensures var s := Next(states[|events|], e);
      && Run(states + [s], events + [e])
      && History(states + [s], events + [e])
         == History(states, events) + [NextCommitted(states[|events|], History(states, events)[|events|], e)]
  {
    var ss, es := states + [Next(states[|events|], e)], events + [e];
    forall i | 0 <= i < |es| ensures StepAt(ss, es, i) {
      if i < |events| { assert StepAt(states, events, i); }
    }
    assert ss[..|events| + 1] == states && es[..|events|] == events;
  }

  /** One step of a run, from state i to state k. */
  lemma CommittedStep(states: seq<Sys>, events: seq<Event>, i: nat, k: nat, c: Disk)
    requires Run(states, events) && i + 1 == k <= |events| && Inv(states[i], c)
    ensures Inv(states[k], NextCommitted(states[i], c, events[i]))
  {
    assert StepAt(states, events, i);
    StepInv(states[i], c, events[i]);
  }

  /** The invariant holds in every state of every run. */
  lemma {:induction false} RunInv(states: seq<Sys>, events: seq<Event>, k: nat)
    requires Run(states, events) && Start(states[0]) && k < |states|
    ensures Inv(states[k], History(states, events)[k])
    decreases |events|, k
  {
    if events == [] {
      StartInv(states[0]);
    } else {
      RunPrefix(states, events);
      var last := |events| - 1;
      var ss, es := states[..|events|], events[..last];
      if k <= last {
        RunInv(ss, es, k);
      } else {
        var c := History(ss, es)[last];
        assert Inv(states[last], c) by { RunInv(ss, es, last); }
        CommittedStep(states, events, last, k, c);
      }
    }
  }

  ghost predicate RecoversTo(s: Sys, seen: Disk) {
    && DiskOk(s.disk, s.start, s.size)
    && SameHome(Recovered(s.disk, s.start, s.size), seen, s.start, s.size)
  }

  lemma InvRecovers(s: Sys, c: Disk)
    requires Inv(s, c)
    ensures RecoversTo(s, c)
  {
    RecoveredIsCommitted(s.disk, c, s.start, s.size, Tail(s));
  }

  /** The last header write from m up to k, or m: the moment that decides what is recovered at k. */
  ghost function LastHead(events: seq<Event>, m: nat, k: nat): (j: nat)
    requires m <= k <= |events|
    ensures m <= j <= k && (j == m || (j < k && events[j].WriteHead?))
    ensures forall i :: m <= i < k && events[i].WriteHead? ==> i <= j
  {
    if k == m then m else if events[k - 1].WriteHead? then k - 1 else LastHead(events, m, k - 1)
  }

  lemma {:induction false} CommittedSince(states: seq<Sys>, events: seq<Event>, m: nat, k: nat)
    requires Run(states, events) && Start(states[0]) && m <= k < |states| && Idle(states[m])
    ensures Inv(states[k], Logical(states[LastHead(events, m, k)]))
    decreases k - m
  {
    if k == m {
      RunInv(states, events, m);
      IdleIsCommitted(states[m], History(states, events)[m]);
    } else {
      var i := k - 1;
      var j, h := LastHead(events, m, i), LastHead(events, m, k);
      var c := Logical(states[j]);
      assert Inv(states[i], c) by { CommittedSince(states, events, m, i); }
      assert h == if events[i].WriteHead? then i else j;
      CommittedStep(states, events, i, k, c);
    }
  }

  /** A header write happens with no operation in progress. */
  lemma HeadQuiet(states: seq<Sys>, events: seq<Event>, j: nat)
    requires Run(states, events) && Start(states[0]) && j < |events| && events[j].WriteHead?
    ensures Quiet(states[j])
  {
    RunInv(states, events, j);
    assert StepAt(states, events, j);
  }

  // ----------------------------------------------------------- reservation

  /** Log slots that outstanding operations may still claim. */
  ghost function Unused(ops: map<nat, nat>): (r: int)
    decreases |ops|
  {
    if ops == map[] then 0 else
      var id :| id in ops;
      MAXOPBLOCKS - ops[id] + Unused(ops - {id})
  }

  lemma {:induction false} UnusedRemove(ops: map<nat, nat>, id: nat)
    requires id in ops
    ensures Unused(ops) == MAXOPBLOCKS - ops[id] + Unused(ops - {id})
    decreases |ops|
  {
    var x :| x in ops && Unused(ops) == MAXOPBLOCKS - ops[x] + Unused(ops - {x});
    if x != id {
      UnusedRemove(ops - {x}, id);
      UnusedRemove(ops - {id}, x);
      assert ops - {x} - {id} == ops - {id} - {x};
    }
  }

  lemma UnusedUpdate(ops: map<nat, nat>, id: nat, v: nat)
    ensures Unused(ops[id := v]) == MAXOPBLOCKS - v + Unused(ops - {id})
  {
    UnusedRemove(ops[id := v], id);
    assert ops[id := v] - {id} == ops - {id};
  }

  lemma {:induction false} UnusedAtMost(ops: map<nat, nat>)
    ensures Unused(ops) <= MAXOPBLOCKS * |ops|
    decreases |ops|
  {
    if ops != map[] {
      var x :| x in ops && Unused(ops) == MAXOPBLOCKS - ops[x] + Unused(ops - {x});
      UnusedAtMost(ops - {x});
    }
  }

  /** An outstanding operation holds home block b and may call log_write on it. */
  ghost predicate HeldByOp(s: Sys, b: nat) {
    && b in s.cache && s.cache[b].holder.ByOp? && s.cache[b].holder.id in s.ops
    && Home(s.start, s.size, |s.disk|, b)
  }

  /** The slots that operation has used. */
  ghost function Used(s: Sys, b: nat): (n: nat)
    requires HeldByOp(s, b)
  {
    s.ops[s.cache[b].holder.id]
  }

  /** A log_write within the MAXOPBLOCKS new blocks begin_op has reserved for its operation. */
  ghost predicate WithinBudget(s: Sys, e: Event) {
    e.LogWrite? && HeldByOp(s, e.b) && e.b !in s.lh ==> Used(s, e.b) < MAXOPBLOCKS
  }

  /** A run in which every operation stays within its reservation. */
  ghost predicate Budgeted(states: seq<Sys>, events: seq<Event>) {
    |states| == |events| + 1 && forall i :: 0 <= i < |events| ==> WithinBudget(states[i], events[i])
  }

  /** Slots in use plus slots promised never exceed LOGSIZE. */
  ghost predicate Reserved(s: Sys) {
    && |s.lh| + Unused(s.ops) <= LOGSIZE
    && NoDup(s.lh)
    && forall id :: id in s.ops ==> s.ops[id] <= MAXOPBLOCKS
  }

  lemma ReservedBeginOp(s: Sys, id: nat)
    requires Reserved(s) && Enabled(s, BeginOp(id))
    ensures Reserved(Next(s, BeginOp(id)))
  {
    UnusedAtMost(s.ops);
    UnusedUpdate(s.ops, id, 0);
    assert s.ops - {id} == s.ops;
  }

  lemma ReservedEndOp(s: Sys, id: nat)
    requires Reserved(s) && Enabled(s, EndOp(id))
    ensures Reserved(Next(s, EndOp(id)))
  {
    UnusedRemove(s.ops, id);
  }

  lemma ReservedLogWrite(s: Sys, b: nat)
    requires Reserved(s) && Enabled(s, LogWrite(b)) && WithinBudget(s, LogWrite(b)) && NoDup(Next(s, LogWrite(b)).lh)
    ensures Reserved(Next(s, LogWrite(b)))
  {
    var id := s.cache[b].holder.id;
    UnusedRemove(s.ops, id);
    UnusedUpdate(s.ops, id, s.ops[id] + 1);
  }

  lemma StepReserved(s: Sys, c: Disk, e: Event)
    requires Inv(s, c) && Reserved(s) && Enabled(s, e) && WithinBudget(s, e)
    ensures Reserved(Next(s, e))
  {
    var t := Next(s, e);
    assert ListOk(t.start, t.size, |t.disk|, t.lh) by { StepInv(s, c, e); }
    if e.BeginOp? {
      ReservedBeginOp(s, e.id);
    } else if e.EndOp? {
      ReservedEndOp(s, e.id);
    } else if e.LogWrite? {
      ReservedLogWrite(s, e.b);
    } else {
      assert t.ops == s.ops || t.ops == map[];
      assert t.lh == s.lh || t.ops == map[] by {
        assert e.ReadHead? ==> s.ops == map[];
        assert e.ClearHead? ==> s.ops == map[];
      }
    }
  }

  /** Log reservation over every run of operations within their budgets. */
  lemma {:induction false} Reservation(states: seq<Sys>, events: seq<Event>, k: nat)
    requires Run(states, events) && Budgeted(states, events) && Start(states[0]) && k < |states|
    ensures Reserved(states[k])
  {
    if k > 0 {
      Reservation(states, events, k - 1);
      RunInv(states, events, k - 1);
      assert StepAt(states, events, k - 1);
      StepReserved(states[k - 1], History(states, events)[k - 1], events[k - 1]);
    }
  }

  ghost predicate InCommit(s: Sys) {
    s.phase.WriteLog? || (s.phase.Install? && !s.phase.recovering)
  }

  /** While commit() runs no operation is admitted and the in-memory header does not change. */
  lemma {:induction false} HeaderFrozen(states: seq<Sys>, events: seq<Event>, i: nat, k: nat)
    requires Run(states, events) && Start(states[0]) && i <= k < |states|
    requires forall j :: i <= j <= k ==> InCommit(states[j])
    ensures states[k].lh == states[i].lh && states[k].ops == map[]
    decreases k - i
  {
    assert states[k].ops == map[] by { RunInv(states, events, k); }
    if i < k {
      HeaderFrozen(states, events, i, k - 1);
      assert InCommit(states[k - 1]) && InCommit(states[k]);
      assert Shape(states[k - 1]) by { RunInv(states, events, k - 1); }
      assert StepAt(states, events, k - 1);
    }
  }

  // ------------------------------------------------------- log capacity

  /** log_write on b, by the operation that holds it, panics with "too big a transaction". */
  ghost predicate Refused(s: Sys, b: nat) {
    HeldByOp(s, b) && LogFull(s)
  }

  lemma {:induction false} UnusedPositive(ops: map<nat, nat>)
    requires forall id :: id in ops ==> ops[id] <= MAXOPBLOCKS
    ensures Unused(ops) >= 0
    ensures (exists id :: id in ops && ops[id] < MAXOPBLOCKS) ==> Unused(ops) > 0
    decreases |ops|
  {
    if ops != map[] {
      var x :| x in ops && Unused(ops) == MAXOPBLOCKS - ops[x] + Unused(ops - {x});
      UnusedPositive(ops - {x});
      if id :| id in ops && ops[id] < MAXOPBLOCKS {
        if id != x { assert id in ops - {x}; }
      }
    }
  }

  /** In any region: log_write is refused exactly when lh.n has reached its bound, absorbed or not. */
  lemma PanicExact(states: seq<Sys>, events: seq<Event>, k: nat, b: nat)
    requires Run(states, events) && Start(states[0]) && k < |states| && HeldByOp(states[k], b)
    ensures var s := states[k];
      Refused(s, b) <==> |s.lh| == if s.size > LOGSIZE then LOGSIZE else s.size - 1
  {
    assert Shape(states[k]) by { RunInv(states, events, k); }
  }

  /**
    With more than LOGSIZE log blocks the reservation is enough for every
    operation that has slots left, whether the block is in the log already or
    not.  A refusal within the budget is the second logging of a block, with
    lh.n == LOGSIZE and every outstanding operation's slots used up.
   */
  lemma NoBudgetedPanic(states: seq<Sys>, events: seq<Event>, k: nat, b: nat)
    requires Run(states, events) && Budgeted(states, events) && Start(states[0]) && k < |states|
    requires HeldByOp(states[k], b) && states[k].size > LOGSIZE
    ensures Used(states[k], b) < MAXOPBLOCKS ==> !Refused(states[k], b)
    ensures Used(states[k], b) == MAXOPBLOCKS ==> (Refused(states[k], b) <==> |states[k].lh| == LOGSIZE)
    ensures Refused(states[k], b) ==> forall id :: id in states[k].ops ==> states[k].ops[id] == MAXOPBLOCKS
    ensures Refused(states[k], b) && WithinBudget(states[k], LogWrite(b)) ==> b in states[k].lh
  {
    PanicExact(states, events, k, b);
    Reservation(states, events, k);
    UnusedPositive(states[k].ops);
  }

  // A run in which three operations fill the log.

  ghost function Blank(size: nat): (s: Sys) {
    Sys(2, size, seq(2 + size + LOGSIZE + 1, i => seq(WORDS, j => 0)), map[], [], map[], Running)
  }

  /** Slots used by operation id once k blocks have been logged in order. */
  function Share(k: nat, id: nat): (r: nat) {
    if k <= MAXOPBLOCKS * id then 0
    else if k >= MAXOPBLOCKS * (id + 1) then MAXOPBLOCKS
    else k - MAXOPBLOCKS * id
  }

  ghost function OpsAt(k: nat): (r: map<nat, nat>) {
    map[0 := Share(k, 0), 1 := Share(k, 1), 2 := Share(k, 2)]
  }

  ghost predicate FilledBase(s: Sys, size: nat, k: nat) {
    && s.start == 2 && s.size == size && |s.disk| == 2 + size + LOGSIZE + 1 && s.phase.Running?
    && |s.lh| == k
    && (forall i :: 0 <= i < k ==> s.lh[i] == 2 + size + i)
    && forall b :: b in s.cache ==> b < 2 + size + k && s.cache[b].holder == Nobody
  }

  ghost predicate Filled(s: Sys, size: nat, k: nat) {
    FilledBase(s, size, k) && s.ops == OpsAt(k)
  }

  lemma Extend(states: seq<Sys>, events: seq<Event>, e: Event) returns (ss: seq<Sys>, es: seq<Event>)
    requires Run(states, events) && Budgeted(states, events) && Start(states[0])
    requires Enabled(states[|events|], e) && WithinBudget(states[|events|], e)
    ensures Run(ss, es) && Budgeted(ss, es) && ss[0] == states[0] && |es| == |events| + 1
    ensures ss[|es|] == Next(states[|events|], e) && Shape(ss[|es|])
  {
    RunAppend(states, events, e);
    ss, es := states + [Next(states[|events|], e)], events + [e];
    RunInv(ss, es, |es|);
  }

  lemma Begun(size: nat) returns (states: seq<Sys>, events: seq<Event>)
    requires size >= 1
    ensures Run(states, events) && Budgeted(states, events) && Start(states[0]) && states[0].size == size
    ensures Shape(states[|events|]) && Filled(states[|events|], size, 0)
  {
    var s := Blank(size);
    assert s.disk[2] == seq(WORDS, j => 0);
    states, events := [s], [];
    states, events := Extend(states, events, BeginOp(0));
    states, events := Extend(states, events, BeginOp(1));
    assert states[|events|].ops == map[0 := 0, 1 := 0];
    states, events := Extend(states, events, BeginOp(2));
    assert states[|events|].ops == map[0 := 0, 1 := 0, 2 := 0];
  }

  lemma FillGet(s: Sys, size: nat, k: nat)
    requires Shape(s) && Filled(s, size, k) && k < LOGSIZE
    ensures Enabled(s, Get(2 + size + k, ByOp(k / MAXOPBLOCKS)))
  {
    ShareNext(k);
  }

  lemma ShareNext(k: nat)
    requires k < LOGSIZE
    ensures var id := k / MAXOPBLOCKS;
      id in OpsAt(k) && OpsAt(k)[id] < MAXOPBLOCKS && OpsAt(k)[id := OpsAt(k)[id] + 1] == OpsAt(k + 1)
  {
    if k < 10 { assert k / MAXOPBLOCKS == 0; }
    else if k < 20 { assert k / MAXOPBLOCKS == 1; }
    else { assert k / MAXOPBLOCKS == 2; }
  }

  lemma FillLogWrite(s: Sys, t: Sys, size: nat, k: nat)
    requires Shape(s) && Filled(s, size, k) && k < LOGSIZE && k + 2 <= size
    requires Shape(t)
    requires t == s.(cache := s.cache[2 + size + k := Buf(s.disk[2 + size + k], ByOp(k / MAXOPBLOCKS), false, false)])
    ensures Enabled(t, LogWrite(2 + size + k)) && WithinBudget(t, LogWrite(2 + size + k))
    ensures Next(t, LogWrite(2 + size + k)) == s.(
      cache := s.cache[2 + size + k := Buf(s.disk[2 + size + k], ByOp(k / MAXOPBLOCKS), true, false)],
      lh := s.lh + [2 + size + k], ops := OpsAt(k + 1))
  {
    ShareNext(k);
  }

  lemma FillRelease(s: Sys, t: Sys, size: nat, k: nat)
    requires FilledBase(s, size, k) && k < LOGSIZE && Shape(t)
    requires var b, id := 2 + size + k, k / MAXOPBLOCKS;
      && t == s.(cache := t.cache, lh := s.lh + [b], ops := t.ops)
      && t.cache == s.cache[b := Buf(s.disk[b], ByOp(id), true, false)]
    ensures Enabled(t, Release(2 + size + k)) && FilledBase(Next(t, Release(2 + size + k)), size, k + 1)
  {
  }

  lemma {:induction false} Fill(size: nat, k: nat) returns (states: seq<Sys>, events: seq<Event>)
    requires 1 <= size && k + 1 <= size && k <= LOGSIZE
    ensures Run(states, events) && Budgeted(states, events) && Start(states[0]) && states[0].size == size
    ensures Shape(states[|events|]) && Filled(states[|events|], size, k)
  {
    if k == 0 {
      states, events := Begun(size);
    } else {
      states, events := Fill(size, k - 1);
      states, events := FillOne(states, events, size, k - 1);
    }
  }

  lemma FillOne(states: seq<Sys>, events: seq<Event>, size: nat, k: nat) returns (ss: seq<Sys>, es: seq<Event>)
    requires Run(states, events) && Budgeted(states, events) && Start(states[0]) && k + 2 <= size && k < LOGSIZE
    requires Shape(states[|events|]) && Filled(states[|events|], size, k)
    ensures Run(ss, es) && Budgeted(ss, es) && ss[0] == states[0]
    ensures Shape(ss[|es|]) && Filled(ss[|es|], size, k + 1)
  {
    var s, b, id := states[|events|], 2 + size + k, k / MAXOPBLOCKS;
    FillGet(s, size, k);
    ss, es := Extend(states, events, Get(b, ByOp(id)));
    FillLogWrite(s, ss[|es|], size, k);
    ss, es := Extend(ss, es, LogWrite(b));
    FillRelease(s, ss[|es|], size, k);
    ss, es := Extend(ss, es, Release(b));
  }

  /**
    With at most LOGSIZE log blocks, header included, an operation that has
    slots left can be refused.
   */
  lemma BudgetedPanicReachable(size: nat) returns (states: seq<Sys>, events: seq<Event>, b: nat)
    requires 1 <= size <= LOGSIZE
    ensures Run(states, events) && Budgeted(states, events) && Start(states[0]) && states[0].size == size
    ensures Refused(states[|events|], b) && Used(states[|events|], b) < MAXOPBLOCKS
  {
    var k := size - 1;
    states, events := Fill(size, k);
    b := 2 + size + k;
    ShareNext(k);
    FillGet(states[|events|], size, k);
    states, events := Extend(states, events, Get(b, ByOp(k / MAXOPBLOCKS)));
  }

  /** With more, an operation that has used its slots can be refused when it logs one of its blocks again. */
  lemma AbsorbedPanicReachable(size: nat) returns (states: seq<Sys>, events: seq<Event>, b: nat)
    requires size > LOGSIZE
    ensures Run(states, events) && Budgeted(states, events) && Start(states[0]) && states[0].size == size
    ensures Refused(states[|events|], b) && b in states[|events|].lh && Used(states[|events|], b) == MAXOPBLOCKS
  {
    states, events := Fill(size, LOGSIZE);
    b := 2 + size;
    assert states[|events|].lh[0] == b;
    states, events := Extend(states, events, Get(b, ByOp(0)));
  }
}
