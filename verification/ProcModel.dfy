/**
  The process table of proc.c as a state machine.  Every event is one
  ptable.lock critical section.  The four intrusive lists are sequences of
  slots: lists 0..2 are pReadyList, list 3 is pFreeList.
 */
module ProcModel {

  const NPROC: nat := 64
  const MAXTIMETORESET: nat := 100
  const FREE: nat := 3

  datatype State = UNUSED | EMBRYO | SLEEPING | RUNNABLE | RUNNING | ZOMBIE

  /** `parent` is a slot or -1; a channel is an address, and slot p's own address is p. */
  datatype Proc = Proc(state: State, priority: int, pid: int, parent: int, chan: int, killed: bool)

  type Lists = seq<seq<nat>>

  datatype Table = Table(procs: seq<Proc>, lists: Lists, timer: nat, nextpid: int)

  // ------------------------------------------------------------- partition

  ghost predicate NoDup(s: seq<nat>) {
    forall i, j :: 0 <= i < j < |s| ==> s[i] != s[j]
  }

  /** The list a slot belongs on, by its state and priority; -1 for none. */
  function Tag(p: Proc): (a: int) {
    if p.state == UNUSED then FREE else if p.state == RUNNABLE then p.priority else -1
  }

  /** Slot p is on list a exactly when tag[p] == a; no list repeats a slot. */
  ghost predicate Part(lists: Lists, tag: seq<int>) {
    && |lists| == 4 && |tag| == NPROC
    && (forall a :: 0 <= a < 4 ==> NoDup(lists[a]))
    && (forall a, i :: 0 <= a < 4 && 0 <= i < |lists[a]| ==> lists[a][i] < NPROC && tag[lists[a][i]] == a)
    && (forall p :: 0 <= p < NPROC && 0 <= tag[p] < 4 ==> p in lists[tag[p]])
  }

  ghost function Tags(procs: seq<Proc>): (t: seq<int>)
    ensures |t| == |procs|
  {
    seq(|procs|, i requires 0 <= i < |procs| => Tag(procs[i]))
  }

  /** A process that may be queued has a priority that names a ready list. */
  ghost predicate PriorityOk(p: Proc) {
    p.state == SLEEPING || p.state == RUNNABLE || p.state == RUNNING ==> 0 <= p.priority <= 2
  }

  /**
    pFreeList holds exactly the UNUSED slots, and ready list q exactly the
    RUNNABLE slots of priority q, each once.
   */
  ghost predicate Inv(t: Table) {
    && |t.procs| == NPROC && t.timer <= MAXTIMETORESET
    && Part(t.lists, Tags(t.procs))
    && forall p :: 0 <= p < NPROC ==> PriorityOk(t.procs[p])
  }

  // ---------------------------------------------------- list operations

  /** AddReadyList on a slot that is on no list: nothing unless it is RUNNABLE. */
  function AddReady(t: Table, p: nat): (r: Table)
    requires |t.lists| == 4 && p < |t.procs| && 0 <= t.procs[p].priority <= 2
  {
    var q := t.procs[p].priority;
    if t.procs[p].state != RUNNABLE then t
    else t.(lists := t.lists[q := t.lists[q] + [p]])
  }

  function SetProc(t: Table, p: nat, x: Proc): (r: Table)
    requires p < |t.procs|
  {
    t.(procs := t.procs[p := x])
  }

  /** Make slot p RUNNABLE and queue it: the body shared by yield, kill and wakeup1. */
  function Queue(t: Table, p: nat): (r: Table)
    requires |t.lists| == 4 && p < |t.procs| && 0 <= t.procs[p].priority <= 2
  {
    AddReady(SetProc(t, p, t.procs[p].(state := RUNNABLE)), p)
  }

  /** wakeup1 over slots k..NPROC. */
  function WakeFrom(t: Table, chan: int, k: nat): (r: Table)
    requires |t.lists| == 4 && k <= |t.procs|
    requires forall p :: 0 <= p < |t.procs| ==> PriorityOk(t.procs[p])
    ensures |r.lists| == 4 && |r.procs| == |t.procs|
    ensures forall p :: 0 <= p < |r.procs| ==> PriorityOk(r.procs[p])
    ensures r.timer == t.timer && r.nextpid == t.nextpid
    decreases |t.procs| - k
  {
    if k == |t.procs| then t
    else
      assert PriorityOk(t.procs[k]);
      WakeFrom(if t.procs[k].state == SLEEPING && t.procs[k].chan == chan then Queue(t, k) else t, chan, k + 1)
  }

  /** exit()'s loop over slots k..NPROC: children of p go to init, which is woken for each zombie. */
  function Abandon(t: Table, p: nat, init: nat, k: nat): (r: Table)
    requires |t.lists| == 4 && k <= |t.procs|
    requires forall i :: 0 <= i < |t.procs| ==> PriorityOk(t.procs[i])
    ensures |r.lists| == 4 && |r.procs| == |t.procs|
    ensures forall i :: 0 <= i < |r.procs| ==> PriorityOk(r.procs[i])
    ensures r.timer == t.timer && r.nextpid == t.nextpid
    decreases |t.procs| - k
  {
    if k == |t.procs| then t
    else if t.procs[k].parent == p then
      var u := SetProc(t, k, t.procs[k].(parent := init));
      assert forall i :: 0 <= i < |u.procs| ==> PriorityOk(t.procs[i]) && PriorityOk(u.procs[i]);
      Abandon(if u.procs[k].state == ZOMBIE then WakeFrom(u, init, 0) else u, p, init, k + 1)
    else Abandon(t, p, init, k + 1)
  }

  /** ResetPriority: every priority becomes 1, and lists 0 and 2 follow list 1. */
  function Reset(t: Table): (r: Table)
    requires |t.lists| == 4
    ensures |r.lists| == 4 && |r.procs| == |t.procs|
  {
    t.(procs := seq(|t.procs|, i requires 0 <= i < |t.procs| => t.procs[i].(priority := 1)),
       lists := [[], t.lists[1] + t.lists[0] + t.lists[2], [], t.lists[3]])
  }

  /** The part of a scheduler decision before GetReady. */
  function Tick(t: Table): (r: Table)
    requires |t.lists| == 4
    ensures |r.lists| == 4 && |r.procs| == |t.procs|
  {
    if t.timer == 0 then Reset(t).(timer := MAXTIMETORESET) else t.(timer := t.timer - 1)
  }

  predicate SomeReady(t: Table)
    requires |t.lists| == 4
  {
    t.lists[0] != [] || t.lists[1] != [] || t.lists[2] != []
  }

  /** GetReady: the head of the first nonempty ready list. */
  function Chosen(t: Table): (p: nat)
    requires |t.lists| == 4 && SomeReady(t)
  {
    if t.lists[0] != [] then t.lists[0][0] else if t.lists[1] != [] then t.lists[1][0] else t.lists[2][0]
  }

  /** First slot with the given pid, or NPROC. */
  function Find(procs: seq<Proc>, pid: int, k: nat): (p: nat)
    requires k <= |procs|
    ensures k <= p <= |procs|
    ensures p < |procs| ==> procs[p].pid == pid
    ensures forall i :: k <= i < p ==> procs[i].pid != pid
    decreases |procs| - k
  {
    if k == |procs| || procs[k].pid == pid then k else Find(procs, pid, k + 1)
  }

  // ----------------------------------------------------------------- events

  datatype Event =
    | Alloc                               // allocproc under the lock
    | Undo(p: nat)                        // kalloc or copyuvm failed for an EMBRYO
    | Start(p: nat, parent: int)          // end of fork or userinit
    | Exit(p: nat, init: nat)
    | Reap(p: nat)                        // wait() found a ZOMBIE
    | Yield(p: nat)
    | Sleep(p: nat, chan: int)
    | Wakeup(chan: int)
    | Kill(pid: int)
    | SetPriority(pid: int, priority: int)
    | Decide                              // one turn of the scheduler's inner loop

  /**
    setpriority neither moves a process between lists nor checks the range;
    this is the use that keeps the table sound.
   */
  ghost predicate SafePriority(t: Table, pid: int, priority: int) {
    var p := Find(t.procs, pid, 0);
    p < |t.procs| ==>
      var x := t.procs[p];
      && (x.state == RUNNABLE ==> priority == x.priority)
      && (x.state == SLEEPING || x.state == RUNNING ==> 0 <= priority <= 2)
  }

  ghost predicate Enabled(t: Table, e: Event) {
    && Inv(t)
    && match e
       case Alloc => true
       case Undo(p) => p < NPROC && t.procs[p].state == EMBRYO
       case Start(p, _) => p < NPROC && t.procs[p].state == EMBRYO
       case Exit(p, init) => p < NPROC && init < NPROC && p != init && t.procs[p].state == RUNNING
       case Reap(p) => p < NPROC && t.procs[p].state == ZOMBIE
       case Yield(p) => p < NPROC && t.procs[p].state == RUNNING
       case Sleep(p, _) => p < NPROC && t.procs[p].state == RUNNING
       case Wakeup(_) => true
       case Kill(_) => true
       case SetPriority(pid, q) => SafePriority(t, pid, q)
       case Decide => SomeReady(t)
  }

  /** AddFreeList after the slot became UNUSED. */
  function Freed(t: Table, p: nat, x: Proc): (r: Table)
    requires |t.lists| == 4 && p < |t.procs|
  {
    SetProc(t, p, x).(lists := t.lists[FREE := [p] + t.lists[FREE]])
  }

  function DoAlloc(t: Table): (r: Table)
    requires |t.lists| == 4 && forall i :: 0 <= i < |t.lists[FREE]| ==> t.lists[FREE][i] < |t.procs|
  {
    if t.lists[FREE] == [] then t
    else
      var p := t.lists[FREE][0];
      SetProc(t, p, t.procs[p].(state := EMBRYO, pid := t.nextpid))
      .(lists := t.lists[FREE := t.lists[FREE][1..]], nextpid := t.nextpid + 1)
  }

  /** s without its first occurrence of p. */
  function Without(s: seq<nat>, p: nat): (r: seq<nat>) {
    if s == [] then [] else if s[0] == p then s[1..] else [s[0]] + Without(s[1..], p)
  }

  /**
    RemoveReadyList: it looks on the list of p's priority, and a list of one
    element is emptied without comparing that element to p.
   */
  function RemoveReady(t: Table, p: nat): (r: Table)
    requires |t.lists| == 4 && p < |t.procs| && 0 <= t.procs[p].priority <= 2
  {
    var q := t.procs[p].priority;
    if |t.lists[q]| <= 1 then t.(lists := t.lists[q := []])
    else t.(lists := t.lists[q := Without(t.lists[q], p)])
  }

  function Dispatch(u: Table): (r: Table)
    requires |u.lists| == 4 && SomeReady(u) && Chosen(u) < |u.procs| && 0 <= u.procs[Chosen(u)].priority <= 2
  {
    var p := Chosen(u);
    RemoveReady(SetProc(u, p, u.procs[p].(state := RUNNING)), p)
  }

  ghost function Next(t: Table, e: Event): (r: Table)
    requires Enabled(t, e)
  {
    match e
    case Alloc => DoAlloc(t)
    case Undo(p) => Freed(t, p, t.procs[p].(state := UNUSED))
    case Start(p, parent) => Queue(SetProc(t, p, t.procs[p].(parent := parent, priority := 1)), p)
    case Exit(p, init) =>
      var u := Abandon(WakeFrom(t, t.procs[p].parent, 0), p, init, 0);
      SetProc(u, p, u.procs[p].(state := ZOMBIE))
    case Reap(p) => Freed(t, p, t.procs[p].(state := UNUSED, pid := 0, parent := -1, killed := false))
    case Yield(p) => assert PriorityOk(t.procs[p]); Queue(t, p)
    case Sleep(p, chan) => SetProc(t, p, t.procs[p].(state := SLEEPING, chan := chan))
    case Wakeup(chan) => WakeFrom(t, chan, 0)
    case Kill(pid) =>
      var p := Find(t.procs, pid, 0);
      if p == NPROC then t
      else
        assert PriorityOk(t.procs[p]);
        var u := SetProc(t, p, t.procs[p].(killed := true));
        if t.procs[p].state == SLEEPING then Queue(u, p) else u
    case SetPriority(pid, q) =>
      var p := Find(t.procs, pid, 0);
      if p == NPROC then t else SetProc(t, p, t.procs[p].(priority := q))
    case Decide => TickInv(t); ChosenFacts(Tick(t)); Dispatch(Tick(t))
  }

  // ------------------------------------------------------------ proof tools

  lemma NoDupAppend(s: seq<nat>, t: seq<nat>)
    requires NoDup(s) && NoDup(t) && forall x :: x in s ==> x !in t
    ensures NoDup(s + t)
  {
    forall i, j | 0 <= i < j < |s + t| ensures (s + t)[i] != (s + t)[j] {
      if i < |s| <= j { assert s[i] in s && t[j - |s|] in t; }
    }
  }

  /** List a gains slot p, which was on no list. */
  lemma PartAppend(lists: Lists, tag: seq<int>, p: nat, a: nat)
    requires Part(lists, tag) && p < NPROC && a < 4 && !(0 <= tag[p] < 4)
    ensures Part(lists[a := lists[a] + [p]], tag[p := a])
  {
    NoDupAppend(lists[a], [p]);
  }

  lemma PartPush(lists: Lists, tag: seq<int>, p: nat, a: nat)
    requires Part(lists, tag) && p < NPROC && a < 4 && !(0 <= tag[p] < 4)
    ensures Part(lists[a := [p] + lists[a]], tag[p := a])
  {
    NoDupAppend([p], lists[a]);
  }

  /** The head of list a leaves it. */
  lemma PartPop(lists: Lists, tag: seq<int>, a: nat)
    requires Part(lists, tag) && a < 4 && lists[a] != []
    ensures Part(lists[a := lists[a][1..]], tag[lists[a][0] := -1])
  {
    var s := lists[a];
    assert s == [s[0]] + s[1..];
  }

  lemma ResetPart(t: Table)
    requires Inv(t)
    ensures Inv(Reset(t))
  {
    var r := Reset(t);
    var l := t.lists;
    NoDupAppend(l[1], l[0]);
    NoDupAppend(l[1] + l[0], l[2]);
    forall p | 0 <= p < NPROC && 0 <= Tags(r.procs)[p] < 4 ensures p in r.lists[Tags(r.procs)[p]] {
      assert PriorityOk(t.procs[p]);
      assert Tags(t.procs)[p] == Tag(t.procs[p]) && 0 <= Tags(t.procs)[p] < 4;
      assert p in l[Tags(t.procs)[p]];
    }
  }

  lemma TickInv(t: Table)
    requires Inv(t)
    ensures Inv(Tick(t))
    ensures SomeReady(t) ==> SomeReady(Tick(t))
  {
    ResetPart(t);
  }

  lemma ChosenFacts(t: Table)
    requires Inv(t) && SomeReady(t)
    ensures Chosen(t) < NPROC
    ensures t.procs[Chosen(t)].state == RUNNABLE && 0 <= t.procs[Chosen(t)].priority <= 2
    ensures var s := t.lists[t.procs[Chosen(t)].priority]; s != [] && s[0] == Chosen(t)
  {
    var a := if t.lists[0] != [] then 0 else if t.lists[1] != [] then 1 else 2;
    assert t.lists[a][0] < NPROC && Tags(t.procs)[t.lists[a][0]] == a;
  }
}
