/**
  proc.c itself: the process table with its intrusive `next` links, list heads
  and timer, updated in place.  Each method is one function or critical
  section of the source and is proved to do the matching step of ProcModel.
 */
module ProcImpl {
  import opened ProcModel
  import opened ProcRuns
  import opened ProcSteps

  const NIL: int := -1

  // ------------------------------------------------------------ link paths

  /** Following nx from h visits exactly the slots of s and then reaches e. */
  ghost predicate Path(nx: seq<int>, h: int, s: seq<nat>, e: int)
    decreases |s|
  {
    if s == [] then h == e else h == s[0] && s[0] < |nx| && Path(nx, nx[s[0]], s[1..], e)
  }

  lemma {:induction false} PathConcat(nx: seq<int>, h: int, s: seq<nat>, m: int, t: seq<nat>, e: int)
    requires Path(nx, h, s, m) && Path(nx, m, t, e)
    ensures Path(nx, h, s + t, e)
    decreases |s|
  {
    if s == [] {
      assert s + t == t;
    } else {
      PathConcat(nx, nx[s[0]], s[1..], m, t, e);
      assert (s + t)[1..] == s[1..] + t;
    }
  }

  lemma {:induction false} PathSplit(nx: seq<int>, h: int, s: seq<nat>, e: int, j: nat)
    requires Path(nx, h, s, e) && j <= |s|
    ensures var m := if j < |s| then s[j] else e; Path(nx, h, s[..j], m) && Path(nx, m, s[j..], e)
    decreases |s|
  {
    if j > 0 {
      PathSplit(nx, nx[s[0]], s[1..], e, j - 1);
      assert s[..j][1..] == s[1..][..j - 1] && s[j..] == s[1..][j - 1..];
    } else {
      assert s[0..] == s;
    }
  }

  lemma {:induction false} PathFrame(nx: seq<int>, nx': seq<int>, h: int, s: seq<nat>, e: int)
    requires Path(nx, h, s, e) && |nx'| == |nx| && forall x :: x in s && x < |nx| ==> nx'[x] == nx[x]
    ensures Path(nx', h, s, e)
    decreases |s|
  {
    if s != [] {
      assert s[0] in s && forall x :: x in s[1..] ==> x in s;
      PathFrame(nx, nx', nx[s[0]], s[1..], e);
    }
  }

  /** Changing the link of the last slot changes where the path leads. */
  lemma {:induction false} PathRetarget(nx: seq<int>, h: int, s: seq<nat>, e: int, e': int)
    requires Path(nx, h, s, e) && s != [] && NoDup(s) && s[|s| - 1] < |nx|
    ensures Path(nx[s[|s| - 1] := e'], h, s, e')
    decreases |s|
  {
    var nx' := nx[s[|s| - 1] := e'];
    if |s| > 1 {
      PathRetarget(nx, nx[s[0]], s[1..], e, e');
      assert s[0] != s[|s| - 1];
    }
  }

  /** A null-terminated list. */
  ghost predicate Linked(nx: seq<int>, h: int, s: seq<nat>) {
    Path(nx, h, s, NIL)
  }

  lemma ListsFrame(nx: seq<int>, nx': seq<int>, lists: Lists, tag: seq<int>, a: nat, h: int)
    requires Part(lists, tag) && |nx| == |nx'| == NPROC && a < 4 && Linked(nx, h, lists[a])
    requires forall x :: 0 <= x < NPROC && tag[x] == a ==> nx'[x] == nx[x]
    ensures Linked(nx', h, lists[a])
  {
    PathFrame(nx, nx', h, lists[a], NIL);
  }

  /** k - 1, ..., 1, 0 */
  ghost function Down(k: nat): (s: seq<nat>)
    ensures |s| == k && forall i :: 0 <= i < k ==> s[i] == k - 1 - i
  {
    if k == 0 then [] else [k - 1] + Down(k - 1)
  }

  lemma BootTags(procs: seq<Proc>, tag: seq<int>)
    requires |procs| == |tag| && forall p :: 0 <= p < |procs| ==> procs[p].state == UNUSED && tag[p] == FREE
    ensures tag == Tags(procs)
  {
  }

  class PTable {
    const proc: array<Proc>
    const next: array<int>
    const pReadyList: array<int>
    var pFreeList: int
    var timeToReset: nat
    var nextpid: int
    ghost var lists: Lists
    ghost var tag: seq<int>

    ghost function Abs(): (t: Table)
      reads this, proc
    {
      Table(proc[..], lists, timeToReset, nextpid)
    }

    ghost function Head(a: nat): (h: int)
      reads this`pFreeList, pReadyList
      requires pReadyList.Length == 3 && a < 4
    {
      if a < 3 then pReadyList[a] else pFreeList
    }

    ghost predicate ListAt(a: nat)
      reads this`pFreeList, this`lists, next, pReadyList
      requires pReadyList.Length == 3 && a < 4 && |lists| == 4
    {
      Linked(next[..], Head(a), lists[a])
    }

    /** The four lists are linked through `next`, acyclic and disjoint. */
    ghost predicate Wf()
      reads this, proc, next, pReadyList
    {
      && proc.Length == NPROC && next.Length == NPROC && pReadyList.Length == 3
      && Part(lists, tag)
      && forall a :: 0 <= a < 4 ==> ListAt(a)
    }

    ghost predicate Valid()
      reads this, proc, next, pReadyList
    {
      Wf() && tag == Tags(proc[..]) && Inv(Abs())
    }

    /** No slot but p changes. */
    twostate predicate Others(p: nat)
      reads proc
    {
      forall i: nat :: i < proc.Length && i != p ==> proc[i] == old(proc[i])
    }

    /** Boot: userinit puts every UNUSED slot on the free list, so slot 63 comes first. */
    constructor ()
      ensures Valid() && timeToReset == 0 && nextpid == 1
      ensures lists == [[], [], [], Down(NPROC)]
      ensures forall p :: 0 <= p < NPROC ==> proc[p].state == UNUSED
      ensures fresh(proc) && fresh(next) && fresh(pReadyList)
    {
      proc := new Proc[NPROC](_ => Proc(UNUSED, 0, 0, -1, 0, false));
      next := new int[NPROC](_ => NIL);
      pReadyList := new int[3](_ => NIL);
      pFreeList, timeToReset, nextpid := NIL, 0, 1;
      lists, tag := [[], [], [], []], seq(NPROC, _ => -1);
      new;
      var k := 0;
      while k < NPROC
        invariant 0 <= k <= NPROC && Wf() && timeToReset == 0 && nextpid == 1
        invariant lists == [[], [], [], Down(k)]
        invariant tag == seq(NPROC, i => if i < k then FREE else -1)
        invariant forall p :: 0 <= p < NPROC ==> proc[p] == Proc(UNUSED, 0, 0, -1, 0, false)
      {
        AddFreeList(k);
        k := k + 1;
      }
      BootTags(proc[..], tag);
    }

    // ------------------------------------------------------ list primitives

    method AddFreeList(p: nat)
      requires Wf() && p < NPROC && !(0 <= tag[p] < 4)
      modifies this`pFreeList, this`lists, this`tag, next
      ensures Wf() && lists == old(lists)[FREE := [p] + old(lists)[FREE]] && tag == old(tag)[p := FREE]
    {
      ghost var nx := next[..];
      PartPush(lists, tag, p, FREE);
      if pFreeList == NIL {
        pFreeList := p;
        next[p] := NIL;
      } else {
        var rest := pFreeList;
        pFreeList := p;
        next[pFreeList] := rest;
      }
      ghost var l := lists;
      lists := lists[FREE := [p] + lists[FREE]];
      tag := tag[p := FREE];
      forall a | 0 <= a < 4 ensures ListAt(a) {
        assert old(ListAt(a));
        ListsFrame(nx, next[..], l, old(tag), a, old(Head(a)));
        assert ([p] + l[FREE])[1..] == l[FREE];
      }
    }

    method RemoveFreeList() returns (p: int)
      requires Wf()
      modifies this`pFreeList, this`lists, this`tag
      ensures Wf() && (p == NIL || 0 <= p < NPROC)
      ensures old(lists)[FREE] == [] ==> p == NIL && lists == old(lists) && tag == old(tag)
      ensures old(lists)[FREE] != [] ==>
        p == old(lists)[FREE][0] && lists == old(lists)[FREE := old(lists)[FREE][1..]] && tag == old(tag)[p := -1]
    {
      assert ListAt(FREE);
      if pFreeList == NIL { return NIL; }
      p := pFreeList;
      PartPop(lists, tag, FREE);
      pFreeList := next[pFreeList];
      lists := lists[FREE := lists[FREE][1..]];
      tag := tag[p := -1];
      forall a | 0 <= a < 4 ensures ListAt(a) { assert old(ListAt(a)); }
    }

    /** The last slot of a list: `while(temp->next != 0) temp = temp->next`. */
    method Last(h: nat, ghost s: seq<nat>) returns (x: nat)
      requires next.Length == NPROC && s != [] && Linked(next[..], h, s)
      ensures x == s[|s| - 1] && x < NPROC
    {
      ghost var i := 0;
      x := h;
      assert s[0..] == s;
      while next[x] != NIL
        invariant 0 <= i < |s| && x == s[i] && Linked(next[..], x, s[i..])
        decreases |s| - i
      {
        assert s[i..][1..] == s[i + 1..] && Linked(next[..], next[x], s[i + 1..]);
        x := next[x];
        i := i + 1;
      }
      assert s[i..][1..] == s[i + 1..] && Linked(next[..], next[x], s[i + 1..]);
    }

    /** AddReadyList: 0 on success, -1 if the slot is not RUNNABLE. */
    method AddReadyList(p: nat) returns (r: int)
      requires Wf() && p < NPROC && !(0 <= tag[p] < 4) && 0 <= proc[p].priority <= 2
      modifies this`lists, this`tag, next, pReadyList
      ensures Wf() && r == (if proc[p].state == RUNNABLE then 0 else -1)
      ensures Abs() == AddReady(old(Abs()), p)
      ensures tag == if r == 0 then old(tag)[p := proc[p].priority] else old(tag)
    {
      if proc[p].state != RUNNABLE { return -1; }
      var priority := proc[p].priority;
      PartAppend(lists, tag, p, priority);
      ghost var nx, l, g := next[..], lists, tag;
      forall a | 0 <= a < 4 ensures Linked(nx, Head(a), l[a]) { assert ListAt(a); }
      LinkLast(p, priority);
      lists := lists[priority := lists[priority] + [p]];
      tag := tag[p := priority];
      assert ListAt(priority);
      forall a | 0 <= a < 4 && a != priority ensures ListAt(a) {
        ListsFrame(nx, next[..], l, g, a, old(Head(a)));
      }
      return 0;
    }

    /** Link slot p behind the ready list of its priority. */
    method LinkLast(p: nat, priority: nat)
      requires Wf() && p < NPROC && !(0 <= tag[p] < 4) && priority <= 2
      modifies next, pReadyList
      ensures Linked(next[..], pReadyList[priority], lists[priority] + [p])
      ensures forall a :: 0 <= a < 3 && a != priority ==> pReadyList[a] == old(pReadyList[a])
      ensures forall x :: 0 <= x < NPROC && x != p && tag[x] != priority ==> next[x] == old(next[x])
    {
      ghost var nx, s := next[..], lists[priority];
      assert ListAt(priority);
      if pReadyList[priority] == NIL {
        pReadyList[priority] := p;
        next[pReadyList[priority]] := NIL;
      } else {
        var temp := Last(pReadyList[priority], s);
        next[p] := NIL;
        next[temp] := p;
        AppendLinked(nx, pReadyList[priority], s, p);
      }
    }

    /** RemoveReadyList: 0, or -1 if the list of p's priority is empty. */
    method RemoveReadyList(p: nat) returns (r: int)
      requires Wf() && p < NPROC && 0 <= proc[p].priority <= 2
      requires |lists[proc[p].priority]| >= 2 ==> p in lists[proc[p].priority]
      modifies this`lists, this`tag, next, pReadyList
      ensures Wf() && Abs() == RemoveReady(old(Abs()), p)
      ensures var s := old(lists)[proc[p].priority];
        if s == [] then r == -1 && tag == old(tag)
        else r == 0 && tag == old(tag)[(if |s| == 1 then s[0] else p) := -1]
    {
      var q := proc[p].priority;
      assert ListAt(q);
      if pReadyList[q] == NIL {
        assert lists[q := []] == lists;
        return -1;
      }
      TakeOff(p, q);
      return 0;
    }

    /** p, or the only element, leaves ready list q. */
    method TakeOff(p: nat, q: nat)
      requires Wf() && q < 3 && lists[q] != [] && (|lists[q]| >= 2 ==> p in lists[q])
      modifies this`lists, this`tag, next, pReadyList
      ensures Wf() && lists == old(lists)[q := if |old(lists)[q]| == 1 then [] else Without(old(lists)[q], p)]
      ensures tag == old(tag)[(if |old(lists)[q]| == 1 then old(lists)[q][0] else p) := -1]
    {
      forall a | 0 <= a < 4 ensures Linked(next[..], Head(a), lists[a]) { assert ListAt(a); }
      ghost var nx := next[..];
      ghost var j := Unlink(p, q);
      Unlist(q, j, nx);
    }

    /** Take p, or the only element, off ready list q. */
    method Unlink(p: nat, q: nat) returns (ghost j: nat)
      requires Wf() && q < 3 && lists[q] != [] && (|lists[q]| >= 2 ==> p in lists[q])
      modifies next, pReadyList
      ensures j < |lists[q]| && lists[q][j] == (if |lists[q]| == 1 then lists[q][0] else p)
      ensures lists[q][..j] + lists[q][j + 1..] == if |lists[q]| == 1 then [] else Without(lists[q], p)
      ensures Linked(next[..], pReadyList[q], lists[q][..j] + lists[q][j + 1..])
      ensures forall a :: 0 <= a < 3 && a != q ==> pReadyList[a] == old(pReadyList[a])
      ensures forall x :: 0 <= x < NPROC && tag[x] != q ==> next[x] == old(next[x])
    {
      ghost var s := lists[q];
      ghost var nx := next[..];
      assert ListAt(q);
      assert Linked(nx, nx[s[0]], s[1..]) && s[..0] + s[1..] == s[1..];
      j := 0;
      if next[pReadyList[q]] == NIL {
        assert |s| == 1;
        pReadyList[q] := NIL;
      } else if pReadyList[q] == p {
        pReadyList[q] := next[pReadyList[q]];
      } else {
        j := UnlinkInner(p, q);
      }
    }

    /** Take p, which is not the first, off ready list q. */
    method UnlinkInner(p: nat, q: nat) returns (ghost j: nat)
      requires Wf() && q < 3 && |lists[q]| >= 2 && p in lists[q] && pReadyList[q] != p
      modifies next
      ensures j < |lists[q]| && lists[q][j] == p
      ensures lists[q][..j] + lists[q][j + 1..] == Without(lists[q], p)
      ensures Linked(next[..], pReadyList[q], lists[q][..j] + lists[q][j + 1..])
      ensures forall x :: 0 <= x < NPROC && tag[x] != q ==> next[x] == old(next[x])
    {
      ghost var s, nx := lists[q], next[..];
      assert ListAt(q);
      var prev, current := FindInList(p, pReadyList[q], s);
      next[prev] := next[current];
      j := Index(s, p);
      WithoutIndex(s, p);
      UnlinkLinked(nx, pReadyList[q], s, j);
    }

    /** The search loop of RemoveReadyList: p and its predecessor on list s. */
    method FindInList(p: nat, h: nat, ghost s: seq<nat>) returns (prev: nat, current: nat)
      requires next.Length == NPROC && Linked(next[..], h, s) && NoDup(s) && p in s && h != p
      ensures current == p && Index(s, p) > 0 && prev == s[Index(s, p) - 1]
    {
      ghost var i := 0;
      prev, current := 0, h;
      assert s[0..] == s;
      while current != p
        invariant 0 <= i < |s| && current == s[i] && Linked(next[..], current, s[i..])
        invariant p in s[i..]
        invariant i > 0 ==> prev == s[i - 1]
        decreases |s| - i
      {
        assert s[i..][1..] == s[i + 1..] && Linked(next[..], next[current], s[i + 1..]);
        assert s[i..] == [s[i]] + s[i + 1..];
        prev := current;
        current := next[current];
        i := i + 1;
      }
      IndexUnique(s, p, i);
    }

    /** Ghost bookkeeping once slot j of list q is unlinked. */
    ghost method Unlist(q: nat, j: nat, nx: seq<int>)
      requires proc.Length == NPROC && next.Length == NPROC && pReadyList.Length == 3 && |nx| == NPROC
      requires Part(lists, tag) && q < 3 && j < |lists[q]|
      requires Linked(next[..], pReadyList[q], lists[q][..j] + lists[q][j + 1..])
      requires forall a :: 0 <= a < 4 && a != q ==> Linked(nx, Head(a), lists[a])
      requires forall x :: 0 <= x < NPROC && tag[x] != q ==> next[x] == nx[x]
      modifies this`lists, this`tag
      ensures Wf() && lists == old(lists)[q := old(lists)[q][..j] + old(lists)[q][j + 1..]]
      ensures tag == old(tag)[old(lists)[q][j] := -1]
    {
      PartRemove(lists, tag, q, j);
      ghost var l, g := lists, tag;
      lists, tag := lists[q := lists[q][..j] + lists[q][j + 1..]], tag[lists[q][j] := -1];
      forall a | 0 <= a < 4 ensures ListAt(a) {
        if a != q {
          assert Linked(nx, Head(a), l[a]);
          ListsFrame(nx, next[..], l, g, a, Head(a));
        }
      }
    }

    // --------------------------------------------------- scheduler decision

    /** Append ready list q to list 1 and empty it, as ResetPriority does for q = 0 and q = 2. */
    method MoveToOne(q: nat)
      requires Wf() && (q == 0 || q == 2)
      modifies this`lists, this`tag, next, pReadyList
      ensures Wf() && lists == old(lists)[1 := old(lists)[1] + old(lists)[q]][q := []]
      ensures tag == Retag(old(tag), q)
    {
      forall a | 0 <= a < 4 ensures Linked(next[..], Head(a), lists[a]) { assert ListAt(a); }
      ghost var nx, l, g := next[..], lists, tag;
      LinkToOne(q);
      PartMerge(lists, tag, q);
      lists, tag := lists[1 := lists[1] + lists[q]][q := []], Retag(tag, q);
      assert lists[q] == [] && lists[1] == l[1] + l[q];
      assert ListAt(q);
      assert ListAt(1);
      forall a | 0 <= a < 4 && a != q && a != 1 ensures ListAt(a) {
        ListsFrame(nx, next[..], l, g, a, old(Head(a)));
      }
    }

    method LinkToOne(q: nat)
      requires Wf() && (q == 0 || q == 2)
      modifies next, pReadyList
      ensures Linked(next[..], pReadyList[1], lists[1] + lists[q]) && pReadyList[q] == NIL
      ensures pReadyList[2 - q] == old(pReadyList[2 - q])
      ensures forall x :: 0 <= x < NPROC && tag[x] != 1 ==> next[x] == old(next[x])
    {
      assert ListAt(1) && ListAt(q);
      ghost var nx, l := next[..], lists;
      if pReadyList[q] != NIL {
        if pReadyList[1] == NIL {
          pReadyList[1] := pReadyList[q];
          assert l[1] + l[q] == l[q];
        } else {
          Splice(q);
        }
        pReadyList[q] := NIL;
      } else {
        assert l[1] + l[q] == l[1];
      }
    }

    /** The end of list 1 is linked to the head of list q. */
    method Splice(q: nat)
      requires Wf() && (q == 0 || q == 2) && pReadyList[1] != NIL && pReadyList[q] != NIL
      modifies next
      ensures Linked(next[..], pReadyList[1], lists[1] + lists[q])
      ensures forall x :: 0 <= x < NPROC && tag[x] != 1 ==> next[x] == old(next[x])
    {
      assert ListAt(1) && ListAt(q);
      ghost var nx := next[..];
      var temp := Last(pReadyList[1], lists[1]);
      next[temp] := pReadyList[q];
      MergeLinked(nx, pReadyList[1], lists[1], pReadyList[q], lists[q]);
    }

    /** ResetPriority: all priorities become 1 and all ready processes join list 1. */
    method ResetPriority()
      requires Valid()
      modifies this`lists, this`tag, proc, next, pReadyList
      ensures Valid() && Abs() == Reset(old(Abs()))
      ensures lists == [[], old(lists[1] + lists[0] + lists[2]), [], old(lists[FREE])]
      ensures forall p: nat :: p < NPROC ==> proc[p] == old(proc[p]).(priority := 1)
    {
      ghost var t := Abs();
      ResetPart(t);
      var i := 0;
      while i < NPROC
        invariant 0 <= i <= NPROC && Wf()
        invariant tag == old(tag) && lists == old(lists)
        invariant forall k :: 0 <= k < NPROC ==> proc[k] == if k < i then t.procs[k].(priority := 1) else t.procs[k]
      {
        proc[i] := proc[i].(priority := 1);
        i := i + 1;
      }
      MoveToOne(0);
      MoveToOne(2);
      assert lists == Reset(t).lists;
      assert proc[..] == Reset(t).procs;
      forall k | 0 <= k < NPROC ensures tag[k] == Tags(proc[..])[k] { assert PriorityOk(t.procs[k]); }
    }

    /** GetReady: the head of the first nonempty ready list, or a null pointer. */
    method GetReady() returns (p: int)
      requires Wf()
      ensures SomeReady(Abs()) ==> p == Chosen(Abs())
      ensures !SomeReady(Abs()) ==> p == NIL
      ensures p != NIL <==> exists q: nat :: q < 3 && lists[q] != []
      ensures forall q: nat :: q < 3 && lists[q] != [] && (forall a: nat :: a < q ==> lists[a] == []) ==>
        p == lists[q][0]
    {
      assert ListAt(0) && ListAt(1) && ListAt(2);
      var q := 0;
      while q < 3
        invariant 0 <= q <= 3
        invariant forall a :: 0 <= a < q ==> lists[a] == []
      {
        if pReadyList[q] != NIL { return pReadyList[q]; }
        q := q + 1;
      }
      return NIL;
    }

    /** One turn of the scheduler's inner loop, up to swtch. */
    method Decide() returns (p: int)
      requires Valid() && SomeReady(Abs())
      modifies this, proc, next, pReadyList
      ensures Valid() && Abs() == old(Next(Abs(), Event.Decide)) && p == Chosen(Tick(old(Abs()))) && 0 <= p < NPROC
      ensures Decided(old(Abs()), Abs(), p)
    {
      ghost var t := Abs();
      DecideExact(t);
      assert SomeReady(Tick(t)) by { TickInv(t); }
      CountDown();
      p := GetReady();
      Run(p);
    }

    /** The scheduler's timer: when it has run down, every priority is reset. */
    method CountDown()
      requires Valid()
      modifies this, proc, next, pReadyList
      ensures Valid() && Abs() == Tick(old(Abs()))
    {
      TickInv(Abs());
      if timeToReset == 0 {
        ResetPriority();
        timeToReset := MAXTIMETORESET;
      } else {
        timeToReset := timeToReset - 1;
      }
    }

    /** proc = p; p->state = RUNNING; RemoveReadyList(p). */
    method Run(p: nat)
      requires Valid() && SomeReady(Abs()) && p == Chosen(Abs())
      modifies this`lists, this`tag, proc, next, pReadyList
      ensures Valid() && Chosen(old(Abs())) < NPROC && 0 <= old(Abs()).procs[p].priority <= 2
      ensures Abs() == Dispatch(old(Abs()))
    {
      ghost var t := Abs();
      ChosenFacts(t);
      DispatchInv(t);
      TagsSet(t.procs, p, t.procs[p].(state := RUNNING));
      proc[p] := proc[p].(state := RUNNING);
      assert proc[..] == t.procs[p := t.procs[p].(state := RUNNING)];
      var r := RemoveReadyList(p);
    }

    // ------------------------------------------------- other critical sections

    /** p->state = RUNNABLE; AddReadyList(p). */
    method Enqueue(p: nat)
      requires Valid() && p < NPROC && Tag(proc[p]) == -1 && 0 <= proc[p].priority <= 2
      modifies this`lists, this`tag, proc, next, pReadyList
      ensures Valid() && Abs() == Queue(old(Abs()), p)
    {
      ghost var t := Abs();
      QueueInv(t, p);
      TagsSet(t.procs, p, t.procs[p].(state := RUNNABLE));
      proc[p] := proc[p].(state := RUNNABLE);
      assert proc[..] == t.procs[p := t.procs[p].(state := RUNNABLE)];
      var r := AddReadyList(p);
    }

    /** A change of slot p that keeps it off, or on, the same list. */
    method Store(p: nat, x: Proc)
      requires Valid() && p < NPROC && Tag(x) == Tag(proc[p]) && PriorityOk(x)
      modifies proc
      ensures Valid() && Abs() == SetProc(old(Abs()), p, x)
    {
      ghost var t := Abs();
      SetProcInv(t, p, x);
      proc[p] := x;
      assert proc[..] == t.procs[p := x];
      assert Tags(proc[..]) == tag by { TagsSet(t.procs, p, x); assert Tags(t.procs)[p := Tag(x)] == Tags(t.procs); }
    }

    /** p->state = UNUSED and AddFreeList(p). */
    method Free(p: nat, x: Proc)
      requires Valid() && p < NPROC && Tag(proc[p]) == -1 && x.state == UNUSED
      modifies this`pFreeList, this`lists, this`tag, proc, next
      ensures Valid() && Abs() == Freed(old(Abs()), p, x)
    {
      ghost var t := Abs();
      FreedInv(t, p, x);
      TagsSet(t.procs, p, x);
      proc[p] := x;
      assert proc[..] == t.procs[p := x];
      AddFreeList(p);
    }

    /** The locked part of allocproc. */
    method AllocProc() returns (p: int)
      requires Valid()
      modifies this, proc
      ensures Valid() && Abs() == old(Next(Abs(), Event.Alloc))
      ensures p == if old(lists)[FREE] == [] then NIL else old(lists)[FREE][0]
      ensures p != NIL ==> 0 <= p < NPROC && Others(p) && nextpid == old(nextpid) + 1
      ensures p != NIL ==> proc[p] == old(proc[..])[p].(state := EMBRYO, pid := old(nextpid))
    {
      ghost var t := Abs();
      AllocInv(t);
      p := RemoveFreeList();
      if p == NIL { return; }
      TagsSet(t.procs, p, t.procs[p].(state := EMBRYO, pid := t.nextpid));
      proc[p] := proc[p].(state := EMBRYO, pid := nextpid);
      nextpid := nextpid + 1;
      assert proc[..] == t.procs[p := t.procs[p].(state := EMBRYO, pid := t.nextpid)];
    }

    /** An EMBRYO is given back because kalloc or copyuvm failed. */
    method UndoAlloc(p: nat)
      requires Valid() && p < NPROC && proc[p].state == EMBRYO
      modifies this, proc, next
      ensures Valid() && Abs() == old(Next(Abs(), Undo(p)))
      ensures Others(p) && proc[p] == old(proc[p]).(state := UNUSED)
    {
      Free(p, proc[p].(state := UNUSED));
    }

    /** The end of fork: parent and priority are set, the child becomes RUNNABLE. */
    method StartChild(p: nat, parent: int)
      requires Valid() && p < NPROC && proc[p].state == EMBRYO
      modifies this, proc, next, pReadyList
      ensures Valid() && Abs() == old(Next(Abs(), Start(p, parent)))
      ensures Others(p) && proc[p] == old(proc[p]).(state := RUNNABLE, priority := 1, parent := parent)
      ensures lists[1] == old(lists[1]) + [p]
    {
      Store(p, proc[p].(parent := parent, priority := 1));
      Enqueue(p);
    }

    method YieldProc(p: nat)
      requires Valid() && p < NPROC && proc[p].state == RUNNING
      modifies this, proc, next, pReadyList
      ensures Valid() && Abs() == old(Next(Abs(), Yield(p)))
      ensures Others(p) && proc[p] == old(proc[p]).(state := RUNNABLE)
      ensures 0 <= proc[p].priority <= 2 && lists[proc[p].priority] == old(lists)[proc[p].priority] + [p]
    {
      assert PriorityOk(Abs().procs[p]);
      Enqueue(p);
    }

    method SleepOn(p: nat, chan: int)
      requires Valid() && p < NPROC && proc[p].state == RUNNING
      modifies proc
      ensures Valid() && Abs() == old(Next(Abs(), Sleep(p, chan)))
      ensures Others(p) && proc[p] == old(proc[p]).(state := SLEEPING, chan := chan)
    {
      assert PriorityOk(Abs().procs[p]);
      Store(p, proc[p].(state := SLEEPING, chan := chan));
    }

    method Wakeup1(chan: int)
      requires Valid()
      modifies this`lists, this`tag, proc, next, pReadyList
      ensures Valid() && Abs() == old(Next(Abs(), Wakeup(chan))) && Wakes(old(Abs()), Abs(), chan, 0)
      ensures forall i: nat :: i < NPROC ==> proc[i] == Woken(old(proc[i]), chan)
    {
      WakeExact(Abs(), chan, 0);
      var k := 0;
      while k < NPROC
        invariant 0 <= k <= NPROC && Valid()
        invariant WakeFrom(Abs(), chan, k) == old(WakeFrom(Abs(), chan, 0))
      {
        assert PriorityOk(Abs().procs[k]);
        if proc[k].state == SLEEPING && proc[k].chan == chan {
          Enqueue(k);
        }
        k := k + 1;
      }
    }

    /** exit() under the lock. */
    method ExitProc(p: nat, init: nat)
      requires Valid() && p < NPROC && init < NPROC && p != init && proc[p].state == RUNNING
      modifies this`lists, this`tag, proc, next, pReadyList
      ensures Valid() && Abs() == old(Next(Abs(), Exit(p, init)))
      ensures Exited(old(Abs()), Abs(), p, init)
    {
      ghost var t := Abs();
      ExitExact(t, p, init);
      WakeFrame(t, t.procs[p].parent, 0, p);
      Wakeup1(proc[p].parent);
      AbandonFrame(Abs(), p, init, 0, p);
      PassChildren(p, init);
      Store(p, proc[p].(state := ZOMBIE));
    }

    /** exit()'s loop that passes abandoned children to init. */
    method PassChildren(p: nat, init: nat)
      requires Valid() && p < NPROC && init < NPROC
      modifies this`lists, this`tag, proc, next, pReadyList
      ensures Valid() && Abs() == old(Abandon(Abs(), p, init, 0))
    {
      var k := 0;
      while k < NPROC
        invariant 0 <= k <= NPROC && Valid()
        invariant Abandon(Abs(), p, init, k) == old(Abandon(Abs(), p, init, 0))
      {
        if proc[k].parent == p {
          assert PriorityOk(Abs().procs[k]);
          Store(k, proc[k].(parent := init));
          if proc[k].state == ZOMBIE {
            Wakeup1(init);
          }
        }
        k := k + 1;
      }
    }

    /** One scan of wait(): reap the first ZOMBIE child of self, or report whether there are children. */
    method WaitScan(self: nat) returns (havekids: bool, found: int, pid: int)
      requires Valid()
      modifies this, proc, next
      ensures Valid()
      ensures havekids <==> exists k :: 0 <= k < NPROC && old(proc[k]).parent == self
      ensures found == NIL ==>
        && Abs() == old(Abs())
        && forall k :: 0 <= k < NPROC && proc[k].parent == self ==> proc[k].state != ZOMBIE
      ensures found != NIL ==>
        && 0 <= found < NPROC && old(proc[found]).parent == self && pid == old(proc[found]).pid
        && (forall k :: 0 <= k < found && old(proc[k]).parent == self ==> old(proc[k]).state != ZOMBIE)
        && old(Enabled(Abs(), Reap(found))) && Abs() == old(Next(Abs(), Reap(found))) && Others(found)
        && proc[found] == old(proc[..])[found].(state := UNUSED, pid := 0, parent := -1, killed := false)
    {
      havekids, found, pid := false, NIL, -1;
      var k := 0;
      while k < NPROC
        invariant 0 <= k <= NPROC && Valid() && Abs() == old(Abs()) && proc[..] == old(proc[..])
        invariant havekids <==> exists i :: 0 <= i < k && proc[i].parent == self
        invariant forall i :: 0 <= i < k && proc[i].parent == self ==> proc[i].state != ZOMBIE
      {
        if proc[k].parent == self {
          havekids := true;
          if proc[k].state == ZOMBIE {
            found, pid := k, proc[k].pid;
            Free(k, proc[k].(state := UNUSED, pid := 0, parent := -1, killed := false));
            return;
          }
        }
        k := k + 1;
      }
    }

    /** The slot scan shared by kill and setpriority. */
    method FindPid(pid: int) returns (p: nat)
      requires proc.Length == NPROC
      ensures p == Find(proc[..], pid, 0)
    {
      p := 0;
      while p < NPROC && proc[p].pid != pid
        invariant 0 <= p <= NPROC && Find(proc[..], pid, p) == Find(proc[..], pid, 0)
      {
        p := p + 1;
      }
    }

    static function Killed(x: Proc): (r: Proc) {
      x.(killed := true, state := if x.state == SLEEPING then RUNNABLE else x.state)
    }

    method KillPid(pid: int) returns (r: int)
      requires Valid()
      modifies this`lists, this`tag, proc, next, pReadyList
      ensures Valid() && Abs() == old(Next(Abs(), Kill(pid)))
      ensures r == 0 <==> exists p :: 0 <= p < NPROC && old(proc[p]).pid == pid
      ensures r == 0 ==>
        exists p: nat :: p < NPROC && old(proc[p]).pid == pid && Others(p) && proc[p] == Killed(old(proc[p]))
    {
      ghost var t := Abs();
      var p := FindPid(pid);
      if p == NPROC { return -1; }
      assert PriorityOk(t.procs[p]);
      Store(p, proc[p].(killed := true));
      if proc[p].state == SLEEPING {
        Enqueue(p);
      }
      return 0;
    }

    /** setpriority(), whatever its arguments: just the priority changes, and the table stays sound exactly if safe. */
    method SetPriorityPid(pid: int, priority: int)
      requires Valid()
      modifies proc
      ensures var t := old(Abs());
        var p := Find(t.procs, pid, 0);
        Abs() == if p == NPROC then t else SetProc(t, p, t.procs[p].(priority := priority))
      ensures Valid() <==> SafePriority(old(Abs()), pid, priority)
    {
      ghost var t := Abs();
      SetPriorityExact(t, pid, priority);
      var p := FindPid(pid);
      if p < NPROC {
        var x := proc[p].(priority := priority);
        proc[p] := x;
        assert proc[..] == t.procs[p := x];
        assert Tag(x) == Tag(t.procs[p]) ==> Tags(proc[..]) == tag by {
          TagsSet(t.procs, p, x);
          assert Tag(x) == Tag(t.procs[p]) ==> Tags(t.procs)[p := Tag(x)] == Tags(t.procs);
        }
      }
    }
  }

  /** The tags after list q has joined list 1. */
  ghost function Retag(tag: seq<int>, q: nat): (r: seq<int>)
    ensures |r| == |tag|
  {
    seq(|tag|, i requires 0 <= i < |tag| => if tag[i] == q then 1 else tag[i])
  }

  lemma PartMerge(lists: Lists, tag: seq<int>, q: nat)
    requires Part(lists, tag) && (q == 0 || q == 2)
    ensures Part(lists[1 := lists[1] + lists[q]][q := []], Retag(tag, q))
  {
    NoDupAppend(lists[1], lists[q]);
  }

  lemma MergeLinked(nx: seq<int>, h: int, s: seq<nat>, m: int, t: seq<nat>)
    requires Linked(nx, h, s) && Linked(nx, m, t) && s != [] && NoDup(s) && s[|s| - 1] < |nx|
    requires forall x :: x in s ==> x !in t
    ensures Linked(nx[s[|s| - 1] := m], h, s + t)
  {
    var nx' := nx[s[|s| - 1] := m];
    assert s[|s| - 1] in s;
    PathFrame(nx, nx', m, t, NIL);
    PathRetarget(nx, h, s, NIL, m);
    PathConcat(nx', h, s, m, t, NIL);
  }

  lemma RemoveAt(s: seq<nat>, j: nat, r: seq<nat>)
    requires NoDup(s) && j < |s| && r == s[..j] + s[j + 1..]
    ensures NoDup(r) && forall x :: x in r <==> x in s && x != s[j]
  {
    assert forall i :: 0 <= i < |r| ==> r[i] == if i < j then s[i] else s[i + 1];
    forall x | x in s && x != s[j] ensures x in r {
      var i :| 0 <= i < |s| && s[i] == x;
      assert r[if i < j then i else i - 1] == x;
    }
  }

  lemma PartRemove(lists: Lists, tag: seq<int>, q: nat, j: nat)
    requires Part(lists, tag) && q < 4 && j < |lists[q]|
    ensures Part(lists[q := lists[q][..j] + lists[q][j + 1..]], tag[lists[q][j] := -1])
  {
    var r := lists[q][..j] + lists[q][j + 1..];
    RemoveAt(lists[q], j, r);
    assert forall i :: 0 <= i < |r| ==> r[i] in r;
  }

  lemma {:induction false} WithoutIndex(s: seq<nat>, p: nat)
    requires p in s
    ensures Without(s, p) == s[..Index(s, p)] + s[Index(s, p) + 1..]
    decreases |s|
  {
    if s[0] != p {
      assert s == [s[0]] + s[1..];
      WithoutIndex(s[1..], p);
    }
  }

  lemma UnlinkLinked(nx: seq<int>, h: int, s: seq<nat>, j: nat)
    requires Linked(nx, h, s) && NoDup(s) && 0 < j < |s| && s[j - 1] < |nx| && s[j] < |nx|
    ensures Linked(nx[s[j - 1] := nx[s[j]]], h, s[..j] + s[j + 1..])
  {
    var nx' := nx[s[j - 1] := nx[s[j]]];
    PathSplit(nx, h, s, NIL, j);
    assert s[..j][|s[..j]| - 1] == s[j - 1];
    PathRetarget(nx, h, s[..j], s[j], nx[s[j]]);
    assert s[j..][1..] == s[j + 1..];
    PathFrame(nx, nx', nx[s[j]], s[j + 1..], NIL);
    PathConcat(nx', h, s[..j], nx[s[j]], s[j + 1..], NIL);
  }

  lemma AppendLinked(nx: seq<int>, h: int, s: seq<nat>, p: nat)
    requires Linked(nx, h, s) && s != [] && NoDup(s) && p !in s && p < |nx| && s[|s| - 1] < |nx|
    ensures Linked(nx[p := NIL][s[|s| - 1] := p], h, s + [p])
  {
    PathFrame(nx, nx[p := NIL], h, s, NIL);
    PathRetarget(nx[p := NIL], h, s, NIL, p);
    PathConcat(nx[p := NIL][s[|s| - 1] := p], h, s, p, [p], NIL);
  }
}
