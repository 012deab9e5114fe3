/**
  The pipe of pipe.c as a state machine.  A step is what a process does with
  the pipe between taking p->lock and giving it up, by returning or by going
  to sleep; readers, writers and closes interleave in any order.
 */
module PipeModel {

  const PIPESIZE: nat := 512
  const WORD: nat := 0x1_0000_0000

  datatype Call =
    | Outside
    | Writing(buf: seq<int>, i: nat, asleep: bool)
    | Reading(n: nat, asleep: bool)

  /** written and got are all bytes ever stored and ever fetched; the counters are 32-bit. */
  datatype Pipe = Pipe(data: seq<int>, nread: nat, nwrite: nat, ropen: bool, wopen: bool,
                       calls: map<nat, Call>, killed: set<nat>, written: seq<int>, got: seq<int>)

  datatype Event =
    | Write(p: nat, buf: seq<int>)   // pipewrite, first section
    | WriteOn(p: nat)                // pipewrite, after a sleep
    | Read(p: nat, n: nat)           // piperead, first section
    | ReadOn(p: nat)                 // piperead, after a sleep
    | Close(writable: bool)          // pipeclose
    | Kill(p: nat)

  function Min(a: int, b: int): (r: int) { if a < b then a else b }

  // -------------------------------------------------------------- wakeups

  function Woken(c: Call): (r: Call) {
    match c
    case Outside => c
    case Writing(buf, i, _) => Writing(buf, i, false)
    case Reading(n, _) => Reading(n, false)
  }

  function WakeReaders(calls: map<nat, Call>): (r: map<nat, Call>) {
    map p | p in calls :: if calls[p].Reading? then Woken(calls[p]) else calls[p]
  }

  function WakeWriters(calls: map<nat, Call>): (r: map<nat, Call>) {
    map p | p in calls :: if calls[p].Writing? then Woken(calls[p]) else calls[p]
  }

  // ------------------------------------------------------------- sections

  predicate Full(s: Pipe) { s.nwrite == (s.nread + PIPESIZE) % WORD }

  predicate Empty(s: Pipe) { s.nread == s.nwrite }

  function Store(s: Pipe, b: int): (r: Pipe)
    requires |s.data| == PIPESIZE
  {
    s.(data := s.data[s.nwrite % PIPESIZE := b], nwrite := (s.nwrite + 1) % WORD, written := s.written + [b])
  }

  function Fetch(s: Pipe): (r: Pipe)
    requires |s.data| == PIPESIZE
  {
    s.(nread := (s.nread + 1) % WORD, got := s.got + [s.data[s.nread % PIPESIZE]])
  }

  /** pipewrite by p from byte i of buf on, with the lock held. */
  function WriteFrom(s: Pipe, p: nat, buf: seq<int>, i: nat): (r: Pipe)
    requires |s.data| == PIPESIZE && i <= |buf|
    decreases |buf| - i
  {
    if i == |buf| then s.(calls := WakeReaders(s.calls)[p := Outside])
    else if Full(s) then
      if !s.ropen || p in s.killed then s.(calls := s.calls[p := Outside])
      else s.(calls := WakeReaders(s.calls)[p := Writing(buf, i, true)])
    else WriteFrom(Store(s, buf[i]), p, buf, i + 1)
  }

  /** The copy loop of piperead, with k bytes still wanted. */
  function Drain(s: Pipe, k: nat): (r: Pipe)
    requires |s.data| == PIPESIZE
    ensures |r.data| == PIPESIZE
    decreases k
  {
    if k == 0 || Empty(s) then s else Drain(Fetch(s), k - 1)
  }

  /** piperead by p, with the lock held. */
  function ReadFrom(s: Pipe, p: nat, n: nat): (r: Pipe)
    requires |s.data| == PIPESIZE
  {
    if Empty(s) && s.wopen then
      if p in s.killed then s.(calls := s.calls[p := Outside])
      else s.(calls := s.calls[p := Reading(n, true)])
    else
      var t := Drain(s, n);
      t.(calls := WakeWriters(t.calls)[p := Outside])
  }

  predicate InCall(calls: map<nat, Call>, writable: bool) {
    exists p :: p in calls && (if writable then calls[p].Writing? else calls[p].Reading?)
  }

  /** An end is used only while open, and closed only with no user inside a call: file.c counts its users. */
  predicate Enabled(s: Pipe, e: Event) {
    match e
    case Write(p, buf) => p in s.calls && s.calls[p].Outside? && s.wopen
    case WriteOn(p) => p in s.calls && s.calls[p].Writing? && !s.calls[p].asleep && s.calls[p].i <= |s.calls[p].buf|
    case Read(p, n) => p in s.calls && s.calls[p].Outside? && s.ropen
    case ReadOn(p) => p in s.calls && s.calls[p].Reading? && !s.calls[p].asleep
    case Close(w) => (if w then s.wopen else s.ropen) && !InCall(s.calls, w)
    case Kill(p) => p in s.calls
  }

  function Next(s: Pipe, e: Event): (r: Pipe)
    requires |s.data| == PIPESIZE && Enabled(s, e)
  {
    match e
    case Write(p, buf) => WriteFrom(s, p, buf, 0)
    case WriteOn(p) => WriteFrom(s, p, s.calls[p].buf, s.calls[p].i)
    case Read(p, n) => ReadFrom(s, p, n)
    case ReadOn(p) => ReadFrom(s, p, s.calls[p].n)
    case Close(w) =>
      if w then s.(wopen := false, calls := WakeReaders(s.calls)) else s.(ropen := false, calls := WakeWriters(s.calls))
    case Kill(p) => s.(killed := s.killed + {p}, calls := s.calls[p := Woken(s.calls[p])])
  }

  // ------------------------------------------------------------ invariant

  ghost predicate Stored(data: seq<int>, written: seq<int>, j: nat)
    requires j < |written| && |data| == PIPESIZE
  {
    data[j % PIPESIZE] == written[j]
  }

  ghost predicate RingOf(data: seq<int>, nread: nat, nwrite: nat, written: seq<int>, got: seq<int>) {
    && |data| == PIPESIZE && |got| <= |written| <= |got| + PIPESIZE
    && nread == |got| % WORD && nwrite == |written| % WORD && got == written[..|got|]
    && forall j: nat :: |got| <= j < |written| ==> Stored(data, written, j)
  }

  /** The ring holds exactly the bytes written and not yet read, whatever the counters have wrapped to. */
  ghost predicate Ring(s: Pipe) {
    RingOf(s.data, s.nread, s.nwrite, s.written, s.got)
  }

  ghost predicate CallOk(s: Pipe, p: nat)
    requires p in s.calls
  {
    match s.calls[p]
    case Outside => true
    case Reading(_, asleep) => s.ropen && (asleep ==> s.wopen)
    case Writing(buf, i, asleep) =>
      s.wopen && i <= |buf| && (asleep ==> |s.written| == |s.got| + PIPESIZE && s.ropen)
  }

  ghost predicate Inv(s: Pipe) {
    Ring(s) && forall p :: p in s.calls ==> CallOk(s, p)
  }

  /** Every sleeping reader faces an empty pipe. */
  ghost predicate ReadersOk(s: Pipe) {
    forall q :: q in s.calls && s.calls[q].Reading? && s.calls[q].asleep ==> |s.got| == |s.written|
  }

  predicate ReaderAsleep(s: Pipe) {
    exists q :: q in s.calls && s.calls[q].Reading? && s.calls[q].asleep
  }

  /** Wraparound does not confuse the two tests. */
  lemma Tests(s: Pipe)
    requires Ring(s)
    ensures Full(s) <==> |s.written| == |s.got| + PIPESIZE
    ensures Empty(s) <==> |s.written| == |s.got|
  {
  }

  lemma ModMod(n: nat)
    ensures n % WORD % PIPESIZE == n % PIPESIZE && (n % WORD + 1) % WORD == (n + 1) % WORD
  {
  }

  lemma Apart(j: nat, n: nat)
    requires j < n < j + PIPESIZE
    ensures j % PIPESIZE != n % PIPESIZE
  {
  }

  lemma StoreRing(s: Pipe, b: int)
    requires Ring(s) && !Full(s)
    ensures Ring(Store(s, b))
  {
    Tests(s);
    var n := |s.written|;
    ModMod(n);
    var data, written := s.data[n % PIPESIZE := b], s.written + [b];
    assert s.nwrite % PIPESIZE == n % PIPESIZE;
    forall j: nat | |s.got| <= j < |written| ensures Stored(data, written, j) {
      if j < n {
        assert Stored(s.data, s.written, j);
        Apart(j, n);
      }
    }
    assert written[..|s.got|] == s.written[..|s.got|];
  }

  lemma FetchRing(s: Pipe)
    requires Ring(s) && !Empty(s)
    ensures Ring(Fetch(s)) && Fetch(s).got == s.got + [s.written[|s.got|]]
  {
    Tests(s);
    var t := Fetch(s);
    ModMod(|s.got|);
    assert t.written == s.written && t.data == s.data;
    assert s.written[..|s.got| + 1] == s.written[..|s.got|] + [s.written[|s.got|]];
    assert Stored(s.data, s.written, |s.got|);
    forall j: nat | |t.got| <= j < |t.written| ensures Stored(t.data, t.written, j) {
      assert Stored(s.data, s.written, j);
    }
  }

  // ------------------------------------------------------- writer sections

  /** How many of the bytes from i on a writer stores before it returns or sleeps. */
  ghost function Fit(s: Pipe, buf: seq<int>, i: nat): (k: nat)
    requires Ring(s) && i <= |buf|
    ensures i + k <= |buf|
  {
    Min(|buf| - i, |s.got| + PIPESIZE - |s.written|)
  }

  lemma Joined(w: seq<int>, buf: seq<int>, i: nat, j: nat)
    requires i < j <= |buf|
    ensures w + [buf[i]] + buf[i + 1..j] == w + buf[i..j]
  {
    assert buf[i..j] == [buf[i]] + buf[i + 1..j];
  }

  /**
    A writer's section stores its bytes in order up to the first that does not
    fit.  It ends outside with everything stored and the readers woken; or
    asleep with the readers woken; or, killed or without a reader, outside with
    nobody woken.
   */
  lemma {:induction false} WriteStores(s: Pipe, p: nat, buf: seq<int>, i: nat)
    requires Ring(s) && i <= |buf|
    ensures var r, k := WriteFrom(s, p, buf, i), Fit(s, buf, i);
      && Ring(r) && r.written == s.written + buf[i..i + k]
      && r == s.(data := r.data, nwrite := r.nwrite, written := r.written, calls := r.calls)
      && r.calls == if i + k == |buf| then WakeReaders(s.calls)[p := Outside]
                    else if !s.ropen || p in s.killed then s.calls[p := Outside]
                    else WakeReaders(s.calls)[p := Writing(buf, i + k, true)]
    decreases |buf| - i
  {
    Tests(s);
    if i < |buf| && !Full(s) {
      StoreRing(s, buf[i]);
      var u, k := Store(s, buf[i]), Fit(s, buf, i);
      WriteStores(u, p, buf, i + 1);
      assert Fit(u, buf, i + 1) == k - 1;
      Joined(s.written, buf, i, i + k);
    }
  }

  lemma WriteInv(s: Pipe, p: nat, buf: seq<int>, i: nat)
    requires Inv(s) && s.wopen && i <= |buf|
    ensures Inv(WriteFrom(s, p, buf, i))
  {
    WriteStores(s, p, buf, i);
    var r := WriteFrom(s, p, buf, i);
    forall q | q in r.calls ensures CallOk(r, q) { if q != p { assert CallOk(s, q); } }
  }

  lemma {:induction false} DrainInv(s: Pipe, k: nat)
    requires Ring(s)
    ensures var t := Drain(s, k);
      && Ring(t) && t == s.(nread := t.nread, got := t.got)
      && |t.got| == |s.got| + Min(k, |s.written| - |s.got|)
      && t.got[..|s.got|] == s.got
    decreases k
  {
    Tests(s);
    if k != 0 && !Empty(s) {
      FetchRing(s);
      DrainInv(Fetch(s), k - 1);
      assert Drain(s, k).got[..|s.got|] == Drain(s, k).got[..|s.got| + 1][..|s.got|];
    }
  }

  lemma ReadInv(s: Pipe, p: nat, n: nat)
    requires Inv(s) && s.ropen && p in s.calls && !s.calls[p].Writing?
    ensures Inv(ReadFrom(s, p, n))
    ensures ReadersOk(s) ==> ReadersOk(ReadFrom(s, p, n))
  {
    Tests(s);
    DrainInv(s, n);
    var r := ReadFrom(s, p, n);
    forall q | q in r.calls ensures CallOk(r, q) { if q != p { assert CallOk(s, q); } }
    if ReadersOk(s) {
      forall q | q in r.calls && r.calls[q].Reading? && r.calls[q].asleep ensures |r.got| == |r.written| {
        if q != p { assert CallOk(s, q); }
      }
    }
  }

  lemma StepInv(s: Pipe, e: Event)
    requires Inv(s) && Enabled(s, e)
    ensures Inv(Next(s, e))
  {
    var r := Next(s, e);
    match e
    case Write(p, buf) => WriteInv(s, p, buf, 0);
    case WriteOn(p) => assert CallOk(s, p); WriteInv(s, p, s.calls[p].buf, s.calls[p].i);
    case Read(p, n) => ReadInv(s, p, n);
    case ReadOn(p) => assert CallOk(s, p); ReadInv(s, p, s.calls[p].n);
    case Close(w) => forall q | q in r.calls ensures CallOk(r, q) { assert CallOk(s, q); }
    case Kill(p) => forall q | q in r.calls ensures CallOk(r, q) { assert CallOk(s, q); }
  }

  // -------------------------------------------------------- killed writers

  /** p writes the bytes of buf from i on: it is not killed, or they fit an empty pipe, or no reader sleeps. */
  predicate SafeWrite(s: Pipe, p: nat, buf: seq<int>, i: nat) {
    p !in s.killed || |buf| <= i + PIPESIZE || !ReaderAsleep(s)
  }

  predicate Safe(s: Pipe, e: Event) {
    match e
    case Write(p, buf) => SafeWrite(s, p, buf, 0)
    case WriteOn(p) => p in s.calls && s.calls[p].Writing? ==> SafeWrite(s, p, s.calls[p].buf, s.calls[p].i)
    case _ => true
  }

  /** A writer's section, first or resumed, keeps sleeping readers on an empty pipe exactly when it is safe. */
  lemma WriteExact(s: Pipe, p: nat, buf: seq<int>, i: nat)
    requires Inv(s) && ReadersOk(s) && s.wopen && p in s.calls && !s.calls[p].Reading? && i <= |buf|
    ensures ReadersOk(WriteFrom(s, p, buf, i)) <==> SafeWrite(s, p, buf, i)
  {
    WriteStores(s, p, buf, i);
    var r := WriteFrom(s, p, buf, i);
    if q :| q in s.calls && s.calls[q].Reading? && s.calls[q].asleep {
      assert CallOk(s, q) && q in r.calls;
    }
  }

  /** Every step keeps sleeping readers on an empty pipe exactly when it is safe. */
  lemma KilledExact(s: Pipe, e: Event)
    requires Inv(s) && ReadersOk(s) && Enabled(s, e)
    ensures ReadersOk(Next(s, e)) <==> Safe(s, e)
  {
    match e
    case Write(p, buf) => WriteExact(s, p, buf, 0);
    case WriteOn(p) => assert CallOk(s, p); WriteExact(s, p, s.calls[p].buf, s.calls[p].i);
    case Read(p, n) => ReadInv(s, p, n);
    case ReadOn(p) => assert CallOk(s, p); ReadInv(s, p, s.calls[p].n);
    case Close(w) =>
    case Kill(p) =>
  }

  // ----------------------------------------------------------------- runs

  ghost predicate StepAt(states: seq<Pipe>, events: seq<Event>, i: nat)
    requires i < |events| && i + 1 < |states|
  {
    |states[i].data| == PIPESIZE ==> Enabled(states[i], events[i]) && states[i + 1] == Next(states[i], events[i])
  }

  ghost predicate Run(states: seq<Pipe>, events: seq<Event>) {
    |states| == |events| + 1 && forall i: nat :: i < |events| ==> StepAt(states, events, i)
  }

  /** pipealloc: both ends open, nothing in it, nobody inside. */
  ghost predicate Fresh(s: Pipe) {
    && |s.data| == PIPESIZE && s.nread == 0 == s.nwrite && s.ropen && s.wopen && s.written == [] == s.got
    && forall p :: p in s.calls ==> s.calls[p].Outside?
  }

  lemma {:induction false} RunInv(states: seq<Pipe>, events: seq<Event>, n: nat)
    requires Run(states, events) && Fresh(states[0]) && n <= |events|
    ensures Inv(states[n])
    decreases n
  {
    if n > 0 {
      RunInv(states, events, n - 1);
      assert StepAt(states, events, n - 1);
      StepInv(states[n - 1], events[n - 1]);
    }
  }

  ghost predicate SafeRun(states: seq<Pipe>, events: seq<Event>) {
    |states| == |events| + 1 && forall i: nat :: i < |events| ==> Safe(states[i], events[i])
  }

  lemma {:induction false} RunReaders(states: seq<Pipe>, events: seq<Event>, n: nat)
    requires Run(states, events) && SafeRun(states, events) && Fresh(states[0]) && n <= |events|
    ensures ReadersOk(states[n])
    decreases n
  {
    if n > 0 {
      RunReaders(states, events, n - 1);
      RunInv(states, events, n - 1);
      assert StepAt(states, events, n - 1);
      KilledExact(states[n - 1], events[n - 1]);
    }
  }

  /**
    Over every run: bytes come out in the order they went in; a sleeping
    writer faces a full pipe with a reader to come; and the memory is freed
    (both ends closed) only when nobody is inside a call.  Over every run of
    safe writes a sleeping reader faces an empty pipe with a writer to come,
    so readers and writers never sleep together.
   */
  lemma Protocol(states: seq<Pipe>, events: seq<Event>, n: nat)
    requires Run(states, events) && Fresh(states[0]) && n <= |events|
    ensures var s := states[n];
      && s.got <= s.written && |s.written| - |s.got| <= PIPESIZE
      && (forall p :: p in s.calls && s.calls[p].Writing? && s.calls[p].asleep ==>
            |s.written| == |s.got| + PIPESIZE && s.ropen)
      && (!s.ropen && !s.wopen ==> forall p :: p in s.calls ==> s.calls[p].Outside?)
    ensures var s := states[n];
      SafeRun(states, events) ==>
        && (forall p :: p in s.calls && s.calls[p].Reading? && s.calls[p].asleep ==> s.got == s.written && s.wopen)
        && (forall p, q :: p in s.calls && q in s.calls && s.calls[p].Reading? && s.calls[q].Writing? ==>
              !(s.calls[p].asleep && s.calls[q].asleep))
  {
    RunInv(states, events, n);
    var s := states[n];
    forall p | p in s.calls ensures CallOk(s, p) { }
    if SafeRun(states, events) {
      RunReaders(states, events, n);
      forall p | p in s.calls && s.calls[p].Reading? && s.calls[p].asleep ensures s.got == s.written && s.wopen {
        assert s.written[..|s.got|] == s.written;
      }
    }
  }

  /** A read returns the next bytes in order: as many as asked, or all there are. */
  lemma ReadReturns(s: Pipe, p: nat, n: nat)
    requires Inv(s) && !(Empty(s) && s.wopen)
    ensures var k := Min(n, |s.written| - |s.got|);
      ReadFrom(s, p, n).got == s.got + s.written[|s.got|..|s.got| + k] && ReadFrom(s, p, n).written == s.written
  {
    DrainInv(s, n);
    var t := Drain(s, n);
    assert t.got == t.written[..|t.got|];
  }

  // -------------------------------------------------- a run with a killed writer

  lemma Extend(states: seq<Pipe>, events: seq<Event>, e: Event) returns (ss: seq<Pipe>, es: seq<Event>)
    requires Run(states, events) && Fresh(states[0]) && Enabled(states[|events|], e)
    ensures |states[|events|].data| == PIPESIZE
    ensures Run(ss, es) && ss[0] == states[0] && |es| == |events| + 1 && ss[|es|] == Next(states[|events|], e)
    ensures Inv(ss[|es|])
  {
    RunInv(states, events, |events|);
    ss, es := states + [Next(states[|events|], e)], events + [e];
    forall i: nat | i < |es| ensures StepAt(ss, es, i) { if i < |events| { assert StepAt(states, events, i); } }
    RunInv(ss, es, |es|);
  }

  /** The state of the run below: both ends open, w bytes written and g read, and the two processes' calls. */
  ghost predicate At(s: Pipe, killed: set<nat>, w: nat, g: nat, writer: Call, reader: Call) {
    && Inv(s) && s.ropen && s.wopen && s.killed == killed && |s.written| == w && |s.got| == g
    && s.calls == map[0 := writer, 1 := reader]
  }

  lemma SleepingWriter(buf: seq<int>) returns (states: seq<Pipe>, events: seq<Event>)
    requires |buf| == 2 * PIPESIZE + 1
    ensures Run(states, events) && Fresh(states[0])
    ensures At(states[|events|], {}, PIPESIZE, 0, Writing(buf, PIPESIZE, true), Outside)
  {
    var s := Pipe(seq(PIPESIZE, _ => 0), 0, 0, true, true, map[0 := Outside, 1 := Outside], {}, [], []);
    states, events := [s], [];
    WriteStores(s, 0, buf, 0);
    states, events := Extend(states, events, Write(0, buf));
  }

  lemma ReadAll(s: Pipe, writer: Call)
    requires At(s, {0}, PIPESIZE, 0, writer, Outside) && writer.Writing? && !writer.asleep
    ensures var r := Next(s, Read(1, PIPESIZE));
      r.ropen && r.wopen && r.killed == {0} && |r.written| == PIPESIZE == |r.got| &&
      r.calls == map[0 := writer, 1 := Outside]
  {
    Tests(s);
    DrainInv(s, PIPESIZE);
  }

  lemma DrainedPipe(buf: seq<int>) returns (states: seq<Pipe>, events: seq<Event>)
    requires |buf| == 2 * PIPESIZE + 1
    ensures Run(states, events) && Fresh(states[0])
    ensures At(states[|events|], {0}, PIPESIZE, PIPESIZE, Writing(buf, PIPESIZE, false), Outside)
  {
    states, events := SleepingWriter(buf);
    states, events := Extend(states, events, Kill(0));
    var s := states[|events|];
    assert At(s, {0}, PIPESIZE, 0, Writing(buf, PIPESIZE, false), Outside);
    ReadAll(s, Writing(buf, PIPESIZE, false));
    states, events := Extend(states, events, Read(1, PIPESIZE));
  }

  /**
    A run that is not safe: a writer fills the pipe and sleeps, is killed, the
    pipe is drained, a reader sleeps on it; the writer goes on, fills the pipe
    again and leaves, with the reader asleep before a full pipe and no writer.
   */
  lemma KilledWriter() returns (states: seq<Pipe>, events: seq<Event>)
    ensures Run(states, events) && Fresh(states[0])
    ensures At(states[|events|], {0}, 2 * PIPESIZE, PIPESIZE, Outside, Reading(1, true))
  {
    var buf := seq(2 * PIPESIZE + 1, _ => 7);
    states, events := DrainedPipe(buf);
    Tests(states[|events|]);
    states, events := Extend(states, events, Read(1, 1));
    var s := states[|events|];
    assert At(s, {0}, PIPESIZE, PIPESIZE, Writing(buf, PIPESIZE, false), Reading(1, true));
    WriteStores(s, 0, buf, PIPESIZE);
    states, events := Extend(states, events, WriteOn(0));
  }
}
