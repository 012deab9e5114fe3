/**
  The redo log of log.c as a state machine over atomic single-block disk
  writes.  A state holds the disk, the buffer cache, the in-memory log header
  and the outstanding operations.  Every event is one primitive of the source:
  taking or releasing a buffer, changing it, log_write, begin_op, end_op, one
  block write of commit() or of recovery, a cache eviction, or a crash that
  drops all memory.
 */
module LogModel {

  const MAXOPBLOCKS: nat := 10
  const LOGSIZE: nat := 3 * MAXOPBLOCKS

  /** A 512-byte block, seen as the 128 words the log header is stored in. */
  const WORDS: nat := 128
  type Block = seq<nat>
  type Disk = seq<Block>

  /** Who has B_BUSY on a buffer; Kernel is commit() or recovery. */
  datatype Holder = Nobody | Reader | Kernel | ByOp(id: nat)

  /** `modified`: changed by an operation since its last log_write. */
  datatype Buf = Buf(data: Block, holder: Holder, dirty: bool, modified: bool)

  datatype Phase =
    | Running                               // log.committing == 0
    | WriteLog(tail: nat)                   // write_log() has copied `tail` blocks
    | Install(tail: nat, recovering: bool)  // install_trans() has copied `tail` blocks
    | Finish                                // commit() done, log.committing still 1
    | Boot                                  // memory lost, header not yet read

  datatype Sys = Sys(
    start: nat, size: nat,
    disk: Disk,
    cache: map<nat, Buf>,
    lh: seq<nat>,            // log.lh.block[0..log.lh.n]
    ops: map<nat, nat>,      // outstanding operations: log slots each has used
    phase: Phase)

  datatype Event =
    | BeginOp(id: nat)
    | EndOp(id: nat)
    | Get(b: nat, h: Holder)
    | Modify(b: nat, d: Block)
    | LogWrite(b: nat)
    | Release(b: nat)
    | Evict(b: nat)
    | CopyToLog
    | WriteHead
    | InstallOne
    | ClearHead
    | CommitDone
    | Crash
    | ReadHead

  // ---------------------------------------------------------------- layout

  ghost predicate Home(start: nat, size: nat, n: nat, b: nat) {
    b < n && !(start <= b < start + size)
  }

  ghost predicate NoDup(s: seq<nat>) {
    |s| > 0 ==> s[|s| - 1] !in s[..|s| - 1] && NoDup(s[..|s| - 1])
  }

  lemma {:induction false} NoDupAt(s: seq<nat>, i: nat, j: nat)
    requires NoDup(s) && i < j < |s|
    ensures s[i] != s[j]
  {
    if j == |s| - 1 {
      assert s[i] == s[..j][i];
    } else {
      NoDupAt(s[..|s| - 1], i, j);
    }
  }

  /** A list of home blocks that fits the log region. */
  ghost predicate ListOk(start: nat, size: nat, n: nat, lh: seq<nat>) {
    && |lh| <= LOGSIZE && |lh| + 1 <= size
    && NoDup(lh)
    && forall i :: 0 <= i < |lh| ==> Home(start, size, n, lh[i])
  }

  ghost predicate HeaderFits(h: Block) {
    |h| == WORDS && h[0] <= LOGSIZE
  }

  /** read_head: the block numbers stored in a header block. */
  function Entries(h: Block): (r: seq<nat>)
    requires HeaderFits(h)
  {
    h[1..1 + h[0]]
  }

  /** write_head: n and the first n entries are overwritten, the rest is kept. */
  function Encode(was: Block, lh: seq<nat>): (r: Block)
    requires |was| == WORDS && |lh| <= LOGSIZE
    ensures HeaderFits(r) && Entries(r) == lh
  {
    [|lh|] + lh + was[1 + |lh|..]
  }

  ghost predicate DiskOk(d: Disk, start: nat, size: nat) {
    && 1 <= size && start + size <= |d|
    && (forall b :: 0 <= b < |d| ==> |d[b]| == WORDS)
    && HeaderFits(d[start])
    && ListOk(start, size, |d|, Entries(d[start]))
  }

  // -------------------------------------------------------------- recovery

  /** install_trans over the first k entries. */
  ghost function Installed(d: Disk, start: nat, size: nat, lh: seq<nat>, k: nat): (r: Disk)
    requires start + size <= |d| && ListOk(start, size, |d|, lh) && k <= |lh|
    ensures |r| == |d|
  {
    if k == 0 then d else Installed(d, start, size, lh, k - 1)[lh[k - 1] := d[start + k]]
  }

  /** What recover_from_log makes of the home blocks, as a function of the disk alone. */
  ghost function Recovered(d: Disk, start: nat, size: nat): (r: Disk)
    requires DiskOk(d, start, size)
    ensures |r| == |d|
  {
    var lh := Entries(d[start]);
    Installed(d, start, size, lh, |lh|)
  }

  /** Two disks agree on every block outside the log region. */
  ghost predicate SameHome(a: Disk, b: Disk, start: nat, size: nat) {
    |a| == |b| && forall x :: 0 <= x < |a| && Home(start, size, |a|, x) ==> a[x] == b[x]
  }

  /** The contents the file system sees: cached data over the disk. */
  ghost function Logical(s: Sys): (r: Disk)
    ensures |r| == |s.disk|
  {
    seq(|s.disk|, b requires 0 <= b < |s.disk| => if b in s.cache then s.cache[b].data else s.disk[b])
  }

  // ----------------------------------------------------------------- events

  ghost predicate Held(s: Sys, b: nat, h: Holder) {
    b in s.cache && s.cache[b].holder == h
  }

  /** log_write's "too big a transaction" test, made before absorption. */
  ghost predicate LogFull(s: Sys) {
    |s.lh| >= LOGSIZE || |s.lh| + 1 >= s.size
  }

  /** bwrite of buffer b with contents d: cache and disk both get d, B_DIRTY clears. */
  ghost function Bwrite(s: Sys, b: nat, d: Block): (r: Sys)
    requires b in s.cache && b < |s.disk|
  {
    s.(disk := s.disk[b := d], cache := s.cache[b := s.cache[b].(data := d, dirty := false)])
  }

  /** write_log, one iteration: log block `tail` gets the cached contents of its home block. */
  ghost predicate CanCopyToLog(s: Sys) {
    && Shape(s) && s.phase.WriteLog? && s.phase.tail < |s.lh|
    && Held(s, s.start + 1 + s.phase.tail, Kernel) && Held(s, s.lh[s.phase.tail], Kernel)
  }

  ghost function DoCopyToLog(s: Sys): (r: Sys)
    requires CanCopyToLog(s)
  {
    Bwrite(s, s.start + 1 + s.phase.tail, s.cache[s.lh[s.phase.tail]].data)
    .(phase := WriteLog(s.phase.tail + 1))
  }

  /** write_head with lh.n > 0: the commit point. */
  ghost predicate CanWriteHead(s: Sys) {
    Shape(s) && s.phase.WriteLog? && s.phase.tail == |s.lh| && Held(s, s.start, Kernel)
  }

  ghost function DoWriteHead(s: Sys): (r: Sys)
    requires CanWriteHead(s)
  {
    Bwrite(s, s.start, Encode(s.cache[s.start].data, s.lh)).(phase := Install(0, false))
  }

  /** install_trans, one iteration: home block `tail` gets its log block. */
  ghost predicate CanInstallOne(s: Sys) {
    && Shape(s) && s.phase.Install? && s.phase.tail < |s.lh|
    && Held(s, s.start + 1 + s.phase.tail, Kernel) && Held(s, s.lh[s.phase.tail], Kernel)
  }

  ghost function DoInstallOne(s: Sys): (r: Sys)
    requires CanInstallOne(s)
  {
    Bwrite(s, s.lh[s.phase.tail], s.cache[s.start + 1 + s.phase.tail].data)
    .(phase := Install(s.phase.tail + 1, s.phase.recovering))
  }

  /** lh.n = 0 and write_head: the transaction is erased. */
  ghost predicate CanClearHead(s: Sys) {
    Shape(s) && s.phase.Install? && s.phase.tail == |s.lh| && Held(s, s.start, Kernel)
  }

  ghost function DoClearHead(s: Sys): (r: Sys)
    requires CanClearHead(s)
  {
    Bwrite(s, s.start, Encode(s.cache[s.start].data, []))
    .(lh := [], phase := if s.phase.recovering then Running else Finish)
  }

  ghost predicate Enabled(s: Sys, e: Event) {
    Shape(s) &&
    match e
    case BeginOp(id) =>
      s.phase.Running? && id !in s.ops && |s.lh| + (|s.ops| + 1) * MAXOPBLOCKS <= LOGSIZE
    case EndOp(id) =>
      s.phase.Running? && id in s.ops && forall b :: b in s.cache ==> s.cache[b].holder != ByOp(id)
    case Get(b, h) =>
      && b < |s.disk| && h != Nobody && (h.ByOp? ==> h.id in s.ops)
      && (b in s.cache ==> s.cache[b].holder == Nobody)
    case Modify(b, d) =>
      && b in s.cache && s.cache[b].holder.ByOp? && s.cache[b].holder.id in s.ops
      && Home(s.start, s.size, |s.disk|, b) && |d| == WORDS
    case LogWrite(b) =>
      && b in s.cache && s.cache[b].holder.ByOp? && s.cache[b].holder.id in s.ops
      && Home(s.start, s.size, |s.disk|, b)
      && !LogFull(s)
    case Release(b) =>
      b in s.cache && s.cache[b].holder != Nobody && !s.cache[b].modified
    case Evict(b) =>
      b in s.cache && s.cache[b].holder == Nobody && !s.cache[b].dirty
    case CopyToLog => CanCopyToLog(s)
    case WriteHead => CanWriteHead(s)
    case InstallOne => CanInstallOne(s)
    case ClearHead => CanClearHead(s)
    case CommitDone => s.phase.Finish?
    case Crash => true
    case ReadHead => s.phase.Boot? && Held(s, s.start, Kernel)
  }

  ghost function Next(s: Sys, e: Event): (r: Sys)
    requires Enabled(s, e)
  {
    match e
    case BeginOp(id) => s.(ops := s.ops[id := 0])
    case EndOp(id) =>
      var ops := s.ops - {id};
      s.(ops := ops,
         phase := if ops != map[] then Running else if |s.lh| > 0 then WriteLog(0) else Finish)
    case Get(b, h) =>
      s.(cache := s.cache[b := if b in s.cache then s.cache[b].(holder := h)
                               else Buf(s.disk[b], h, false, false)])
    case Modify(b, d) => s.(cache := s.cache[b := s.cache[b].(data := d, modified := true)])
    case LogWrite(b) =>
      var id := s.cache[b].holder.id;
      var t := s.(cache := s.cache[b := s.cache[b].(dirty := true, modified := false)]);
      if b in s.lh then t else t.(lh := s.lh + [b], ops := s.ops[id := s.ops[id] + 1])
    case Release(b) => s.(cache := s.cache[b := s.cache[b].(holder := Nobody)])
    case Evict(b) => s.(cache := s.cache - {b})
    case CopyToLog => DoCopyToLog(s)
    case WriteHead => DoWriteHead(s)
    case InstallOne => DoInstallOne(s)
    case ClearHead => DoClearHead(s)
    case CommitDone => s.(phase := Running)
    case Crash => s.(cache := map[], lh := [], ops := map[], phase := Boot)
    case ReadHead =>
      s.(lh := if HeaderFits(s.cache[s.start].data) then Entries(s.cache[s.start].data) else [],
         phase := Install(0, true))
  }

  /** Facts about sizes that make every event well formed. */
  ghost predicate Shape(s: Sys) {
    && DiskOk(s.disk, s.start, s.size)
    && ListOk(s.start, s.size, |s.disk|, s.lh)
    && (forall b :: b in s.cache ==> b < |s.disk| && |s.cache[b].data| == WORDS)
    && (s.phase.WriteLog? || s.phase.Install? ==> s.phase.tail <= |s.lh|)
  }

  /** Step i of a run.  Shape is nothing to assume: a fresh state has it and every step keeps it. */
  ghost predicate StepAt(states: seq<Sys>, events: seq<Event>, i: nat)
    requires |states| == |events| + 1
  {
    i < |events| && (Shape(states[i]) ==> Enabled(states[i], events[i]) && states[i + 1] == Next(states[i], events[i]))
  }

  /** A run: the states passed through, and the events between them. */
  ghost predicate Run(states: seq<Sys>, events: seq<Event>) {
    && |states| == |events| + 1
    && forall i :: 0 <= i < |events| ==> StepAt(states, events, i)
  }

  /** Where a run starts: nothing in memory, and a disk still to be recovered or with nothing in its log. */
  ghost predicate Start(s: Sys) {
    && Shape(s) && s.cache == map[] && s.lh == [] && s.ops == map[]
    && (s.phase.Boot? || (s.phase.Running? && s.disk[s.start][0] == 0))
  }
}
