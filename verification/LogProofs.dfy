/**
  Crash safety of the log: whatever the interleaving of operations, readers,
  evictions, commits, recoveries and crashes, recovery of the disk alone gives
  the logical contents of some earlier moment with no operation in progress.
 */
module LogProofs {
  import opened LogModel

  // ------------------------------------------------------------- invariant

  ghost predicate InFrom(lh: seq<nat>, t: nat, b: nat) {
    exists i :: t <= i < |lh| && lh[i] == b
  }

  /** Block b is pinned in the cache by B_DIRTY because commit() still has to install it. */
  ghost predicate Pinned(s: Sys, b: nat) {
    match s.phase
    case Running => InFrom(s.lh, 0, b)
    case WriteLog(_) => InFrom(s.lh, 0, b)
    case Install(t, r) => !r && InFrom(s.lh, t, b)
    case Finish => false
    case Boot => false
  }

  /** One cached buffer: dirty exactly when pinned, and equal to its disk block unless changed. */
  ghost predicate BufOk(s: Sys, b: nat)
    requires Shape(s) && b in s.cache
  {
    var f := s.cache[b];
    && (f.dirty <==> Pinned(s, b))
    && (!f.dirty && !f.modified ==> f.data == s.disk[b])
    && (f.modified ==> Home(s.start, s.size, |s.disk|, b) && f.holder.ByOp? && f.holder.id in s.ops)
  }

  ghost predicate CacheOk(s: Sys)
    requires Shape(s)
  {
    && (forall b {:trigger BufOk(s, b)} :: b in s.cache ==> BufOk(s, b))
    && forall b: nat :: Pinned(s, b) ==> b in s.cache
  }

  /** Home block b has its contents of c, unless install_trans has still to write it. */
  ghost predicate HomeOk(d: Disk, c: Disk, start: nat, size: nat, b: nat, lh: seq<nat>, t: nat) {
    b < |d| == |c| && Home(start, size, |d|, b) && !InFrom(lh, t, b) ==> d[b] == c[b]
  }

  /**
    The disk holds `c` redundantly: log blocks carry c's contents of the
    blocks in lh, and every home block not in lh[t..] already has them.
   */
  ghost predicate Carries(d: Disk, c: Disk, start: nat, size: nat, lh: seq<nat>, t: nat)
    requires start + size <= |d| && ListOk(start, size, |d|, lh) && t <= |lh|
  {
    && |c| == |d|
    && (forall i :: 0 <= i < |lh| ==> d[start + 1 + i] == c[lh[i]])
    && forall b: nat :: HomeOk(d, c, start, size, b, lh, t)
  }

  ghost predicate PhaseOk(s: Sys, c: Disk)
    requires Shape(s)
  {
    match s.phase
    case Running => Entries(s.disk[s.start]) == [] && (s.ops == map[] ==> s.lh == [])
    case WriteLog(t) =>
      && Entries(s.disk[s.start]) == [] && s.ops == map[]
      && forall i :: 0 <= i < t ==> s.lh[i] in s.cache && s.disk[s.start + 1 + i] == s.cache[s.lh[i]].data
    case Install(t, r) =>
      && Entries(s.disk[s.start]) == s.lh && s.ops == map[] && |c| == |s.disk|
      && (!r ==> forall i :: t <= i < |s.lh| ==> s.lh[i] in s.cache && s.cache[s.lh[i]].data == c[s.lh[i]])
    case Finish => Entries(s.disk[s.start]) == [] && s.lh == [] && s.ops == map[]
    case Boot => s.lh == [] && s.ops == map[]
  }

  ghost function Tail(s: Sys): (t: nat) {
    if s.phase.Install? then s.phase.tail else 0
  }

  /** `c` is the contents last committed. */
  ghost predicate Inv(s: Sys, c: Disk) {
    && Shape(s)
    && CacheOk(s)
    && PhaseOk(s, c)
    && Tail(s) <= |Entries(s.disk[s.start])|
    && Carries(s.disk, c, s.start, s.size, Entries(s.disk[s.start]), Tail(s))
  }

  lemma Together(s: Sys, c: Disk, lh: seq<nat>)
    requires Shape(s) && CacheOk(s) && PhaseOk(s, c) && lh == Entries(s.disk[s.start]) && Tail(s) <= |lh|
    requires Carries(s.disk, c, s.start, s.size, lh, Tail(s))
    ensures Inv(s, c)
  {
  }

  // ------------------------------------------------------------- recovery

  /** Pointwise meaning of install_trans. */
  lemma {:induction false} InstalledAt(d: Disk, start: nat, size: nat, lh: seq<nat>, k: nat, b: nat)
    requires start + size <= |d| && ListOk(start, size, |d|, lh) && k <= |lh| && b < |d|
    ensures b !in lh[..k] ==> Installed(d, start, size, lh, k)[b] == d[b]
    ensures forall i :: 0 <= i < k && lh[i] == b ==> Installed(d, start, size, lh, k)[b] == d[start + 1 + i]
  {
    if k > 0 {
      InstalledAt(d, start, size, lh, k - 1, b);
      forall i | 0 <= i < k - 1 ensures lh[i] != lh[k - 1] { NoDupAt(lh, i, k - 1); }
      assert lh[..k] == lh[..k - 1] + [lh[k - 1]];
    }
  }

  lemma RecoveredIsCommitted(d: Disk, c: Disk, start: nat, size: nat, t: nat)
    requires DiskOk(d, start, size) && t <= |Entries(d[start])|
    requires Carries(d, c, start, size, Entries(d[start]), t)
    ensures SameHome(Recovered(d, start, size), c, start, size)
  {
    var lh := Entries(d[start]);
    forall b | 0 <= b < |d| && Home(start, size, |d|, b)
      ensures Recovered(d, start, size)[b] == c[b]
    {
      InstalledAt(d, start, size, lh, |lh|, b);
      assert lh[..|lh|] == lh;
      if b in lh {
        var i :| 0 <= i < |lh| && lh[i] == b;
      } else {
        assert HomeOk(d, c, start, size, b, lh, t);
      }
    }
  }

  // ------------------------------------------------------- inductive steps

  lemma StepBeginOp(s: Sys, c: Disk, e: Event)
    requires Inv(s, c) && Enabled(s, e) && (e.BeginOp? || e.CommitDone?)
    ensures Inv(Next(s, e), c)
  {
    var t := Next(s, e);
    forall b | b in t.cache ensures BufOk(t, b) { assert BufOk(s, b); }
  }

  /** The blocks whose cached contents commit() relies on. */
  ghost predicate KeepsPinned(s: Sys, t: Sys) {
    forall b: nat :: Pinned(s, b) && b in s.cache ==> b in t.cache && t.cache[b].data == s.cache[b].data
  }

  /** A change to the cache alone, keeping the pinned contents outside Running, keeps the invariant. */
  lemma CacheChange(s: Sys, t: Sys, c: Disk)
    requires Inv(s, c) && t == s.(cache := t.cache) && Shape(t) && CacheOk(t)
    requires !s.phase.Running? ==> KeepsPinned(s, t)
    ensures Inv(t, c)
  {
    if s.phase.WriteLog? || (s.phase.Install? && !s.phase.recovering) {
      forall i | Tail(s) <= i < |s.lh| ensures Pinned(s, s.lh[i]) {}
    }
  }

  lemma GetBuf(s: Sys, c: Disk, b: nat, h: Holder, x: nat)
    requires Inv(s, c) && Enabled(s, Get(b, h)) && Shape(Next(s, Get(b, h))) && x in Next(s, Get(b, h)).cache
    ensures BufOk(Next(s, Get(b, h)), x)
  {
    if x in s.cache { assert BufOk(s, x); }
  }

  lemma StepGet(s: Sys, c: Disk, b: nat, h: Holder)
    requires Inv(s, c) && Enabled(s, Get(b, h))
    ensures Inv(Next(s, Get(b, h)), c)
  {
    var t := Next(s, Get(b, h));
    assert Shape(t);
    forall x | x in t.cache ensures BufOk(t, x) { GetBuf(s, c, b, h, x); }
    CacheChange(s, t, c);
  }

  lemma StepRelease(s: Sys, c: Disk, b: nat)
    requires Inv(s, c) && Enabled(s, Release(b))
    ensures Inv(Next(s, Release(b)), c)
  {
    var t := Next(s, Release(b));
    assert Shape(t);
    forall x | x in t.cache ensures BufOk(t, x) { assert BufOk(s, x); }
    CacheChange(s, t, c);
  }

  lemma StepModify(s: Sys, c: Disk, e: Event)
    requires Inv(s, c) && Enabled(s, e) && e.Modify?
    ensures Inv(Next(s, e), c)
  {
    var t := Next(s, e);
    forall b | b in t.cache ensures BufOk(t, b) { assert BufOk(s, b); }
    CacheChange(s, t, c);
  }

  lemma StepEvict(s: Sys, c: Disk, b: nat)
    requires Inv(s, c) && Enabled(s, Evict(b))
    ensures Inv(Next(s, Evict(b)), c)
  {
    var t := Next(s, Evict(b));
    assert Shape(t);
    assert BufOk(s, b);
    forall x | x in t.cache ensures BufOk(t, x) { assert BufOk(s, x); }
    CacheChange(s, t, c);
  }

  lemma CarriesWeaken(d: Disk, c: Disk, start: nat, size: nat, lh: seq<nat>, t: nat)
    requires start + size <= |d| && ListOk(start, size, |d|, lh) && t <= |lh|
    requires Carries(d, c, start, size, lh, t)
    ensures Carries(d, c, start, size, lh, 0)
  {
    forall b: nat ensures HomeOk(d, c, start, size, b, lh, 0) {
      assert HomeOk(d, c, start, size, b, lh, t);
    }
  }

  lemma StepCrash(s: Sys, c: Disk)
    requires Inv(s, c)
    ensures Inv(Next(s, Crash), c)
  {
    CarriesWeaken(s.disk, c, s.start, s.size, Entries(s.disk[s.start]), Tail(s));
  }

  lemma StepReadHead(s: Sys, c: Disk)
    requires Inv(s, c) && Enabled(s, ReadHead)
    ensures Inv(Next(s, ReadHead), c)
  {
    var t := Next(s, ReadHead);
    assert BufOk(s, s.start);
    assert t.lh == Entries(s.disk[s.start]);
    forall b | b in t.cache ensures BufOk(t, b) { assert BufOk(s, b); }
  }

  lemma LogWriteBuf(s: Sys, c: Disk, b: nat, x: nat)
    requires Inv(s, c) && Enabled(s, LogWrite(b)) && Shape(Next(s, LogWrite(b))) && x in s.cache
    ensures BufOk(Next(s, LogWrite(b)), x)
  {
    var t := Next(s, LogWrite(b));
    assert BufOk(s, x);
    assert b !in s.lh ==> t.lh[|s.lh|] == b;
    assert InFrom(t.lh, 0, x) == (InFrom(s.lh, 0, x) || x == b);
  }

  lemma LogWriteShape(s: Sys, c: Disk, b: nat)
    requires Inv(s, c) && Enabled(s, LogWrite(b))
    ensures s.phase.Running? && Shape(Next(s, LogWrite(b)))
  {
    assert (s.lh + [b])[..|s.lh|] == s.lh;
  }

  lemma LogWriteCache(s: Sys, c: Disk, b: nat)
    requires Inv(s, c) && Enabled(s, LogWrite(b)) && Shape(Next(s, LogWrite(b))) && s.phase.Running?
    ensures CacheOk(Next(s, LogWrite(b)))
  {
    var t := Next(s, LogWrite(b));
    forall x | x in t.cache ensures BufOk(t, x) { LogWriteBuf(s, c, b, x); }
  }

  lemma StepLogWrite(s: Sys, c: Disk, b: nat)
    requires Inv(s, c) && Enabled(s, LogWrite(b))
    ensures Inv(Next(s, LogWrite(b)), c)
  {
    var t := Next(s, LogWrite(b));
    LogWriteShape(s, c, b);
    assert CacheOk(t) by { LogWriteCache(s, c, b); }
    assert t.disk == s.disk && Entries(s.disk[s.start]) == [] && s.cache[b].holder.id in t.ops;
    Together(t, c, []);
  }

  lemma StepEndOp(s: Sys, c: Disk, e: Event)
    requires Inv(s, c) && Enabled(s, e) && e.EndOp?
    ensures Inv(Next(s, e), c)
  {
    var t := Next(s, e);
    forall b | b in t.cache ensures BufOk(t, b) { assert BufOk(s, b); }
  }

  lemma CopyToLogHome(s: Sys, c: Disk)
    requires Inv(s, c) && CanCopyToLog(s)
    ensures Carries(DoCopyToLog(s).disk, c, s.start, s.size, [], 0)
  {
    forall b: nat ensures HomeOk(DoCopyToLog(s).disk, c, s.start, s.size, b, [], 0) {
      assert HomeOk(s.disk, c, s.start, s.size, b, [], 0);
    }
  }

  lemma CopyToLogPhase(s: Sys, c: Disk)
    requires Inv(s, c) && CanCopyToLog(s) && Shape(DoCopyToLog(s))
    ensures PhaseOk(DoCopyToLog(s), c)
  {
  }

  lemma CopyToLogCache(s: Sys, c: Disk)
    requires Inv(s, c) && CanCopyToLog(s) && Shape(DoCopyToLog(s))
    ensures CacheOk(DoCopyToLog(s))
  {
    var t := DoCopyToLog(s);
    forall b | b in t.cache ensures BufOk(t, b) { assert BufOk(s, b); }
  }

  lemma StepCopyToLog(s: Sys, c: Disk)
    requires Inv(s, c) && CanCopyToLog(s)
    ensures Inv(DoCopyToLog(s), c)
  {
    var t := DoCopyToLog(s);
    assert Shape(t);
    CopyToLogCache(s, c);
    CopyToLogPhase(s, c);
    CopyToLogHome(s, c);
    Together(t, c, []);
  }

  lemma WriteHeadHome(s: Sys, c: Disk, b: nat)
    requires Inv(s, c) && CanWriteHead(s)
    ensures HomeOk(DoWriteHead(s).disk, Logical(s), s.start, s.size, b, s.lh, 0)
  {
    if b in s.cache { assert BufOk(s, b); }
  }

  lemma WriteHeadShape(s: Sys, c: Disk)
    requires Inv(s, c) && CanWriteHead(s)
    ensures Shape(DoWriteHead(s)) && Entries(DoWriteHead(s).disk[s.start]) == s.lh
  {
  }

  lemma WriteHeadCache(s: Sys, c: Disk)
    requires Inv(s, c) && CanWriteHead(s) && Shape(DoWriteHead(s))
    ensures CacheOk(DoWriteHead(s))
  {
    var t := DoWriteHead(s);
    forall b | b in t.cache ensures BufOk(t, b) { assert BufOk(s, b); }
  }

  lemma WriteHeadCarries(s: Sys, c: Disk)
    requires Inv(s, c) && CanWriteHead(s)
    ensures Carries(DoWriteHead(s).disk, Logical(s), s.start, s.size, s.lh, 0)
  {
    var t := DoWriteHead(s);
    forall b: nat ensures HomeOk(t.disk, Logical(s), s.start, s.size, b, s.lh, 0) { WriteHeadHome(s, c, b); }
  }

  lemma StepWriteHead(s: Sys, c: Disk)
    requires Inv(s, c) && CanWriteHead(s)
    ensures Inv(DoWriteHead(s), Logical(s))
  {
    var t := DoWriteHead(s);
    WriteHeadShape(s, c);
    assert CacheOk(t) by { WriteHeadCache(s, c); }
    assert PhaseOk(t, Logical(s));
    WriteHeadCarries(s, c);
    Together(t, Logical(s), s.lh);
  }

  lemma InstallOneShape(s: Sys, c: Disk)
    requires Inv(s, c) && CanInstallOne(s)
    ensures Shape(DoInstallOne(s)) && Entries(DoInstallOne(s).disk[s.start]) == s.lh
    ensures s.cache[s.start + 1 + s.phase.tail].data == c[s.lh[s.phase.tail]]
  {
    assert BufOk(s, s.start + 1 + s.phase.tail);
  }

  lemma InstallOneLast(s: Sys)
    requires CanInstallOne(s)
    ensures !InFrom(s.lh, s.phase.tail + 1, s.lh[s.phase.tail])
  {
    var k := s.phase.tail;
    forall j | k < j < |s.lh| ensures s.lh[k] != s.lh[j] { NoDupAt(s.lh, k, j); }
  }

  lemma InstallOneBuf(s: Sys, c: Disk, b: nat)
    requires Inv(s, c) && CanInstallOne(s) && b in s.cache
    requires Shape(DoInstallOne(s)) && !InFrom(s.lh, s.phase.tail + 1, s.lh[s.phase.tail])
    ensures BufOk(DoInstallOne(s), b)
  {
    var t, k := DoInstallOne(s), s.phase.tail;
    assert BufOk(s, b);
    if b == s.lh[k] {
      assert !Pinned(t, b);
    } else {
      assert InFrom(s.lh, k, b) == InFrom(s.lh, k + 1, b);
      assert t.cache[b] == s.cache[b] && t.disk[b] == s.disk[b];
    }
  }

  lemma InstallOneHome(s: Sys, c: Disk, b: nat)
    requires Inv(s, c) && CanInstallOne(s)
    requires s.cache[s.start + 1 + s.phase.tail].data == c[s.lh[s.phase.tail]]
    ensures HomeOk(DoInstallOne(s).disk, c, s.start, s.size, b, s.lh, s.phase.tail + 1)
  {
    var k := s.phase.tail;
    assert HomeOk(s.disk, c, s.start, s.size, b, s.lh, k);
  }

  lemma InstallOnePhase(s: Sys, c: Disk)
    requires Inv(s, c) && CanInstallOne(s) && Shape(DoInstallOne(s))
    requires !InFrom(s.lh, s.phase.tail + 1, s.lh[s.phase.tail])
    ensures PhaseOk(DoInstallOne(s), c)
  {
    forall i | s.phase.tail < i < |s.lh| ensures s.lh[i] != s.lh[s.phase.tail] {}
  }

  lemma InstallOneCarries(s: Sys, c: Disk)
    requires Inv(s, c) && CanInstallOne(s)
    requires s.cache[s.start + 1 + s.phase.tail].data == c[s.lh[s.phase.tail]]
    ensures Carries(DoInstallOne(s).disk, c, s.start, s.size, s.lh, s.phase.tail + 1)
  {
    var t := DoInstallOne(s);
    var k := s.phase.tail + 1;
    assert Home(s.start, s.size, |s.disk|, s.lh[s.phase.tail]);
    forall b: nat ensures HomeOk(t.disk, c, s.start, s.size, b, s.lh, k) { InstallOneHome(s, c, b); }
  }

  lemma InstallOneCache(s: Sys, c: Disk)
    requires Inv(s, c) && CanInstallOne(s) && Shape(DoInstallOne(s))
    requires !InFrom(s.lh, s.phase.tail + 1, s.lh[s.phase.tail])
    ensures CacheOk(DoInstallOne(s))
  {
    var t := DoInstallOne(s);
    forall b | b in t.cache ensures BufOk(t, b) { InstallOneBuf(s, c, b); }
    forall b: nat | Pinned(t, b) ensures b in t.cache { assert Pinned(s, b); }
  }

  lemma StepInstallOne(s: Sys, c: Disk)
    requires Inv(s, c) && CanInstallOne(s)
    ensures Inv(DoInstallOne(s), c)
  {
    var t := DoInstallOne(s);
    InstallOneShape(s, c);
    InstallOneLast(s);
    assert CacheOk(t) by { InstallOneCache(s, c); }
    assert PhaseOk(t, c) by { InstallOnePhase(s, c); }
    InstallOneCarries(s, c);
    Together(t, c, s.lh);
  }

  lemma StepClearHead(s: Sys, c: Disk)
    requires Inv(s, c) && CanClearHead(s)
    ensures Inv(DoClearHead(s), c)
  {
    var t := DoClearHead(s);
    assert Entries(t.disk[s.start]) == [];
    forall b | b in t.cache ensures BufOk(t, b) { assert BufOk(s, b); }
    forall b: nat ensures HomeOk(t.disk, c, s.start, s.size, b, [], 0) {
      assert HomeOk(s.disk, c, s.start, s.size, b, s.lh, |s.lh|);
    }
  }
}
