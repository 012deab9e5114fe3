/**
  The file system on the log.  A volume is laid out in blocks as fs.h has it:
  dinodes of 64 bytes, eight to a block, and bitmap, indirect and data blocks
  as they are.  A call changes the volume one block at a time inside an
  operation of the log; whenever the machine stops, recovery leaves the image
  of a volume at which no call was in progress.
 */
module FsLog {
  import opened FsModel
  import opened SysModel
  import L = LogModel
  import P = LogProofs
  import R = LogRuns
  import H = LogHistory
  import T = LinkModel

  const IPB: nat := 8      // inodes per block
  const IWORDS: nat := 16  // words per inode
  const SHORT: nat := 0x1_0000

  // ----------------------------------------------------------------- image

  /** Word k of struct dinode. */
  function InodeWord(d: Dinode, k: nat): (w: nat)
    requires |d.addrs| == NDIRECT + 1 && k < IWORDS
  {
    if k == 0 then d.typ % SHORT + SHORT * (d.major % SHORT)
    else if k == 1 then d.minor % SHORT + SHORT * (d.nlink % SHORT)
    else if k == 2 then d.size
    else d.addrs[k - 3]
  }

  /** Block b of a volume whose inode blocks start at s, as the log sees it. */
  ghost predicate InodeBlock(v: Vol, s: nat, b: nat) { s <= b < s + (|v.ino| + IPB - 1) / IPB }

  ghost function BlockWord(v: Vol, s: nat, b: nat, w: nat): (r: nat)
    requires Shape(v) && b < |v.blk| && w < L.WORDS
  {
    if InodeBlock(v, s, b) then
      var i := (b - s) * IPB + w / IWORDS;
      if i < |v.ino| then InodeWord(v.ino[i], w % IWORDS) else 0
    else Word(v.blk[b], w)
  }

  ghost function Image(v: Vol, s: nat, b: nat): (r: L.Block)
    requires Shape(v) && b < |v.blk|
    ensures |r| == L.WORDS
  {
    seq(L.WORDS, w requires 0 <= w < L.WORDS => BlockWord(v, s, b, w))
  }

  /** The fields fit those of struct dinode. */
  predicate Ranged(d: Dinode) {
    && 0 <= d.typ < SHORT && 0 <= d.major < SHORT && 0 <= d.minor < SHORT && 0 <= d.nlink < SHORT
    && |d.addrs| == NDIRECT + 1
  }

  lemma Halves(a: nat, b: nat, c: nat, d: nat)
    requires a < SHORT && c < SHORT && a + SHORT * b == c + SHORT * d
    ensures a == c && b == d
  {
  }

  lemma AddrExact(d: Dinode, e: Dinode, k: nat)
    requires |d.addrs| == |e.addrs| == NDIRECT + 1 && k <= NDIRECT && InodeWord(d, k + 3) == InodeWord(e, k + 3)
    ensures d.addrs[k] == e.addrs[k]
  {
  }

  lemma Shorts(d: Dinode)
    requires Ranged(d)
    ensures InodeWord(d, 0) == d.typ + SHORT * d.major && InodeWord(d, 1) == d.minor + SHORT * d.nlink
  {
  }

  lemma ShortsExact(d: Dinode, e: Dinode)
    requires Ranged(d) && Ranged(e) && InodeWord(d, 0) == InodeWord(e, 0) && InodeWord(d, 1) == InodeWord(e, 1)
    ensures d.typ == e.typ && d.major == e.major && d.minor == e.minor && d.nlink == e.nlink
  {
    Shorts(d);
    Shorts(e);
    Halves(d.typ, d.major, e.typ, e.major);
    Halves(d.minor, d.nlink, e.minor, e.nlink);
  }

  lemma InodeExact(d: Dinode, e: Dinode)
    requires Ranged(d) && Ranged(e) && forall k: nat :: k < IWORDS ==> InodeWord(d, k) == InodeWord(e, k)
    ensures d == e
  {
    assert InodeWord(d, 0) == InodeWord(e, 0) && InodeWord(d, 1) == InodeWord(e, 1);
    assert InodeWord(d, 2) == InodeWord(e, 2);
    ShortsExact(d, e);
    forall k: nat | k < |d.addrs| ensures d.addrs[k] == e.addrs[k] { AddrExact(d, e, k); }
    assert d.addrs == e.addrs;
  }

  lemma Lowest(a: nat, x: nat, b: nat, y: nat)
    requires a < 256 && b < 256 && a + 256 * x == b + 256 * y
    ensures a == b && x == y
  {
  }

  lemma BytesExact(a: Block, b: Block, j: nat)
    requires j < NINDIRECT && Word(a, j) == Word(b, j)
    ensures a[4 * j..4 * j + 4] == b[4 * j..4 * j + 4]
  {
    var a0: nat, a1: nat, a2: nat, a3: nat := a[4 * j], a[4 * j + 1], a[4 * j + 2], a[4 * j + 3];
    var b0: nat, b1: nat, b2: nat, b3: nat := b[4 * j], b[4 * j + 1], b[4 * j + 2], b[4 * j + 3];
    Lowest(a0, a1 + 256 * (a2 + 256 * a3), b0, b1 + 256 * (b2 + 256 * b3));
    Lowest(a1, a2 + 256 * a3, b1, b2 + 256 * b3);
    Lowest(a2, a3, b2, b3);
  }

  lemma BlockExact(a: Block, b: Block)
    requires forall j: nat :: j < NINDIRECT ==> Word(a, j) == Word(b, j)
    ensures a == b
  {
    forall x | 0 <= x < BSIZE ensures a[x] == b[x] {
      var k := x / 4 * 4;
      BytesExact(a, b, x / 4);
      assert a[k..k + 4][x - k] == b[k..k + 4][x - k];
    }
  }

  /** The image tells the volume: equal images have equal inodes, and equal blocks elsewhere. */
  lemma ImageExact(v: Vol, w: Vol, s: nat)
    requires Shape(v) && Shape(w) && |v.ino| == |w.ino| && |v.blk| == |w.blk|
    requires forall i :: 0 <= i < |v.ino| ==> Ranged(v.ino[i]) && Ranged(w.ino[i]) && s + i / IPB < |v.blk|
    requires forall b: nat :: b < |v.blk| ==> Image(v, s, b) == Image(w, s, b)
    ensures v.ino == w.ino && forall b: nat :: b < |v.blk| && !InodeBlock(v, s, b) ==> v.blk[b] == w.blk[b]
  {
    forall i: nat | i < |v.ino| ensures v.ino[i] == w.ino[i] { InodeInImage(v, w, s, i); }
    forall b: nat | b < |v.blk| && !InodeBlock(v, s, b) ensures v.blk[b] == w.blk[b] {
      forall j: nat | j < NINDIRECT ensures Word(v.blk[b], j) == Word(w.blk[b], j) {
        assert Image(v, s, b)[j] == Image(w, s, b)[j];
      }
      BlockExact(v.blk[b], w.blk[b]);
    }
  }

  lemma InodeInImage(v: Vol, w: Vol, s: nat, i: nat)
    requires Shape(v) && Shape(w) && i < |v.ino| == |w.ino| && |v.blk| == |w.blk|
    requires Ranged(v.ino[i]) && Ranged(w.ino[i])
    requires s + i / IPB < |v.blk| && Image(v, s, s + i / IPB) == Image(w, s, s + i / IPB)
    ensures v.ino[i] == w.ino[i]
  {
    var b := s + i / IPB;
    forall k: nat | k < IWORDS ensures InodeWord(v.ino[i], k) == InodeWord(w.ino[i], k) {
      var x := i % IPB * IWORDS + k;
      assert x / IWORDS == i % IPB && x % IWORDS == k && (b - s) * IPB + i % IPB == i;
      assert Image(v, s, b)[x] == Image(w, s, b)[x];
    }
    InodeExact(v.ino[i], w.ino[i]);
  }

  // -------------------------------------------------- one block at a time

  /** What fs.c writes through log_write: a block, or an inode in its block. */
  datatype Update = SetBlock(b: nat, x: Block) | SetInode(i: nat, d: Dinode)

  ghost predicate Allowed(v: Vol, s: nat, u: Update) {
    match u
    case SetBlock(b, _) => b < |v.blk| && !InodeBlock(v, s, b)
    case SetInode(i, d) => i < |v.ino| && |d.addrs| == NDIRECT + 1 && s + i / IPB < |v.blk|
  }

  ghost function Apply(v: Vol, s: nat, u: Update): (r: Vol)
    requires Shape(v)
    ensures Shape(r) && |r.ino| == |v.ino| && |r.blk| == |v.blk| && r.lay == v.lay
  {
    if !Allowed(v, s, u) then v
    else
      match u
      case SetBlock(b, x) => v.(blk := v.blk[b := x])
      case SetInode(i, d) => v.(ino := v.ino[i := d])
  }

  function BlockOf(s: nat, u: Update): (b: nat) { if u.SetBlock? then u.b else s + u.i / IPB }

  lemma InodeAway(s: nat, b: nat, i: nat, w: nat)
    requires s <= b && b != s + i / IPB && w < L.WORDS
    ensures (b - s) * IPB + w / IWORDS != i
  {
  }

  /** An update changes the image of its own block alone. */
  lemma ApplyOne(v: Vol, s: nat, u: Update, b: nat)
    requires Shape(v) && b < |v.blk| && b != BlockOf(s, u)
    ensures Image(Apply(v, s, u), s, b) == Image(v, s, b)
  {
    var r := Apply(v, s, u);
    forall w: nat | w < L.WORDS ensures BlockWord(r, s, b, w) == BlockWord(v, s, b, w) {
      if u.SetInode? && InodeBlock(v, s, b) { InodeAway(s, b, u.i, w); }
    }
  }

  // ------------------------------------------------------------------ runs

  /** The volume after n events, an update for each Modify; a crash takes back what no header write has followed. */
  ghost function Volume(events: seq<L.Event>, us: seq<Update>, n: nat, s: nat, v: Vol): (r: Vol)
    requires n <= |events| == |us| && Shape(v)
    ensures Shape(r) && |r.ino| == |v.ino| && |r.blk| == |v.blk| && r.lay == v.lay
    decreases n
  {
    if n == 0 then v
    else
      match events[n - 1]
      case Modify(_, _) => Apply(Volume(events, us, n - 1, s, v), s, us[n - 1])
      case Crash => Saved(events, us, n - 1, s, v)
      case _ => Volume(events, us, n - 1, s, v)
  }

  /** The volume at the last header write. */
  ghost function Saved(events: seq<L.Event>, us: seq<Update>, n: nat, s: nat, v: Vol): (r: Vol)
    requires n <= |events| == |us| && Shape(v)
    ensures Shape(r) && |r.ino| == |v.ino| && |r.blk| == |v.blk| && r.lay == v.lay
    decreases n
  {
    if n == 0 then v
    else if events[n - 1].WriteHead? then Volume(events, us, n - 1, s, v)
    else Saved(events, us, n - 1, s, v)
  }

  /** Event i, if it changes a block, writes to it what its update makes of the volume. */
  ghost predicate WritesAt(events: seq<L.Event>, us: seq<Update>, i: nat, s: nat, v: Vol)
    requires i < |events| == |us| && Shape(v)
  {
    events[i].Modify? ==>
      && Allowed(Volume(events, us, i, s, v), s, us[i])
      && BlockOf(s, us[i]) < |v.blk| && events[i].b == BlockOf(s, us[i])
      && events[i].d == Image(Volume(events, us, i + 1, s, v), s, events[i].b)
  }

  ghost predicate Writes(events: seq<L.Event>, us: seq<Update>, s: nat, v: Vol) {
    |events| == |us| && Shape(v) && forall i: nat :: i < |events| ==> WritesAt(events, us, i, s, v)
  }

  /** The data given to a block is always the image of the volume. */
  lemma {:induction false} ToldImage(events: seq<L.Event>, us: seq<Update>, n: nat, s: nat, v: Vol, b: nat)
    requires Writes(events, us, s, v) && n <= |events| && b < |v.blk|
    ensures H.Told(events, n, b, Image(v, s, b)) == Image(Volume(events, us, n, s, v), s, b)
    ensures H.Kept(events, n, b, Image(v, s, b)) == Image(Saved(events, us, n, s, v), s, b)
    decreases n
  {
    if n > 0 {
      ToldImage(events, us, n - 1, s, v, b);
      assert WritesAt(events, us, n - 1, s, v);
      if events[n - 1].Modify? && events[n - 1].b != b { ApplyOne(Volume(events, us, n - 1, s, v), s, us[n - 1], b); }
    }
  }

  // --------------------------------------------------------- crash safety

  /** The volume stands for a tree, with its bitmap, slots and directories in order. */
  ghost predicate Sound(v: Vol) { exists bk, t :: Fits(v, bk, t, {}) }

  ghost predicate Idle(events: seq<L.Event>, n: nat)
    requires n <= |events|
  {
    H.Begun(events, n) == {}
  }

  /** When the calls in progress after n events began: the last moment without any. */
  ghost function Since(events: seq<L.Event>, n: nat): (m: nat)
    requires n <= |events|
    ensures m <= n && Idle(events, m) && forall i :: m < i <= n ==> !Idle(events, i)
  {
    if Idle(events, n) then n else Since(events, n - 1)
  }

  /** Calls keep the volume sound: what it was when they began, it is again when the last of them has ended. */
  ghost predicate CallAt(events: seq<L.Event>, us: seq<Update>, j: nat, s: nat, v: Vol)
    requires j < |events| == |us| && Shape(v)
  {
    events[j].EndOp? && Idle(events, j + 1) && Sound(Volume(events, us, Since(events, j), s, v)) ==>
      Sound(Volume(events, us, j + 1, s, v))
  }

  ghost predicate Calls(events: seq<L.Event>, us: seq<Update>, s: nat, v: Vol) {
    |events| == |us| && Shape(v) && forall j: nat :: j < |events| ==> CallAt(events, us, j, s, v)
  }

  /** Operations change blocks, and headers are written when none is in progress. */
  lemma StepQuiet(states: seq<L.Sys>, events: seq<L.Event>, i: nat)
    requires L.Run(states, events) && L.Start(states[0]) && i < |events|
    ensures events[i].WriteHead? ==> Idle(events, i)
    ensures events[i].Modify? || events[i].EndOp? ==> !Idle(events, i)
  {
    R.RunInv(states, events, i);
    H.RunBooks(states, events, i);
    assert L.StepAt(states, events, i);
  }

  lemma SameSince(states: seq<L.Sys>, events: seq<L.Event>, us: seq<Update>, n: nat, s: nat, v: Vol)
    requires L.Run(states, events) && L.Start(states[0]) && n < |events| == |us| && Shape(v)
    requires Idle(events, n + 1) && !events[n].EndOp? && !events[n].Crash?
    ensures Idle(events, n) && Volume(events, us, n + 1, s, v) == Volume(events, us, n, s, v)
  {
    StepQuiet(states, events, n);
  }

  /** Whenever no call is in progress the volume is sound, and so is what a crash would leave. */
  lemma {:induction false} QuietSound(states: seq<L.Sys>, events: seq<L.Event>, us: seq<Update>, n: nat, s: nat, v: Vol)
    requires L.Run(states, events) && L.Start(states[0]) && Calls(events, us, s, v) && Sound(v) && n <= |events|
    ensures Sound(Saved(events, us, n, s, v))
    ensures Idle(events, n) ==> Sound(Volume(events, us, n, s, v))
    decreases n
  {
    if n > 0 {
      var i := n - 1;
      QuietSound(states, events, us, i, s, v);
      StepQuiet(states, events, i);
      if Idle(events, n) && !events[i].Crash? {
        if events[i].EndOp? {
          assert CallAt(events, us, i, s, v);
          QuietSound(states, events, us, Since(events, i), s, v);
        } else {
          SameSince(states, events, us, i, s, v);
        }
      }
    }
  }

  /**
    Crash safety of the calls.  Take a disk that recovers to the image of a
    sound volume, and any run of the log in which calls change the volume
    block by block, each group of overlapping calls keeping it sound.  If the
    machine stops at k, recovery yields on every home block the image of a
    sound volume: the one at the last header write, when no call was in
    progress.
   */
  lemma CrashSound(states: seq<L.Sys>, events: seq<L.Event>, us: seq<Update>, k: nat, s: nat, v: Vol, b: nat)
    requires L.Run(states, events) && L.Start(states[0]) && k < |states|
    requires Writes(events, us, s, v) && Calls(events, us, s, v) && Sound(v)
    requires |v.blk| == |states[0].disk| && H.HomeOf(states[0], b) && R.AtStart(states[0])[b] == Image(v, s, b)
    ensures L.DiskOk(states[k].disk, states[k].start, states[k].size) && b < |states[k].disk|
    ensures var w := Saved(events, us, k, s, v);
      Sound(w) && L.Recovered(states[k].disk, states[k].start, states[k].size)[b] == Image(w, s, b)
    ensures !H.Recovering(states[k]) ==> L.Logical(states[k])[b] == Image(Volume(events, us, k, s, v), s, b)
  {
    QuietSound(states, events, us, k, s, v);
    ToldImage(events, us, k, s, v, b);
    H.Survives(states, events, k, b);
  }

  // -------------------------------------------------------------- one call

  /** Every home block recovers to its image in w. */
  ghost predicate RecoversImage(x: L.Sys, s: nat, w: Vol)
    requires Shape(w)
  {
    && L.DiskOk(x.disk, x.start, x.size) && |w.blk| == |x.disk|
    && forall b: nat :: H.HomeOf(x, b) ==> L.Recovered(x.disk, x.start, x.size)[b] == Image(w, s, b)
  }

  /** The disk that a run starts from recovers to the image of v. */
  ghost predicate StartsFrom(x: L.Sys, s: nat, v: Vol)
    requires Shape(v)
  {
    |v.blk| == |x.disk| && forall b: nat :: H.HomeOf(x, b) ==> R.AtStart(x)[b] == Image(v, s, b)
  }

  /** From e on no call begins and nothing crashes: the volume stays as it is. */
  lemma {:induction false} StaysIdle(states: seq<L.Sys>, events: seq<L.Event>, us: seq<Update>, e: nat, n: nat,
                                     s: nat, v: Vol)
    requires L.Run(states, events) && L.Start(states[0]) && e <= n <= |events| == |us| && Shape(v) && Idle(events, e)
    requires forall i :: e <= i < n ==> !events[i].BeginOp? && !events[i].Crash?
    ensures Idle(events, n) && Volume(events, us, n, s, v) == Volume(events, us, e, s, v)
    decreases n
  {
    if n > e {
      StaysIdle(states, events, us, e, n - 1, s, v);
      StepQuiet(states, events, n - 1);
    }
  }

  /** What is recovered at k is the image of the volume at the last header write since m. */
  lemma HeadImage(states: seq<L.Sys>, events: seq<L.Event>, us: seq<Update>, m: nat, k: nat, s: nat, v: Vol)
    requires L.Run(states, events) && L.Start(states[0]) && m <= k < |states| && R.Idle(states[m])
    requires Writes(events, us, s, v) && StartsFrom(states[0], s, v)
    ensures RecoversImage(states[k], s, Volume(events, us, R.LastHead(events, m, k), s, v))
  {
    var j := R.LastHead(events, m, k);
    R.CommittedSince(states, events, m, k);
    R.InvRecovers(states[k], L.Logical(states[j]));
    if j != m { R.HeadQuiet(states, events, j); }
    H.SameLayout(states, events, k);
    H.SameLayout(states, events, j);
    var x, w := states[k], Volume(events, us, j, s, v);
    forall b: nat | H.HomeOf(x, b) ensures L.Recovered(x.disk, x.start, x.size)[b] == Image(w, s, b) {
      H.Survives(states, events, j, b);
      ToldImage(events, us, j, s, v, b);
    }
  }

  /**
    A call is atomic.  It begins at m, with everything before it committed,
    and ends at e.  A crash at any moment k of it leaves the volume as it was;
    a crash after it, before another call begins, leaves all of it or nothing.
   */
  lemma AtomicCall(states: seq<L.Sys>, events: seq<L.Event>, us: seq<Update>, m: nat, e: nat, k: nat, s: nat, v: Vol)
    requires L.Run(states, events) && L.Start(states[0]) && m < e < |events| && m <= k < |states| && R.Idle(states[m])
    requires Writes(events, us, s, v) && StartsFrom(states[0], s, v)
    requires (forall i :: m < i <= e ==> !Idle(events, i)) && Idle(events, e + 1)
    requires forall i :: e < i < k ==> !events[i].BeginOp? && !events[i].Crash?
    ensures var before, after := Volume(events, us, m, s, v), Volume(events, us, e + 1, s, v);
      RecoversImage(states[k], s, before) || (k > e && RecoversImage(states[k], s, after))
  {
    var j := R.LastHead(events, m, k);
    HeadImage(states, events, us, m, k, s, v);
    if j != m {
      StepQuiet(states, events, j);
      assert j > e;
      StaysIdle(states, events, us, e + 1, j, s, v);
    }
  }
}
