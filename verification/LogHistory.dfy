/**
  What a run of the log has done, told from its events alone: the data every
  block was last given, what of it survives a crash, which operations are
  outstanding, who holds a buffer and which blocks are to be committed.
 */
module LogHistory {
  import opened LogModel
  import opened LogProofs
  import opened LogRuns

  // ------------------------------------------------------------------ data

  /** The data block b was last given by an operation; a crash takes back what no header write has followed. */
  ghost function Told(events: seq<Event>, n: nat, b: nat, first: Block): (d: Block)
    requires n <= |events|
    decreases n
  {
    if n == 0 then first
    else
      match events[n - 1]
      case Modify(x, d) => if x == b then d else Told(events, n - 1, b, first)
      case Crash => Kept(events, n - 1, b, first)
      case _ => Told(events, n - 1, b, first)
  }

  /** The data it had at the last header write of commit. */
  ghost function Kept(events: seq<Event>, n: nat, b: nat, first: Block): (d: Block)
    requires n <= |events|
    decreases n
  {
    if n == 0 then first
    else if events[n - 1].WriteHead? then Told(events, n - 1, b, first)
    else Kept(events, n - 1, b, first)
  }

  /** Memory is lost and recovery has not yet cleared the log. */
  predicate Recovering(s: Sys) {
    s.phase.Boot? || (s.phase.Install? && s.phase.recovering)
  }

  ghost predicate HomeOf(s: Sys, b: nat) { Home(s.start, s.size, |s.disk|, b) }

  ghost function Seen(s: Sys, b: nat): (d: Block)
    requires b < |s.disk|
  {
    if b in s.cache then s.cache[b].data else s.disk[b]
  }

  lemma InstallSeen(s: Sys, c: Disk, b: nat)
    requires Inv(s, c) && CanInstallOne(s) && HomeOf(s, b) && !s.phase.recovering
    ensures Seen(DoInstallOne(s), b) == Seen(s, b)
  {
    InstallOneShape(s, c);
    assert s.lh[s.phase.tail] in s.cache && s.cache[s.lh[s.phase.tail]].data == c[s.lh[s.phase.tail]];
  }

  lemma EvictSeen(s: Sys, c: Disk, x: nat, b: nat)
    requires Inv(s, c) && Enabled(s, Evict(x)) && HomeOf(s, b)
    ensures Seen(Next(s, Evict(x)), b) == Seen(s, b)
  {
    assert BufOk(s, x);
  }

  /** The header and the log blocks are no home blocks. */
  lemma CommitSeen(s: Sys, e: Event, b: nat)
    requires Enabled(s, e) && HomeOf(s, b) && (e.CopyToLog? || e.WriteHead? || e.ClearHead?)
    ensures |Next(s, e).disk| == |s.disk| && Seen(Next(s, e), b) == Seen(s, b)
  {
  }

  lemma OtherSeen(s: Sys, e: Event, b: nat)
    requires Enabled(s, e) && HomeOf(s, b) && !e.InstallOne? && !e.Evict? && !e.Crash?
    requires !(e.CopyToLog? || e.WriteHead? || e.ClearHead?)
    ensures |Next(s, e).disk| == |s.disk| && Seen(Next(s, e), b) == if e.Modify? && e.b == b then e.d else Seen(s, b)
  {
  }

  /** Only an operation's own change alters what is seen of a block. */
  lemma StepSeen(s: Sys, c: Disk, e: Event, b: nat)
    requires Inv(s, c) && Enabled(s, e) && HomeOf(s, b) && !Recovering(s) && !e.Crash?
    ensures !Recovering(Next(s, e)) && HomeOf(Next(s, e), b)
    ensures Seen(Next(s, e), b) == if e.Modify? && e.b == b then e.d else Seen(s, b)
  {
    if e.InstallOne? {
      InstallSeen(s, c, b);
    } else if e.Evict? {
      EvictSeen(s, c, e.b, b);
    } else if e.CopyToLog? || e.WriteHead? || e.ClearHead? {
      CommitSeen(s, e, b);
    } else {
      OtherSeen(s, e, b);
    }
  }

  /** When recovery is over, what is seen is what was committed. */
  lemma StepRecovering(s: Sys, c: Disk, e: Event, b: nat)
    requires Inv(s, c) && Enabled(s, e) && HomeOf(s, b) && Recovering(s)
    ensures HomeOf(Next(s, e), b) && !e.Modify? && !e.WriteHead?
    ensures !Recovering(Next(s, e)) ==> Seen(Next(s, e), b) == c[b]
  {
    if e.ClearHead? {
      assert HomeOk(s.disk, c, s.start, s.size, b, s.lh, |s.lh|);
      if b in s.cache { assert BufOk(s, b); }
    }
  }

  /** What is committed of b, and what is seen of it unless recovery is still under way. */
  ghost predicate Known(s: Sys, c: Disk, b: nat, told: Block, kept: Block) {
    Inv(s, c) && HomeOf(s, b) && c[b] == kept && (if Recovering(s) then told == kept else Seen(s, b) == told)
  }

  lemma StepKnown(s: Sys, c: Disk, e: Event, b: nat, told: Block, kept: Block)
    requires Known(s, c, b, told, kept) && Enabled(s, e)
    ensures Known(Next(s, e), NextCommitted(s, c, e), b,
                  if e.Crash? then kept else if e.Modify? && e.b == b then e.d else told,
                  if e.WriteHead? then told else kept)
  {
    StepInv(s, c, e);
    if Recovering(s) {
      StepRecovering(s, c, e, b);
    } else if !e.Crash? {
      StepSeen(s, c, e, b);
    }
  }

  // ------------------------------------------------------------- durability

  lemma StartKnown(s: Sys, b: nat)
    requires Start(s) && HomeOf(s, b)
    ensures Known(s, AtStart(s), b, AtStart(s)[b], AtStart(s)[b])
  {
    StartInv(s);
  }

  lemma ToldNext(events: seq<Event>, n: nat, b: nat, first: Block, told: Block, kept: Block)
    requires n < |events| && told == Told(events, n, b, first) && kept == Kept(events, n, b, first)
    ensures Kept(events, n + 1, b, first) == if events[n].WriteHead? then told else kept
    ensures Told(events, n + 1, b, first) ==
      if events[n].Crash? then kept else if events[n].Modify? && events[n].b == b then events[n].d else told
  {
  }

  /** In every run, what is committed and what is seen of a home block are what its events tell. */
  lemma {:induction false} RunKnown(states: seq<Sys>, events: seq<Event>, n: nat, b: nat, first: Block)
    returns (c: Disk)
    requires Run(states, events) && Start(states[0]) && n < |states|
    requires HomeOf(states[0], b) && first == AtStart(states[0])[b]
    ensures Known(states[n], c, b, Told(events, n, b, first), Kept(events, n, b, first))
  {
    if n == 0 {
      StartKnown(states[0], b);
      c := AtStart(states[0]);
    } else {
      var i := n - 1;
      c := RunKnown(states, events, i, b, first);
      assert StepAt(states, events, i);
      var told, kept := Told(events, i, b, first), Kept(events, i, b, first);
      StepKnown(states[i], c, events[i], b, told, kept);
      ToldNext(events, i, b, first, told, kept);
      c := NextCommitted(states[i], c, events[i]);
    }
  }

  /** Whenever the machine stops, recovery yields of every home block the data it had at the last header write. */
  lemma Survives(states: seq<Sys>, events: seq<Event>, k: nat, b: nat)
    requires Run(states, events) && Start(states[0]) && k < |states| && HomeOf(states[0], b)
    ensures DiskOk(states[k].disk, states[k].start, states[k].size) && HomeOf(states[k], b)
    ensures var first := AtStart(states[0])[b];
      && Recovered(states[k].disk, states[k].start, states[k].size)[b] == Kept(events, k, b, first)
      && (!Recovering(states[k]) ==> Logical(states[k])[b] == Told(events, k, b, first))
  {
    var c := RunKnown(states, events, k, b, AtStart(states[0])[b]);
    InvRecovers(states[k], c);
  }

  /**
    Durability.  Take any run, any moment m at which every operation had ended
    and committed, and any later moment k.  If the machine stops at k, recovery
    yields the contents of a moment j in m..k at which no operation was in
    progress, no earlier than any header write up to k; and of every home
    block that is the data last given to it before j.  Nothing committed is
    lost, and no part of an unfinished operation survives.
   */
  lemma Durability(states: seq<Sys>, events: seq<Event>, m: nat, k: nat)
    requires Run(states, events) && Start(states[0]) && m <= k < |states| && Idle(states[m])
    ensures exists j :: m <= j <= k && Quiet(states[j]) && RecoversTo(states[k], Logical(states[j]))
              && (forall i :: m <= i < k && events[i].WriteHead? ==> i <= j)
              && forall b: nat :: HomeOf(states[0], b) ==>
                   b < |states[j].disk| && Logical(states[j])[b] == Told(events, j, b, AtStart(states[0])[b])
  {
    var j := LastHead(events, m, k);
    CommittedSince(states, events, m, k);
    InvRecovers(states[k], Logical(states[j]));
    if j != m { HeadQuiet(states, events, j); }
    forall b: nat | HomeOf(states[0], b)
      ensures b < |states[j].disk| && Logical(states[j])[b] == Told(events, j, b, AtStart(states[0])[b])
    {
      Survives(states, events, j, b);
    }
  }

  // ------------------------------------------- what Told and Kept come down to

  predicate Changes(e: Event, b: nat) { e.Modify? && e.b == b }

  /** No operation changes b and nothing crashes from i up to n. */
  ghost predicate Calm(events: seq<Event>, i: nat, n: nat, b: nat)
    requires n <= |events|
  {
    forall l :: i <= l < n ==> !Changes(events[l], b) && !events[l].Crash?
  }

  lemma {:induction false} ToldLast(events: seq<Event>, j: nat, n: nat, b: nat, first: Block)
    requires j < n <= |events| && Changes(events[j], b) && Calm(events, j + 1, n, b)
    ensures Told(events, n, b, first) == events[j].d
  {
    if n > j + 1 { ToldLast(events, j, n - 1, b, first); }
  }

  lemma {:induction false} KeptLast(events: seq<Event>, j: nat, h: nat, k: nat, b: nat, first: Block)
    requires j < h < k <= |events| && Changes(events[j], b) && Calm(events, j + 1, h, b) && events[h].WriteHead?
    requires forall l :: h < l < k ==> !Changes(events[l], b)
    ensures Kept(events, k, b, first) == Told(events, k, b, first) == events[j].d
  {
    if k == h + 1 { ToldLast(events, j, h, b, first); } else { KeptLast(events, j, h, k - 1, b, first); }
  }

  /**
    An operation gives b the data d, and a header write follows before any
    crash: from then on b reads as d, through any number of crashes and
    recoveries, until an operation changes it again.
   */
  lemma WriteSurvives(states: seq<Sys>, events: seq<Event>, j: nat, h: nat, k: nat, b: nat, d: Block)
    requires Run(states, events) && Start(states[0]) && j < h < k < |states| && events[j] == Modify(b, d)
    requires Calm(events, j + 1, h, b) && events[h].WriteHead? && forall l :: h < l < k ==> !Changes(events[l], b)
    ensures DiskOk(states[k].disk, states[k].start, states[k].size) && b < |states[k].disk|
    ensures Recovered(states[k].disk, states[k].start, states[k].size)[b] == d
    ensures !Recovering(states[k]) ==> Logical(states[k])[b] == d
  {
    ModifiesHome(states, events, j);
    Survives(states, events, k, b);
    KeptLast(events, j, h, k, b, AtStart(states[0])[b]);
  }

  lemma StepLayout(s: Sys, e: Event)
    requires Enabled(s, e)
    ensures Next(s, e).start == s.start && Next(s, e).size == s.size && |Next(s, e).disk| == |s.disk|
  {
  }

  lemma {:induction false} SameLayout(states: seq<Sys>, events: seq<Event>, n: nat)
    requires Run(states, events) && Start(states[0]) && n < |states|
    ensures states[n].start == states[0].start && states[n].size == states[0].size
    ensures |states[n].disk| == |states[0].disk|
  {
    if n > 0 {
      SameLayout(states, events, n - 1);
      assert Shape(states[n - 1]) by { RunInv(states, events, n - 1); }
      assert StepAt(states, events, n - 1);
      StepLayout(states[n - 1], events[n - 1]);
    }
  }

  lemma ModifiesHome(states: seq<Sys>, events: seq<Event>, j: nat)
    requires Run(states, events) && Start(states[0]) && j < |events| && events[j].Modify?
    ensures HomeOf(states[0], events[j].b)
  {
    SameLayout(states, events, j);
    assert Shape(states[j]) by { RunInv(states, events, j); }
    assert StepAt(states, events, j);
  }

  // ------------------------------------------- operations, holders, log list

  /** The operations begun and not ended since the last crash. */
  ghost function Begun(events: seq<Event>, n: nat): (r: set<nat>)
    requires n <= |events|
  {
    if n == 0 then {}
    else
      match events[n - 1]
      case BeginOp(id) => Begun(events, n - 1) + {id}
      case EndOp(id) => Begun(events, n - 1) - {id}
      case Crash => {}
      case _ => Begun(events, n - 1)
  }

  /** Who took block b's buffer last and has not released it. */
  ghost function TakenBy(events: seq<Event>, n: nat, b: nat): (h: Holder)
    requires n <= |events|
  {
    if n == 0 then Nobody
    else
      match events[n - 1]
      case Get(x, h) => if x == b then h else TakenBy(events, n - 1, b)
      case Release(x) => if x == b then Nobody else TakenBy(events, n - 1, b)
      case Crash => Nobody
      case _ => TakenBy(events, n - 1, b)
  }

  /** The blocks logged since the last commit or crash, each once, in order. */
  ghost function Logged(events: seq<Event>, n: nat): (r: seq<nat>)
    requires n <= |events|
  {
    if n == 0 then []
    else
      var was := Logged(events, n - 1);
      match events[n - 1]
      case LogWrite(b) => if b in was then was else was + [b]
      case ClearHead => []
      case Crash => []
      case _ => was
  }

  ghost function HolderOf(s: Sys, b: nat): (h: Holder) { if b in s.cache then s.cache[b].holder else Nobody }

  lemma StepHolder(s: Sys, e: Event, b: nat)
    requires Enabled(s, e)
    ensures HolderOf(Next(s, e), b) ==
      if e.Crash? then Nobody
      else if e.Get? && e.b == b then e.h
      else if e.Release? && e.b == b then Nobody
      else HolderOf(s, b)
  {
  }

  /** In every run the holder of a buffer is who last took it and has not released it. */
  lemma {:induction false} RunHolders(states: seq<Sys>, events: seq<Event>, n: nat, b: nat)
    requires Run(states, events) && Start(states[0]) && n < |states|
    ensures HolderOf(states[n], b) == TakenBy(events, n, b)
  {
    if n > 0 {
      RunHolders(states, events, n - 1, b);
      assert Shape(states[n - 1]) by { RunInv(states, events, n - 1); }
      assert StepAt(states, events, n - 1);
      StepHolder(states[n - 1], events[n - 1], b);
    }
  }

  lemma StepBooks(s: Sys, c: Disk, e: Event)
    requires Inv(s, c) && Enabled(s, e)
    ensures Next(s, e).ops.Keys ==
      if e.Crash? then {} else if e.BeginOp? then s.ops.Keys + {e.id} else if e.EndOp? then s.ops.Keys - {e.id}
      else s.ops.Keys
    ensures !Recovering(Next(s, e)) ==>
      Next(s, e).lh == if e.ClearHead? then [] else if e.LogWrite? && e.b !in s.lh then s.lh + [e.b] else s.lh
  {
  }

  /** In every run the outstanding operations and the log's list are those of its events. */
  lemma {:induction false} RunBooks(states: seq<Sys>, events: seq<Event>, n: nat)
    requires Run(states, events) && Start(states[0]) && n < |states|
    ensures states[n].ops.Keys == Begun(events, n)
    ensures !Recovering(states[n]) ==> states[n].lh == Logged(events, n)
  {
    if n > 0 {
      RunBooks(states, events, n - 1);
      var c := History(states, events)[n - 1];
      RunInv(states, events, n - 1);
      assert StepAt(states, events, n - 1);
      StepBooks(states[n - 1], c, events[n - 1]);
      if Recovering(states[n - 1]) && !Recovering(states[n]) { StaysUp(states[n - 1], c, events[n - 1]); }
    }
  }

  /** Recovery ends by clearing the log. */
  lemma StaysUp(s: Sys, c: Disk, e: Event)
    requires Inv(s, c) && Enabled(s, e) && Recovering(s) && !Recovering(Next(s, e))
    ensures e.ClearHead?
  {
  }
}
