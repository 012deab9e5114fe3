/**
  sys_link taken apart.  It raises the link count, lets go of the inode, and
  only later writes the entry or takes the count back; other calls come in
  between, other links of the same file among them.
 */
module LinkWindow {

  import opened L = LinkModel

  /** pending[i] is the number of sys_link calls that have raised inode i's count and are not done. */
  datatype Open = Open(tree: Tree, pending: seq<nat>)

  datatype Step =
    | Whole(e: Event)                          // create, unlink, or the iput that frees
    | Raise(ip: nat)                           // sys_link up to iunlock(ip)
    | Enter(ip: nat, dp: nat, name: Name)      // dirlink under dp's lock
    | Back(ip: nat)                            // sys_link's bad label

  ghost predicate Ready(o: Open, x: Step) {
    match x
    case Whole(e) => !e.Link? && !e.LinkNowhere? && Enabled(o.tree, e)
    case Raise(ip) => ip < |o.tree.ino| && o.tree.ino[ip].typ != 0
    case Enter(ip, dp, name) => ip < |o.pending| && o.pending[ip] > 0 && IsDir(o.tree, dp)
    case Back(ip) => ip < |o.pending| && o.pending[ip] > 0
  }

  /** A dirlink that finds the name taken changes nothing; the call then goes back. */
  ghost function After(o: Open, x: Step): (r: Open)
    requires Ready(o, x) && |o.pending| == |o.tree.ino|
  {
    match x
    case Whole(e) => o.(tree := Next(o.tree, e))
    case Raise(ip) =>
      if o.tree.ino[ip].typ == T_DIR then o
      else Open(Bump(o.tree, ip, 1), o.pending[ip := o.pending[ip] + 1])
    case Enter(ip, dp, name) =>
      if Key(dp, name) in o.tree.ent then o
      else Open(o.tree.(ent := o.tree.ent[Key(dp, name) := ip]), o.pending[ip := o.pending[ip] - 1])
    case Back(ip) => Open(Bump(o.tree, ip, -1), o.pending[ip := o.pending[ip] - 1])
  }

  /** The hypothesis of LinkModel: an entry is added only to a linked directory. */
  predicate SafeStep(o: Open, x: Step) {
    match x
    case Whole(e) => Safe(o.tree, e)
    case Enter(ip, dp, name) => Key(dp, name) in o.tree.ent || Linked(o.tree, dp)
    case _ => true
  }

  // -------------------------------------------------- settled, and its steps

  /** The tree as it is without the pending links. */
  ghost function Settled(o: Open): (t: Tree)
    requires |o.pending| == |o.tree.ino|
  {
    var ino := o.tree.ino;
    o.tree.(ino := seq(|ino|, i requires 0 <= i < |ino| => ino[i].(nlink := ino[i].nlink - o.pending[i])))
  }

  ghost predicate PendingOk(o: Open, i: nat)
    requires i < |o.pending| == |o.tree.ino|
  {
    o.pending[i] > 0 ==> o.tree.ino[i].typ != 0 && o.tree.ino[i].typ != T_DIR
  }

  /** Only files in use are being linked, and without the pending links every count is right. */
  ghost predicate OpenInv(o: Open) {
    && |o.pending| == |o.tree.ino|
    && (forall i: nat :: i < |o.pending| ==> PendingOk(o, i))
    && Inv(Settled(o))
  }

  lemma SettledLinked(o: Open, d: nat)
    requires OpenInv(o)
    ensures IsDir(Settled(o), d) == IsDir(o.tree, d) && Linked(Settled(o), d) == Linked(o.tree, d)
  {
    if d < |o.pending| { assert PendingOk(o, d); }
  }

  /** The same entries name an inode, and each pending link counts for one more. */
  lemma PendingCount(o: Open, i: nat)
    requires OpenInv(o) && i < |o.tree.ino|
    ensures o.tree.ino[i].nlink == |Naming(o.tree, i)| + o.pending[i]
  {
    var s := Settled(o);
    assert CountOk(s, i);
    forall k ensures Counts(s, i, k) == Counts(o.tree, i, k) { SettledLinked(o, k.dir); }
    assert Naming(s, i) == Naming(o.tree, i);
  }

  /** The call of LinkModel that a step completes, if any. */
  function Completes(o: Open, x: Step): (r: seq<Event>) {
    match x
    case Whole(e) => [e]
    case Enter(ip, dp, name) => [Link(ip, dp, name)]
    case _ => []
  }

  ghost predicate Takes(s: Tree, es: seq<Event>, t: Tree) {
    if es == [] then t == s else Enabled(s, es[0]) && Safe(s, es[0]) && t == Next(s, es[0])
  }

  lemma CreateSettles(o: Open, e: Event)
    requires OpenInv(o) && e.Create? && Ready(o, Whole(e)) && SafeStep(o, Whole(e))
    ensures |Next(o.tree, e).ino| == |o.pending|
    ensures Takes(Settled(o), [e], Settled(o.(tree := Next(o.tree, e))))
  {
    assert PendingOk(o, e.ip) && PendingOk(o, e.dp);
    SettledLinked(o, e.dp);
    assert Settled(o.(tree := Next(o.tree, e))).ino == Next(Settled(o), e).ino;
  }

  lemma UnlinkSettles(o: Open, e: Event)
    requires OpenInv(o) && e.Unlink? && Ready(o, Whole(e))
    ensures |Next(o.tree, e).ino| == |o.pending|
    ensures Takes(Settled(o), [e], Settled(o.(tree := Next(o.tree, e))))
  {
    assert PendingOk(o, e.dp);
    assert Settled(o.(tree := Next(o.tree, e))).ino == Next(Settled(o), e).ino;
  }

  /** The iput that frees an inode finds no link pending. */
  lemma FreeSettles(o: Open, e: Event)
    requires OpenInv(o) && e.Free? && Ready(o, Whole(e))
    ensures |Next(o.tree, e).ino| == |o.pending| && o.pending[e.ip] == 0
    ensures Takes(Settled(o), [e], Settled(o.(tree := Next(o.tree, e))))
  {
    PendingCount(o, e.ip);
    assert Settled(o.(tree := Next(o.tree, e))).ino == Next(Settled(o), e).ino;
  }

  /** Seen without pending links, sys_link happens in the one step that writes its entry. */
  lemma StepSettles(o: Open, x: Step)
    requires OpenInv(o) && Ready(o, x) && SafeStep(o, x)
    ensures |After(o, x).pending| == |After(o, x).tree.ino|
    ensures Takes(Settled(o), Completes(o, x), Settled(After(o, x)))
  {
    var s, t := Settled(o), Settled(After(o, x));
    match x
    case Whole(e) =>
      if e.Create? { CreateSettles(o, e); } else if e.Unlink? { UnlinkSettles(o, e); } else { FreeSettles(o, e); }
    case Raise(ip) => assert t.ino == s.ino;
    case Enter(ip, dp, name) =>
      assert PendingOk(o, ip);
      SettledLinked(o, dp);
      assert t.ino == Next(s, Link(ip, dp, name)).ino;
    case Back(ip) => assert t.ino == s.ino;
  }

  lemma StepOpen(o: Open, x: Step)
    requires OpenInv(o) && Ready(o, x) && SafeStep(o, x)
    ensures OpenInv(After(o, x))
  {
    var o' := After(o, x);
    StepSettles(o, x);
    if Completes(o, x) != [] { StepInv(Settled(o), Completes(o, x)[0]); }
    forall i: nat | i < |o'.pending| ensures PendingOk(o', i) {
      assert PendingOk(o, i);
      if x.Whole? && x.e.Free? { FreeSettles(o, x.e); }
    }
  }

  // ----------------------------------------------------------------- runs

  ghost predicate Steps(o: Open, x: Step, o': Open) {
    |o.pending| == |o.tree.ino| && Ready(o, x) && SafeStep(o, x) && o' == After(o, x)
  }

  ghost predicate OpenRun(states: seq<Open>, steps: seq<Step>) {
    |states| == |steps| + 1 && forall i: nat :: i < |steps| ==> Steps(states[i], steps[i], states[i + 1])
  }

  lemma {:induction false} OpenRunInv(states: seq<Open>, steps: seq<Step>, n: nat)
    requires OpenRun(states, steps) && OpenInv(states[0]) && n <= |steps|
    ensures OpenInv(states[n])
  {
    if n > 0 {
      OpenRunInv(states, steps, n - 1);
      assert Steps(states[n - 1], steps[n - 1], states[n]);
      StepOpen(states[n - 1], steps[n - 1]);
    }
  }

  /**
    At every step of every safe run, calls of sys_link half done included, an
    inode's nlink is the number of entries that name it and of links pending
    for it; an inode with a link pending is still a file in use.
   */
  lemma OpenConservation(states: seq<Open>, steps: seq<Step>, n: nat, i: nat)
    requires OpenRun(states, steps) && Fresh(states[0].tree) && n <= |steps| && i < |states[n].tree.ino|
    requires states[0].pending == seq(|states[0].tree.ino|, _ => 0)
    ensures |states[n].pending| == |states[n].tree.ino|
    ensures states[n].tree.ino[i].nlink == |Naming(states[n].tree, i)| + states[n].pending[i]
    ensures states[n].pending[i] > 0 ==> states[n].tree.ino[i].typ !in {0, T_DIR}
  {
    assert Settled(states[0]).ino == states[0].tree.ino;
    FreshInv(Settled(states[0]));
    OpenRunInv(states, steps, n);
    PendingCount(states[n], i);
    assert PendingOk(states[n], i);
  }
}
