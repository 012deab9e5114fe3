/** pipewrite, piperead and pipeclose of pipe.c, section by section, as steps of PipeModel. */
module PipeImpl {
  import M = PipeModel

  class PipeBuf {
    const data: array<int>
    var nread: nat
    var nwrite: nat
    var readopen: bool
    var writeopen: bool
    ghost var calls: map<nat, M.Call>
    ghost var killed: set<nat>
    ghost var written: seq<int>
    ghost var got: seq<int>

    ghost function Abs(): (s: M.Pipe)
      reads this, data
    {
      M.Pipe(data[..], nread, nwrite, readopen, writeopen, calls, killed, written, got)
    }

    ghost predicate Valid()
      reads this, data
    {
      data.Length == M.PIPESIZE && M.Inv(Abs())
    }

    /** pipealloc(): an empty pipe, both ends open. */
    constructor (ghost procs: set<nat>)
      ensures Valid() && M.Fresh(Abs()) && calls.Keys == procs && fresh(data)
    {
      data := new int[M.PIPESIZE](_ => 0);
      nread, nwrite, readopen, writeopen := 0, 0, true, true;
      calls, killed, written, got := map p | p in procs :: M.Outside, {}, [], [];
    }

    /** The writer's loop, from byte i until it returns (with r) or goes to sleep at some byte. */
    method Fill(p: nat, kill: bool, buf: seq<int>, start: nat) returns (r: int, sleeps: bool)
      requires data.Length == M.PIPESIZE && start <= |buf| && kill == (p in killed)
      modifies this`nwrite, this`calls, this`written, data
      ensures Abs() == old(M.WriteFrom(Abs(), p, buf, start)) && p in calls
      ensures sleeps <==> calls[p].Writing?
      ensures !sleeps ==> r == if |written| == old(|written|) + |buf| - start then |buf| else -1
    {
      var i := start;
      while i < |buf|
        invariant start <= i <= |buf| && readopen == old(readopen) && killed == old(killed)
        invariant written == old(written) + buf[start..i]
        invariant M.WriteFrom(Abs(), p, buf, i) == old(M.WriteFrom(Abs(), p, buf, start))
      {
        if nwrite == (nread + M.PIPESIZE) % M.WORD {
          if !readopen || kill {
            calls := calls[p := M.Outside];
            return -1, false;
          }
          calls := M.WakeReaders(calls)[p := M.Writing(buf, i, true)];
          return 0, true;
        }
        ghost var s := Abs();
        data[nwrite % M.PIPESIZE] := buf[i];
        nwrite := (nwrite + 1) % M.WORD;
        written := written + [buf[i]];
        assert Abs() == M.Store(s, buf[i]);
        i := i + 1;
      }
      calls := M.WakeReaders(calls)[p := M.Outside];
      return |buf|, false;
    }

    /** What a writer's section ends in: a sleep, or a return with the length, or with -1 when not all bytes fit. */
    static ghost predicate Outcome(s: M.Pipe, buf: seq<int>, i: nat, kill: bool, r: int, sleeps: bool)
      requires M.Ring(s) && i <= |buf|
    {
      var fits := M.Fit(s, buf, i) == |buf| - i;
      && (sleeps <==> !fits && s.ropen && !kill)
      && (!sleeps ==> r == if fits then |buf| else -1)
    }

    /** pipewrite(), its first section. */
    method Write(p: nat, kill: bool, buf: seq<int>) returns (r: int, sleeps: bool)
      requires Valid() && M.Enabled(Abs(), M.Write(p, buf)) && kill == (p in killed)
      modifies this`nwrite, this`calls, this`written, data
      ensures Valid() && Abs() == old(M.Next(Abs(), M.Write(p, buf)))
      ensures Outcome(old(Abs()), buf, 0, kill, r, sleeps)
      ensures written == old(written) + buf[..M.Fit(old(Abs()), buf, 0)] && p in calls && calls[p].Writing? == sleeps
    {
      M.StepInv(Abs(), M.Write(p, buf));
      M.WriteStores(Abs(), p, buf, 0);
      r, sleeps := Fill(p, kill, buf, 0);
    }

    /** pipewrite(), after a wakeup. */
    method WriteOn(p: nat, kill: bool, buf: seq<int>, i: nat) returns (r: int, sleeps: bool)
      requires Valid() && p in calls && calls[p] == M.Writing(buf, i, false) && i <= |buf| && kill == (p in killed)
      modifies this`nwrite, this`calls, this`written, data
      ensures Valid() && Abs() == old(M.Next(Abs(), M.WriteOn(p)))
      ensures Outcome(old(Abs()), buf, i, kill, r, sleeps)
      ensures written == old(written) + buf[i..i + M.Fit(old(Abs()), buf, i)]
      ensures p in calls && calls[p].Writing? == sleeps
    {
      M.StepInv(Abs(), M.WriteOn(p));
      M.WriteStores(Abs(), p, buf, i);
      r, sleeps := Fill(p, kill, buf, i);
    }

    /** piperead's copy loop: up to n bytes, as long as there are any. */
    method Copy(n: nat) returns (i: nat, addr: seq<int>)
      requires data.Length == M.PIPESIZE && M.Ring(Abs())
      modifies this`nread, this`got
      ensures Abs() == M.Drain(old(Abs()), n)
      ensures i == |addr| == M.Min(n, |written| - old(|got|)) && got == old(got) + addr
    {
      M.DrainInv(Abs(), n);
      i, addr := 0, [];
      while i < n && nread != nwrite
        invariant i <= n && i == |addr| && got == old(got) + addr
        invariant M.Drain(Abs(), n - i) == old(M.Drain(Abs(), n))
      {
        ghost var s := Abs();
        addr := addr + [data[nread % M.PIPESIZE]];
        got := got + [data[nread % M.PIPESIZE]];
        nread := (nread + 1) % M.WORD;
        assert Abs() == M.Fetch(s);
        i := i + 1;
      }
    }

    /** piperead() up to its return, with the bytes, or up to its sleep; first section or after a wakeup. */
    method Read(p: nat, n: nat, kill: bool) returns (r: int, addr: seq<int>, sleeps: bool)
      requires Valid() && readopen && p in calls && !calls[p].Writing? && kill == (p in killed)
      modifies this`nread, this`calls, this`got
      ensures Valid() && Abs() == old(M.ReadFrom(Abs(), p, n))
      ensures sleeps <==> old(nread == nwrite && writeopen) && !kill
      ensures r == -1 <==> old(nread == nwrite && writeopen) && kill
      ensures !sleeps && r != -1 ==> r == |addr| == M.Min(n, |written| - old(|got|)) && got == old(got) + addr
      ensures p in calls && calls[p] == if sleeps then M.Reading(n, true) else M.Outside
    {
      M.ReadInv(Abs(), p, n);
      if nread == nwrite && writeopen {
        if kill {
          calls := calls[p := M.Outside];
          return -1, [], false;
        }
        calls := calls[p := M.Reading(n, true)];
        return 0, [], true;
      }
      r, addr := Copy(n);
      calls := M.WakeWriters(calls)[p := M.Outside];
      sleeps := false;
    }

    /** pipeclose(): freed tells whether the pipe's memory is given back. */
    method Close(writable: bool) returns (freed: bool)
      requires Valid() && M.Enabled(Abs(), M.Close(writable))
      modifies this`readopen, this`writeopen, this`calls
      ensures Valid() && Abs() == old(M.Next(Abs(), M.Close(writable)))
      ensures writeopen == (old(writeopen) && !writable) && readopen == (old(readopen) && writable)
      ensures calls == if writable then M.WakeReaders(old(calls)) else M.WakeWriters(old(calls))
      ensures forall p :: p in calls && (if writable then calls[p].Reading? else calls[p].Writing?) ==> !calls[p].asleep
      ensures freed <==> !readopen && !writeopen
      ensures freed ==> forall p :: p in calls ==> calls[p].Outside?
    {
      M.StepInv(Abs(), M.Close(writable));
      if writable {
        writeopen := false;
        calls := M.WakeReaders(calls);
      } else {
        readopen := false;
        calls := M.WakeWriters(calls);
      }
      freed := !readopen && !writeopen;
      if freed { forall p | p in calls ensures calls[p].Outside? { assert M.CallOk(Abs(), p); } }
    }
  }
}
