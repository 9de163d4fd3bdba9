/**
  The process table and the scans over it that run under its lock.

  A process is named by its slot.  `WaitChan(q)` is the channel a process in slot q
  sleeps on inside wait: the address of its own table entry, which nothing else uses.
 */
module ProcTable {

  datatype Option<T> = None | Some(value: T)

  datatype Status = UNUSED | EMBRYO | SLEEPING | RUNNABLE | RUNNING | ZOMBIE

  datatype Chan = WaitChan(slot: nat) | Other(addr: int)

  datatype Proc = Proc(status: Status, pid: int, parent: Option<nat>, chan: Option<Chan>, killed: bool)

  // ----- what the scans compute

  function WakeOne(x: Proc, chan: Chan): Proc {
    if x.status == SLEEPING && x.chan == Some(chan) then x.(status := RUNNABLE) else x
  }

  function WakeAll(procs: seq<Proc>, chan: Chan): (r: seq<Proc>)
    ensures |r| == |procs| && forall i :: 0 <= i < |procs| ==> r[i] == WakeOne(procs[i], chan)
  {
    seq(|procs|, i requires 0 <= i < |procs| => WakeOne(procs[i], chan))
  }

  predicate IsZombieChild(x: Proc, q: nat) {
    x.parent == Some(q) && x.status == ZOMBIE
  }

  ghost predicate HasZombieChild(procs: seq<Proc>, q: nat) {
    exists i :: 0 <= i < |procs| && IsZombieChild(procs[i], q)
  }

  ghost predicate HasChild(procs: seq<Proc>, q: nat) {
    exists i :: 0 <= i < |procs| && procs[i].parent == Some(q)
  }

  function WakeParent(x: Proc, parent: Option<nat>): Proc {
    if parent.Some? then WakeOne(x, WaitChan(parent.value)) else x
  }

  // Slot i of the table once the process in slot q has exited.
  ghost function ExitSlot(procs: seq<Proc>, q: nat, init: nat, i: nat): Proc
    requires q < |procs| && i < |procs|
  {
    var x := WakeParent(procs[i], procs[q].parent);
    var y := if x.parent == Some(q) then x.(parent := Some(init)) else x;
    var z := if HasZombieChild(procs, q) then WakeOne(y, WaitChan(init)) else y;
    if i == q then z.(status := ZOMBIE) else z
  }

  ghost function ExitAll(procs: seq<Proc>, q: nat, init: nat): (r: seq<Proc>)
    requires q < |procs|
    ensures |r| == |procs| && forall i :: 0 <= i < |procs| ==> r[i] == ExitSlot(procs, q, init, i)
  {
    seq(|procs|, i requires 0 <= i < |procs| => ExitSlot(procs, q, init, i))
  }

  // Its parent's wait, or init's if there is a zombie to hand over.
  ghost predicate WokenByExit(procs: seq<Proc>, q: nat, init: nat, i: nat)
    requires q < |procs| && i < |procs|
  {
    && procs[i].status == SLEEPING && procs[i].chan.Some? && procs[i].chan.value.WaitChan?
    && var w := procs[i].chan.value.slot;
       procs[q].parent == Some(w) || (w == init && exists k :: 0 <= k < |procs| && IsZombieChild(procs[k], q))
  }

  // A reaped slot; the channel field is left alone.
  function Reap(x: Proc): Proc {
    x.(status := UNUSED, pid := 0, parent := None, killed := false)
  }

  ghost predicate FirstUnused(procs: seq<Proc>, i: nat) {
    i < |procs| && procs[i].status == UNUSED && forall k :: 0 <= k < i ==> procs[k].status != UNUSED
  }

  ghost predicate FirstZombieChild(procs: seq<Proc>, q: nat, i: nat) {
    i < |procs| && IsZombieChild(procs[i], q) && forall k :: 0 <= k < i ==> !IsZombieChild(procs[k], q)
  }

  ghost predicate FirstPid(procs: seq<Proc>, pid: int, i: nat) {
    i < |procs| && procs[i].pid == pid && forall k :: 0 <= k < i ==> procs[k].pid != pid
  }

  function KillOne(x: Proc): Proc {
    x.(killed := true, status := if x.status == SLEEPING then RUNNABLE else x.status)
  }

  datatype WaitResult = Reaped(slot: nat, pid: int) | NoChildren | MustSleep

  // ----- the scans themselves

  class Table {
    const procs: array<Proc>

    constructor (procs: array<Proc>)
      ensures this.procs == procs
    {
      this.procs := procs;
    }

    // allocproc's critical section; pid is the next process id.
    method AllocProc(pid: int) returns (slot: Option<nat>)
      modifies procs
      ensures slot.None? ==> procs[..] == old(procs[..]) && forall i :: 0 <= i < procs.Length ==>
                procs[i].status != UNUSED
      ensures slot.Some? ==>
                && FirstUnused(old(procs[..]), slot.value)
                && procs[..] == old(procs[..])[slot.value := old(procs[..])[slot.value].(status := EMBRYO, pid := pid)]
    {
      for i := 0 to procs.Length
        invariant procs[..] == old(procs[..]) && forall k :: 0 <= k < i ==> procs[k].status != UNUSED
      {
        if procs[i].status == UNUSED {
          procs[i] := procs[i].(status := EMBRYO, pid := pid);
          return Some(i);
        }
      }
      return None;
    }

    method Wakeup1(chan: Chan)
      modifies procs
      ensures procs[..] == WakeAll(old(procs[..]), chan)
      ensures forall i :: 0 <= i < procs.Length ==> !(procs[i].status == SLEEPING && procs[i].chan == Some(chan))
      ensures forall i :: 0 <= i < procs.Length ==>
                procs[i] == if old(procs[i].status == SLEEPING && procs[i].chan == Some(chan))
                            then old(procs[i]).(status := RUNNABLE) else old(procs[i])
    {
      for i := 0 to procs.Length
        invariant forall k :: 0 <= k < procs.Length ==>
                    procs[k] == if k < i then WakeOne(old(procs[k]), chan) else old(procs[k])
      {
        if procs[i].status == SLEEPING && procs[i].chan == Some(chan) {
          procs[i] := procs[i].(status := RUNNABLE);
        }
      }
    }

    // The locked part of exit for the process in slot q.
    method Exit(q: nat, init: nat)
      requires q < procs.Length && q != init && init < procs.Length
      modifies procs
      ensures procs[..] == ExitAll(old(procs[..]), q, init)
      ensures forall i :: 0 <= i < procs.Length ==>
                procs[i] == old(procs[..])[i].(
                  parent := if old(procs[..])[i].parent == Some(q) then Some(init) else old(procs[..])[i].parent,
                  status := if i == q then ZOMBIE
                            else if WokenByExit(old(procs[..]), q, init, i) then RUNNABLE
                            else old(procs[..])[i].status)
    {
      ghost var t := procs[..];
      if procs[q].parent.Some? {
        Wakeup1(WaitChan(procs[q].parent.value));
      }
      assert procs[..] == ExitScan(t, q, init, 0);
      for p := 0 to procs.Length
        invariant procs[..] == ExitScan(t, q, init, p)
      {
        ExitScanStep(t, q, init, p);
        if procs[p].parent == Some(q) {
          procs[p] := procs[p].(parent := Some(init));
          if procs[p].status == ZOMBIE {
            Wakeup1(WaitChan(init));
          }
        }
      }
      procs[q] := procs[q].(status := ZOMBIE);
      ExitScanDone(t, q, init);
    }

    // wait's scan for the process in slot q.
    method Wait(q: nat) returns (r: WaitResult)
      requires q < procs.Length
      modifies procs
      ensures match r
              case Reaped(i, pid) =>
                && FirstZombieChild(old(procs[..]), q, i) && pid == old(procs[..])[i].pid
                && procs[..] == old(procs[..])[i := Reap(old(procs[..])[i])]
                && procs[i] == Proc(UNUSED, 0, None, old(procs[..])[i].chan, false)
              case NoChildren => procs[..] == old(procs[..]) && !HasZombieChild(procs[..], q)
                && (!HasChild(procs[..], q) || procs[q].killed)
              case MustSleep =>
                && !HasZombieChild(old(procs[..]), q) && HasChild(old(procs[..]), q) && !old(procs[..])[q].killed
                && procs[..] == old(procs[..])[q := old(procs[..])[q].(status := SLEEPING, chan := Some(WaitChan(q)))]
    {
      var havekids := false;
      for i := 0 to procs.Length
        invariant procs[..] == old(procs[..])
        invariant forall k :: 0 <= k < i ==> !IsZombieChild(procs[k], q)
        invariant havekids <==> exists k :: 0 <= k < i && procs[k].parent == Some(q)
      {
        if procs[i].parent == Some(q) {
          havekids := true;
          if procs[i].status == ZOMBIE {
            r := Reaped(i, procs[i].pid);
            procs[i] := Reap(procs[i]);
            return;
          }
        }
      }
      if !havekids || procs[q].killed {
        return NoChildren;
      }
      procs[q] := procs[q].(status := SLEEPING, chan := Some(WaitChan(q)));
      return MustSleep;
    }

    // Kills the first slot with this pid, whatever its status.
    method Kill(pid: int) returns (slot: Option<nat>)
      modifies procs
      ensures slot.None? ==> procs[..] == old(procs[..]) && forall i :: 0 <= i < procs.Length ==> procs[i].pid != pid
      ensures slot.Some? ==>
                && FirstPid(old(procs[..]), pid, slot.value)
                && procs[..] == old(procs[..])[slot.value := KillOne(old(procs[..])[slot.value])]
                && procs[slot.value].killed && procs[slot.value].status != SLEEPING
                && var x := old(procs[..])[slot.value];
                   procs[slot.value] == x.(killed := true, status := procs[slot.value].status)
                   && procs[slot.value].status == if x.status == SLEEPING then RUNNABLE else x.status
    {
      for i := 0 to procs.Length
        invariant procs[..] == old(procs[..]) && forall k :: 0 <= k < i ==> procs[k].pid != pid
      {
        if procs[i].pid == pid {
          procs[i] := procs[i].(killed := true);
          if procs[i].status == SLEEPING {
            procs[i] := procs[i].(status := RUNNABLE);
          }
          return Some(i);
        }
      }
      return None;
    }

    // The scheduler's scan from slot i on.
    method Pick(i: nat) returns (slot: Option<nat>)
      requires i <= procs.Length
      modifies procs
      ensures slot.None? ==> procs[..] == old(procs[..]) && forall k :: i <= k < procs.Length ==>
                procs[k].status != RUNNABLE
      ensures slot.Some? ==>
                && i <= slot.value < procs.Length && old(procs[..])[slot.value].status == RUNNABLE
                && (forall k :: i <= k < slot.value ==> old(procs[..])[k].status != RUNNABLE)
                && procs[..] == old(procs[..])[slot.value := old(procs[..])[slot.value].(status := RUNNING)]
    {
      for p := i to procs.Length
        invariant procs[..] == old(procs[..]) && forall k :: i <= k < p ==> procs[k].status != RUNNABLE
      {
        if procs[p].status == RUNNABLE {
          procs[p] := procs[p].(status := RUNNING);
          return Some(p);
        }
      }
      return None;
    }
  }

  // ----- exit's scan, part way through

  ghost predicate ZombieChildBelow(procs: seq<Proc>, q: nat, p: nat) {
    exists i :: 0 <= i < p && i < |procs| && IsZombieChild(procs[i], q)
  }

  ghost function ExitScanSlot(t: seq<Proc>, q: nat, init: nat, p: nat, i: nat): Proc
    requires q < |t| && i < |t|
  {
    var x := WakeParent(t[i], t[q].parent);
    var y := if i < p && x.parent == Some(q) then x.(parent := Some(init)) else x;
    if ZombieChildBelow(t, q, p) then WakeOne(y, WaitChan(init)) else y
  }

  ghost function ExitScan(t: seq<Proc>, q: nat, init: nat, p: nat): (r: seq<Proc>)
    requires q < |t|
    ensures |r| == |t| && forall i :: 0 <= i < |t| ==> r[i] == ExitScanSlot(t, q, init, p, i)
  {
    seq(|t|, i requires 0 <= i < |t| => ExitScanSlot(t, q, init, p, i))
  }

  lemma ExitScanStep(t: seq<Proc>, q: nat, init: nat, p: nat)
    requires q < |t| && p < |t| && q != init
    ensures var r := ExitScan(t, q, init, p);
            var moved := r[p := r[p].(parent := Some(init))];
            ExitScan(t, q, init, p + 1) ==
            if r[p].parent != Some(q) then r else if r[p].status == ZOMBIE then WakeAll(moved, WaitChan(init))
              else moved
  {
    var r := ExitScan(t, q, init, p);
    var moved := r[p := r[p].(parent := Some(init))];
    assert r[p] == ExitScanSlot(t, q, init, p, p);
    assert ZombieChildBelow(t, q, p + 1) <==> ZombieChildBelow(t, q, p) || IsZombieChild(t[p], q);
    assert ExitScan(t, q, init, p + 1) ==
           if r[p].parent != Some(q) then r else if r[p].status == ZOMBIE then WakeAll(moved, WaitChan(init))
             else moved;
  }

  lemma ExitScanDone(t: seq<Proc>, q: nat, init: nat)
    requires q < |t|
    ensures var r := ExitScan(t, q, init, |t|); r[q := r[q].(status := ZOMBIE)] == ExitAll(t, q, init)
  {
    assert ZombieChildBelow(t, q, |t|) <==> HasZombieChild(t, q);
    forall i | 0 <= i < |t|
      ensures ExitScanSlot(t, q, init, |t|, i) == ExitSlot(t, q, init, i) || i == q
    {
    }
  }
}
