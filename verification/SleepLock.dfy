/**
  Sleep locks, interleaved at lock granularity: `lk` is the spin lock inside the
  sleep lock, `pt` the process-table lock.  As everywhere, `sleep` acquires `pt`,
  releases `lk`, then becomes SLEEPING and gives up `pt`.
 */
module SleepLock {

  datatype Option<T> = None | Some(value: T)

  datatype Pc =
    | Out
    | Enter
    | Test       // holds lk
    | Sleep1     // holds lk
    | Sleep2     // holds lk and pt
    | Sleep3     // holds pt
    | Asleep
    | Woken
    | Took       // holds lk, has set locked
    | Inside     // has the sleep lock
    | Leave
    | Cleared    // holds lk, has cleared locked
    | Done       // holds lk

  datatype State = State(locked: bool, owner: Option<nat>, lk: Option<nat>, pt: Option<nat>, procs: seq<Pc>)

  datatype Action =
    | StartAcquire | StartRelease | Lock | Take | Wait | SleepAcquire | SleepRelease | SleepMark | Wake | Unlock | Kill

  predicate Can(s: State, p: nat, a: Action) {
    && p < |s.procs|
    && var pc := s.procs[p];
       match a
       case StartAcquire => pc == Out
       case StartRelease => pc == Inside
       case Lock => s.lk == None && (pc == Enter || pc == Woken || pc == Leave)
       case Take => pc == Test && !s.locked
       case Wait => pc == Test && s.locked
       case SleepAcquire => pc == Sleep1 && s.pt == None
       case SleepRelease => pc == Sleep2
       case SleepMark => pc == Sleep3
       case Wake => pc == Cleared && s.pt == None
       case Unlock => pc == Took || pc == Done
       case Kill => s.pt == None
  }

  function Awake(pc: Pc): Pc {
    if pc == Asleep then Woken else pc
  }

  function Wakeup(procs: seq<Pc>): (r: seq<Pc>)
    ensures |r| == |procs| && forall q :: 0 <= q < |procs| ==> r[q] == Awake(procs[q])
  {
    seq(|procs|, q requires 0 <= q < |procs| => Awake(procs[q]))
  }

  function Do(s: State, p: nat, a: Action): State
    requires Can(s, p, a)
  {
    var pc := s.procs[p];
    match a
    case StartAcquire => s.(procs := s.procs[p := Enter])
    case StartRelease => s.(procs := s.procs[p := Leave])
    case Lock =>
      if pc == Leave then s.(lk := Some(p), locked := false, owner := None, procs := s.procs[p := Cleared])
      else s.(lk := Some(p), procs := s.procs[p := Test])
    case Take => s.(locked := true, owner := Some(p), procs := s.procs[p := Took])
    case Wait => s.(procs := s.procs[p := Sleep1])
    case SleepAcquire => s.(pt := Some(p), procs := s.procs[p := Sleep2])
    case SleepRelease => s.(lk := None, procs := s.procs[p := Sleep3])
    case SleepMark => s.(pt := None, procs := s.procs[p := Asleep])
    case Wake => s.(procs := Wakeup(s.procs)[p := Done])
    case Unlock => s.(lk := None, procs := s.procs[p := if pc == Took then Inside else Out])
    case Kill => s.(procs := s.procs[p := Awake(pc)])
  }

  predicate HoldsLk(pc: Pc) {
    pc == Test || pc == Sleep1 || pc == Sleep2 || pc == Took || pc == Cleared || pc == Done
  }

  predicate HoldsPt(pc: Pc) {
    pc == Sleep2 || pc == Sleep3
  }

  // Processes that own the sleep lock.
  predicate Owns(pc: Pc) {
    pc == Took || pc == Inside || pc == Leave
  }

  ghost predicate Owed(s: State) {
    s.lk.Some? && s.lk.value < |s.procs| && s.procs[s.lk.value] == Cleared
  }

  ghost predicate ProcOk(s: State, p: nat)
    requires p < |s.procs|
  {
    var pc := s.procs[p];
    && (HoldsLk(pc) <==> s.lk == Some(p))
    && (HoldsPt(pc) <==> s.pt == Some(p))
    && (Owns(pc) <==> s.owner == Some(p))
    && (pc == Sleep1 || pc == Sleep2 ==> s.locked)
    && (pc == Sleep3 || pc == Asleep ==> s.locked || Owed(s))
  }

  ghost predicate Inv(s: State) {
    && (s.lk.Some? ==> s.lk.value < |s.procs|) && (s.pt.Some? ==> s.pt.value < |s.procs|)
    && (s.locked <==> s.owner.Some?) && (s.owner.Some? ==> s.owner.value < |s.procs|)
    && forall p :: 0 <= p < |s.procs| ==> ProcOk(s, p)
  }

  lemma StepProc(s: State, p: nat, a: Action, q: nat)
    requires Inv(s) && Can(s, p, a) && q < |s.procs|
    ensures ProcOk(Do(s, p, a), q)
  {
    hide Inv;
    ProcOf(s, p);
    ProcOf(s, q);
    HolderOf(s);
  }

  lemma ProcOf(s: State, q: nat)
    requires Inv(s) && q < |s.procs|
    ensures ProcOk(s, q)
  {
  }

  // The holder of the lock is one of the processes.
  lemma HolderOf(s: State)
    requires Inv(s)
    ensures s.lk.Some? ==> s.lk.value < |s.procs| && ProcOk(s, s.lk.value)
    ensures (s.locked <==> s.owner.Some?) && (s.owner.Some? ==> s.owner.value < |s.procs|)
  {
  }

  lemma StepKeepsInv(s: State, p: nat, a: Action)
    requires Inv(s) && Can(s, p, a)
    ensures Inv(Do(s, p, a))
  {
    var s' := Do(s, p, a);
    assert ProcOk(s, p);
    forall q | 0 <= q < |s'.procs| ensures ProcOk(s', q) { StepProc(s, p, a, q); }
  }

  datatype Step = Step(p: nat, a: Action)

  ghost predicate Possible(s: State, run: seq<Step>)
    decreases |run|
  {
    run == [] || (Can(s, run[0].p, run[0].a) && Possible(Do(s, run[0].p, run[0].a), run[1..]))
  }

  ghost function After(s: State, run: seq<Step>): State
    requires Possible(s, run)
    decreases |run|
  {
    if run == [] then s else After(Do(s, run[0].p, run[0].a), run[1..])
  }

  function Init(n: nat): State {
    State(false, None, None, None, seq(n, _ => Out))
  }

  lemma {:induction false} RunKeepsInv(s: State, run: seq<Step>)
    requires Inv(s) && Possible(s, run)
    ensures Inv(After(s, run))
    decreases |run|
  {
    if run != [] {
      StepKeepsInv(s, run[0].p, run[0].a);
      RunKeepsInv(Do(s, run[0].p, run[0].a), run[1..]);
    }
  }

  // In every run, kills included: a process owns the lock exactly if it is the recorded
  // owner, so two never do; with lk free a process sleeps on the lock only while some
  // process owns it; and somebody can always go on.
  lemma Safety(n: nat, run: seq<Step>, p: nat, q: nat)
    requires Possible(Init(n), run) && p < n && q < n
    ensures var s := After(Init(n), run);
            && |s.procs| == n
            && (Owns(s.procs[p]) <==> s.locked && s.owner == Some(p))
            && (Owns(s.procs[p]) && Owns(s.procs[q]) ==> p == q)
            && (s.lk == None && s.procs[p] == Asleep ==>
                  s.locked && s.owner.Some? && s.owner.value < n && Owns(s.procs[s.owner.value]))
            && exists r, a :: a != Kill && Can(s, r, a)
  {
    var s0 := Init(n);
    forall r | 0 <= r < |s0.procs| ensures ProcOk(s0, r) {}
    RunKeepsInv(s0, run);
    SameProcs(s0, run);
    var s := After(s0, run);
    assert ProcOk(s, p) && ProcOk(s, q);
    if s.locked {
      assert ProcOk(s, s.owner.value);
    }
    var r, a := NoDeadlock(s);
  }

  // The holder of a spin lock can always go on; with both free everybody can who is not
  // asleep, and not all are.
  lemma NoDeadlock(s: State) returns (r: nat, a: Action)
    requires Inv(s) && |s.procs| > 0
    ensures a != Kill && Can(s, r, a)
  {
    if s.pt.Some? {
      r := s.pt.value;
      assert ProcOk(s, r);
      a := if s.procs[r] == Sleep2 then SleepRelease else SleepMark;
    } else {
      assert ProcOk(s, 0);
      r := if s.lk.Some? then s.lk.value else if s.procs[0] == Asleep then s.owner.value else 0;
      assert ProcOk(s, r);
      a := NextAction(s, r);
    }
  }

  // A kill wakes its process if it sleeps, and does nothing else.
  lemma KillExact(s: State, p: nat)
    requires Can(s, p, Kill)
    ensures Do(s, p, Kill) == s.(procs := s.procs[p := if s.procs[p] == Asleep then Woken else s.procs[p]])
  {
  }

  // What a process does next.
  function NextAction(s: State, p: nat): Action
    requires p < |s.procs|
  {
    match s.procs[p]
    case Out => StartAcquire
    case Enter => Lock
    case Woken => Lock
    case Leave => Lock
    case Test => if s.locked then Wait else Take
    case Sleep1 => SleepAcquire
    case Sleep2 => SleepRelease
    case Sleep3 => SleepMark
    case Asleep => Kill
    case Took => Unlock
    case Done => Unlock
    case Inside => StartRelease
    case Cleared => Wake
  }

  lemma {:induction false} SameProcs(s: State, run: seq<Step>)
    requires Possible(s, run)
    ensures |After(s, run).procs| == |s.procs|
    decreases |run|
  {
    if run != [] {
      SameProcs(Do(s, run[0].p, run[0].a), run[1..]);
    }
  }
}
