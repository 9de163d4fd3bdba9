/**
  Process lifecycles on several CPUs, interleaved at the granularity of the
  process-table lock.

  Between steps, CPU c runs the process `current[c]` or, if that is None, its
  scheduler.  `holder` is the CPU that holds the lock: a process that gives up the
  CPU hands the lock to its scheduler, which hands it on to the process it picks.
  fork sets the child's parent and makes it RUNNABLE without the lock.

  `serials`, `homes`, `cpuOf`, `exited` and `reaped` only record: the n-th process
  ever allocated has serial n and lives in slot homes[n].
 */
module Lifecycle {
  import opened ProcTable
  import opened Counters

  // What a process has to go on with.
  datatype Phase = Plain | Fork1(child: nat) | Fork2(child: nat) | Waiting

  datatype State = State(procs: seq<Proc>, phases: seq<Phase>, current: seq<ProcTable.Option<nat>>,
                         holder: ProcTable.Option<nat>, init: nat,
                         count: nat, serials: seq<nat>, homes: map<nat, nat>, cpuOf: seq<nat>,
                         exited: set<nat>, reaped: seq<nat>)

  datatype Step =
    | SchedAcquire | SchedPick(slot: nat) | SchedRelease | Resume
    | Alloc(slot: nat) | SetParent | MakeRunnable | ForkFail
    | Exit | WaitReap(slot: nat) | WaitNone | WaitSleep
    | SleepOn(addr: int) | Yield
    | Wakeup(addr: int) | Kill(slot: nat)

  // The pid of the n-th process: nextpid is a signed 32-bit counter that wraps around.
  function Pid(n: nat): int {
    var w := n % WORD;
    if w < WORD / 2 then w else w - WORD
  }

  // ----- the steps

  // The process that CPU c runs.
  ghost predicate Runs(s: State, c: nat, q: nat) {
    c < |s.current| && s.current[c] == Some(q) && q < |s.procs| && |s.phases| == |s.procs| && |s.serials| == |s.procs|
      && |s.cpuOf| == |s.procs|
  }

  // wait holds the lock: freshly acquired, or handed over by the scheduler.
  ghost predicate InWait(s: State, c: nat, q: nat) {
    Runs(s, c, q) && if s.phases[q] == Waiting then s.holder == Some(c) else s.holder == None && s.phases[q] == Plain
  }

  // An ordinary process that can take the lock.
  ghost predicate CanLock(s: State, c: nat, q: nat) {
    Runs(s, c, q) && s.holder == None && s.phases[q] != Waiting
  }

  ghost predicate Can(s: State, c: nat, q: nat, a: Step) {
    && c < |s.current|
    && match a
       case SchedAcquire => s.current[c] == None && s.holder == None
       case SchedPick(p) =>
         && s.current[c] == None && s.holder == Some(c) && p < |s.procs| && |s.cpuOf| == |s.procs|
         && s.procs[p].status == RUNNABLE
       case SchedRelease => s.current[c] == None && s.holder == Some(c)
       case Resume => Runs(s, c, q) && s.holder == Some(c) && s.phases[q] != Waiting
       case Alloc(p) => CanLock(s, c, q) && s.phases[q] == Plain && FirstUnused(s.procs, p)
       case SetParent => Runs(s, c, q) && s.holder != Some(c) && s.phases[q].Fork1? && s.phases[q].child < |s.procs|
       case MakeRunnable => Runs(s, c, q) && s.holder != Some(c) && s.phases[q].Fork2? && s.phases[q].child < |s.procs|
       case ForkFail => Runs(s, c, q) && s.holder != Some(c) && s.phases[q].Fork1? && s.phases[q].child < |s.procs|
       case Exit => CanLock(s, c, q) && s.phases[q] == Plain && q != s.init
       case WaitReap(p) => InWait(s, c, q) && FirstZombieChild(s.procs, q, p)
       case WaitNone => InWait(s, c, q) && !HasZombieChild(s.procs, q) && (!HasChild(s.procs, q) || s.procs[q].killed)
       case WaitSleep => InWait(s, c, q) && !HasZombieChild(s.procs, q) && HasChild(s.procs, q) && !s.procs[q].killed
       case SleepOn(_) => CanLock(s, c, q)
       case Yield => CanLock(s, c, q)
       case Wakeup(_) => s.holder == None
       case Kill(p) => s.holder == None && p < |s.procs|
  }

  // Process q leaves the CPU; its scheduler goes on with the lock.
  ghost function Leave(s: State, c: nat): State
    requires c < |s.current|
  {
    s.(current := s.current[c := None], holder := Some(c))
  }

  ghost function Do(s: State, c: nat, q: nat, a: Step): State
    requires Can(s, c, q, a)
  {
    match a
    case SchedAcquire => s.(holder := Some(c))
    case SchedPick(p) =>
      s.(current := s.current[c := Some(p)], cpuOf := s.cpuOf[p := c],
         procs := s.procs[p := s.procs[p].(status := RUNNING, chan := None)])
    case SchedRelease => s.(holder := None)
    case Resume => s.(holder := None)
    case Alloc(p) =>
      var n := s.count + 1;
      s.(procs := s.procs[p := s.procs[p].(status := EMBRYO, pid := Pid(n))],
         phases := s.phases[q := Fork1(p)][p := Plain],
         count := n, serials := s.serials[p := n], homes := s.homes[n := p])
    case SetParent =>
      var p := s.phases[q].child;
      s.(procs := s.procs[p := s.procs[p].(parent := Some(q))], phases := s.phases[q := Fork2(p)])
    case MakeRunnable =>
      var p := s.phases[q].child;
      s.(procs := s.procs[p := s.procs[p].(status := RUNNABLE)], phases := s.phases[q := Plain])
    case ForkFail =>
      var p := s.phases[q].child;
      s.(procs := s.procs[p := s.procs[p].(status := UNUSED)], phases := s.phases[q := Plain])
    case Exit => Leave(s, c).(procs := ExitAll(s.procs, q, s.init), exited := s.exited + {s.serials[q]})
    case WaitReap(p) =>
      s.(procs := s.procs[p := Reap(s.procs[p])], phases := s.phases[q := Plain], holder := None,
         reaped := s.reaped + [s.serials[p]])
    case WaitNone => s.(phases := s.phases[q := Plain], holder := None)
    case WaitSleep =>
      Leave(s, c).(procs := s.procs[q := s.procs[q].(status := SLEEPING, chan := Some(WaitChan(q)))],
                   phases := s.phases[q := Waiting])
    case SleepOn(addr) =>
      Leave(s, c).(procs := s.procs[q := s.procs[q].(status := SLEEPING, chan := Some(Other(addr)))])
    case Yield => Leave(s, c).(procs := s.procs[q := s.procs[q].(status := RUNNABLE)])
    case Wakeup(addr) => s.(procs := WakeAll(s.procs, Other(addr)))
    case Kill(p) => s.(procs := s.procs[p := KillOne(s.procs[p])])
  }

  // ----- the invariant

  predicate Alive(x: Proc) {
    x.status == SLEEPING || x.status == RUNNABLE || x.status == RUNNING
  }

  predicate Forking(f: Phase) {
    f.Fork1? || f.Fork2?
  }

  ghost predicate Shape(s: State) {
    && |s.phases| == |s.procs| && |s.serials| == |s.procs| && |s.cpuOf| == |s.procs|
    && s.init < |s.procs| && Alive(s.procs[s.init])
    && (s.holder.Some? ==> s.holder.value < |s.current|)
  }

  // Where the process in slot p runs, sleeps or waits.
  ghost predicate RunOk(s: State, p: nat)
    requires Shape(s) && p < |s.procs|
  {
    var x := s.procs[p];
    && (x.status == RUNNING ==> s.cpuOf[p] < |s.current| && s.current[s.cpuOf[p]] == Some(p))
    && (x.status == SLEEPING ==>
        x.chan.Some? && (if s.phases[p] == Waiting then x.chan == Some(WaitChan(p)) else x.chan.value.Other?))
    && (s.phases[p] == Waiting && x.status == RUNNING ==> s.holder == Some(s.cpuOf[p]))
    && (s.phases[p] != Plain ==> Alive(x))
  }

  // Its parent, and the child it is forking.
  ghost predicate FamilyOk(s: State, p: nat)
    requires Shape(s) && p < |s.procs|
  {
    var x, f := s.procs[p], s.phases[p];
    && (x.status == UNUSED ==> x.parent == None)
    && (p == s.init ==> x.parent == None)
    && (x.parent.Some? ==> x.parent.value != p && x.parent.value < |s.procs| && Alive(s.procs[x.parent.value]))
    && (Alive(x) || x.status == ZOMBIE ==> p == s.init || x.parent.Some?)
    && (Forking(f) ==>
          && f.child < |s.procs| && s.procs[f.child].status == EMBRYO
          && s.procs[f.child].parent == if f.Fork1? then None else Some(p))
  }

  // Its serial number and pid.
  ghost predicate NumberOk(s: State, p: nat)
    requires Shape(s) && p < |s.procs|
  {
    var x, n := s.procs[p], s.serials[p];
    && (x.status != UNUSED ==>
        1 <= n <= s.count && x.pid == Pid(n) && n in s.homes && s.homes[n] == p && n !in s.reaped)
    && (x.status == ZOMBIE <==> x.status != UNUSED && n in s.exited)
    && (x.status == UNUSED && x.pid != 0 ==>
        1 <= n <= s.count && x.pid == Pid(n) && n in s.homes && s.homes[n] == p && n !in s.exited)
  }

  ghost predicate SlotOk(s: State, p: nat)
    requires Shape(s) && p < |s.procs|
  {
    RunOk(s, p) && FamilyOk(s, p) && NumberOk(s, p)
  }

  // Two slots.
  ghost predicate PairOk(s: State, p: nat, q: nat)
    requires Shape(s) && p < |s.procs| && q < |s.procs|
  {
    && (s.procs[q].status == SLEEPING && s.phases[q] == Waiting ==> !IsZombieChild(s.procs[p], q))
    && (p != q && Forking(s.phases[p]) && Forking(s.phases[q]) ==> s.phases[p].child != s.phases[q].child)
  }

  ghost predicate CpuOk(s: State, c: nat)
    requires Shape(s) && c < |s.current|
  {
    s.current[c].Some? ==>
      && s.current[c].value < |s.procs|
      && s.procs[s.current[c].value].status == RUNNING && s.cpuOf[s.current[c].value] == c
  }

  // A process that has exited was reaped or is a zombie still.
  ghost predicate SerialOk(s: State, e: nat) {
    && (e in s.exited ==>
        1 <= e <= s.count && (e in s.reaped || (e in s.homes && s.homes[e] < |s.procs| && |s.serials| == |s.procs|
                                               && s.procs[s.homes[e]].status == ZOMBIE && s.serials[s.homes[e]] == e)))
    && (e in s.reaped ==> e in s.exited)
  }

  ghost predicate Distinct(r: seq<nat>) {
    forall i, j :: 0 <= i < j < |r| ==> r[i] != r[j]
  }

  ghost predicate Inv(s: State) {
    && Shape(s)
    && (forall p :: 0 <= p < |s.procs| ==> SlotOk(s, p))
    && (forall p, q :: 0 <= p < |s.procs| && 0 <= q < |s.procs| ==> PairOk(s, p, q))
    && (forall c :: 0 <= c < |s.current| ==> CpuOk(s, c))
    && (forall e: nat :: SerialOk(s, e))
    && Distinct(s.reaped)
  }

  // The actor and the facts about it that a step relies on.
  lemma Facts(s: State, c: nat, q: nat, a: Step, p: nat)
    requires Inv(s) && Can(s, c, q, a) && p < |s.procs|
    ensures SlotOk(s, p) && SlotOk(s, s.init) && CpuOk(s, c) && SerialOk(s, s.count + 1) && SerialOk(s, s.serials[p])
    ensures q < |s.procs| ==> SlotOk(s, q) && PairOk(s, p, q) && PairOk(s, q, p) && SerialOk(s, s.serials[q])
  {
  }

  predicate OfScheduler(a: Step) {
    a.SchedAcquire? || a.SchedPick? || a.SchedRelease? || a.Resume?
  }

  predicate OfSleeper(a: Step) {
    a.SleepOn? || a.Yield? || a.Wakeup? || a.Kill?
  }

  predicate Schedules(a: Step) {
    OfScheduler(a) || OfSleeper(a)
  }

  predicate OfFork(a: Step) {
    a.Alloc? || a.SetParent? || a.MakeRunnable? || a.ForkFail?
  }

  predicate OfWait(a: Step) {
    a.WaitReap? || a.WaitNone? || a.WaitSleep?
  }

  // The slot a step changes besides the actor's.
  ghost function Target(s: State, c: nat, q: nat, a: Step): (t: nat)
    requires Inv(s) && Can(s, c, q, a)
    ensures t < |s.procs|
  {
    match a
    case SchedPick(p) => p
    case Alloc(p) => p
    case WaitReap(p) => p
    case Kill(p) => p
    case SetParent => s.phases[q].child
    case MakeRunnable => s.phases[q].child
    case ForkFail => s.phases[q].child
    case _ => s.init
  }

  lemma ZombieChild(procs: seq<Proc>, q: nat, p: nat)
    requires p < |procs|
    ensures IsZombieChild(procs[p], q) ==> HasZombieChild(procs, q)
  {
  }

  // ----- steps that only move processes between running, runnable and sleeping

  predicate Quiet(a: Step) {
    Schedules(a) || a.WaitNone? || a.WaitSleep?
  }

  ghost predicate Similar(x: Proc, y: Proc) {
    x.parent == y.parent && x.pid == y.pid && (Alive(x) <==> Alive(y)) && (!Alive(x) ==> x.status == y.status)
  }

  lemma SchedulerSlot(s: State, c: nat, q: nat, a: Step, p: nat)
    requires Inv(s) && Can(s, c, q, a) && p < |s.procs| && OfScheduler(a)
    ensures var s' := Do(s, c, q, a);
            && Shape(s') && |s'.procs| == |s.procs| && Similar(s.procs[p], s'.procs[p])
            && s'.(procs := s.procs, phases := s.phases, current := s.current, holder := s.holder,
                   cpuOf := s.cpuOf) == s
            && (s'.phases[p] == s.phases[p] || (!Forking(s.phases[p]) && !Forking(s'.phases[p])))
  {
    Facts(s, c, q, a, s.init);
    hide Inv, SerialOk, PairOk, NumberOk, FamilyOk, HasZombieChild;
  }

  lemma GiveUpSlot(s: State, c: nat, q: nat, a: Step, p: nat)
    requires Inv(s) && Can(s, c, q, a) && p < |s.procs| && (a.SleepOn? || a.Yield?)
    ensures var s' := Do(s, c, q, a);
            && Shape(s') && |s'.procs| == |s.procs| && Similar(s.procs[p], s'.procs[p])
            && s'.(procs := s.procs, phases := s.phases, current := s.current, holder := s.holder,
                   cpuOf := s.cpuOf) == s
            && (s'.phases[p] == s.phases[p] || (!Forking(s.phases[p]) && !Forking(s'.phases[p])))
  {
    Facts(s, c, q, a, s.init);
    hide Inv, SerialOk, PairOk, NumberOk, FamilyOk, HasZombieChild;
  }

  lemma WakeSlot(s: State, c: nat, q: nat, a: Step, p: nat)
    requires Inv(s) && Can(s, c, q, a) && p < |s.procs| && (a.Wakeup? || a.Kill?)
    ensures var s' := Do(s, c, q, a);
            && Shape(s') && |s'.procs| == |s.procs| && Similar(s.procs[p], s'.procs[p])
            && s'.(procs := s.procs, phases := s.phases, current := s.current, holder := s.holder,
                   cpuOf := s.cpuOf) == s
            && (s'.phases[p] == s.phases[p] || (!Forking(s.phases[p]) && !Forking(s'.phases[p])))
  {
    Facts(s, c, q, a, s.init);
    hide Inv, SerialOk, PairOk, NumberOk, FamilyOk, HasZombieChild;
  }

  lemma SleeperSlot(s: State, c: nat, q: nat, a: Step, p: nat)
    requires Inv(s) && Can(s, c, q, a) && p < |s.procs| && OfSleeper(a)
    ensures var s' := Do(s, c, q, a);
            && Shape(s') && |s'.procs| == |s.procs| && Similar(s.procs[p], s'.procs[p])
            && s'.(procs := s.procs, phases := s.phases, current := s.current, holder := s.holder,
                   cpuOf := s.cpuOf) == s
            && (s'.phases[p] == s.phases[p] || (!Forking(s.phases[p]) && !Forking(s'.phases[p])))
  {
    hide Do, Can, Inv;
    if (a.SleepOn? || a.Yield?) {
      GiveUpSlot(s, c, q, a, p);
    } else {
      WakeSlot(s, c, q, a, p);
    }
  }

  lemma WaiterSlot(s: State, c: nat, q: nat, a: Step, p: nat)
    requires Inv(s) && Can(s, c, q, a) && p < |s.procs| && (a.WaitNone? || a.WaitSleep?)
    ensures var s' := Do(s, c, q, a);
            && Shape(s') && |s'.procs| == |s.procs| && Similar(s.procs[p], s'.procs[p])
            && s'.(procs := s.procs, phases := s.phases, current := s.current, holder := s.holder,
                   cpuOf := s.cpuOf) == s
            && (s'.phases[p] == s.phases[p] || (!Forking(s.phases[p]) && !Forking(s'.phases[p])))
  {
    Facts(s, c, q, a, s.init);
    hide Inv, SerialOk, PairOk, NumberOk, FamilyOk, HasZombieChild;
  }

  lemma QuietSlot(s: State, c: nat, q: nat, a: Step, p: nat)
    requires Inv(s) && Can(s, c, q, a) && p < |s.procs| && Quiet(a)
    ensures var s' := Do(s, c, q, a);
            && Shape(s') && |s'.procs| == |s.procs| && Similar(s.procs[p], s'.procs[p])
            && s'.(procs := s.procs, phases := s.phases, current := s.current, holder := s.holder,
                   cpuOf := s.cpuOf) == s
            && (s'.phases[p] == s.phases[p] || (!Forking(s.phases[p]) && !Forking(s'.phases[p])))
  {
    hide Do, Can, Inv;
    if OfWait(a) {
      WaiterSlot(s, c, q, a, p);
    } else if OfScheduler(a) {
      SchedulerSlot(s, c, q, a, p);
    } else {
      SleeperSlot(s, c, q, a, p);
    }
  }

  lemma PairOf(s: State, p: nat, r: nat)
    requires Inv(s) && p < |s.procs| && r < |s.procs|
    ensures PairOk(s, p, r)
  {
  }

  lemma SerialOf(s: State, e: nat)
    requires Inv(s)
    ensures SerialOk(s, e)
  {
  }

  lemma QuietFamily(s: State, c: nat, q: nat, a: Step, p: nat)
    requires Inv(s) && Can(s, c, q, a) && p < |s.procs| && Quiet(a)
    ensures Shape(Do(s, c, q, a)) && FamilyOk(Do(s, c, q, a), p)
  {
    hide Do, Can, RunOk, CpuOk, SerialOk, PairOk, NumberOk;
    Facts(s, c, q, a, p);
    QuietSlot(s, c, q, a, p);
    if s.procs[p].parent.Some? {
      QuietSlot(s, c, q, a, s.procs[p].parent.value);
    }
    if Forking(s.phases[p]) {
      QuietSlot(s, c, q, a, s.phases[p].child);
    }
  }

  lemma QuietNumber(s: State, c: nat, q: nat, a: Step, p: nat)
    requires Inv(s) && Can(s, c, q, a) && p < |s.procs| && Quiet(a)
    ensures Shape(Do(s, c, q, a)) && NumberOk(Do(s, c, q, a), p)
  {
    hide Inv, Do, Can, RunOk, CpuOk, SerialOk, PairOk, FamilyOk;
    Facts(s, c, q, a, p);
    QuietSlot(s, c, q, a, p);
  }

  lemma SchedulerRun(s: State, c: nat, q: nat, a: Step, p: nat)
    requires Inv(s) && Can(s, c, q, a) && p < |s.procs| && OfScheduler(a)
    ensures Shape(Do(s, c, q, a)) && RunOk(Do(s, c, q, a), p)
  {
    Facts(s, c, q, a, p);
    hide Inv, SerialOk, FamilyOk, NumberOk, PairOk;
  }

  lemma GiveUpRun(s: State, c: nat, q: nat, a: Step, p: nat)
    requires Inv(s) && Can(s, c, q, a) && p < |s.procs| && (a.SleepOn? || a.Yield?)
    ensures Shape(Do(s, c, q, a)) && RunOk(Do(s, c, q, a), p)
  {
    assert SlotOk(s, p) && SlotOk(s, s.init) && SlotOk(s, q) && CpuOk(s, c);
    hide Inv, FamilyOk, NumberOk;
  }

  lemma WakeRun(s: State, c: nat, q: nat, a: Step, p: nat)
    requires Inv(s) && Can(s, c, q, a) && p < |s.procs| && (a.Wakeup? || a.Kill?)
    ensures Shape(Do(s, c, q, a)) && RunOk(Do(s, c, q, a), p)
  {
    assert SlotOk(s, p) && SlotOk(s, s.init);
    hide Inv, FamilyOk, NumberOk;
  }

  lemma SleeperRun(s: State, c: nat, q: nat, a: Step, p: nat)
    requires Inv(s) && Can(s, c, q, a) && p < |s.procs| && OfSleeper(a)
    ensures Shape(Do(s, c, q, a)) && RunOk(Do(s, c, q, a), p)
  {
    hide Do, Can, Inv;
    if (a.SleepOn? || a.Yield?) {
      GiveUpRun(s, c, q, a, p);
    } else {
      WakeRun(s, c, q, a, p);
    }
  }

  // ----- fork

  lemma AllocRun(s: State, c: nat, q: nat, a: Step, p: nat)
    requires Inv(s) && Can(s, c, q, a) && p < |s.procs| && a.Alloc?
    ensures Shape(Do(s, c, q, a)) && RunOk(Do(s, c, q, a), p)
  {
    Facts(s, c, q, a, p);
    Facts(s, c, q, a, Target(s, c, q, a));
    hide Inv, SerialOk, NumberOk, PairOk;
  }

  lemma ChildRun(s: State, c: nat, q: nat, a: Step, p: nat)
    requires Inv(s) && Can(s, c, q, a) && p < |s.procs| && (a.SetParent? || a.MakeRunnable? || a.ForkFail?)
    ensures Shape(Do(s, c, q, a)) && RunOk(Do(s, c, q, a), p)
  {
    Facts(s, c, q, a, p);
    Facts(s, c, q, a, Target(s, c, q, a));
    hide Inv, SerialOk, NumberOk, PairOk;
  }

  lemma AllocFamily(s: State, c: nat, q: nat, a: Step, p: nat)
    requires Inv(s) && Can(s, c, q, a) && p < |s.procs| && a.Alloc?
    ensures Shape(Do(s, c, q, a)) && FamilyOk(Do(s, c, q, a), p)
  {
    Facts(s, c, q, a, p);
    Facts(s, c, q, a, Target(s, c, q, a));
    hide Inv, SerialOk, NumberOk;
  }

  lemma ParentFamily(s: State, c: nat, q: nat, a: Step, p: nat)
    requires Inv(s) && Can(s, c, q, a) && p < |s.procs| && a.SetParent?
    ensures Shape(Do(s, c, q, a)) && FamilyOk(Do(s, c, q, a), p)
  {
    Facts(s, c, q, a, p);
    Facts(s, c, q, a, Target(s, c, q, a));
    hide Inv, SerialOk, NumberOk;
  }

  lemma RunnableFamily(s: State, c: nat, q: nat, a: Step, p: nat)
    requires Inv(s) && Can(s, c, q, a) && p < |s.procs| && a.MakeRunnable?
    ensures Shape(Do(s, c, q, a)) && FamilyOk(Do(s, c, q, a), p)
  {
    Facts(s, c, q, a, p);
    Facts(s, c, q, a, Target(s, c, q, a));
    hide Inv, SerialOk, NumberOk;
  }

  lemma FailFamily(s: State, c: nat, q: nat, a: Step, p: nat)
    requires Inv(s) && Can(s, c, q, a) && p < |s.procs| && a.ForkFail?
    ensures Shape(Do(s, c, q, a)) && FamilyOk(Do(s, c, q, a), p)
  {
    Facts(s, c, q, a, p);
    Facts(s, c, q, a, Target(s, c, q, a));
    hide Inv, SerialOk, NumberOk;
  }

  lemma ChildFamily(s: State, c: nat, q: nat, a: Step, p: nat)
    requires Inv(s) && Can(s, c, q, a) && p < |s.procs| && (a.MakeRunnable? || a.ForkFail?)
    ensures Shape(Do(s, c, q, a)) && FamilyOk(Do(s, c, q, a), p)
  {
    hide Do, Can, Inv;
    if a.MakeRunnable? {
      RunnableFamily(s, c, q, a, p);
    } else {
      FailFamily(s, c, q, a, p);
    }
  }

  lemma AllocNumber(s: State, c: nat, q: nat, a: Step, p: nat)
    requires Inv(s) && Can(s, c, q, a) && p < |s.procs| && a.Alloc?
    ensures Shape(Do(s, c, q, a)) && NumberOk(Do(s, c, q, a), p)
  {
    Facts(s, c, q, a, p);
    Facts(s, c, q, a, Target(s, c, q, a));
    hide Inv, PairOk;
  }

  lemma ChildNumber(s: State, c: nat, q: nat, a: Step, p: nat)
    requires Inv(s) && Can(s, c, q, a) && p < |s.procs| && (a.SetParent? || a.MakeRunnable? || a.ForkFail?)
    ensures Shape(Do(s, c, q, a)) && NumberOk(Do(s, c, q, a), p)
  {
    Facts(s, c, q, a, p);
    Facts(s, c, q, a, Target(s, c, q, a));
    hide Inv, PairOk;
  }

  // ----- wait

  lemma ReapRun(s: State, c: nat, q: nat, a: Step, p: nat)
    requires Inv(s) && Can(s, c, q, a) && p < |s.procs| && a.WaitReap?
    ensures Shape(Do(s, c, q, a)) && RunOk(Do(s, c, q, a), p)
  {
    Facts(s, c, q, a, p);
    Facts(s, c, q, a, Target(s, c, q, a));
    hide Inv, SerialOk, FamilyOk, NumberOk, PairOk, HasZombieChild, HasChild;
  }

  lemma NoReapRun(s: State, c: nat, q: nat, a: Step, p: nat)
    requires Inv(s) && Can(s, c, q, a) && p < |s.procs| && (a.WaitNone? || a.WaitSleep?)
    ensures Shape(Do(s, c, q, a)) && RunOk(Do(s, c, q, a), p)
  {
    Facts(s, c, q, a, p);
    Facts(s, c, q, a, Target(s, c, q, a));
    hide Inv, SerialOk, FamilyOk, NumberOk, PairOk, HasZombieChild, HasChild;
  }

  lemma WaitRun(s: State, c: nat, q: nat, a: Step, p: nat)
    requires Inv(s) && Can(s, c, q, a) && p < |s.procs| && OfWait(a)
    ensures Shape(Do(s, c, q, a)) && RunOk(Do(s, c, q, a), p)
  {
    hide Do, Can, Inv;
    if a.WaitReap? {
      ReapRun(s, c, q, a, p);
    } else {
      NoReapRun(s, c, q, a, p);
    }
  }

  lemma ReapFamily(s: State, c: nat, q: nat, a: Step, p: nat)
    requires Inv(s) && Can(s, c, q, a) && p < |s.procs| && a.WaitReap?
    ensures Shape(Do(s, c, q, a)) && FamilyOk(Do(s, c, q, a), p)
  {
    Facts(s, c, q, a, p);
    Facts(s, c, q, a, Target(s, c, q, a));
    hide Inv, SerialOk, NumberOk, RunOk, PairOk;
  }

  lemma ReapNumber(s: State, c: nat, q: nat, a: Step, p: nat)
    requires Inv(s) && Can(s, c, q, a) && p < |s.procs| && a.WaitReap?
    ensures Shape(Do(s, c, q, a)) && NumberOk(Do(s, c, q, a), p)
  {
    Facts(s, c, q, a, p);
    Facts(s, c, q, a, Target(s, c, q, a));
    hide Inv, RunOk, FamilyOk, PairOk;
  }

  // ----- exit

  lemma ExitFields(procs: seq<Proc>, q: nat, init: nat, p: nat)
    requires q < |procs| && p < |procs|
    ensures var x, y := procs[p], ExitAll(procs, q, init)[p];
            && y.pid == x.pid && y.chan == x.chan && y.killed == x.killed
            && y.parent == (if x.parent == Some(q) then Some(init) else x.parent)
            && (if p == q then y.status == ZOMBIE
                else y.status == x.status || (x.status == SLEEPING && y.status == RUNNABLE))
  {
  }

  lemma ExitRun(s: State, c: nat, q: nat, a: Step, p: nat)
    requires Inv(s) && Can(s, c, q, a) && p < |s.procs| && a == Exit
    ensures Shape(Do(s, c, q, a)) && RunOk(Do(s, c, q, a), p)
  {
    Facts(s, c, q, a, p);
    ExitFields(s.procs, q, s.init, p);
    ExitFields(s.procs, q, s.init, q);
    ExitFields(s.procs, q, s.init, s.init);
    hide Inv, SerialOk, NumberOk, PairOk, HasZombieChild, ExitSlot, ExitAll;
  }

  lemma ExitFamily(s: State, c: nat, q: nat, a: Step, p: nat)
    requires Inv(s) && Can(s, c, q, a) && p < |s.procs| && a == Exit
    ensures Shape(Do(s, c, q, a)) && FamilyOk(Do(s, c, q, a), p)
  {
    hide SerialOk, NumberOk, PairOk, HasZombieChild, ExitSlot, ExitAll;
    Facts(s, c, q, a, p);
    ExitFields(s.procs, q, s.init, p);
    ExitFields(s.procs, q, s.init, q);
    ExitFields(s.procs, q, s.init, s.init);
    if s.procs[p].parent.Some? {
      ExitFields(s.procs, q, s.init, s.procs[p].parent.value);
    }
    if Forking(s.phases[p]) {
      ExitFields(s.procs, q, s.init, s.phases[p].child);
    }
  }

  lemma ExitNumber(s: State, c: nat, q: nat, a: Step, p: nat)
    requires Inv(s) && Can(s, c, q, a) && p < |s.procs| && a == Exit
    ensures Shape(Do(s, c, q, a)) && NumberOk(Do(s, c, q, a), p)
  {
    Facts(s, c, q, a, p);
    ExitFields(s.procs, q, s.init, p);
    ExitFields(s.procs, q, s.init, q);
    ExitFields(s.procs, q, s.init, s.init);
    hide Inv, SerialOk, PairOk, HasZombieChild, ExitSlot, ExitAll;
  }

  lemma ExitPair(s: State, c: nat, q: nat, p: nat, r: nat)
    requires Inv(s) && Can(s, c, q, Exit) && p < |s.procs| && r < |s.procs| && Shape(Do(s, c, q, Exit))
    ensures PairOk(Do(s, c, q, Exit), p, r)
  {
    hide Inv, SerialOk, HasZombieChild;
    Facts(s, c, q, Exit, p);
    Facts(s, c, q, Exit, r);
    PairOf(s, p, r);
    ZombieChild(s.procs, q, p);
  }

  lemma WaitPair(s: State, c: nat, q: nat, a: Step, p: nat, r: nat)
    requires Inv(s) && Can(s, c, q, a) && p < |s.procs| && r < |s.procs| && Shape(Do(s, c, q, a)) && OfWait(a)
    ensures PairOk(Do(s, c, q, a), p, r)
  {
    hide Inv, SerialOk, HasZombieChild;
    PairOf(s, p, r);
    ZombieChild(s.procs, q, p);
  }

  lemma QuietPair(s: State, c: nat, q: nat, a: Step, p: nat, r: nat)
    requires Inv(s) && Can(s, c, q, a) && p < |s.procs| && r < |s.procs| && Shape(Do(s, c, q, a)) && Schedules(a)
    ensures PairOk(Do(s, c, q, a), p, r)
  {
    hide Inv, SerialOk, NumberOk, FamilyOk;
    Facts(s, c, q, a, r);
    QuietSlot(s, c, q, a, p);
    PairOf(s, p, r);
  }

  lemma AllocPair(s: State, c: nat, q: nat, a: Step, p: nat, r: nat)
    requires Inv(s) && Can(s, c, q, a) && p < |s.procs| && r < |s.procs| && Shape(Do(s, c, q, a)) && a.Alloc?
    ensures PairOk(Do(s, c, q, a), p, r)
  {
    hide Inv, SerialOk, NumberOk, RunOk;
    Facts(s, c, q, a, p);
    Facts(s, c, q, a, r);
    PairOf(s, p, r);
  }

  lemma ChildPair(s: State, c: nat, q: nat, a: Step, p: nat, r: nat)
    requires Inv(s) && Can(s, c, q, a) && p < |s.procs| && r < |s.procs| && Shape(Do(s, c, q, a))
             && (a.SetParent? || a.MakeRunnable? || a.ForkFail?)
    ensures PairOk(Do(s, c, q, a), p, r)
  {
    hide Inv, SerialOk, NumberOk, RunOk;
    Facts(s, c, q, a, p);
    Facts(s, c, q, a, r);
    PairOf(s, p, r);
  }

  lemma SchedulerCpu(s: State, c: nat, q: nat, a: Step, d: nat)
    requires Inv(s) && Can(s, c, q, a) && d < |s.current| && OfScheduler(a) && Shape(Do(s, c, q, a))
    ensures CpuOk(Do(s, c, q, a), d)
  {
    Facts(s, c, q, a, s.init);
    assert CpuOk(s, d);
    hide Inv, SerialOk;
  }

  lemma SleeperCpu(s: State, c: nat, q: nat, a: Step, d: nat)
    requires Inv(s) && Can(s, c, q, a) && d < |s.current| && OfSleeper(a) && Shape(Do(s, c, q, a))
    ensures CpuOk(Do(s, c, q, a), d)
  {
    Facts(s, c, q, a, s.init);
    assert CpuOk(s, d);
    hide Inv, SerialOk;
  }

  lemma ForkCpu(s: State, c: nat, q: nat, a: Step, d: nat)
    requires Inv(s) && Can(s, c, q, a) && d < |s.current| && OfFork(a) && Shape(Do(s, c, q, a))
    ensures CpuOk(Do(s, c, q, a), d)
  {
    Facts(s, c, q, a, s.init);
    assert CpuOk(s, d);
    hide Inv, SerialOk;
  }

  lemma ExitCpu(s: State, c: nat, q: nat, a: Step, d: nat)
    requires Inv(s) && Can(s, c, q, a) && d < |s.current| && (OfWait(a) || a == Exit) && Shape(Do(s, c, q, a))
    ensures CpuOk(Do(s, c, q, a), d)
  {
    Facts(s, c, q, a, s.init);
    assert CpuOk(s, d);
    hide Inv, SerialOk;
  }

  lemma StepCpu(s: State, c: nat, q: nat, a: Step, d: nat)
    requires Inv(s) && Can(s, c, q, a) && d < |s.current| && Shape(Do(s, c, q, a))
    ensures CpuOk(Do(s, c, q, a), d)
  {
    hide Do, Can, Inv;
    if OfScheduler(a) {
      SchedulerCpu(s, c, q, a, d);
    } else if OfSleeper(a) {
      SleeperCpu(s, c, q, a, d);
    } else if OfFork(a) {
      ForkCpu(s, c, q, a, d);
    } else {
      ExitCpu(s, c, q, a, d);
    }
  }

  lemma QuietSerial(s: State, c: nat, q: nat, a: Step, e: nat)
    requires Inv(s) && Can(s, c, q, a) && Quiet(a)
    ensures SerialOk(Do(s, c, q, a), e)
  {
    hide Inv, PairOk, CpuOk, HasZombieChild;
    Facts(s, c, q, a, Target(s, c, q, a));
    SerialOf(s, e);
  }

  lemma ForkSerial(s: State, c: nat, q: nat, a: Step, e: nat)
    requires Inv(s) && Can(s, c, q, a) && OfFork(a)
    ensures SerialOk(Do(s, c, q, a), e)
  {
    hide Inv, PairOk, CpuOk, HasZombieChild;
    Facts(s, c, q, a, Target(s, c, q, a));
    SerialOf(s, e);
  }

  lemma OtherSerial(s: State, c: nat, q: nat, a: Step, e: nat)
    requires Inv(s) && Can(s, c, q, a) && (a.WaitReap? || a == Exit)
    ensures SerialOk(Do(s, c, q, a), e)
  {
    hide Inv, PairOk, CpuOk, HasZombieChild;
    Facts(s, c, q, a, Target(s, c, q, a));
    SerialOf(s, e);
  }

  lemma StepSerial(s: State, c: nat, q: nat, a: Step, e: nat)
    requires Inv(s) && Can(s, c, q, a)
    ensures SerialOk(Do(s, c, q, a), e)
  {
    hide Do, Can, Inv;
    if Quiet(a) {
      QuietSerial(s, c, q, a, e);
    } else if OfFork(a) {
      ForkSerial(s, c, q, a, e);
    } else {
      OtherSerial(s, c, q, a, e);
    }
  }

  // ----- every step keeps the invariant

  lemma StepSlot(s: State, c: nat, q: nat, a: Step, p: nat)
    requires Inv(s) && Can(s, c, q, a) && p < |s.procs|
    ensures Shape(Do(s, c, q, a)) && SlotOk(Do(s, c, q, a), p)
  {
    hide Inv, Do, Can, RunOk, FamilyOk, NumberOk, Shape;
    if Quiet(a) {
      QuietFamily(s, c, q, a, p);
      QuietNumber(s, c, q, a, p);
      if OfWait(a) {
        WaitRun(s, c, q, a, p);
      } else if OfScheduler(a) {
        SchedulerRun(s, c, q, a, p);
      } else {
        SleeperRun(s, c, q, a, p);
      }
    } else if a.Alloc? {
      AllocRun(s, c, q, a, p);
      AllocFamily(s, c, q, a, p);
      AllocNumber(s, c, q, a, p);
    } else if OfFork(a) {
      ChildRun(s, c, q, a, p);
      if a.SetParent? {
        ParentFamily(s, c, q, a, p);
      } else {
        ChildFamily(s, c, q, a, p);
      }
      ChildNumber(s, c, q, a, p);
    } else if a.WaitReap? {
      WaitRun(s, c, q, a, p);
      ReapFamily(s, c, q, a, p);
      ReapNumber(s, c, q, a, p);
    } else {
      ExitRun(s, c, q, a, p);
      ExitFamily(s, c, q, a, p);
      ExitNumber(s, c, q, a, p);
    }
  }

  lemma StepPair(s: State, c: nat, q: nat, a: Step, p: nat, r: nat)
    requires Inv(s) && Can(s, c, q, a) && p < |s.procs| && r < |s.procs| && Shape(Do(s, c, q, a))
    ensures |Do(s, c, q, a).procs| == |s.procs| && PairOk(Do(s, c, q, a), p, r)
  {
    if OfWait(a) {
      WaitPair(s, c, q, a, p, r);
    } else if a.Alloc? {
      AllocPair(s, c, q, a, p, r);
    } else if OfFork(a) {
      ChildPair(s, c, q, a, p, r);
    } else if a == Exit {
      ExitPair(s, c, q, p, r);
    } else {
      QuietPair(s, c, q, a, p, r);
    }
  }

  lemma StepReaped(s: State, c: nat, q: nat, a: Step)
    requires Inv(s) && Can(s, c, q, a)
    ensures Distinct(Do(s, c, q, a).reaped)
  {
    Facts(s, c, q, a, Target(s, c, q, a));
    hide Inv, PairOk, CpuOk, RunOk, FamilyOk;
  }

  lemma StepSizes(s: State, c: nat, q: nat, a: Step)
    requires Inv(s) && Can(s, c, q, a)
    ensures |Do(s, c, q, a).procs| == |s.procs| && |Do(s, c, q, a).current| == |s.current|
  {
  }

  lemma StepKeepsInv(s: State, c: nat, q: nat, a: Step)
    requires Inv(s) && Can(s, c, q, a)
    ensures Inv(Do(s, c, q, a))
  {
    var s' := Do(s, c, q, a);
    StepSizes(s, c, q, a);
    StepSlot(s, c, q, a, s.init);
    StepReaped(s, c, q, a);
    hide Do, Can, SlotOk, PairOk, CpuOk, SerialOk, Shape, Distinct;
    forall p | 0 <= p < |s'.procs| ensures SlotOk(s', p) { StepSlot(s, c, q, a, p); }
    forall p, r | 0 <= p < |s'.procs| && 0 <= r < |s'.procs| ensures PairOk(s', p, r) { StepPair(s, c, q, a, p, r); }
    forall d | 0 <= d < |s'.current| ensures CpuOk(s', d) { StepCpu(s, c, q, a, d); }
    forall e: nat ensures SerialOk(s', e) { StepSerial(s, c, q, a, e); }
  }

  // userinit: the first process, in slot 0.
  ghost function Init(nproc: nat, ncpu: nat): State
    requires nproc >= 1
  {
    var free := seq(nproc, _ => Proc(UNUSED, 0, None, None, false));
    State(free[0 := Proc(RUNNABLE, 1, None, None, false)], seq(nproc, _ => Plain), seq(ncpu, _ => None), None, 0,
          1, seq(nproc, _ => 1), map[1 := 0], seq(nproc, _ => 0), {}, [])
  }

  lemma InitInv(nproc: nat, ncpu: nat)
    requires nproc >= 1
    ensures Inv(Init(nproc, ncpu))
  {
    var s := Init(nproc, ncpu);
    forall p | 0 <= p < |s.procs| ensures SlotOk(s, p) {}
    forall p, r | 0 <= p < |s.procs| && 0 <= r < |s.procs| ensures PairOk(s, p, r) {}
    forall d | 0 <= d < |s.current| ensures CpuOk(s, d) {}
  }

  datatype Move = Move(cpu: nat, proc: nat, step: Step)

  ghost predicate Possible(s: State, run: seq<Move>)
    decreases |run|
  {
    run == [] || (Can(s, run[0].cpu, run[0].proc, run[0].step)
                  && Possible(Do(s, run[0].cpu, run[0].proc, run[0].step), run[1..]))
  }

  ghost function After(s: State, run: seq<Move>): State
    requires Possible(s, run)
    decreases |run|
  {
    if run == [] then s else After(Do(s, run[0].cpu, run[0].proc, run[0].step), run[1..])
  }

  lemma {:induction false} RunKeepsInv(s: State, run: seq<Move>)
    requires Inv(s) && Possible(s, run)
    ensures Inv(After(s, run))
    decreases |run|
  {
    if run != [] {
      StepKeepsInv(s, run[0].cpu, run[0].proc, run[0].step);
      RunKeepsInv(Do(s, run[0].cpu, run[0].proc, run[0].step), run[1..]);
    }
  }

  // ----- what it means, in every run

  ghost predicate Live(s: State, p: nat) {
    p < |s.procs| && s.procs[p].status != UNUSED
  }

  // Two live processes have the same pid only if 2^32 or more were created in between;
  // pids are positive up to the 2^31-th, which is negative.
  lemma PidsUnique(s: State, p: nat, r: nat)
    requires Inv(s) && Live(s, p) && Live(s, r) && p != r
    ensures s.serials[p] != s.serials[r]
    ensures s.procs[p].pid == s.procs[r].pid <==> s.serials[p] % WORD == s.serials[r] % WORD
    ensures s.count < WORD ==> s.procs[p].pid != s.procs[r].pid
    ensures s.procs[p].pid > 0 <==> 0 < s.serials[p] % WORD < WORD / 2
    ensures s.count < WORD / 2 ==> s.procs[p].pid > 0
  {
    assert SlotOk(s, p) && SlotOk(s, r);
  }

  // Parents are alive; a process that waits in its sleep has no zombie to reap; a
  // RUNNING process is the current one of exactly one CPU.
  lemma Safety(nproc: nat, ncpu: nat, run: seq<Move>, p: nat, r: nat, c: nat, d: nat)
    requires nproc >= 1 && Possible(Init(nproc, ncpu), run)
    ensures var s := After(Init(nproc, ncpu), run);
            && Inv(s)
            && (p < |s.procs| && s.procs[p].parent == Some(r) ==> r < |s.procs| && Alive(s.procs[r]))
            && (p < |s.procs| && r < |s.procs| && s.procs[r].status == SLEEPING
                && s.procs[r].chan == Some(WaitChan(r)) ==>
                  !IsZombieChild(s.procs[p], r))
            && (p < |s.procs| && s.procs[p].status == RUNNING ==>
                exists e :: 0 <= e < |s.current| && s.current[e] == Some(p))
            && (c < |s.current| && d < |s.current| && s.current[c] == Some(p) && s.current[d] == Some(p) ==>
                  c == d && p < |s.procs| && s.procs[p].status == RUNNING)
  {
    InitInv(nproc, ncpu);
    RunKeepsInv(Init(nproc, ncpu), run);
    var s := After(Init(nproc, ncpu), run);
    if p < |s.procs| {
      assert SlotOk(s, p);
      if r < |s.procs| {
        assert PairOk(s, p, r) && SlotOk(s, r);
      }
    }
    if c < |s.current| && d < |s.current| {
      assert CpuOk(s, c) && CpuOk(s, d);
    }
  }

  // Every process that exits is a zombie until it is reaped, and is reaped once.
  lemma ZombiesReapedOnce(s: State, e: nat)
    requires Inv(s)
    ensures e in s.reaped ==> e in s.exited
    ensures e in s.exited <==> e in s.reaped || exists p :: IsZombie(s, p, e)
    ensures forall p :: IsZombie(s, p, e) ==> e !in s.reaped
    ensures Distinct(s.reaped)
  {
    assert SerialOk(s, e);
    if e in s.exited && e !in s.reaped {
      assert IsZombie(s, s.homes[e], e);
    }
    forall p | IsZombie(s, p, e)
      ensures e in s.exited && e !in s.reaped
    {
      assert SlotOk(s, p);
    }
  }

  ghost predicate IsZombie(s: State, p: nat, e: nat) {
    |s.serials| == |s.procs| && p < |s.procs| && s.procs[p].status == ZOMBIE && s.serials[p] == e
  }

  // ----- nothing is stuck

  lemma {:induction false} FirstOfAny(procs: seq<Proc>, q: nat, n: nat) returns (i: nat)
    requires n < |procs| && IsZombieChild(procs[n], q)
    ensures FirstZombieChild(procs, q, i)
    decreases n
  {
    if k: nat :| k < n && IsZombieChild(procs[k], q) {
      i := FirstOfAny(procs, q, k);
    } else {
      i := n;
    }
  }

  // Whatever wait finds, it has a step.
  lemma WaitHasStep(s: State, c: nat, q: nat) returns (a: Step)
    requires InWait(s, c, q)
    ensures OfWait(a) && Can(s, c, q, a)
  {
    if HasZombieChild(s.procs, q) {
      var n: nat :| n < |s.procs| && IsZombieChild(s.procs[n], q);
      var i := FirstOfAny(s.procs, q, n);
      a := WaitReap(i);
    } else {
      a := if HasChild(s.procs, q) && !s.procs[q].killed then WaitSleep else WaitNone;
    }
  }

  // A CPU that need not wait for the lock has a step: its scheduler takes and gives up
  // the lock, and may pick any RUNNABLE process.
  lemma SchedulerGoesOn(s: State, c: nat, q: nat, p: nat)
    requires Inv(s) && c < |s.current| && s.current[c] == None && (s.holder == None || s.holder == Some(c))
    ensures s.holder == None ==> Can(s, c, q, SchedAcquire)
    ensures s.holder == Some(c) ==> Can(s, c, q, SchedRelease)
    ensures s.holder == Some(c) && p < |s.procs| && s.procs[p].status == RUNNABLE ==> Can(s, c, q, SchedPick(p))
  {
  }

  // A process that comes back from a switch goes on with what it was doing.
  lemma ResumedGoesOn(s: State, c: nat, q: nat)
    requires Inv(s) && c < |s.current| && s.current[c] == Some(q) && s.holder == Some(c)
    ensures q < |s.phases|
    ensures if s.phases[q] == Waiting then exists a :: OfWait(a) && Can(s, c, q, a) else Can(s, c, q, Resume)
  {
    assert CpuOk(s, c);
    hide Inv, SlotOk, PairOk, SerialOk, HasZombieChild, HasChild;
    if InWait(s, c, q) {
      var a := WaitHasStep(s, c, q);
    }
  }

  // Any other may sleep and yield, wait and, unless it is init, exit; fork takes the first
  // free slot, and goes on or fails.  Everybody may wake and kill.
  lemma ProcessGoesOn(s: State, c: nat, q: nat, p: nat, addr: int)
    requires Inv(s) && c < |s.current| && s.current[c] == Some(q) && s.holder == None
    ensures Can(s, c, q, SleepOn(addr)) && Can(s, c, q, Yield) && Can(s, c, q, Wakeup(addr))
    ensures p < |s.procs| ==> Can(s, c, q, Kill(p))
    ensures q < |s.phases| && !s.phases[q].Waiting?
    ensures match s.phases[q]
            case Plain =>
              && (exists a :: OfWait(a) && Can(s, c, q, a)) && (q != s.init ==> Can(s, c, q, Exit))
              && (FirstUnused(s.procs, p) ==> Can(s, c, q, Alloc(p)))
            case Fork1(_) => Can(s, c, q, SetParent) && Can(s, c, q, ForkFail)
            case Fork2(_) => Can(s, c, q, MakeRunnable)
            case Waiting => false
  {
    assert CpuOk(s, c) && SlotOk(s, q);
    hide Inv, PairOk, SerialOk, NumberOk, HasZombieChild, HasChild;
    if InWait(s, c, q) {
      var a := WaitHasStep(s, c, q);
    }
  }

  // ----- sleeping and waking, in every run

  // wakeup(addr): exactly the processes asleep on addr become RUNNABLE; nothing else
  // in the system changes.
  lemma WakeupExact(s: State, c: nat, q: nat, addr: int, p: nat)
    requires Inv(s) && Can(s, c, q, Wakeup(addr)) && p < |s.procs|
    ensures var s' := Do(s, c, q, Wakeup(addr));
            && s' == s.(procs := s'.procs) && |s'.procs| == |s.procs|
            && !(s'.procs[p].status == SLEEPING && s'.procs[p].chan == Some(Other(addr)))
            && s'.procs[p] == (if s.procs[p].status == SLEEPING && s.procs[p].chan == Some(Other(addr))
                               then s.procs[p].(status := RUNNABLE) else s.procs[p])
  {
  }

  ghost predicate AsleepOn(s: State, q: nat, addr: int) {
    q < |s.procs| && s.procs[q].status == SLEEPING && s.procs[q].chan == Some(Other(addr))
  }

  // One step puts a process to sleep on addr, or leaves it asleep there.
  lemma SleepStep(s: State, c: nat, q: nat, a: Step, p: nat, addr: int)
    requires Inv(s) && Can(s, c, q, a) && p < |s.procs|
    ensures AsleepOn(Do(s, c, q, a), p, addr) <==>
            (a == SleepOn(addr) && p == q) || (AsleepOn(s, p, addr) && a != Wakeup(addr) && a != Kill(p))
  {
    hide Inv, SerialOk, PairOk, NumberOk, HasZombieChild, HasChild;
    Facts(s, c, q, a, p);
    Facts(s, c, q, a, Target(s, c, q, a));
  }

  // The last time that process p went to sleep on addr, nobody has woken or killed it since.
  ghost predicate StillAsleep(run: seq<Move>, p: nat, addr: int)
    decreases |run|
  {
    && run != []
    && var m := run[|run| - 1];
       || (m.step == SleepOn(addr) && m.proc == p)
       || (StillAsleep(run[..|run| - 1], p, addr) && m.step != Wakeup(addr) && m.step != Kill(p))
  }

  // A process sleeps on addr exactly if it went to sleep there and no wakeup of addr and
  // no kill came after: none is lost and none is spurious.
  lemma {:induction false} SleepsUntilWoken(nproc: nat, ncpu: nat, run: seq<Move>, p: nat, addr: int)
    requires nproc >= 1 && Possible(Init(nproc, ncpu), run) && p < nproc
    ensures AsleepOn(After(Init(nproc, ncpu), run), p, addr) <==> StillAsleep(run, p, addr)
    decreases |run|
  {
    hide Can, Do, Inv, AsleepOn;
    if run == [] {
      NobodyAsleep(nproc, ncpu, p, addr);
    } else {
      var s, m := RunBefore(nproc, ncpu, run);
      SleepsUntilWoken(nproc, ncpu, run[..|run| - 1], p, addr);
      SleepStep(s, m.cpu, m.proc, m.step, p, addr);
    }
  }

  lemma NobodyAsleep(nproc: nat, ncpu: nat, p: nat, addr: int)
    requires nproc >= 1
    ensures !AsleepOn(Init(nproc, ncpu), p, addr)
  {
  }

  // The last move of a run and the state it starts from.
  lemma RunBefore(nproc: nat, ncpu: nat, run: seq<Move>) returns (s: State, m: Move)
    requires nproc >= 1 && Possible(Init(nproc, ncpu), run) && run != []
    ensures m == run[|run| - 1] && Possible(Init(nproc, ncpu), run[..|run| - 1])
    ensures s == After(Init(nproc, ncpu), run[..|run| - 1]) && Inv(s) && |s.procs| == nproc
    ensures Can(s, m.cpu, m.proc, m.step) && After(Init(nproc, ncpu), run) == Do(s, m.cpu, m.proc, m.step)
  {
    hide Can, Do, Inv;
    InitInv(nproc, ncpu);
    Sizes(Init(nproc, ncpu), run[..|run| - 1], run);
    RunKeepsInv(Init(nproc, ncpu), run[..|run| - 1]);
    s, m := After(Init(nproc, ncpu), run[..|run| - 1]), run[|run| - 1];
  }

  lemma {:induction false} Sizes(s: State, before: seq<Move>, run: seq<Move>)
    requires Inv(s) && Possible(s, run) && run != [] && before == run[..|run| - 1]
    ensures Possible(s, before) && |After(s, before).procs| == |s.procs|
    ensures var t, m := After(s, before), run[|run| - 1];
            Can(t, m.cpu, m.proc, m.step) && After(s, run) == Do(t, m.cpu, m.proc, m.step)
    decreases |run|
  {
    hide Can, Do, Inv;
    if |run| > 1 {
      var t := Do(s, run[0].cpu, run[0].proc, run[0].step);
      StepKeepsInv(s, run[0].cpu, run[0].proc, run[0].step);
      StepSizes(s, run[0].cpu, run[0].proc, run[0].step);
      assert run[1..][..|run| - 2] == before[1..];
      Sizes(t, before[1..], run[1..]);
    } else {
      assert run[1..] == [];
    }
  }

  // ----- kill, in every run

  lemma KillStep(s: State, c: nat, q: nat, a: Step, p: nat)
    requires Inv(s) && Can(s, c, q, a) && p < |s.procs|
    ensures |Do(s, c, q, a).procs| == |s.procs|
    ensures Do(s, c, q, a).procs[p].killed <==> a == Kill(p) || (s.procs[p].killed && a != WaitReap(p))
  {
    if a == Exit {
      ExitFields(s.procs, q, s.init, p);
    }
    hide Inv, SlotOk, PairOk, CpuOk, SerialOk, HasZombieChild, HasChild, ExitSlot, ExitAll;
  }

  // Slot p was killed, and not reaped since.
  ghost predicate StillKilled(run: seq<Move>, p: nat)
    decreases |run|
  {
    && run != []
    && var a := run[|run| - 1].step;
       a == Kill(p) || (StillKilled(run[..|run| - 1], p) && a != WaitReap(p))
  }

  // The mark that kill leaves stays exactly until the process is reaped.
  lemma {:induction false} KilledUntilReaped(nproc: nat, ncpu: nat, run: seq<Move>, p: nat)
    requires nproc >= 1 && Possible(Init(nproc, ncpu), run) && p < nproc
    ensures var s := After(Init(nproc, ncpu), run);
            p < |s.procs| && (s.procs[p].killed <==> StillKilled(run, p))
    decreases |run|
  {
    hide Can, Do, Inv;
    if run != [] {
      var s, m := RunBefore(nproc, ncpu, run);
      KilledUntilReaped(nproc, ncpu, run[..|run| - 1], p);
      KillStep(s, m.cpu, m.proc, m.step, p);
    }
  }

  // A slot without a process has pid 0, or the pid that a failed fork left in it; the
  // pid of a process that exited is gone once it is reaped.
  lemma FreeSlotPid(s: State, p: nat)
    requires Inv(s) && p < |s.procs| && s.procs[p].status == UNUSED
    ensures s.procs[p].pid == 0 || (s.procs[p].pid == Pid(s.serials[p]) && s.serials[p] !in s.exited)
    ensures s.serials[p] in s.reaped ==> s.procs[p].pid == 0
  {
    assert SlotOk(s, p) && SerialOk(s, s.serials[p]);
  }

  lemma NoMoves(s: State)
    ensures Possible(s, []) && After(s, []) == s
  {
  }

  lemma {:induction false} Then(s: State, run: seq<Move>, m: Move)
    requires Possible(s, run) && Can(After(s, run), m.cpu, m.proc, m.step)
    ensures Possible(s, run + [m]) && After(s, run + [m]) == Do(After(s, run), m.cpu, m.proc, m.step)
    decreases |run|
  {
    hide Can, Do;
    var longer := run + [m];
    if run == [] {
      assert longer[1..] == [];
    } else {
      Then(Do(s, run[0].cpu, run[0].proc, run[0].step), run[1..], m);
      assert longer[1..] == run[1..] + [m];
    }
  }

  // kill(0) finds the first slot without a process: the process that fork then puts there
  // starts out killed.
  lemma BornKilled() returns (run: seq<Move>)
    ensures Possible(Init(2, 1), run) && |run| == 7 && run[0].step == Kill(1)
    ensures FirstPid(Init(2, 1).procs, 0, 1) && forall k :: 0 < k < |run| ==> !run[k].step.Kill?
    ensures var s := After(Init(2, 1), run);
            |s.procs| == 2 && s.procs[1] == Proc(RUNNABLE, 2, Some(0), None, true)
  {
    hide Possible, After, HasZombieChild, HasChild, FirstZombieChild, ExitAll, ExitSlot, WakeAll, WakeOne, Reap;
    var acts := [Kill(1), SchedAcquire, SchedPick(0), Resume, Alloc(1), SetParent, MakeRunnable];
    var s0 := Init(2, 1);
    var born := Proc(RUNNABLE, 1, None, None, false);
    var s, k := s0, 0;
    run := [];
    NoMoves(s0);
    assert s.procs == [born, Proc(UNUSED, 0, None, None, false)];
    while k < 7
      invariant 0 <= k <= 7 && |run| == k && Possible(s0, run) && s == After(s0, run)
      invariant forall j :: 0 <= j < k ==> run[j].step == acts[j]
      invariant |s.phases| == |s.serials| == |s.cpuOf| == 2 && |s.current| == 1 && s.count == if k < 5 then 1 else 2
      invariant s.phases[0] == if k == 5 then Fork1(1) else if k == 6 then Fork2(1) else Plain
      invariant s.holder == if k == 2 || k == 3 then Some(0) else None
      invariant s.current[0] == if k < 3 then None else Some(0)
      invariant s.procs == [if k < 3 then born else born.(status := RUNNING),
                            Proc(if k < 5 then UNUSED else if k < 7 then EMBRYO else RUNNABLE, if k < 5 then 0 else 2,
                                 if k < 6 then None else Some(0), None, k > 0)]
    {
      Then(s0, run, Move(0, 0, acts[k]));
      run, s := run + [Move(0, 0, acts[k])], Do(s, 0, 0, acts[k]);
      k := k + 1;
    }
  }
}
