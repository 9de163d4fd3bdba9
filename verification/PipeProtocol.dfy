/**
  Readers, writers and closers of one pipe, interleaved at lock granularity.

  One step is one process's next action between two lock operations.  `lock` is the
  pipe's lock and `pt` the process-table lock, each with its holder.  `sleep` takes
  three steps: acquire `pt`, release `lock`, then become SLEEPING and give up `pt`;
  a `wakeup` is one step that needs `pt` to be free.

  `rref` and `wref` say whether the two ends still have references; an end is
  closed when its last reference goes, so never while a process is inside a read or
  a write through it.
 */
module PipeProtocol {
  import opened PipeRing

  datatype Option<T> = None | Some(value: T)

  // Where a process is.  `owes` marks a writer that has stored bytes since its last
  // wakeup of the readers.
  datatype Pc =
    | Out
    | WEnter(addr: seq<Byte>)
    | WLoop(addr: seq<Byte>, i: nat, owes: bool)   // holds lock
    | WSleep1(addr: seq<Byte>, i: nat)             // holds lock
    | WSleep2(addr: seq<Byte>, i: nat)             // holds lock and pt
    | WSleep3(addr: seq<Byte>, i: nat)             // holds pt
    | WAsleep(addr: seq<Byte>, i: nat)
    | WWoken(addr: seq<Byte>, i: nat)
    | WEnd                                         // holds lock
    | REnter(n: nat)
    | RLoop(n: nat)                                // holds lock
    | RSleep1(n: nat)                              // holds lock
    | RSleep2(n: nat)                              // holds lock and pt
    | RSleep3(n: nat)                              // holds pt
    | RAsleep(n: nat)
    | RWoken(n: nat)
    | RCopy(n: nat, out: seq<Byte>)                // holds lock
    | REnd(out: seq<Byte>)                         // holds lock
    | CEnter(writable: bool)
    | CMarked(writable: bool)                      // holds lock
    | CEnd                                         // holds lock

  datatype State = State(pipe: Pipe, lock: Option<nat>, pt: Option<nat>, procs: seq<Pc>, killed: set<nat>,
                         rref: bool, wref: bool, freed: bool)

  datatype Action =
    | StartWrite(addr: seq<Byte>) | StartRead(n: nat) | StartClose(writable: bool)
    | Acquire | Release
    | Store | Announce | WriteFull | WriteGiveUp
    | ReadWait | ReadReady | ReadGiveUp | Load | ReadDone
    | SleepAcquire | SleepRelease | SleepMark
    | CloseWake
    | Kill

  // ----- the steps

  predicate Can(s: State, p: nat, a: Action) {
    && p < |s.procs| && |s.pipe.data| == PIPESIZE
    && var pc := s.procs[p];
       match a
       case StartWrite(_) => pc.Out? && s.wref && !s.freed
       case StartRead(_) => pc.Out? && s.rref && !s.freed
       case StartClose(w) => pc.Out? && !s.freed
         && (if w then s.wref && NoneWriting(s.procs) else s.rref && NoneReading(s.procs))
       case Acquire => s.lock == None && (pc.WEnter? || pc.WWoken? || pc.REnter? || pc.RWoken? || pc.CEnter?)
       case Release => pc.WEnd? || pc.REnd? || pc.CEnd?
       case Store => pc.WLoop? && pc.i < |pc.addr| && !Full(s.pipe)
       case Announce => pc.WLoop? && pc.i >= |pc.addr| && s.pt == None
       case WriteFull => pc.WLoop? && pc.i < |pc.addr| && Full(s.pipe) && s.pipe.readopen && p !in s.killed
         && s.pt == None
       case WriteGiveUp => pc.WLoop? && pc.i < |pc.addr| && Full(s.pipe) && (!s.pipe.readopen || p in s.killed)
       case ReadWait => pc.RLoop? && Empty(s.pipe) && s.pipe.writeopen && p !in s.killed
       case ReadGiveUp => pc.RLoop? && Empty(s.pipe) && s.pipe.writeopen && p in s.killed
       case ReadReady => pc.RLoop? && !(Empty(s.pipe) && s.pipe.writeopen)
       case Load => pc.RCopy? && |pc.out| < pc.n && !Empty(s.pipe)
       case ReadDone => pc.RCopy? && (|pc.out| >= pc.n || Empty(s.pipe)) && s.pt == None
       case SleepAcquire => (pc.WSleep1? || pc.RSleep1?) && s.pt == None
       case SleepRelease => pc.WSleep2? || pc.RSleep2?
       case SleepMark => pc.WSleep3? || pc.RSleep3?
       case CloseWake => pc.CMarked? && s.pt == None
       case Kill => s.pt == None
  }

  predicate NoneWriting(procs: seq<Pc>) {
    forall q :: 0 <= q < |procs| ==> !Writing(procs[q])
  }

  predicate NoneReading(procs: seq<Pc>) {
    forall q :: 0 <= q < |procs| ==> !Reading(procs[q])
  }

  predicate Writing(pc: Pc) {
    pc.WEnter? || pc.WLoop? || pc.WSleep1? || pc.WSleep2? || pc.WSleep3? || pc.WAsleep? || pc.WWoken? || pc.WEnd?
  }

  predicate Reading(pc: Pc) {
    pc.REnter? || pc.RLoop? || pc.RSleep1? || pc.RSleep2? || pc.RSleep3? || pc.RAsleep? || pc.RWoken? || pc.RCopy?
      || pc.REnd?
  }

  // wakeup(&p->nread), wakeup(&p->nwrite): the scan over the process table.
  function Awake(pc: Pc, readers: bool): Pc {
    if readers && pc.RAsleep? then RWoken(pc.n)
    else if !readers && pc.WAsleep? then WWoken(pc.addr, pc.i)
    else pc
  }

  function Wakeup(procs: seq<Pc>, readers: bool): (r: seq<Pc>)
    ensures |r| == |procs| && forall q :: 0 <= q < |procs| ==> r[q] == Awake(procs[q], readers)
  {
    seq(|procs|, q requires 0 <= q < |procs| => Awake(procs[q], readers))
  }

  function Acquired(s: State, p: nat): State
    requires p < |s.procs|
  {
    var pc := s.procs[p];
    var s' := s.(lock := Some(p));
    match pc
    case WEnter(addr) => s'.(procs := s.procs[p := WLoop(addr, 0, false)])
    case WWoken(addr, i) => s'.(procs := s.procs[p := WLoop(addr, i, false)])
    case REnter(n) => s'.(procs := s.procs[p := RLoop(n)])
    case RWoken(n) => s'.(procs := s.procs[p := RLoop(n)])
    case CEnter(w) =>
      s'.(pipe := if w then s.pipe.(writeopen := false)
          else s.pipe.(readopen := false), procs := s.procs[p := CMarked(w)])
    case _ => s
  }

  // Releasing at the end of an operation; the closer that finds both ends closed
  // frees the pipe.
  function Released(s: State, p: nat): State
    requires p < |s.procs|
  {
    s.(lock := None, procs := s.procs[p := Out],
       freed := s.freed || (s.procs[p].CEnd? && !s.pipe.readopen && !s.pipe.writeopen))
  }

  function Do(s: State, p: nat, a: Action): State
    requires Can(s, p, a)
  {
    var pc := s.procs[p];
    match a
    case StartWrite(addr) => s.(procs := s.procs[p := WEnter(addr)])
    case StartRead(n) => s.(procs := s.procs[p := REnter(n)])
    case StartClose(w) => (if w then s.(wref := false) else s.(rref := false)).(procs := s.procs[p := CEnter(w)])
    case Acquire => Acquired(s, p)
    case Release => Released(s, p)
    case Store => s.(pipe := Put(s.pipe, pc.addr[pc.i]), procs := s.procs[p := WLoop(pc.addr, pc.i + 1, true)])
    case Announce => s.(procs := Wakeup(s.procs, true)[p := WEnd])
    case WriteFull => s.(procs := Wakeup(s.procs, true)[p := WSleep1(pc.addr, pc.i)])
    case WriteGiveUp => s.(lock := None, procs := s.procs[p := Out])
    case ReadWait => s.(procs := s.procs[p := RSleep1(pc.n)])
    case ReadGiveUp => s.(lock := None, procs := s.procs[p := Out])
    case ReadReady => s.(procs := s.procs[p := RCopy(pc.n, [])])
    case Load => s.(pipe := Take(s.pipe), procs := s.procs[p := RCopy(pc.n, pc.out + [Head(s.pipe)])])
    case ReadDone => s.(procs := Wakeup(s.procs, false)[p := REnd(pc.out)])
    case SleepAcquire => s.(pt := Some(p),
                            procs := s.procs[p := if pc.WSleep1? then WSleep2(pc.addr, pc.i) else RSleep2(pc.n)])
    case SleepRelease => s.(lock := None,
                            procs := s.procs[p := if pc.WSleep2? then WSleep3(pc.addr, pc.i) else RSleep3(pc.n)])
    case SleepMark => s.(pt := None,
                         procs := s.procs[p := if pc.WSleep3? then WAsleep(pc.addr, pc.i) else RAsleep(pc.n)])
    case CloseWake => s.(procs := Wakeup(s.procs, pc.writable)[p := CEnd])
    case Kill => s.(killed := s.killed + {p}, procs := s.procs[p := Awake(Awake(pc, true), false)])
  }

  function Init(n: nat, data: seq<Byte>): State {
    State(Pipe(data, 0, 0, true, true, [], []), None, None, seq(n, _ => Out), {}, true, true, false)
  }

  // ----- the invariant

  predicate HoldsLock(pc: Pc) {
    || pc.WLoop? || pc.WSleep1? || pc.WSleep2? || pc.WEnd?
    || pc.RLoop? || pc.RSleep1? || pc.RSleep2? || pc.RCopy? || pc.REnd? || pc.CMarked? || pc.CEnd?
  }

  predicate HoldsPt(pc: Pc) {
    pc.WSleep2? || pc.WSleep3? || pc.RSleep2? || pc.RSleep3?
  }

  // The process that holds the lock has yet to wake the readers (writers).
  ghost predicate Owed(s: State, readers: bool) {
    && s.lock.Some? && s.lock.value < |s.procs|
    && var pc := s.procs[s.lock.value];
       if readers then (pc.WLoop? && pc.owes) || pc == CMarked(true)
       else (pc.RCopy? && pc.out != []) || pc == CMarked(false)
  }

  ghost predicate MayReadSleep(s: State) {
    Empty(s.pipe) && s.pipe.writeopen
  }

  ghost predicate MayWriteSleep(s: State) {
    Full(s.pipe) && s.pipe.readopen
  }

  ghost predicate ProcOk(s: State, p: nat)
    requires p < |s.procs|
  {
    var pc := s.procs[p];
    && (HoldsLock(pc) <==> s.lock == Some(p))
    && (HoldsPt(pc) <==> s.pt == Some(p))
    && (Writing(pc) ==> s.wref)
    && (Reading(pc) ==> s.rref)
    && (pc == CEnter(true) ==> !s.wref && s.pipe.writeopen)
    && (pc == CEnter(false) ==> !s.rref && s.pipe.readopen)
    && (pc == CMarked(true) ==> !s.pipe.writeopen)
    && (pc == CMarked(false) ==> !s.pipe.readopen)
    && (s.freed ==> pc.Out?)
    && (pc.RSleep1? || pc.RSleep2? ==> MayReadSleep(s))
    && (pc.RSleep3? || pc.RAsleep? ==> MayReadSleep(s) || Owed(s, true))
    && (pc.WSleep1? || pc.WSleep2? ==> MayWriteSleep(s))
    && (pc.WSleep3? || pc.WAsleep? ==> MayWriteSleep(s) || Owed(s, false))
  }

  // Only one process closes an end.
  ghost predicate OneCloser(s: State, p: nat, q: nat)
    requires p < |s.procs| && q < |s.procs|
  {
    s.procs[p].CEnter? && s.procs[p] == s.procs[q] ==> p == q
  }

  ghost predicate Inv(s: State) {
    && RingOk(s.pipe)
    && (s.lock.Some? ==> s.lock.value < |s.procs|) && (s.pt.Some? ==> s.pt.value < |s.procs|)
    && (s.wref ==> s.pipe.writeopen) && (s.rref ==> s.pipe.readopen)
    && (s.freed ==> !s.rref && !s.wref)
    && (s.freed <==> !s.pipe.readopen && !s.pipe.writeopen && s.lock == None)
    && (forall p :: 0 <= p < |s.procs| ==> ProcOk(s, p))
    && (forall p, q :: 0 <= p < |s.procs| && 0 <= q < |s.procs| ==> OneCloser(s, p, q))
  }

  // A reader that has decided to sleep.
  ghost predicate ReaderSleeps(s: State) {
    exists q :: 0 <= q < |s.procs| && (s.procs[q].RSleep3? || s.procs[q].RAsleep?)
  }

  // A killed writer is about to leave a full pipe without waking the reader that
  // sleeps on it.
  ghost predicate Abandons(s: State, p: nat, a: Action) {
    a == WriteGiveUp && p < |s.procs| && s.procs[p].WLoop? && s.procs[p].owes && ReaderSleeps(s)
  }

  lemma InitInv(n: nat, data: seq<Byte>)
    requires |data| == PIPESIZE
    ensures Inv(Init(n, data))
  {
    var s := Init(n, data);
    forall p | 0 <= p < |s.procs| ensures ProcOk(s, p) {}
    forall p, q | 0 <= p < |s.procs| && 0 <= q < |s.procs| ensures OneCloser(s, p, q) {}
  }

  lemma FlagsKeepRing(p: Pipe, r: bool, w: bool)
    requires RingOk(p)
    ensures RingOk(p.(readopen := r, writeopen := w))
  {
    var q := p.(readopen := r, writeopen := w);
    forall k | |q.got| <= k < |q.written| ensures Held(q, k) { assert Held(p, k); }
  }

  lemma StepRing(s: State, p: nat, a: Action)
    requires Inv(s) && Can(s, p, a)
    ensures RingOk(Do(s, p, a).pipe)
  {
    hide RingOk;
    if a == Store {
      PutOk(s.pipe, s.procs[p].addr[s.procs[p].i]);
    } else if a == Load {
      TakeOk(s.pipe);
    } else {
      var s' := Do(s, p, a);
      FlagsKeepRing(s.pipe, s'.pipe.readopen, s'.pipe.writeopen);
    }
  }

  lemma ProcAt(s: State, p: nat)
    requires Inv(s) && p < |s.procs|
    ensures ProcOk(s, p)
  {
  }

  lemma FlagsOf(s: State)
    requires Inv(s)
    ensures (s.wref ==> s.pipe.writeopen) && (s.rref ==> s.pipe.readopen) && (s.freed ==> !s.rref && !s.wref)
    ensures s.freed <==> !s.pipe.readopen && !s.pipe.writeopen && s.lock == None
  {
  }

  // The process that moves.
  lemma StartSelf(s: State, p: nat, a: Action)
    requires Inv(s) && Can(s, p, a) && (a.StartWrite? || a.StartRead? || a.StartClose?)
    ensures ProcOk(Do(s, p, a), p)
  {
    hide RingOk, Put, Take, Head, Full, Empty, Inv;
    ProcAt(s, p);
    FlagsOf(s);
  }

  lemma LockSelf(s: State, p: nat, a: Action)
    requires Inv(s) && Can(s, p, a) && (a.Acquire? || a.Release?)
    ensures ProcOk(Do(s, p, a), p)
  {
    hide RingOk, Put, Take, Head, Full, Empty, Inv;
    ProcAt(s, p);
    FlagsOf(s);
  }

  lemma WriteSelf(s: State, p: nat, a: Action)
    requires Inv(s) && Can(s, p, a) && (a.Store? || a.Announce? || a.WriteFull? || a.WriteGiveUp? || a.CloseWake?)
    ensures ProcOk(Do(s, p, a), p)
  {
    hide RingOk, Put, Take, Head, Full, Empty, Inv;
    ProcAt(s, p);
  }

  lemma ReadSelf(s: State, p: nat, a: Action)
    requires Inv(s) && Can(s, p, a) && (a.ReadWait? || a.ReadReady? || a.ReadGiveUp? || a.Load? || a.ReadDone?)
    ensures ProcOk(Do(s, p, a), p)
  {
    hide RingOk, Put, Take, Head, Full, Empty, Inv;
    ProcAt(s, p);
  }

  lemma SleepSelf(s: State, p: nat, a: Action)
    requires Inv(s) && Can(s, p, a) && (a.SleepAcquire? || a.SleepRelease? || a.SleepMark? || a.Kill?)
    ensures ProcOk(Do(s, p, a), p)
  {
    hide RingOk, Put, Take, Head, Full, Empty, Inv;
    ProcAt(s, p);
  }

  lemma StepSelf(s: State, p: nat, a: Action)
    requires Inv(s) && Can(s, p, a)
    ensures ProcOk(Do(s, p, a), p)
  {
    hide Inv, Can, Do;
    if a.StartWrite? || a.StartRead? || a.StartClose? {
      StartSelf(s, p, a);
    } else if a.Acquire? || a.Release? {
      LockSelf(s, p, a);
    } else if a.Store? || a.Announce? || a.WriteFull? || a.WriteGiveUp? || a.CloseWake? {
      WriteSelf(s, p, a);
    } else if a.ReadWait? || a.ReadReady? || a.ReadGiveUp? || a.Load? || a.ReadDone? {
      ReadSelf(s, p, a);
    } else {
      SleepSelf(s, p, a);
    }
  }

  // Another process, by what the step does.
  predicate Wakes(a: Action) {
    a.Announce? || a.WriteFull? || a.ReadDone? || a.CloseWake?
  }

  lemma WakeOther(s: State, p: nat, a: Action, q: nat)
    requires Inv(s) && Can(s, p, a) && q < |s.procs| && q != p && Wakes(a)
    ensures ProcOk(Do(s, p, a), q)
  {
    hide RingOk, Put, Take, Head, Full, Empty, Inv;
    ProcAt(s, p);
    ProcAt(s, q);
  }

  lemma LockOther(s: State, p: nat, a: Action, q: nat)
    requires Inv(s) && Can(s, p, a) && q < |s.procs| && q != p && (a.Acquire? || a.Release? || a.Store? || a.Load?)
    ensures ProcOk(Do(s, p, a), q)
  {
    assert ProcOk(s, p) && ProcOk(s, q) && OneCloser(s, p, q);
    hide RingOk, Put, Take, Head, Full, Empty, Inv;
  }

  lemma StartOther(s: State, p: nat, a: Action, q: nat)
    requires Inv(s) && Can(s, p, a) && q < |s.procs| && q != p && !Abandons(s, p, a)
    requires a.StartWrite? || a.StartRead? || a.StartClose? || a.ReadWait? || a.ReadReady? || a.Kill?
    ensures ProcOk(Do(s, p, a), q)
  {
    hide RingOk, Put, Take, Head, Full, Empty, Inv;
    ProcAt(s, p);
    ProcAt(s, q);
  }

  lemma GiveUpOther(s: State, p: nat, a: Action, q: nat)
    requires Inv(s) && Can(s, p, a) && q < |s.procs| && q != p && !Abandons(s, p, a)
    requires a.WriteGiveUp? || a.ReadGiveUp?
    ensures ProcOk(Do(s, p, a), q)
  {
    hide RingOk, Put, Take, Head, Full, Empty, Inv;
    ProcAt(s, p);
    ProcAt(s, q);
  }

  lemma SleepOther(s: State, p: nat, a: Action, q: nat)
    requires Inv(s) && Can(s, p, a) && q < |s.procs| && q != p && !Abandons(s, p, a)
    requires a.SleepAcquire? || a.SleepRelease? || a.SleepMark?
    ensures ProcOk(Do(s, p, a), q)
  {
    hide RingOk, Put, Take, Head, Full, Empty, Inv;
    ProcAt(s, p);
    ProcAt(s, q);
  }

  lemma CloserAt(s: State, q: nat, r: nat)
    requires Inv(s) && q < |s.procs| && r < |s.procs|
    ensures OneCloser(s, q, r)
  {
  }

  // Only StartClose makes a closer, and only of its own process.
  lemma NewCloser(s: State, p: nat, a: Action, q: nat)
    requires Can(s, p, a) && q < |s.procs|
    ensures var s' := Do(s, p, a);
            && |s'.procs| == |s.procs|
            && (s'.procs[q].CEnter? ==> s'.procs[q] == s.procs[q] || (a.StartClose? && q == p))
            && (a.StartClose? ==> s'.procs[p] == CEnter(a.writable) && if a.writable then s.wref else s.rref)
  {
    hide Put, Take, Head, Full, Empty;
  }

  lemma StepClosers(s: State, p: nat, a: Action, q: nat, r: nat)
    requires Inv(s) && Can(s, p, a) && q < |s.procs| && r < |s.procs|
    ensures OneCloser(Do(s, p, a), q, r)
  {
    hide Inv, Can, Do, MayReadSleep, MayWriteSleep, Owed, HoldsLock, HoldsPt, Writing, Reading;
    NewCloser(s, p, a, q);
    NewCloser(s, p, a, r);
    ProcAt(s, q);
    ProcAt(s, r);
    CloserAt(s, q, r);
  }

  lemma StepFlags(s: State, p: nat, a: Action)
    requires Inv(s) && Can(s, p, a)
    ensures var s' := Do(s, p, a);
            && |s'.procs| == |s.procs|
            && (s'.lock.Some? ==> s'.lock.value < |s.procs|) && (s'.pt.Some? ==> s'.pt.value < |s.procs|)
            && (s'.wref ==> s'.pipe.writeopen) && (s'.rref ==> s'.pipe.readopen)
            && (s'.freed ==> !s'.rref && !s'.wref)
            && (s'.freed <==> !s'.pipe.readopen && !s'.pipe.writeopen && s'.lock == None)
  {
    hide RingOk, Head, Full, Empty, Inv, MayReadSleep, MayWriteSleep, Owed, Put, Take;
    ProcAt(s, p);
    FlagsOf(s);
    LocksOf(s);
    if a == Store {
      PutKeeps(s.pipe, s.procs[p].addr[s.procs[p].i]);
    } else if a == Load {
      TakeKeeps(s.pipe);
    }
  }

  lemma LocksOf(s: State)
    requires Inv(s)
    ensures (s.lock.Some? ==> s.lock.value < |s.procs|) && (s.pt.Some? ==> s.pt.value < |s.procs|)
  {
  }

  // Every step keeps the invariant, except a killed writer's exit that leaves a
  // sleeping reader behind.
  lemma StepKeepsInv(s: State, p: nat, a: Action)
    requires Inv(s) && Can(s, p, a) && !Abandons(s, p, a)
    ensures Inv(Do(s, p, a))
  {
    var s' := Do(s, p, a);
    StepRing(s, p, a);
    StepFlags(s, p, a);
    forall q | 0 <= q < |s'.procs| ensures ProcOk(s', q) {
      if q == p {
        StepSelf(s, p, a);
      } else if Wakes(a) {
        WakeOther(s, p, a, q);
      } else if a.Acquire? || a.Release? || a.Store? || a.Load? {
        LockOther(s, p, a, q);
      } else if a.WriteGiveUp? || a.ReadGiveUp? {
        GiveUpOther(s, p, a, q);
      } else if a.SleepAcquire? || a.SleepRelease? || a.SleepMark? {
        SleepOther(s, p, a, q);
      } else {
        StartOther(s, p, a, q);
      }
    }
    forall q, r | 0 <= q < |s'.procs| && 0 <= r < |s'.procs| ensures OneCloser(s', q, r) {
      StepClosers(s, p, a, q, r);
    }
  }

  // That exit breaks the invariant: with the lock free the reader sleeps on a full pipe.
  lemma AbandonBreaks(s: State, p: nat)
    requires Inv(s) && Can(s, p, WriteGiveUp) && Abandons(s, p, WriteGiveUp)
    ensures var s' := Do(s, p, WriteGiveUp);
            !Inv(s') && s'.lock == None && ReaderSleeps(s') && Full(s'.pipe)
  {
    var s' := Do(s, p, WriteGiveUp);
    var q :| 0 <= q < |s.procs| && (s.procs[q].RSleep3? || s.procs[q].RAsleep?);
    assert q != p && s'.procs[q] == s.procs[q];
    assert ReaderSleeps(s');
    FullEmpty(s.pipe);
    assert !ProcOk(s', q);
  }

  // Exactly the steps that do not abandon a reader keep the invariant.
  lemma KeepsIffNotAbandons(s: State, p: nat, a: Action)
    requires Inv(s) && Can(s, p, a)
    ensures Inv(Do(s, p, a)) <==> !Abandons(s, p, a)
  {
    if Abandons(s, p, a) {
      AbandonBreaks(s, p);
    } else {
      StepKeepsInv(s, p, a);
    }
  }

  // ----- what the invariant means

  // With the lock free nobody sleeps without a reason, and bytes come out in the
  // order in which they went in.
  lemma SleepersHaveReason(s: State, q: nat)
    requires Inv(s) && s.lock == None && q < |s.procs|
    ensures s.procs[q].RAsleep? ==> |s.pipe.written| == |s.pipe.got| && s.pipe.writeopen
    ensures s.procs[q].WAsleep? ==> |s.pipe.written| == |s.pipe.got| + PIPESIZE && s.pipe.readopen
    ensures s.pipe.got <= s.pipe.written && |s.pipe.written| - |s.pipe.got| <= PIPESIZE
  {
    assert ProcOk(s, q);
    FullEmpty(s.pipe);
  }

  // Two processes never hold the same lock; the pipe is freed once both ends are closed
  // and the last closer has left, and then nobody uses it.
  lemma Exclusion(s: State, p: nat, q: nat)
    requires Inv(s) && p < |s.procs| && q < |s.procs|
    ensures HoldsLock(s.procs[p]) && HoldsLock(s.procs[q]) ==> p == q
    ensures HoldsPt(s.procs[p]) && HoldsPt(s.procs[q]) ==> p == q
    ensures s.freed ==> s.procs[p].Out? && forall a :: Can(s, p, a) ==> a.Kill?
    ensures s.freed <==> !s.pipe.readopen && !s.pipe.writeopen && s.lock == None
  {
    assert ProcOk(s, p) && ProcOk(s, q);
  }

  // A kill marks its process and wakes it exactly if it sleeps; nothing else changes.
  lemma KillExact(s: State, p: nat)
    requires Can(s, p, Kill)
    ensures Do(s, p, Kill) == s.(killed := s.killed + {p}, procs := Do(s, p, Kill).procs)
    ensures var pc, pc' := s.procs[p], Do(s, p, Kill).procs[p];
            && Do(s, p, Kill).procs == s.procs[p := pc']
            && (pc.RAsleep? ==> pc' == RWoken(pc.n)) && (pc.WAsleep? ==> pc' == WWoken(pc.addr, pc.i))
            && (!pc.RAsleep? && !pc.WAsleep? ==> pc' == pc)
  {
  }

  ghost predicate KilledAsleep(s: State, q: nat) {
    q < |s.procs| && q in s.killed && (s.procs[q].RAsleep? || s.procs[q].WAsleep?)
  }

  // A killed process comes to sleep exactly if it was killed between its test of `killed`
  // and its sleep.
  lemma KilledAsleepIff(s: State, p: nat, a: Action, q: nat)
    requires Can(s, p, a) && !KilledAsleep(s, q)
    ensures KilledAsleep(Do(s, p, a), q) <==> a == SleepMark && p == q && q in s.killed
  {
  }

  // What a process inside a call does next.
  function NextAction(s: State, p: nat): Action
    requires p < |s.procs| && !s.procs[p].Out?
  {
    match s.procs[p]
    case WLoop(addr, i, _) =>
      if i >= |addr| then Announce
      else if !Full(s.pipe) then Store
      else if s.pipe.readopen && p !in s.killed then WriteFull
      else WriteGiveUp
    case RLoop(_) =>
      if !(Empty(s.pipe) && s.pipe.writeopen) then ReadReady else if p in s.killed then ReadGiveUp else ReadWait
    case RCopy(n, out) => if |out| < n && !Empty(s.pipe) then Load else ReadDone
    case WSleep1(_, _) => SleepAcquire
    case RSleep1(_) => SleepAcquire
    case WSleep2(_, _) => SleepRelease
    case RSleep2(_) => SleepRelease
    case WSleep3(_, _) => SleepMark
    case RSleep3(_) => SleepMark
    case WAsleep(_, _) => Kill
    case RAsleep(_) => Kill
    case WEnd => Release
    case REnd(_) => Release
    case CEnd => Release
    case CMarked(_) => CloseWake
    case WEnter(_) => Acquire
    case WWoken(_, _) => Acquire
    case REnter(_) => Acquire
    case RWoken(_) => Acquire
    case CEnter(_) => Acquire
  }

  // Nobody inside a call is ever stuck awake: the holder of the process-table lock can go
  // on, then the holder of the pipe's lock, and with both free everybody else can.
  lemma NeverStuck(s: State, p: nat)
    requires Inv(s) && p < |s.procs| && !s.procs[p].Out? && !s.procs[p].WAsleep? && !s.procs[p].RAsleep?
    requires s.pt == None || s.pt == Some(p)
    requires s.lock == None || s.lock == Some(p) || s.pt == Some(p)
    ensures NextAction(s, p) != Kill && Can(s, p, NextAction(s, p))
  {
    assert ProcOk(s, p);
    hide Full, Empty, Held;
  }

  // ----- runs

  datatype Step = Step(p: nat, a: Action)

  // The run is possible from s.
  ghost predicate Possible(s: State, run: seq<Step>)
    decreases |run|
  {
    run == [] || (Can(s, run[0].p, run[0].a) && Possible(Do(s, run[0].p, run[0].a), run[1..]))
  }

  ghost function After(s: State, run: seq<Step>): State
    requires Possible(s, run)
    decreases |run|
  {
    if run == [] then s else After(Do(s, run[0].p, run[0].a), run[1..])
  }

  ghost predicate KillFree(run: seq<Step>) {
    forall k :: 0 <= k < |run| ==> run[k].a != Kill
  }

  lemma SleeperKeepsEndOpen(s: State)
    requires Inv(s)
    ensures ReaderSleeps(s) ==> s.pipe.readopen
  {
    if ReaderSleeps(s) {
      var q :| 0 <= q < |s.procs| && (s.procs[q].RSleep3? || s.procs[q].RAsleep?);
      assert ProcOk(s, q);
    }
  }

  lemma NotKilledKeeps(s: State, p: nat, a: Action)
    requires Inv(s) && s.killed == {} && Can(s, p, a) && a != Kill
    ensures Inv(Do(s, p, a)) && Do(s, p, a).killed == {}
  {
    SleeperKeepsEndOpen(s);
    StepKeepsInv(s, p, a);
  }

  // In every interleaving without kill the invariant holds at the end, so no wakeup
  // is ever lost.
  lemma {:induction false} NoLostWakeup(s: State, run: seq<Step>)
    requires Inv(s) && s.killed == {} && Possible(s, run) && KillFree(run)
    ensures Inv(After(s, run)) && After(s, run).killed == {}
    decreases |run|
  {
    if run != [] {
      NotKilledKeeps(s, run[0].p, run[0].a);
      NoLostWakeup(Do(s, run[0].p, run[0].a), run[1..]);
    }
  }

  // The invariant holds before and after every step of a run.
  ghost predicate InvThroughout(s: State, run: seq<Step>)
    requires Possible(s, run)
    decreases |run|
  {
    Inv(s) && (run == [] || InvThroughout(Do(s, run[0].p, run[0].a), run[1..]))
  }

  // No killed writer leaves a sleeping reader that it owes a wakeup.
  ghost predicate NoneAbandoned(s: State, run: seq<Step>)
    requires Possible(s, run)
    decreases |run|
  {
    run == [] || (!Abandons(s, run[0].p, run[0].a) && NoneAbandoned(Do(s, run[0].p, run[0].a), run[1..]))
  }

  // In every interleaving, with kills: the invariant holds throughout exactly if nobody
  // is abandoned.
  lemma {:induction false} InvIffNoneAbandoned(s: State, run: seq<Step>)
    requires Inv(s) && Possible(s, run)
    ensures InvThroughout(s, run) <==> NoneAbandoned(s, run)
    decreases |run|
  {
    hide Inv, Abandons, Can, Do;
    if run != [] {
      KeepsIffNotAbandons(s, run[0].p, run[0].a);
      if !Abandons(s, run[0].p, run[0].a) {
        InvIffNoneAbandoned(Do(s, run[0].p, run[0].a), run[1..]);
      }
    }
  }

  // ----- a run with kill that loses a wakeup

  lemma {:induction false} Then(s: State, run: seq<Step>, p: nat, a: Action)
    requires Possible(s, run) && Can(After(s, run), p, a)
    ensures Possible(s, run + [Step(p, a)]) && After(s, run + [Step(p, a)]) == Do(After(s, run), p, a)
    decreases |run|
  {
    var longer := run + [Step(p, a)];
    if run != [] {
      Then(Do(s, run[0].p, run[0].a), run[1..], p, a);
      assert longer[1..] == run[1..] + [Step(p, a)];
    } else {
      assert longer[1..] == [];
    }
  }

  ghost function Stores(p: nat, n: nat): seq<Step> {
    if n == 0 then [] else Stores(p, n - 1) + [Step(p, Store)]
  }

  // The pipe and the writer once n more bytes are in.
  ghost function Filled(s: State, p: nat, n: nat): State
    requires p < |s.procs| && s.procs[p].WLoop? && s.procs[p].i + n <= |s.procs[p].addr| && |s.pipe.data| == PIPESIZE
  {
    var pc := s.procs[p];
    s.(pipe := PutAll(s.pipe, pc.addr[pc.i..pc.i + n]),
       procs := s.procs[p := WLoop(pc.addr, pc.i + n, pc.owes || n > 0)])
  }

  lemma FilledNext(s: State, p: nat, n: nat)
    requires p < |s.procs| && s.procs[p].WLoop? && s.procs[p].i + n < |s.procs[p].addr| && |s.pipe.data| == PIPESIZE
    ensures var t, pc := Filled(s, p, n), s.procs[p];
            && |t.procs| == |s.procs| && t.procs[p].WLoop? && t.procs[p].addr == pc.addr && t.procs[p].i == pc.i + n
            && |t.pipe.written| == |s.pipe.written| + n && |t.pipe.got| == |s.pipe.got| && |t.pipe.data| == PIPESIZE
            && t.(pipe := Put(t.pipe, pc.addr[pc.i + n]), procs := t.procs[p := WLoop(pc.addr, pc.i + n + 1, true)]) ==
               Filled(s, p, n + 1)
  {
    var pc := s.procs[p];
    var bytes := pc.addr[pc.i..pc.i + n];
    PutAllWritten(s.pipe, bytes);
    PutAllStep(s.pipe, bytes, pc.addr[pc.i + n]);
    assert bytes + [pc.addr[pc.i + n]] == pc.addr[pc.i..pc.i + n + 1];
    hide PutAll, Put;
  }

  // A writer's steps with room for n bytes do to the pipe what its loop does: they put
  // those n bytes, in order.
  lemma {:induction false} StoresFill(s: State, p: nat, n: nat)
    requires Inv(s) && p < |s.procs| && s.procs[p].WLoop? && s.procs[p].i + n <= |s.procs[p].addr|
    requires |s.pipe.written| - |s.pipe.got| + n <= PIPESIZE
    ensures |s.pipe.data| == PIPESIZE && Possible(s, Stores(p, n)) && Inv(After(s, Stores(p, n)))
    ensures After(s, Stores(p, n)) == Filled(s, p, n)
  {
    hide *;
    FilledNone(s, p);
    if n > 0 {
      StoresFill(s, p, n - 1);
      FilledNext(s, p, n - 1);
      StoreOne(After(s, Stores(p, n - 1)), p);
      Then(s, Stores(p, n - 1), p, Store);
      StoresNext(p, n);
    }
  }

  lemma FilledNone(s: State, p: nat)
    requires Inv(s) && p < |s.procs| && s.procs[p].WLoop? && s.procs[p].i <= |s.procs[p].addr|
    ensures |s.pipe.data| == PIPESIZE && Stores(p, 0) == [] && Possible(s, []) && After(s, []) == s == Filled(s, p, 0)
  {
    PutAllNone(s.pipe);
    assert s.procs[p].addr[s.procs[p].i..s.procs[p].i] == [];
    hide RingOk, ProcOk, OneCloser;
  }

  lemma StoresNext(p: nat, n: nat)
    requires n > 0
    ensures Stores(p, n) == Stores(p, n - 1) + [Step(p, Store)]
  {
  }

  lemma StoreOne(s: State, p: nat)
    requires Inv(s) && p < |s.procs| && s.procs[p].WLoop? && s.procs[p].i < |s.procs[p].addr|
    requires |s.pipe.written| - |s.pipe.got| < PIPESIZE
    ensures Can(s, p, Store) && Inv(Do(s, p, Store))
    ensures var pc := s.procs[p];
            Do(s, p, Store) == s.(pipe := Put(s.pipe, pc.addr[pc.i]),
                                  procs := s.procs[p := WLoop(pc.addr, pc.i + 1, true)])
  {
    FullEmpty(s.pipe);
    StepKeepsInv(s, p, Store);
  }

  // Process 0 sleeps in a read, process 1 fills the pipe, is killed and leaves.
  lemma LostWakeup(data: seq<Byte>) returns (run: seq<Step>)
    requires |data| == PIPESIZE
    ensures Possible(Init(2, data), run)
    ensures var s := After(Init(2, data), run); s.lock == None && s.procs == [RAsleep(1), Out] && Full(s.pipe)
  {
    var s0 := Init(2, data);
    InitInv(2, data);
    run := ReaderAsleep(s0);
    var addr := seq<Byte>(PIPESIZE + 1, _ => 0 as Byte);
    run := WriterFills(s0, run, addr);
    hide RingOk, Possible, After, ProcOk, OneCloser, Inv, Full;
    var s := After(s0, run);
    Then(s0, run, 1, Kill);
    run, s := run + [Step(1, Kill)], Do(s, 1, Kill);
    Then(s0, run, 1, WriteGiveUp);
    run := run + [Step(1, WriteGiveUp)];
  }

  lemma WriterFills(s0: State, before: seq<Step>, addr: seq<Byte>) returns (run: seq<Step>)
    requires Possible(s0, before) && |addr| == PIPESIZE + 1
    requires var s := After(s0, before);
             && Inv(s) && s.procs == [RAsleep(1), Out] && s.lock == None && s.pt == None && s.wref && !s.freed
             && s.pipe.got == s.pipe.written == []
    ensures Possible(s0, run)
    ensures var s := After(s0, run);
            s.procs == [RAsleep(1), WLoop(addr, PIPESIZE, true)] && s.lock == Some(1) && s.pt == None && Full(s.pipe)
              && |s.pipe.data| == PIPESIZE
  {
    var s := After(s0, before);
    FullEmpty(s.pipe);
    hide RingOk, Possible, After, ProcOk, OneCloser;
    Then(s0, before, 1, StartWrite(addr));
    StepKeepsInv(s, 1, StartWrite(addr));
    run, s := before + [Step(1, StartWrite(addr))], Do(s, 1, StartWrite(addr));
    Then(s0, run, 1, Acquire);
    StepKeepsInv(s, 1, Acquire);
    run, s := run + [Step(1, Acquire)], Do(s, 1, Acquire);
    var i := 0;
    while i < PIPESIZE
      invariant Possible(s0, run) && s == After(s0, run) && Inv(s) && 0 <= i <= PIPESIZE && |s.pipe.data| == PIPESIZE
      invariant s.procs == [RAsleep(1), WLoop(addr, i, i > 0)] && s.lock == Some(1) && s.pt == None
      invariant |s.pipe.written| == i && s.pipe.got == []
    {
      FullEmpty(s.pipe);
      Then(s0, run, 1, Store);
      StepKeepsInv(s, 1, Store);
      run, s := run + [Step(1, Store)], Do(s, 1, Store);
      i := i + 1;
    }
    FullEmpty(s.pipe);
  }

  lemma RingOf(s: State)
    requires Inv(s)
    ensures RingOk(s.pipe) && |s.pipe.data| == PIPESIZE
  {
  }

  lemma NoSteps(s: State)
    ensures Possible(s, []) && After(s, []) == s
  {
  }

  // A kill that comes between the test of `killed` and the sleep is not noticed: the
  // reader sleeps although it is killed.
  lemma KilledSleeps(data: seq<Byte>) returns (run: seq<Step>)
    requires |data| == PIPESIZE
    ensures Possible(Init(1, data), run)
    ensures var s := After(Init(1, data), run); s.procs == [RAsleep(1)] && 0 in s.killed
  {
    hide RingOk, Possible, After, ProcOk, OneCloser, Inv, Put, Take, Head, Full;
    var s0 := Init(1, data);
    var acts := [StartRead(1), Acquire, ReadWait, Kill, SleepAcquire, SleepRelease, SleepMark];
    var pcs := [Out, REnter(1), RLoop(1), RSleep1(1), RSleep1(1), RSleep2(1), RSleep3(1), RAsleep(1)];
    run := [];
    NoSteps(s0);
    var s, k := s0, 0;
    while k < 7
      invariant 0 <= k <= 7 && Possible(s0, run) && s == After(s0, run)
      invariant s.procs == [pcs[k]]
      invariant s == s0.(procs := s.procs, killed := if k > 3 then {0} else {},
                         lock := if 2 <= k <= 5 then Some(0) else None, pt := if k in {5, 6} then Some(0) else None)
    {
      Then(s0, run, 0, acts[k]);
      run, s := run + [Step(0, acts[k])], Do(s, 0, acts[k]);
      k := k + 1;
    }
  }

  lemma ReaderAsleep(s0: State) returns (run: seq<Step>)
    requires Inv(s0) && s0.procs == [Out, Out] && s0.lock == None && s0.pt == None
             && s0.pipe.got == s0.pipe.written == []
    requires s0.pipe.writeopen && s0.rref && s0.wref && !s0.freed && s0.killed == {}
    ensures Possible(s0, run) && Inv(After(s0, run))
    ensures After(s0, run) == s0.(procs := [RAsleep(1), Out])
  {
    hide RingOk, Possible, After, ProcOk, OneCloser, Inv, Put, Take, Head, Full, Empty;
    RingOf(s0);
    FullEmpty(s0.pipe);
    NoSteps(s0);
    var acts := [StartRead(1), Acquire, ReadWait, SleepAcquire, SleepRelease, SleepMark];
    var pcs := [Out, REnter(1), RLoop(1), RSleep1(1), RSleep2(1), RSleep3(1), RAsleep(1)];
    run := [];
    var s, k := s0, 0;
    while k < 6
      invariant 0 <= k <= 6 && Possible(s0, run) && s == After(s0, run) && Inv(s)
      invariant s.procs == [pcs[k], Out]
      invariant s == s0.(procs := s.procs, lock := if k in {2, 3, 4} then Some(0)
                         else None, pt := if k in {4, 5} then Some(0) else None)
    {
      Then(s0, run, 0, acts[k]);
      StepKeepsInv(s, 0, acts[k]);
      run, s := run + [Step(0, acts[k])], Do(s, 0, acts[k]);
      k := k + 1;
    }
  }
}
