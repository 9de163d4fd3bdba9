/**
  Group commit as an interleaving of steps.  Operations begin, log blocks and
  end in any order; a step under log.lock is atomic, and each block write of a
  commit is a step of its own.  log_write looks at the size of the header before it
  takes the lock, so that is a step of its own too.  The machine may crash between
  any two steps.

  Two fields record what happened and are not kernel state: `writes` lists every
  logged write with the operation that made it, and `boundary` counts those that
  are committed.
 */
module GroupCommit {
  import opened RedoLog

  // `passed` says that the operation is inside log_write, past the test of the size.
  datatype Op = Op(id: nat, used: nat, passed: bool)
  datatype Write = Write(op: nat, b: int, data: Block)

  // Where commit() stands.  Logging and Installing count finished block writes.
  datatype Phase = Idle | Logging(k: nat) | Installing(k: nat) | Finishing

  datatype State = State(
    disk: Disk,
    cur: Disk,
    lh: seq<int>,
    ops: seq<Op>,
    waiting: nat,    // sleepers in begin_op
    phase: Phase,
    nextId: nat,
    writes: seq<Write>,
    boundary: nat)

  datatype Step =
    | Begin
    | Wait
    | Test(i: nat)
    | LogWrite(i: nat, b: int, data: Block)
    | End(i: nat)
    | CommitStep
    | Crash(run: seq<Disk>)

  // The contents after a list of writes.
  ghost function Apply(init: Disk, ws: seq<Write>): (d: Disk)
    ensures |d| == |init|
  {
    if ws == [] then init else
      var d := Apply(init, ws[..|ws| - 1]);
      var w := ws[|ws| - 1];
      if 0 <= w.b < |d| then d[w.b := w.data] else d
  }

  // begin_op's test for room in the log.
  predicate HasSpace(s: State) {
    |s.lh| + (|s.ops| + 1) * MAXOPBLOCKS <= LOGSIZE
  }

  // An empty log has room for three operations at once.
  lemma RoomForThree(s: State)
    requires s.lh == []
    ensures HasSpace(s) <==> |s.ops| + 1 <= 3
  {
  }

  ghost predicate Enabled(l: Layout, cap: nat, s: State, step: Step) {
    match step
    case Begin => s.phase.Idle? && HasSpace(s)
    case Wait => !s.phase.Idle? || !HasSpace(s)
    case Test(i) =>
      // not one of log_write's two panics
      && i < |s.ops| && !s.ops[i].passed && |s.lh| < LOGSIZE && |s.lh| < l.size - 1
    case LogWrite(i, b, _) =>
      // within the operation's budget
      && i < |s.ops| && s.ops[i].passed && 0 <= b < |s.disk| && !InLog(l, b)
      && (b in s.lh || s.ops[i].used < cap)
    case End(i) => i < |s.ops| && !s.ops[i].passed
    case CommitStep => !s.phase.Idle?
    case Crash(run) => CrashChain(l, run) && run[0] == s.disk
  }

  // Nothing is outside the disk and the header's array.
  ghost predicate Loose(l: Layout, s: State) {
    && IsDisk(l, s.disk) && |s.cur| == |s.disk| && |s.disk[l.start]| == WORDS
    && |s.lh| <= LOGSIZE && l.start + |s.lh| < l.nblocks && (forall j :: 0 <= j < |s.lh| ==> 0 <= s.lh[j] < l.nblocks)
    && s.boundary <= |s.writes|
    && (s.phase.Logging? || s.phase.Installing? ==> s.phase.k <= |s.lh|)
  }

  // And the header describes a transaction that fits the log.
  ghost predicate Typed(l: Layout, s: State) {
    Loose(l, s) && ValidBlocks(l, s.lh)
  }

  ghost function Do(l: Layout, cap: nat, s: State, step: Step): (t: State)
    requires Loose(l, s) && Enabled(l, cap, s, step)
  {
    match step
    case Begin =>
      s.(ops := s.ops + [Op(s.nextId, 0, false)], nextId := s.nextId + 1)
    case Wait => s.(waiting := s.waiting + 1)
    case Test(i) => s.(ops := s.ops[i := s.ops[i].(passed := true)])
    case LogWrite(i, b, data) =>
      var op := s.ops[i].(passed := false);
      var t := s.(cur := s.cur[b := data], writes := s.writes + [Write(op.id, b, data)], ops := s.ops[i := op]);
      if b in s.lh then t
      else t.(lh := s.lh + [b], ops := s.ops[i := op.(used := op.used + 1)])
    case End(i) =>
      var t := s.(ops := s.ops[..i] + s.ops[i + 1..]);
      if t.ops != [] then t.(waiting := 0)
      else if s.lh == [] then t.(phase := Finishing)
      else t.(phase := Logging(0))
    case CommitStep => DoCommit(l, s)
    case Crash(run) =>
      var d := Recover(l, run[|run| - 1]);
      State(d, d, [], [], 0, Idle, s.nextId, s.writes[..s.boundary], s.boundary)
  }

  ghost function Start(d: Disk): State {
    State(d, d, [], [], 0, Idle, 0, [], 0)
  }

  // The next action of commit(): one block write, or clearing `committing`.
  ghost function DoCommit(l: Layout, s: State): (t: State)
    requires Loose(l, s) && !s.phase.Idle?
  {
    match s.phase
    case Logging(k) =>
      if k < |s.lh| then
        s.(disk := s.disk[l.start + k + 1 := s.cur[s.lh[k]]], phase := Logging(k + 1))
      else
        s.(disk := SetHead(l, s.disk, s.lh), phase := Installing(0), boundary := |s.writes|)
    case Installing(k) =>
      if k < |s.lh| then
        s.(disk := s.disk[s.lh[k] := s.disk[l.start + k + 1]], phase := Installing(k + 1))
      else
        s.(disk := SetHead(l, s.disk, []), lh := [], phase := Finishing)
    case Finishing => s.(phase := Idle, waiting := 0)
    case Idle => s
  }

  // ----- the invariant

  // Operations and the commit boundary: nobody is inside an operation during a
  // commit, and no operation has writes on both sides of the boundary.
  ghost predicate OpsInv(s: State) {
    && Quiet(s)
    && (forall i :: 0 <= i < |s.ops| ==> s.ops[i].id < s.nextId)
    && (forall a :: 0 <= a < |s.writes| ==> s.writes[a].op < s.nextId)
    && (forall i, a :: 0 <= i < |s.ops| && 0 <= a < s.boundary <= |s.writes| ==> s.writes[a].op != s.ops[i].id)
    && OpsWhole(s)
  }

  ghost predicate Quiet(s: State) {
    && (!s.phase.Idle? ==> s.ops == [])
    && (s.phase.Idle? && s.ops == [] ==> s.lh == [])
    && (s.phase.Finishing? ==> s.lh == [])
  }

  ghost predicate OpsWhole(s: State) {
    forall a, b :: 0 <= a < s.boundary <= b < |s.writes| ==> s.writes[a].op != s.writes[b].op
  }

  // The first k log slots hold the cached copies.
  ghost predicate Slots(l: Layout, s: State, k: nat)
    requires Typed(l, s) && k <= |s.lh|
  {
    forall j :: 0 <= j < k ==> s.disk[l.start + 1 + j] == s.cur[s.lh[j]]
  }

  // The first k logged blocks are home.
  ghost predicate Installed(l: Layout, s: State, k: nat)
    requires Typed(l, s) && k <= |s.lh|
  {
    forall b :: 0 <= b < |s.disk| && !InLog(l, b) && b !in s.lh[k..] ==> s.disk[b] == s.cur[b]
  }

  ghost predicate DataInv(l: Layout, init: Disk, s: State)
    requires Typed(l, s) && |init| == |s.disk|
  {
    && SameHome(l, s.cur, Apply(init, s.writes))
    && (forall a :: s.boundary <= a < |s.writes| ==> s.writes[a].b in s.lh)
    && match s.phase
       case Logging(k) => Uncommitted(l, init, s) && Slots(l, s, k)
       case Installing(k) =>
         && s.boundary == |s.writes|
         && IsHeader(s.disk[l.start]) && DecodeHead(s.disk[l.start]) == s.lh
         && Slots(l, s, |s.lh|)
         && Installed(l, s, k)
       case _ => Uncommitted(l, init, s)
  }

  ghost predicate Uncommitted(l: Layout, init: Disk, s: State)
    requires Typed(l, s) && |init| == |s.disk|
  {
    CommitReady(l, s.disk, s.cur, s.lh) && SameHome(l, s.disk, Apply(init, s.writes[..s.boundary]))
  }

  ghost predicate Inv(l: Layout, init: Disk, s: State) {
    Typed(l, s) && |init| == |s.disk| && OpsInv(s) && DataInv(l, init, s)
  }

  // ----- what a crash at this moment would recover

  ghost predicate RecoversCommitted(l: Layout, init: Disk, s: State) {
    && Recoverable(l, s.disk)
    && s.boundary <= |s.writes|
    && SameHome(l, Recover(l, s.disk), Apply(init, s.writes[..s.boundary]))
  }

  lemma InvRecovers(l: Layout, init: Disk, s: State)
    requires Inv(l, init, s)
    ensures RecoversCommitted(l, init, s)
  {
    if s.phase.Installing? {
      InstallingRecovers(l, init, s);
    } else {
      hide Apply;
      RecoverClean(l, s.disk);
    }
  }

  lemma InstallingRecovers(l: Layout, init: Disk, s: State)
    requires Typed(l, s) && |init| == |s.disk| && s.phase.Installing? && DataInv(l, init, s)
    ensures RecoversCommitted(l, init, s)
  {
    hide Apply, Recover, SameHome, Slots, Installed;
    assert s.writes[..s.boundary] == s.writes;
    InstalledBut(l, s);
    LoggedRecovers(l, s.disk, s.cur, s.lh);
    SameHomeThen(l, Recover(l, s.disk), s.cur, Apply(init, s.writes));
  }

  lemma InstalledBut(l: Layout, s: State)
    requires Typed(l, s) && s.phase.Installing? && Slots(l, s, |s.lh|) && Installed(l, s, s.phase.k)
    ensures forall j :: 0 <= j < |s.lh| ==> s.disk[l.start + 1 + j] == s.cur[s.lh[j]]
    ensures forall b :: 0 <= b < |s.disk| && !InLog(l, b) && b !in s.lh ==> s.disk[b] == s.cur[b]
  {
    assert forall b :: b !in s.lh ==> b !in s.lh[s.phase.k..];
  }

  lemma SameHomeThen(l: Layout, a: Disk, b: Disk, c: Disk)
    requires SameHome(l, a, b) && SameHome(l, b, c)
    ensures SameHome(l, a, c)
  {
  }

  lemma InitialState(l: Layout, d: Disk)
    requires Clean(l, d)
    ensures Inv(l, d, Start(d))
  {
  }

  // ----- preservation

  // Whatever an operation's budget still allows fits the log.
  ghost predicate Room(l: Layout, cap: nat, s: State) {
    forall i :: 0 <= i < |s.ops| && s.ops[i].used < cap ==> |s.lh| < LOGSIZE && |s.lh| < l.size - 1
  }

  lemma WaitOrTestKeepsInv(l: Layout, cap: nat, init: Disk, s: State, step: Step)
    requires Inv(l, init, s) && Enabled(l, cap, s, step) && (step.Wait? || step.Test?)
    ensures Inv(l, init, Do(l, cap, s, step))
  {
    hide Apply;
    var t := Do(l, cap, s, step);
    assert forall j :: 0 <= j < |t.ops| ==> t.ops[j].id == s.ops[j].id;
  }

  lemma BeginKeepsInv(l: Layout, cap: nat, init: Disk, s: State)
    requires Inv(l, init, s) && Enabled(l, cap, s, Begin)
    ensures Inv(l, init, Do(l, cap, s, Begin))
  {
  }

  lemma LogWriteKeepsInv(l: Layout, cap: nat, init: Disk, s: State, i: nat, b: int, data: Block)
    requires Inv(l, init, s) && Enabled(l, cap, s, LogWrite(i, b, data)) && Room(l, cap, s)
    ensures Inv(l, init, Do(l, cap, s, LogWrite(i, b, data)))
  {
    hide OpsInv, DataInv, Typed, Room;
    TypedIsLoose(l, s);
    LogWriteIsTyped(l, cap, s, i, b, data);
    LogWriteKeepsOps(l, cap, s, i, b, data);
    LogWriteKeepsData(l, cap, init, s, i, b, data);
  }

  lemma TypedIsLoose(l: Layout, s: State)
    requires Typed(l, s)
    ensures Loose(l, s) && ValidBlocks(l, s.lh)
  {
  }

  lemma LogWriteIsTyped(l: Layout, cap: nat, s: State, i: nat, b: int, data: Block)
    requires Typed(l, s) && Enabled(l, cap, s, LogWrite(i, b, data)) && Room(l, cap, s)
    ensures Typed(l, Do(l, cap, s, LogWrite(i, b, data)))
  {
  }

  lemma LogWriteKeepsOps(l: Layout, cap: nat, s: State, i: nat, b: int, data: Block)
    requires Loose(l, s) && OpsInv(s) && Enabled(l, cap, s, LogWrite(i, b, data))
    ensures s.phase.Idle? && OpsInv(Do(l, cap, s, LogWrite(i, b, data)))
  {
    var t := Do(l, cap, s, LogWrite(i, b, data));
    assert s.boundary <= |s.writes|;
    assert forall j :: 0 <= j < |t.ops| ==> t.ops[j].id == s.ops[j].id;
  }

  lemma ApplyLast(init: Disk, ws: seq<Write>, w: Write)
    requires 0 <= w.b < |init|
    ensures Apply(init, ws + [w]) == Apply(init, ws)[w.b := w.data]
  {
    assert (ws + [w])[..|ws|] == ws;
  }

  lemma LogWriteKeepsData(l: Layout, cap: nat, init: Disk, s: State, i: nat, b: int, data: Block)
    requires Typed(l, s) && |init| == |s.disk| && DataInv(l, init, s) && s.phase.Idle?
    requires Enabled(l, cap, s, LogWrite(i, b, data)) && Typed(l, Do(l, cap, s, LogWrite(i, b, data)))
    ensures DataInv(l, init, Do(l, cap, s, LogWrite(i, b, data)))
  {
    hide Apply, Distinct;
    var t := Do(l, cap, s, LogWrite(i, b, data));
    ApplyLast(init, s.writes, t.writes[|s.writes|]);
    assert t.writes[..t.boundary] == s.writes[..s.boundary];
    forall c | 0 <= c < |t.disk| && !InLog(l, c) && c !in t.lh
      ensures t.cur[c] == t.disk[c]
    {
      assert c !in s.lh && c != b;
    }
  }

  lemma EndKeepsInv(l: Layout, cap: nat, init: Disk, s: State, i: nat)
    requires Inv(l, init, s) && Enabled(l, cap, s, End(i))
    ensures Inv(l, init, Do(l, cap, s, End(i)))
  {
    hide OpsInv, DataInv;
    EndKeepsOps(l, cap, s, i);
    EndKeepsData(l, cap, init, s, i);
  }

  lemma EndKeepsOps(l: Layout, cap: nat, s: State, i: nat)
    requires Loose(l, s) && OpsInv(s) && Enabled(l, cap, s, End(i))
    ensures s.phase.Idle? && OpsInv(Do(l, cap, s, End(i)))
  {
    hide Loose;
    var t := Do(l, cap, s, End(i));
    assert forall j :: 0 <= j < |t.ops| ==> t.ops[j] == s.ops[if j < i then j else j + 1];
  }

  lemma EndKeepsData(l: Layout, cap: nat, init: Disk, s: State, i: nat)
    requires Typed(l, s) && |init| == |s.disk| && DataInv(l, init, s) && s.phase.Idle? && Enabled(l, cap, s, End(i))
    ensures var t := Do(l, cap, s, End(i)); Typed(l, t) && DataInv(l, init, t)
  {
    hide Apply, CommitReady, SameHome;
  }

  lemma CommitStepKeepsInv(l: Layout, init: Disk, s: State)
    requires Inv(l, init, s) && !s.phase.Idle?
    ensures Inv(l, init, DoCommit(l, s))
  {
    match s.phase
    case Logging(k) => LogStepKeepsInv(l, init, s);
    case Installing(k) =>
      if k < |s.lh| {
        InstallStepKeepsInv(l, init, s);
      } else {
        EraseKeepsInv(l, init, s);
      }
    case Finishing =>
  }

  lemma LogStepKeepsInv(l: Layout, init: Disk, s: State)
    requires Inv(l, init, s) && s.phase.Logging?
    ensures Inv(l, init, DoCommit(l, s))
  {
    if s.phase.k == |s.lh| {
      HeadStepKeepsInv(l, init, s);
    } else {
      CopyStepKeepsInv(l, init, s);
    }
  }

  // The header reaches disk: everything written so far is committed.
  lemma HeadStepKeepsInv(l: Layout, init: Disk, s: State)
    requires Inv(l, init, s) && s.phase.Logging? && s.phase.k == |s.lh|
    ensures Inv(l, init, DoCommit(l, s))
  {
    hide Apply;
    var t := DoCommit(l, s);
    assert t.lh[0..] == s.lh;
    assert Slots(l, t, |t.lh|);
  }

  // One more block is in the log.
  lemma CopyStepKeepsInv(l: Layout, init: Disk, s: State)
    requires Inv(l, init, s) && s.phase.Logging? && s.phase.k < |s.lh|
    ensures Inv(l, init, DoCommit(l, s))
  {
    hide Apply;
    var t := DoCommit(l, s);
    assert Slots(l, t, t.phase.k);
  }

  lemma EraseKeepsInv(l: Layout, init: Disk, s: State)
    requires Inv(l, init, s) && s.phase.Installing? && s.phase.k == |s.lh|
    ensures Inv(l, init, DoCommit(l, s))
  {
    assert s.writes[..s.boundary] == s.writes;
    assert s.lh[|s.lh|..] == [];
  }

  lemma InstallStepKeepsInv(l: Layout, init: Disk, s: State)
    requires Inv(l, init, s) && s.phase.Installing? && s.phase.k < |s.lh|
    ensures Inv(l, init, DoCommit(l, s))
  {
    hide Apply, Slots, Installed;
    var t := DoCommit(l, s);
    InstallStepSlots(l, s);
    InstallStepHome(l, s);
  }

  lemma InstallStepSlots(l: Layout, s: State)
    requires Typed(l, s) && s.phase.Installing? && s.phase.k < |s.lh| && Slots(l, s, |s.lh|)
    ensures var t := DoCommit(l, s); Typed(l, t) && Slots(l, t, |t.lh|) && t.disk[l.start] == s.disk[l.start]
  {
  }

  lemma InstallStepHome(l: Layout, s: State)
    requires Typed(l, s) && s.phase.Installing? && s.phase.k < |s.lh| && Slots(l, s, |s.lh|)
             && Installed(l, s, s.phase.k)
    ensures var t := DoCommit(l, s); Typed(l, t) && Installed(l, t, s.phase.k + 1)
  {
    hide Distinct;
    var k := s.phase.k;
    var t := DoCommit(l, s);
    forall b | 0 <= b < |t.disk| && !InLog(l, b) && b !in t.lh[k + 1..]
      ensures t.disk[b] == t.cur[b]
    {
      if b == s.lh[k] {
        assert s.disk[l.start + 1 + k] == s.cur[s.lh[k]];
      } else {
        assert s.lh[k..] == [s.lh[k]] + s.lh[k + 1..];
      }
    }
  }

  lemma CrashKeepsInv(l: Layout, cap: nat, init: Disk, s: State, run: seq<Disk>)
    requires Inv(l, init, s) && Enabled(l, cap, s, Crash(run))
    ensures Inv(l, init, Do(l, cap, s, Crash(run)))
  {
    InvRecovers(l, init, s);
    AnyNumberOfRecoveryCrashes(l, run);
    RecoverHome(l, run[|run| - 1]);
    assert s.writes[..s.boundary][..s.boundary] == s.writes[..s.boundary];
  }

  // ----- log space

  // What the active operations may still add.
  ghost function Unused(ops: seq<Op>, cap: nat): int {
    if ops == [] then 0 else Unused(ops[..|ops| - 1], cap) + cap - ops[|ops| - 1].used
  }

  lemma {:induction false} UnusedUpdate(ops: seq<Op>, cap: nat, i: nat, op: Op)
    requires i < |ops|
    ensures Unused(ops[i := op], cap) == Unused(ops, cap) + ops[i].used - op.used
  {
    var n := |ops| - 1;
    if i == n {
      assert ops[i := op][..n] == ops[..n];
    } else {
      UnusedUpdate(ops[..n], cap, i, op);
      assert ops[i := op][..n] == ops[..n][i := op];
    }
  }

  lemma {:induction false} UnusedRemove(ops: seq<Op>, cap: nat, i: nat)
    requires i < |ops|
    ensures Unused(ops[..i] + ops[i + 1..], cap) == Unused(ops, cap) - (cap - ops[i].used)
  {
    var n := |ops| - 1;
    var rest := ops[..i] + ops[i + 1..];
    if i == n {
      assert rest == ops[..n];
    } else {
      UnusedRemove(ops[..n], cap, i);
      assert rest[..n - 1] == ops[..n][..i] + ops[..n][i + 1..];
      assert rest[n - 1] == ops[n];
    }
  }

  lemma {:induction false} UnusedBounds(ops: seq<Op>, cap: nat)
    requires forall i :: 0 <= i < |ops| ==> ops[i].used <= cap
    ensures 0 <= Unused(ops, cap) <= |ops| * cap
  {
    if ops != [] {
      UnusedBounds(ops[..|ops| - 1], cap);
    }
  }

  // With at most cap new blocks per operation, the header and everything that
  // may still be added to it stay within MAXOPBLOCKS + 2 * cap blocks.
  ghost predicate SpaceInv(cap: nat, s: State) {
    && (forall i :: 0 <= i < |s.ops| ==> s.ops[i].used <= cap)
    && (s.phase.Idle? ==> |s.lh| + Unused(s.ops, cap) <= MAXOPBLOCKS + 2 * cap)
  }

  lemma StepKeepsSpace(l: Layout, cap: nat, s: State, step: Step)
    requires Loose(l, s) && Quiet(s) && Enabled(l, cap, s, step) && cap <= MAXOPBLOCKS && SpaceInv(cap, s)
    ensures SpaceInv(cap, Do(l, cap, s, step))
  {
    match step
    case Begin => BeginKeepsSpace(cap, s, Do(l, cap, s, step).ops);
    case Wait =>
    case Test(i) => UnusedUpdate(s.ops, cap, i, s.ops[i].(passed := true));
    case LogWrite(i, b, data) => LogWriteKeepsSpace(l, cap, s, i, b, data);
    case End(i) => EndKeepsSpace(l, cap, s, i);
    case CommitStep => CommitKeepsSpace(l, cap, s);
    case Crash(run) =>
  }

  lemma LogWriteKeepsSpace(l: Layout, cap: nat, s: State, i: nat, b: int, data: Block)
    requires Loose(l, s) && Enabled(l, cap, s, LogWrite(i, b, data)) && SpaceInv(cap, s)
    ensures SpaceInv(cap, Do(l, cap, s, LogWrite(i, b, data)))
  {
    hide Unused;
    if b !in s.lh {
      UnusedUpdate(s.ops, cap, i, s.ops[i].(used := s.ops[i].used + 1, passed := false));
    } else {
      UnusedUpdate(s.ops, cap, i, s.ops[i].(passed := false));
    }
  }

  lemma EndKeepsSpace(l: Layout, cap: nat, s: State, i: nat)
    requires Loose(l, s) && Enabled(l, cap, s, End(i)) && SpaceInv(cap, s)
    ensures SpaceInv(cap, Do(l, cap, s, End(i)))
  {
    hide Unused;
    UnusedRemove(s.ops, cap, i);
  }

  lemma CommitKeepsSpace(l: Layout, cap: nat, s: State)
    requires Loose(l, s) && Quiet(s) && Enabled(l, cap, s, CommitStep) && SpaceInv(cap, s)
    ensures SpaceInv(cap, Do(l, cap, s, CommitStep))
  {
  }

  lemma BeginKeepsSpace(cap: nat, s: State, ops: seq<Op>)
    requires SpaceInv(cap, s) && cap <= MAXOPBLOCKS
    requires s.ops == [] ==> s.lh == []
    requires |s.lh| + (|s.ops| + 1) * MAXOPBLOCKS <= LOGSIZE
    requires ops == s.ops + [Op(s.nextId, 0, false)]
    ensures |s.lh| + Unused(ops, cap) <= MAXOPBLOCKS + 2 * cap
  {
    UnusedBounds(s.ops, cap);
    assert ops[..|ops| - 1] == s.ops;
    assert |s.ops| <= 2;
    assert |s.ops| * cap <= if |s.ops| == 2 then 2 * cap else if |s.ops| == 1 then cap else 0;
  }

  // In a log of l.size blocks, that is room for everybody.
  ghost predicate Enough(l: Layout, cap: nat) {
    cap <= MAXOPBLOCKS && MAXOPBLOCKS + 2 * cap < l.size
  }

  lemma SpaceIsRoom(l: Layout, cap: nat, s: State)
    requires SpaceInv(cap, s) && Enough(l, cap) && Quiet(s)
    ensures Room(l, cap, s)
  {
    forall i | 0 <= i < |s.ops| && s.ops[i].used < cap
      ensures |s.lh| < LOGSIZE && |s.lh| < l.size - 1
    {
      UnusedRemove(s.ops, cap, i);
      var rest := s.ops[..i] + s.ops[i + 1..];
      assert forall j :: 0 <= j < |rest| ==> rest[j] == s.ops[if j < i then j else j + 1];
      UnusedBounds(rest, cap);
    }
  }

  // ----- whole runs

  ghost predicate IsRun(l: Layout, cap: nat, ss: seq<State>, steps: seq<Step>) {
    && |ss| == |steps| + 1
    && (forall i :: 0 <= i < |steps| ==>
          Loose(l, ss[i]) && Enabled(l, cap, ss[i], steps[i]) && ss[i + 1] == Do(l, cap, ss[i], steps[i]))
  }

  lemma StepKeepsInv(l: Layout, cap: nat, init: Disk, s: State, step: Step)
    requires Inv(l, init, s) && Enabled(l, cap, s, step) && Room(l, cap, s)
    ensures Inv(l, init, Do(l, cap, s, step))
  {
    match step
    case Begin => BeginKeepsInv(l, cap, init, s);
    case Wait => WaitOrTestKeepsInv(l, cap, init, s, step);
    case Test(i) => WaitOrTestKeepsInv(l, cap, init, s, step);
    case LogWrite(i, b, data) => LogWriteKeepsInv(l, cap, init, s, i, b, data);
    case End(i) => EndKeepsInv(l, cap, init, s, i);
    case CommitStep => CommitStepKeepsInv(l, init, s);
    case Crash(run) => CrashKeepsInv(l, cap, init, s, run);
  }

  // Nobody sleeps in begin_op without a reason.
  ghost predicate NoLostWakeup(s: State) {
    s.waiting > 0 ==> !s.phase.Idle? || !HasSpace(s)
  }

  lemma StepKeepsWakeup(l: Layout, cap: nat, s: State, step: Step)
    requires Loose(l, s) && Enabled(l, cap, s, step) && NoLostWakeup(s)
    ensures NoLostWakeup(Do(l, cap, s, step))
  {
  }

  lemma StepKeepsQuiet(l: Layout, cap: nat, s: State, step: Step)
    requires Loose(l, s) && Enabled(l, cap, s, step) && Quiet(s)
    ensures Quiet(Do(l, cap, s, step))
  {
  }

  // Whatever operations log.
  lemma {:induction false} RunKeepsWakeup(l: Layout, cap: nat, d: Disk, ss: seq<State>, steps: seq<Step>, i: nat)
    requires IsRun(l, cap, ss, steps) && ss[0] == Start(d) && i < |ss|
    ensures Quiet(ss[i]) && NoLostWakeup(ss[i])
  {
    if i > 0 {
      hide Quiet, NoLostWakeup, Do, Enabled, Loose;
      RunKeepsWakeup(l, cap, d, ss, steps, i - 1);
      StepKeepsQuiet(l, cap, ss[i - 1], steps[i - 1]);
      StepKeepsWakeup(l, cap, ss[i - 1], steps[i - 1]);
    }
  }

  // In a log of any size.
  lemma {:induction false} RunKeepsSpace(l: Layout, cap: nat, d: Disk, ss: seq<State>, steps: seq<Step>, i: nat)
    requires IsRun(l, cap, ss, steps) && ss[0] == Start(d) && i < |ss| && cap <= MAXOPBLOCKS
    ensures SpaceInv(cap, ss[i])
  {
    if i > 0 {
      hide Quiet, NoLostWakeup, SpaceInv, Do, Enabled, Loose;
      RunKeepsSpace(l, cap, d, ss, steps, i - 1);
      RunKeepsWakeup(l, cap, d, ss, steps, i - 1);
      StepKeepsSpace(l, cap, ss[i - 1], steps[i - 1]);
    }
  }

  lemma {:induction false} RunKeepsInv(l: Layout, cap: nat, d: Disk, ss: seq<State>, steps: seq<Step>, i: nat)
    requires Clean(l, d) && IsRun(l, cap, ss, steps) && ss[0] == Start(d) && i < |ss| && Enough(l, cap)
    ensures Inv(l, d, ss[i])
  {
    hide Inv, SpaceInv, NoLostWakeup, Quiet, Do, Enabled, Loose, Room, Clean;
    if i == 0 {
      InitialState(l, d);
    } else {
      RunKeepsInv(l, cap, d, ss, steps, i - 1);
      RunKeepsSpace(l, cap, d, ss, steps, i - 1);
      RunKeepsWakeup(l, cap, d, ss, steps, i - 1);
      SpaceIsRoom(l, cap, ss[i - 1]);
      StepKeepsInv(l, cap, d, ss[i - 1], steps[i - 1]);
    }
  }

  // The wakeups of log: an operation ends while others are active, a commit is over, or
  // the machine starts again.
  ghost predicate Woken(s: State, step: Step) {
    (step.End? && |s.ops| > 1) || (step.CommitStep? && s.phase.Finishing?) || step.Crash?
  }

  // The sleeps in begin_op since the last of them.
  ghost function Sleepers(ss: seq<State>, steps: seq<Step>, i: nat): nat
    requires i <= |steps| && i < |ss|
  {
    if i == 0 then 0
    else if steps[i - 1] == Wait then Sleepers(ss, steps, i - 1) + 1
    else if Woken(ss[i - 1], steps[i - 1]) then 0
    else Sleepers(ss, steps, i - 1)
  }

  // begin_op either goes on or sleeps, and sleeps until one of these.
  lemma SleeperStep(l: Layout, cap: nat, s: State, step: Step)
    requires Loose(l, s) && Enabled(l, cap, s, step)
    ensures Enabled(l, cap, s, Wait) <==> !Enabled(l, cap, s, Begin)
    ensures Do(l, cap, s, step).waiting ==
            if step == Wait then s.waiting + 1 else if Woken(s, step) then 0 else s.waiting
  {
  }

  lemma {:induction false} SleepersCounted(l: Layout, cap: nat, d: Disk, ss: seq<State>, steps: seq<Step>, i: nat)
    requires IsRun(l, cap, ss, steps) && ss[0] == Start(d) && i < |ss|
    ensures ss[i].waiting == Sleepers(ss, steps, i)
  {
    if i > 0 {
      hide Do, Enabled, Loose, Woken;
      SleepersCounted(l, cap, d, ss, steps, i - 1);
      SleeperStep(l, cap, ss[i - 1], steps[i - 1]);
    }
  }

  // Whatever operations log: a commit runs with no operation active, and with log.lock
  // free whoever sleeps in begin_op waits for a commit or for space.
  lemma BeginOpSleepers(l: Layout, cap: nat, d: Disk, ss: seq<State>, steps: seq<Step>, i: nat)
    requires IsRun(l, cap, ss, steps) && i < |ss| && ss[0] == Start(d)
    ensures !ss[i].phase.Idle? ==> ss[i].ops == []
    ensures ss[i].waiting > 0 ==>
              !ss[i].phase.Idle? || |ss[i].lh| + (|ss[i].ops| + 1) * MAXOPBLOCKS > LOGSIZE
    ensures ss[i].waiting == Sleepers(ss, steps, i)
  {
    RunKeepsWakeup(l, cap, d, ss, steps, i);
    SleepersCounted(l, cap, d, ss, steps, i);
  }

  // In every interleaving, with crashes anywhere: a commit runs with no operation
  // active; what a crash would recover is exactly the committed writes, which hold
  // every write of an operation or none of them; and once every operation has ended
  // and the commit is over, all writes are committed.
  lemma GroupCommitSafety(l: Layout, cap: nat, d: Disk, ss: seq<State>, steps: seq<Step>, i: nat)
    requires Clean(l, d) && IsRun(l, cap, ss, steps) && i < |ss| && Enough(l, cap)
    requires ss[0] == Start(d)
    ensures !ss[i].phase.Idle? ==> ss[i].ops == []
    ensures RecoversCommitted(l, d, ss[i])
    ensures OpsWhole(ss[i])
    ensures forall j, a :: 0 <= j < |ss[i].ops| && 0 <= a < ss[i].boundary ==> ss[i].writes[a].op != ss[i].ops[j].id
    ensures ss[i].phase.Idle? && ss[i].ops == [] ==> ss[i].boundary == |ss[i].writes|
  {
    RunKeepsInv(l, cap, d, ss, steps, i);
    InvRecovers(l, d, ss[i]);
    hide Apply, RecoversCommitted;
    AllCommitted(l, d, ss[i]);
  }

  lemma AllCommitted(l: Layout, init: Disk, s: State)
    requires Inv(l, init, s)
    ensures s.phase.Idle? && s.ops == [] ==> s.boundary == |s.writes|
  {
    assert forall a :: s.boundary <= a < |s.writes| ==> s.writes[a].b in s.lh;
  }

  // The reservation made by begin_op is enough: with at most MAXOPBLOCKS new blocks per
  // operation the header and everything that active operations may still add never
  // exceed LOGSIZE, in a log of any size; and where that leaves a slot, log_write's size
  // panic cannot fire.
  lemma LogSpaceSuffices(l: Layout, cap: nat, d: Disk, ss: seq<State>, steps: seq<Step>, i: nat)
    requires IsRun(l, cap, ss, steps) && i < |ss| && ss[0] == Start(d) && cap <= MAXOPBLOCKS
    ensures ss[i].phase.Idle? ==> |ss[i].lh| + Unused(ss[i].ops, cap) <= MAXOPBLOCKS + 2 * cap <= LOGSIZE
    ensures ss[i].phase.Idle? ==> |ss[i].lh| <= MAXOPBLOCKS + 2 * cap
    ensures Enough(l, cap) ==>
              forall j :: 0 <= j < |ss[i].ops| && ss[i].ops[j].used < cap ==>
                |ss[i].lh| < LOGSIZE && |ss[i].lh| < l.size - 1
  {
    RunKeepsSpace(l, cap, d, ss, steps, i);
    RunKeepsWakeup(l, cap, d, ss, steps, i);
    UnusedBounds(ss[i].ops, cap);
    if Enough(l, cap) {
      SpaceIsRoom(l, cap, ss[i]);
    }
  }

  // ----- a budget of MAXOPBLOCKS is too much

  ghost predicate Reached(l: Layout, cap: nat, d: Disk, s: State) {
    exists ss, steps :: IsRun(l, cap, ss, steps) && ss[0] == Start(d) && ss[|ss| - 1] == s
  }

  lemma ReachedStart(l: Layout, cap: nat, d: Disk)
    ensures Reached(l, cap, d, Start(d))
  {
    assert IsRun(l, cap, [Start(d)], []);
  }

  lemma ReachedStep(l: Layout, cap: nat, d: Disk, s: State, step: Step)
    requires Reached(l, cap, d, s) && Loose(l, s) && Enabled(l, cap, s, step)
    ensures Reached(l, cap, d, Do(l, cap, s, step))
  {
    hide Loose, Enabled, Do;
    var ss, steps :| IsRun(l, cap, ss, steps) && ss[0] == Start(d) && ss[|ss| - 1] == s;
    var ss', steps' := ss + [Do(l, cap, s, step)], steps + [step];
    assert IsRun(l, cap, ss', steps');
  }

  // Three operations have logged n blocks after the log between them.
  ghost predicate Filled(l: Layout, d: Disk, x: Block, n: nat, s: State) {
    && s.disk == d && |s.cur| == |d| && s.phase.Idle? && s.boundary == 0
    && s.lh == Blocks(l, n) && Cached(l, s.cur, x, n)
    && s.ops == [Op(0, (n + 2) / 3, false), Op(1, (n + 1) / 3, false), Op(2, n / 3, false)]
  }

  ghost predicate Cached(l: Layout, cur: Disk, x: Block, n: nat) {
    l.start + l.size + n <= |cur| && forall b :: l.start + l.size <= b < l.start + l.size + n ==> cur[b] == x
  }

  ghost function Blocks(l: Layout, n: nat): (bs: seq<int>)
    ensures |bs| == n && forall j :: 0 <= j < n ==> bs[j] == l.start + l.size + j
  {
    seq(n, j => l.start + l.size + j)
  }

  ghost predicate Roomy(l: Layout, d: Disk) {
    Clean(l, d) && l.size == LOGSIZE && l.start + l.size + LOGSIZE <= l.nblocks && d[l.start + l.size] != []
  }

  lemma ThreeBegin(l: Layout, cap: nat, d: Disk, x: Block) returns (s: State)
    requires Roomy(l, d)
    ensures Reached(l, cap, d, s) && Filled(l, d, x, 0, s)
  {
    hide Reached;
    s := Start(d);
    ReachedStart(l, cap, d);
    ReachedStep(l, cap, d, s, Begin);
    s := Do(l, cap, s, Begin);
    ReachedStep(l, cap, d, s, Begin);
    s := Do(l, cap, s, Begin);
    ReachedStep(l, cap, d, s, Begin);
    s := Do(l, cap, s, Begin);
    assert s.ops == [Op(0, 0, false), Op(1, 0, false), Op(2, 0, false)];
    assert s.lh == Blocks(l, 0);
  }

  lemma FillOne(l: Layout, cap: nat, d: Disk, x: Block, n: nat, s: State) returns (t: State)
    requires Roomy(l, d) && cap >= MAXOPBLOCKS && n < 28 && Reached(l, cap, d, s) && Filled(l, d, x, n, s)
    ensures Reached(l, cap, d, t) && Filled(l, d, x, n + 1, t)
  {
    hide Reached;
    var i, b := n % 3, l.start + l.size + n;
    ReachedStep(l, cap, d, s, Test(i));
    t := Do(l, cap, s, Test(i));
    ReachedStep(l, cap, d, t, LogWrite(i, b, x));
    t := Do(l, cap, t, LogWrite(i, b, x));
    assert b !in s.lh;
    assert t.lh == Blocks(l, n + 1);
  }

  lemma {:induction false} Fill(l: Layout, cap: nat, d: Disk, x: Block, n: nat) returns (s: State)
    requires Roomy(l, d) && cap >= MAXOPBLOCKS && n <= 28
    ensures Reached(l, cap, d, s) && Filled(l, d, x, n, s)
  {
    hide Filled, Reached, Roomy;
    if n == 0 {
      s := ThreeBegin(l, cap, d, x);
    } else {
      s := Fill(l, cap, d, x, n - 1);
      s := FillOne(l, cap, d, x, n - 1, s);
    }
  }

  // The header after the race holds one block more than the log has slots.
  ghost predicate Overfull(l: Layout, d: Disk, x: Block, s: State) {
    && s.disk == d && |s.cur| == |d| && s.phase.Idle? && s.boundary == 0
    && s.lh == Blocks(l, 30) && Cached(l, s.cur, x, 30)
    && |s.ops| == 3 && forall j :: 0 <= j < 3 ==> !s.ops[j].passed
  }

  // Two operations test the size of the header, then both append.
  lemma Race(l: Layout, cap: nat, d: Disk, x: Block) returns (s: State)
    requires Roomy(l, d) && cap >= MAXOPBLOCKS
    ensures Reached(l, cap, d, s) && Overfull(l, d, x, s)
  {
    hide Reached;
    s := Fill(l, cap, d, x, 28);
    ReachedStep(l, cap, d, s, Test(1));
    s := Do(l, cap, s, Test(1));
    ReachedStep(l, cap, d, s, Test(2));
    s := Do(l, cap, s, Test(2));
    s := RaceWrite(l, cap, d, x, s, 1, 28);
    s := RaceWrite(l, cap, d, x, s, 2, 29);
  }

  lemma RaceWrite(l: Layout, cap: nat, d: Disk, x: Block, s: State, i: nat, n: nat) returns (t: State)
    requires Roomy(l, d) && cap >= MAXOPBLOCKS && Reached(l, cap, d, s) && 28 <= n < 30
    requires s.disk == d && |s.cur| == |d| && s.phase.Idle? && s.boundary == 0 && s.lh == Blocks(l, n)
    requires Cached(l, s.cur, x, n)
    requires i < |s.ops| == 3 && s.ops[i].passed && s.ops[i].used < MAXOPBLOCKS
    ensures Reached(l, cap, d, t)
    ensures t.disk == d && |t.cur| == |d| && t.phase.Idle? && t.boundary == 0 && t.lh == Blocks(l, n + 1)
    ensures Cached(l, t.cur, x, n + 1)
    ensures |t.ops| == 3 && !t.ops[i].passed && forall j :: 0 <= j < 3 && j != i ==> t.ops[j] == s.ops[j]
  {
    hide Reached;
    var b := l.start + l.size + n;
    assert b !in s.lh;
    ReachedStep(l, cap, d, s, LogWrite(i, b, x));
    t := Do(l, cap, s, LogWrite(i, b, x));
    assert t.lh == Blocks(l, n + 1);
  }

  // commit has copied k blocks of it.
  ghost predicate Copied(l: Layout, d: Disk, x: Block, k: nat, s: State) {
    && s.phase == Logging(k) && k <= 30 && |s.disk| == |s.cur| == |d| && s.boundary == 0 && s.lh == Blocks(l, 30)
    && Cached(l, s.cur, x, 30) && l.start + 30 < |d|
    && s.disk[l.start] == d[l.start] && (k == 30 ==> s.disk[l.start + 30] == x)
  }

  lemma AllEnd(l: Layout, cap: nat, d: Disk, x: Block) returns (s: State)
    requires Roomy(l, d) && cap >= MAXOPBLOCKS
    ensures Reached(l, cap, d, s) && Copied(l, d, x, 0, s)
  {
    hide Reached;
    s := Race(l, cap, d, x);
    ReachedStep(l, cap, d, s, End(0));
    s := Do(l, cap, s, End(0));
    ReachedStep(l, cap, d, s, End(0));
    s := Do(l, cap, s, End(0));
    ReachedStep(l, cap, d, s, End(0));
    s := Do(l, cap, s, End(0));
  }

  lemma {:induction false} CopyBlocks(l: Layout, cap: nat, d: Disk, x: Block, k: nat) returns (s: State)
    requires Roomy(l, d) && cap >= MAXOPBLOCKS && k <= 30
    ensures Reached(l, cap, d, s) && Copied(l, d, x, k, s)
  {
    hide Reached;
    if k == 0 {
      s := AllEnd(l, cap, d, x);
    } else {
      s := CopyBlocks(l, cap, d, x, k - 1);
      ReachedStep(l, cap, d, s, CommitStep);
      s := Do(l, cap, s, CommitStep);
    }
  }

  // The last copy went to the first block after the log, and nothing is committed yet.
  lemma RaceLosesHome(l: Layout, cap: nat, d: Disk) returns (s: State)
    requires Roomy(l, d) && cap >= MAXOPBLOCKS
    ensures Reached(l, cap, d, s) && !RecoversCommitted(l, d, s)
    ensures |s.disk| == |d| && |s.disk[l.start + l.size]| == |d[l.start + l.size]|
  {
    hide Reached;
    var b := l.start + l.size;
    var x := d[b][0 := if d[b][0] == 0 then 1 else 0];
    s := CopyBlocks(l, cap, d, x, 30);
    RecoverClean(l, s.disk);
    assert s.writes[..0] == [];
    assert s.disk[b] == x != d[b];
  }

  // For the kernel's log, a budget per operation keeps every run safe exactly if it is
  // below MAXOPBLOCKS.
  lemma BudgetDecides(l: Layout, cap: nat, d: Disk)
    requires Roomy(l, d)
    ensures (forall s :: Reached(l, cap, d, s) ==> RecoversCommitted(l, d, s)) <==> cap < MAXOPBLOCKS
  {
    hide RecoversCommitted;
    if cap < MAXOPBLOCKS {
      forall s | Reached(l, cap, d, s)
        ensures RecoversCommitted(l, d, s)
      {
        var ss, steps :| IsRun(l, cap, ss, steps) && ss[0] == Start(d) && ss[|ss| - 1] == s;
        GroupCommitSafety(l, cap, d, ss, steps, |ss| - 1);
      }
    } else {
      var s := RaceLosesHome(l, cap, d);
    }
  }
}
