/**
  What each call of write and read on a pipe gets done, over every run of the protocol.

  A history follows the run and only records: the calls of write in the order in which
  they started, for every byte of the stream the call that stored it, and what the
  calls of read gave their callers in the order in which they returned.  Kills are
  allowed, and so are runs that lose a wakeup.
 */
module PipeStream {
  import opened PipeRing
  import opened PipeProtocol

  datatype Result = Pending | Returned(n: nat) | Failed

  datatype Write = Write(p: nat, addr: seq<Byte>, result: Result)

  datatype Read = Read(p: nat, n: nat, out: seq<Byte>) | Interrupted(p: nat)

  // `mine` is the latest write of a process and `asked` the limit of its latest read.
  datatype History = History(writes: seq<Write>, from: seq<nat>, mine: map<nat, nat>,
                             asked: map<nat, nat>, given: seq<Read>)

  ghost function Latest(m: map<nat, nat>, p: nat): nat {
    if p in m then m[p] else 0
  }

  ghost function Finish(h: History, p: nat, result: Result): History {
    var c := Latest(h.mine, p);
    if c < |h.writes| then h.(writes := h.writes[c := h.writes[c].(result := result)]) else h
  }

  // What the history notes when process p takes step a in state s.
  ghost function Note(h: History, s: State, p: nat, a: Action): History
    requires Can(s, p, a)
  {
    match a
    case StartWrite(addr) => h.(writes := h.writes + [Write(p, addr, Pending)], mine := h.mine[p := |h.writes|])
    case StartRead(n) => h.(asked := h.asked[p := n])
    case Store => h.(from := h.from + [Latest(h.mine, p)])
    case WriteGiveUp => Finish(h, p, Failed)
    case ReadGiveUp => h.(given := h.given + [Interrupted(p)])
    case Release =>
      (match s.procs[p]
       case WEnd => var c := Latest(h.mine, p);
         Finish(h, p, Returned(if c < |h.writes| then |h.writes[c].addr| else 0))
       case REnd(out) => h.(given := h.given + [Read(p, Latest(h.asked, p), out)])
       case _ => h)
    case _ => h
  }

  ghost function Story(h: History, s: State, run: seq<Step>): History
    requires Possible(s, run)
    decreases |run|
  {
    if run == [] then h else Story(Note(h, s, run[0].p, run[0].a), Do(s, run[0].p, run[0].a), run[1..])
  }

  ghost function Blank(): History {
    History([], [], map[], map[], [])
  }

  // ----- the bytes of one call

  // The bytes that call c stored, in the order of the stream.
  ghost function Part(bytes: seq<Byte>, from: seq<nat>, c: nat): seq<Byte>
    requires |bytes| == |from|
    decreases |bytes|
  {
    if bytes == [] then [] else
      var n := |bytes| - 1;
      Part(bytes[..n], from[..n], c) + (if from[n] == c then [bytes[n]] else [])
  }

  lemma PartNext(bytes: seq<Byte>, from: seq<nat>, b: Byte, d: nat, c: nat)
    requires |bytes| == |from|
    ensures Part(bytes + [b], from + [d], c) ==
            if c == d then Part(bytes, from, c) + [b] else Part(bytes, from, c)
  {
    assert (bytes + [b])[..|bytes|] == bytes && (from + [d])[..|from|] == from;
  }

  lemma {:induction false} PartNone(bytes: seq<Byte>, from: seq<nat>, c: nat)
    requires |bytes| == |from| && forall k :: 0 <= k < |from| ==> from[k] < c
    ensures Part(bytes, from, c) == []
    decreases |bytes|
  {
    if bytes != [] {
      PartNone(bytes[..|bytes| - 1], from[..|bytes| - 1], c);
    }
  }

  // What the reads delivered, one after the other.
  ghost function Flat(given: seq<Read>): seq<Byte>
    decreases |given|
  {
    if given == [] then [] else
      var r := given[|given| - 1];
      Flat(given[..|given| - 1]) + (if r.Read? then r.out else [])
  }

  lemma FlatNext(given: seq<Read>, r: Read)
    ensures Flat(given + [r]) == Flat(given) + (if r.Read? then r.out else [])
  {
    assert (given + [r])[..|given|] == given;
  }

  // What the read that holds the lock has copied so far.
  ghost function InFlight(s: State): seq<Byte> {
    if s.lock.Some? && s.lock.value < |s.procs| then
      var pc := s.procs[s.lock.value];
      if pc.RCopy? || pc.REnd? then pc.out else []
    else []
  }

  // ----- the invariant

  // A writer has stored exactly the bytes before its position.
  ghost predicate WriterOk(pc: Pc, addr: seq<Byte>, part: seq<Byte>) {
    match pc
    case WEnter(b) => b == addr && part == []
    case WLoop(b, i, _) => b == addr && i <= |b| && part == b[..i]
    case WSleep1(b, i) => b == addr && i <= |b| && part == b[..i]
    case WSleep2(b, i) => b == addr && i <= |b| && part == b[..i]
    case WSleep3(b, i) => b == addr && i <= |b| && part == b[..i]
    case WAsleep(b, i) => b == addr && i <= |b| && part == b[..i]
    case WWoken(b, i) => b == addr && i <= |b| && part == b[..i]
    case WEnd => part == addr
    case _ => true
  }

  // A reader keeps its limit; it ends short only on an empty pipe, and with nothing
  // only at the end of the stream.
  ghost predicate ReaderOk(pc: Pc, n: nat, pipe: Pipe) {
    match pc
    case REnter(m) => m == n
    case RLoop(m) => m == n
    case RSleep1(m) => m == n
    case RSleep2(m) => m == n
    case RSleep3(m) => m == n
    case RAsleep(m) => m == n
    case RWoken(m) => m == n
    case RCopy(m, out) => m == n && |out| <= n && (out == [] && Empty(pipe) ==> !pipe.writeopen)
    case REnd(out) => |out| <= n && (|out| < n ==> Empty(pipe)) && (out == [] && n > 0 ==> !pipe.writeopen)
    case _ => true
  }

  ghost predicate Tagged(h: History, pipe: Pipe) {
    |h.from| == |pipe.written| && forall k :: 0 <= k < |h.from| ==> h.from[k] < |h.writes|
  }

  ghost predicate ProcFlow(h: History, s: State, p: nat)
    requires Tagged(h, s.pipe) && p < |s.procs|
  {
    var pc := s.procs[p];
    && (HoldsLock(pc) <==> s.lock == Some(p))
    && (Writing(pc) ==>
          && p in h.mine && h.mine[p] < |h.writes|
          && var w := h.writes[h.mine[p]];
             w.p == p && w.result == Pending && WriterOk(pc, w.addr, Part(s.pipe.written, h.from, h.mine[p])))
    && (Reading(pc) ==> p in h.asked && ReaderOk(pc, h.asked[p], s.pipe))
  }

  // A call of write is in progress, or has stored everything, or gave up part way.
  ghost predicate CallFlow(h: History, s: State, c: nat)
    requires Tagged(h, s.pipe) && c < |h.writes|
  {
    var w, part := h.writes[c], Part(s.pipe.written, h.from, c);
    match w.result
    case Pending => w.p < |s.procs| && Writing(s.procs[w.p]) && w.p in h.mine && h.mine[w.p] == c
    case Returned(n) => part == w.addr && n == |w.addr|
    case Failed => part <= w.addr && |part| < |w.addr| && (!s.pipe.readopen || w.p in s.killed)
  }

  ghost predicate ReadFlow(s: State, r: Read) {
    match r
    case Read(_, n, out) => |out| <= n && (out == [] && n > 0 ==> !s.pipe.writeopen)
    case Interrupted(p) => p in s.killed
  }

  ghost predicate Flow(h: History, s: State) {
    && RingOk(s.pipe) && Tagged(h, s.pipe) && (s.lock.Some? ==> s.lock.value < |s.procs|)
    && (forall p :: 0 <= p < |s.procs| ==> ProcFlow(h, s, p))
    && (forall c :: 0 <= c < |h.writes| ==> CallFlow(h, s, c))
    && (forall k :: 0 <= k < |h.given| ==> ReadFlow(s, h.given[k]))
    && Flat(h.given) + InFlight(s) == s.pipe.got
  }

  lemma StartFlow(n: nat, data: seq<Byte>)
    requires |data| == PIPESIZE
    ensures Flow(Blank(), Init(n, data))
  {
    var s := Init(n, data);
    forall p | 0 <= p < |s.procs| ensures ProcFlow(Blank(), s, p) {}
  }

  // ----- every step keeps it

  lemma FlowAt(h: History, s: State, p: nat)
    requires Flow(h, s) && p < |s.procs|
    ensures RingOk(s.pipe) && Tagged(h, s.pipe) && ProcFlow(h, s, p) && (s.lock.Some? ==> s.lock.value < |s.procs|)
  {
  }

  lemma CallAt(h: History, s: State, c: nat)
    requires Flow(h, s) && c < |h.writes|
    ensures Tagged(h, s.pipe) && CallFlow(h, s, c)
  {
  }

  // The stream and its tags after a step.
  ghost predicate Streams(h: History, s: State, h': History, s': State, p: nat, a: Action)
    requires p < |s.procs|
  {
    && |s'.procs| == |s.procs|
    && (a == Store ==>
          && s.procs[p].WLoop? && s.procs[p].i < |s.procs[p].addr| && p in h.mine
          && s'.pipe.written == s.pipe.written + [s.procs[p].addr[s.procs[p].i]] && h'.from == h.from + [h.mine[p]])
    && (a != Store ==> s'.pipe.written == s.pipe.written && h'.from == h.from)
    && (a != Load ==> s'.pipe.got == s.pipe.got)
    && (s'.pipe.readopen ==> s.pipe.readopen) && (s'.pipe.writeopen ==> s.pipe.writeopen) && s.killed <= s'.killed
  }

  // What the history notes, and what the step does to the pipe.
  lemma NoteStream(h: History, s: State, p: nat, a: Action)
    requires Flow(h, s) && Can(s, p, a)
    ensures a == Store ==> p in h.mine && Note(h, s, p, a).from == h.from + [h.mine[p]]
    ensures a != Store ==> Note(h, s, p, a).from == h.from
    ensures Note(h, s, p, a).given ==
            h.given + (if a == Release && s.procs[p].REnd? then [Read(p, Latest(h.asked, p), s.procs[p].out)]
                       else if a == ReadGiveUp then [Interrupted(p)] else [])
  {
    hide RingOk, Flow, Empty, Full, Part, WriterOk, ReaderOk, Tagged;
    FlowAt(h, s, p);
  }

  lemma DoStream(s: State, p: nat, a: Action)
    requires Can(s, p, a)
    ensures var s' := Do(s, p, a);
            && |s'.procs| == |s.procs|
            && (a == Store ==>
                  s.procs[p].WLoop? && s.procs[p].i < |s.procs[p].addr|
                  && s'.pipe.written == s.pipe.written + [s.procs[p].addr[s.procs[p].i]])
            && (a != Store ==> s'.pipe.written == s.pipe.written) && (a != Load ==> s'.pipe.got == s.pipe.got)
            && (s'.pipe.readopen ==> s.pipe.readopen) && (s'.pipe.writeopen ==> s.pipe.writeopen)
            && s.killed <= s'.killed
  {
    hide Empty, Full, Head, Put, Take;
    if a == Store {
      PutKeeps(s.pipe, s.procs[p].addr[s.procs[p].i]);
    } else if a == Load {
      TakeKeeps(s.pipe);
    }
  }

  lemma StreamStep(h: History, s: State, p: nat, a: Action)
    requires Flow(h, s) && Can(s, p, a)
    ensures Streams(h, s, Note(h, s, p, a), Do(s, p, a), p, a)
  {
    hide Flow, Do, Note;
    NoteStream(h, s, p, a);
    DoStream(s, p, a);
  }

  lemma RingStep(h: History, s: State, p: nat, a: Action)
    requires Flow(h, s) && Can(s, p, a)
    ensures RingOk(Do(s, p, a).pipe)
  {
    hide RingOk, Held;
    FlowAt(h, s, p);
    if a == Store {
      PutOk(s.pipe, s.procs[p].addr[s.procs[p].i]);
    } else if a == Load {
      TakeOk(s.pipe);
    } else {
      var s' := Do(s, p, a);
      FlagsKeepRing(s.pipe, s'.pipe.readopen, s'.pipe.writeopen);
    }
  }

  lemma TagStep(h: History, s: State, p: nat, a: Action)
    requires Flow(h, s) && Can(s, p, a)
    ensures Tagged(Note(h, s, p, a), Do(s, p, a).pipe)
  {
    hide RingOk, Flow, Empty, Full, Part;
    FlowAt(h, s, p);
    StreamStep(h, s, p, a);
  }

  // A call's part grows only by its own process's stores.
  lemma PartStep(h: History, s: State, p: nat, a: Action, c: nat)
    requires Flow(h, s) && Can(s, p, a)
    ensures var h', s' := Note(h, s, p, a), Do(s, p, a);
            && Tagged(h, s.pipe) && Tagged(h', s'.pipe)
            && (a == Store ==> s.procs[p].WLoop? && s.procs[p].i < |s.procs[p].addr| && p in h.mine)
            && Part(s'.pipe.written, h'.from, c) ==
               if a == Store && c == h.mine[p] then Part(s.pipe.written, h.from, c) + [s.procs[p].addr[s.procs[p].i]]
               else Part(s.pipe.written, h.from, c)
  {
    hide RingOk, Flow, Do, Note, Part, ProcFlow;
    FlowAt(h, s, p);
    TagStep(h, s, p, a);
    StreamStep(h, s, p, a);
    if a == Store {
      PartNext(s.pipe.written, h.from, s.procs[p].addr[s.procs[p].i], h.mine[p], c);
    }
  }

  // A step leaves every other process where it is, or wakes it.
  ghost predicate Aside(h: History, s: State, h': History, s': State, q: nat)
    requires q < |s.procs|
  {
    && q < |s'.procs|
    && (s'.procs[q] == s.procs[q] || s'.procs[q] == Awake(s.procs[q], true) || s'.procs[q] == Awake(s.procs[q], false))
    && (s'.lock == Some(q) <==> s.lock == Some(q)) && (s.lock == Some(q) ==> s'.pipe == s.pipe)
    && (q in h.mine ==> q in h'.mine && h'.mine[q] == h.mine[q])
    && (q in h.asked ==> q in h'.asked && h'.asked[q] == h.asked[q])
    && |h.writes| <= |h'.writes|
    && forall c :: 0 <= c < |h.writes| && h.writes[c].p == q ==> h'.writes[c] == h.writes[c]
  }

  lemma NoteAside(h: History, s: State, p: nat, a: Action, q: nat)
    requires Flow(h, s) && Can(s, p, a) && q < |s.procs| && q != p
    ensures var h' := Note(h, s, p, a);
            && (q in h.mine ==> q in h'.mine && h'.mine[q] == h.mine[q])
            && (q in h.asked ==> q in h'.asked && h'.asked[q] == h.asked[q])
            && |h.writes| <= |h'.writes|
            && forall c :: 0 <= c < |h.writes| && h.writes[c].p == q ==> h'.writes[c] == h.writes[c]
  {
    hide RingOk, Flow, Part, Full, Empty, WriterOk, ReaderOk, Tagged;
    FlowAt(h, s, p);
  }

  lemma DoAside(h: History, s: State, p: nat, a: Action, q: nat)
    requires Flow(h, s) && Can(s, p, a) && q < |s.procs| && q != p
    ensures var s' := Do(s, p, a);
            && |s'.procs| == |s.procs|
            && (s'.procs[q] == s.procs[q] || s'.procs[q] == Awake(s.procs[q], true)
                || s'.procs[q] == Awake(s.procs[q], false))
            && (s'.lock == Some(q) <==> s.lock == Some(q)) && (s.lock == Some(q) ==> s'.pipe == s.pipe)
  {
    hide RingOk, Flow, Part, Put, Take, Head, Full, Empty, WriterOk, ReaderOk, Tagged;
    FlowAt(h, s, p);
    FlowAt(h, s, q);
  }

  lemma OtherStep(h: History, s: State, p: nat, a: Action, q: nat)
    requires Flow(h, s) && Can(s, p, a) && q < |s.procs| && q != p
    ensures Aside(h, s, Note(h, s, p, a), Do(s, p, a), q)
  {
    hide Flow, Do, Note, Can, Awake;
    NoteAside(h, s, p, a, q);
    DoAside(h, s, p, a, q);
  }

  lemma AsideFlow(h: History, s: State, h': History, s': State, q: nat)
    requires Tagged(h, s.pipe) && Tagged(h', s'.pipe) && q < |s.procs| && ProcFlow(h, s, q) && Aside(h, s, h', s', q)
    requires var c := Latest(h.mine, q);
             Writing(s.procs[q]) ==> Part(s'.pipe.written, h'.from, c) == Part(s.pipe.written, h.from, c)
    ensures q < |s'.procs| && ProcFlow(h', s', q)
  {
    hide Part, Empty, Tagged;
  }

  lemma OtherFlow(h: History, s: State, p: nat, a: Action, q: nat)
    requires Flow(h, s) && Can(s, p, a) && q < |s.procs| && q != p
    ensures var h', s' := Note(h, s, p, a), Do(s, p, a);
            Tagged(h', s'.pipe) && q < |s'.procs| && ProcFlow(h', s', q)
  {
    hide RingOk, Flow, Part, Empty, Do, Note, Tagged, Aside, WriterOk, ReaderOk;
    FlowAt(h, s, p);
    FlowAt(h, s, q);
    OtherStep(h, s, p, a, q);
    PartStep(h, s, p, a, Latest(h.mine, q));
    OtherPart(h, s, p, q, a);
    AsideFlow(h, s, Note(h, s, p, a), Do(s, p, a), q);
  }

  // A store by one process is none by another; a process that never wrote has no call
  // to compare.
  lemma OtherPart(h: History, s: State, p: nat, q: nat, a: Action)
    requires Flow(h, s) && Can(s, p, a) && q < |s.procs| && q != p
    ensures a == Store && Writing(s.procs[q]) ==> p in h.mine && h.mine[p] != Latest(h.mine, q)
  {
    hide RingOk, Flow, Part, Empty, Full, Tagged, WriterOk, ReaderOk;
    FlowAt(h, s, p);
    FlowAt(h, s, q);
  }

  // The process that moves: in a write, in a read, or in neither.
  predicate OfReader(a: Action) {
    a.StartRead? || a.ReadWait? || a.ReadReady? || a.ReadGiveUp? || a.Load? || a.ReadDone?
  }

  lemma StartedFlow(h: History, s: State, p: nat, a: Action)
    requires Flow(h, s) && Can(s, p, a) && a.StartWrite?
    ensures var h', s' := Note(h, s, p, a), Do(s, p, a);
            Tagged(h', s'.pipe) && p < |s'.procs| && ProcFlow(h', s', p)
  {
    hide RingOk, Flow, Part, Put, Take, Head, Full, Empty;
    FlowAt(h, s, p);
    TagStep(h, s, p, a);
    PartNone(s.pipe.written, h.from, |h.writes|);
  }

  lemma StoreFlow(h: History, s: State, p: nat)
    requires Flow(h, s) && Can(s, p, Store)
    ensures var h', s' := Note(h, s, p, Store), Do(s, p, Store);
            Tagged(h', s'.pipe) && p < |s'.procs| && ProcFlow(h', s', p)
  {
    hide RingOk, Flow, Part, Put, Take, Head, Full, Empty;
    FlowAt(h, s, p);
    PartStep(h, s, p, Store, Latest(h.mine, p));
  }

  lemma WriterFlow(h: History, s: State, p: nat, a: Action)
    requires Flow(h, s) && Can(s, p, a) && (a.Announce? || a.WriteFull? || a.WriteGiveUp?)
    ensures var h', s' := Note(h, s, p, a), Do(s, p, a);
            Tagged(h', s'.pipe) && p < |s'.procs| && ProcFlow(h', s', p)
  {
    hide RingOk, Flow, Part, Put, Take, Head, Full, Empty;
    FlowAt(h, s, p);
    PartStep(h, s, p, a, Latest(h.mine, p));
  }

  lemma ReaderFlow(h: History, s: State, p: nat, a: Action)
    requires Flow(h, s) && Can(s, p, a) && OfReader(a)
    ensures var h', s' := Note(h, s, p, a), Do(s, p, a);
            Tagged(h', s'.pipe) && p < |s'.procs| && ProcFlow(h', s', p)
  {
    hide RingOk, Flow, Part, Put, Take, Head, Full, Empty;
    FlowAt(h, s, p);
    TagStep(h, s, p, a);
  }

  lemma SleeperFlow(h: History, s: State, p: nat, a: Action)
    requires Flow(h, s) && Can(s, p, a) && (a.SleepAcquire? || a.SleepRelease? || a.SleepMark?)
    ensures var h', s' := Note(h, s, p, a), Do(s, p, a);
            Tagged(h', s'.pipe) && p < |s'.procs| && ProcFlow(h', s', p)
  {
    hide RingOk, Flow, Part, Put, Take, Head, Full, Empty;
    FlowAt(h, s, p);
  }

  lemma KillFlow(h: History, s: State, p: nat)
    requires Flow(h, s) && Can(s, p, Kill)
    ensures var h', s' := Note(h, s, p, Kill), Do(s, p, Kill);
            Tagged(h', s'.pipe) && p < |s'.procs| && ProcFlow(h', s', p)
  {
    hide RingOk, Flow, Part, Put, Take, Head, Full, Empty;
    FlowAt(h, s, p);
  }

  lemma AcquireFlow(h: History, s: State, p: nat)
    requires Flow(h, s) && Can(s, p, Acquire)
    ensures var h', s' := Note(h, s, p, Acquire), Do(s, p, Acquire);
            Tagged(h', s'.pipe) && p < |s'.procs| && ProcFlow(h', s', p)
  {
    hide RingOk, Flow, Part, Put, Take, Head, Full, Empty;
    FlowAt(h, s, p);
    TagStep(h, s, p, Acquire);
  }

  lemma ReleaseFlow(h: History, s: State, p: nat, a: Action)
    requires Flow(h, s) && Can(s, p, a) && (a.Release? || a.StartClose? || a.CloseWake?)
    ensures var h', s' := Note(h, s, p, a), Do(s, p, a);
            Tagged(h', s'.pipe) && p < |s'.procs| && ProcFlow(h', s', p)
  {
    hide RingOk, Flow, Part, Put, Take, Head, Full, Empty, WriterOk, ReaderOk;
    FlowAt(h, s, p);
    TagStep(h, s, p, a);
  }

  // The call whose process moves, and every other call.
  lemma OwnCall(h: History, s: State, p: nat, a: Action, c: nat)
    requires Flow(h, s) && Can(s, p, a) && c < |Note(h, s, p, a).writes|
    requires c >= |h.writes| || (p in h.mine && c == h.mine[p] && Writing(s.procs[p]))
    ensures var h', s' := Note(h, s, p, a), Do(s, p, a);
            Tagged(h', s'.pipe) && CallFlow(h', s', c)
  {
    hide RingOk, Flow, Part, Put, Take, Head, Empty, Full;
    FlowAt(h, s, p);
    PartStep(h, s, p, a, c);
  }

  lemma NoteKeepsCall(h: History, s: State, p: nat, a: Action, c: nat)
    requires Flow(h, s) && Can(s, p, a) && c < |h.writes| && !(p in h.mine && c == h.mine[p] && Writing(s.procs[p]))
    ensures c < |Note(h, s, p, a).writes| && Note(h, s, p, a).writes[c] == h.writes[c]
  {
    hide RingOk, Flow, Part, Full, Empty, WriterOk, ReaderOk, Tagged;
    FlowAt(h, s, p);
  }

  lemma OtherCall(h: History, s: State, p: nat, a: Action, c: nat)
    requires Flow(h, s) && Can(s, p, a) && c < |h.writes| && !(p in h.mine && c == h.mine[p] && Writing(s.procs[p]))
    ensures var h', s' := Note(h, s, p, a), Do(s, p, a);
            Tagged(h', s'.pipe) && c < |h'.writes| && CallFlow(h', s', c)
  {
    hide RingOk, Flow, Part, Do, Note, WriterOk, ReaderOk, Tagged;
    FlowAt(h, s, p);
    CallAt(h, s, c);
    StreamStep(h, s, p, a);
    PartStep(h, s, p, a, c);
    NoteKeepsCall(h, s, p, a, c);
    if h.writes[c].result == Pending {
      OtherStep(h, s, p, a, h.writes[c].p);
    }
  }

  lemma GivenAt(h: History, s: State, k: nat)
    requires Flow(h, s) && k < |h.given|
    ensures ReadFlow(s, h.given[k])
  {
  }

  lemma GivenStep(h: History, s: State, p: nat, a: Action, k: nat)
    requires Flow(h, s) && Can(s, p, a) && k < |Note(h, s, p, a).given|
    ensures ReadFlow(Do(s, p, a), Note(h, s, p, a).given[k])
  {
    hide RingOk, Flow, Do, Note, Part, WriterOk, Tagged, Full, Empty;
    NoteStream(h, s, p, a);
    DoStream(s, p, a);
    if k < |h.given| {
      GivenAt(h, s, k);
    } else {
      FlowAt(h, s, p);
    }
  }

  lemma GotOf(h: History, s: State)
    requires Flow(h, s)
    ensures Flat(h.given) + InFlight(s) == s.pipe.got
  {
  }

  // What has been read, and is being read, is what has been taken out.
  lemma GotStep(h: History, s: State, p: nat, a: Action)
    requires Flow(h, s) && Can(s, p, a)
    ensures Flat(Note(h, s, p, a).given) + InFlight(Do(s, p, a)) == Do(s, p, a).pipe.got
  {
    hide Flow, Do, Note, Can, Flat, InFlight;
    GotOf(h, s);
    if a == Load || a == ReadReady {
      CopyStep(h, s, p, a);
    } else {
      StillStep(h, s, p, a);
      NoteStream(h, s, p, a);
      DoStream(s, p, a);
      InRange(s, p, a);
      if a == Release && s.procs[p].REnd? {
        FlatNext(h.given, Read(p, Latest(h.asked, p), s.procs[p].out));
      } else if a == ReadGiveUp {
        FlatNext(h.given, Interrupted(p));
      } else {
        assert h.given + [] == h.given;
      }
    }
  }

  lemma InRange(s: State, p: nat, a: Action)
    requires Can(s, p, a)
    ensures p < |s.procs|
  {
  }

  lemma CopyStep(h: History, s: State, p: nat, a: Action)
    requires Flow(h, s) && Can(s, p, a) && (a == Load || a == ReadReady)
    ensures Flat(Note(h, s, p, a).given) + InFlight(Do(s, p, a)) == Do(s, p, a).pipe.got
  {
    FlowAt(h, s, p);
    hide RingOk, Part, Put, Head, Empty, Full, Flat;
  }

  lemma StillStep(h: History, s: State, p: nat, a: Action)
    requires Flow(h, s) && Can(s, p, a) && a != Load && a != ReadReady
    ensures var h', s' := Note(h, s, p, a), Do(s, p, a);
            if a == Release && s.procs[p].REnd? then
              && h'.given == h.given + [Read(p, Latest(h.asked, p), s.procs[p].out)]
              && InFlight(s) == s.procs[p].out && InFlight(s') == []
            else
              && h'.given == (if a == ReadGiveUp then h.given + [Interrupted(p)] else h.given)
              && InFlight(s') == InFlight(s)
  {
    hide RingOk, Flow, Part, Empty, Full, Tagged, ProcFlow, Do, Note;
    FlowAt(h, s, p);
    NoteStream(h, s, p, a);
    assert h.given + [] == h.given;
    if s.lock.Some? && s.lock.value != p {
      OtherStep(h, s, p, a, s.lock.value);
      NotHolder(h, s, p);
    } else {
      HolderStep(h, s, p, a);
    }
  }

  lemma NotHolder(h: History, s: State, p: nat)
    requires Flow(h, s) && p < |s.procs| && s.lock != Some(p)
    ensures !HoldsLock(s.procs[p])
  {
    FlowAt(h, s, p);
  }

  lemma HolderStep(h: History, s: State, p: nat, a: Action)
    requires Flow(h, s) && Can(s, p, a) && a != Load && a != ReadReady && (s.lock.None? || s.lock == Some(p))
    ensures InFlight(Do(s, p, a)) == if a == Release then [] else InFlight(s)
    ensures a == Release && s.procs[p].REnd? ==> InFlight(s) == s.procs[p].out
    ensures a == Release && !s.procs[p].REnd? ==> InFlight(s) == []
  {
    hide RingOk, Flow, Part, Put, Take, Head, Empty, Full, Flat, WriterOk, ReaderOk, Tagged;
    FlowAt(h, s, p);
  }

  lemma Bounds(h: History, s: State, p: nat, a: Action)
    requires Flow(h, s) && Can(s, p, a)
    ensures |Do(s, p, a).procs| == |s.procs| && p < |s.procs|
    ensures Do(s, p, a).lock.Some? ==> Do(s, p, a).lock.value < |s.procs|
  {
    hide RingOk, Tagged, ProcFlow, CallFlow, ReadFlow, Flat, InFlight, Put, Take, Head, Full, Empty;
  }

  lemma StepKeepsFlow(h: History, s: State, p: nat, a: Action)
    requires Flow(h, s) && Can(s, p, a)
    ensures Flow(Note(h, s, p, a), Do(s, p, a))
  {
    hide RingOk, Do, Can, Note, ProcFlow, CallFlow, ReadFlow, Flat, InFlight, Tagged, Writing;
    var h', s' := Note(h, s, p, a), Do(s, p, a);
    RingStep(h, s, p, a);
    TagStep(h, s, p, a);
    Bounds(h, s, p, a);
    GotStep(h, s, p, a);
    forall q | 0 <= q < |s'.procs| ensures ProcFlow(h', s', q) {
      if q != p {
        OtherFlow(h, s, p, a, q);
      } else if a.StartWrite? {
        StartedFlow(h, s, p, a);
      } else if a.Store? {
        StoreFlow(h, s, p);
      } else if a.Announce? || a.WriteFull? || a.WriteGiveUp? {
        WriterFlow(h, s, p, a);
      } else if OfReader(a) {
        ReaderFlow(h, s, p, a);
      } else if a.SleepAcquire? || a.SleepRelease? || a.SleepMark? {
        SleeperFlow(h, s, p, a);
      } else if a.Kill? {
        KillFlow(h, s, p);
      } else if a.Acquire? {
        AcquireFlow(h, s, p);
      } else {
        ReleaseFlow(h, s, p, a);
      }
    }
    forall c | 0 <= c < |h'.writes| ensures CallFlow(h', s', c) {
      if c < |h.writes| && !(p in h.mine && c == h.mine[p] && Writing(s.procs[p])) {
        OtherCall(h, s, p, a, c);
      } else {
        OwnCall(h, s, p, a, c);
      }
    }
    forall k | 0 <= k < |h'.given| ensures ReadFlow(s', h'.given[k]) { GivenStep(h, s, p, a, k); }
  }

  lemma {:induction false} RunKeepsFlow(h: History, s: State, run: seq<Step>)
    requires Flow(h, s) && Possible(s, run)
    ensures Flow(Story(h, s, run), After(s, run))
    decreases |run|
  {
    hide Flow, Can, Do, Note;
    if run != [] {
      StepKeepsFlow(h, s, run[0].p, run[0].a);
      RunKeepsFlow(Note(h, s, run[0].p, run[0].a), Do(s, run[0].p, run[0].a), run[1..]);
    }
  }

  // ----- what it means, in every run from a new pipe

  // The position of a process inside a write: how many bytes it has dealt with.
  ghost predicate At(pc: Pc, i: nat) {
    match pc
    case WEnter(_) => i == 0
    case WLoop(_, k, _) => i == k
    case WSleep1(_, k) => i == k
    case WSleep2(_, k) => i == k
    case WSleep3(_, k) => i == k
    case WAsleep(_, k) => i == k
    case WWoken(_, k) => i == k
    case _ => false
  }

  // The bytes that a call of write put into the stream are, in order, the first bytes it
  // was given: all of them once it returns, and as many as its position while it runs,
  // however often it slept.  It fails only with the read end closed or its process killed.
  lemma WritesArrive(n: nat, data: seq<Byte>, run: seq<Step>, c: nat)
    requires |data| == PIPESIZE && Possible(Init(n, data), run)
    requires c < |Story(Blank(), Init(n, data), run).writes|
    ensures var s, h := After(Init(n, data), run), Story(Blank(), Init(n, data), run);
            var w := h.writes[c];
            && |h.from| == |s.pipe.written|
            && var part := Part(s.pipe.written, h.from, c);
               && part <= w.addr
               && (w.result.Returned? ==> part == w.addr && w.result.n == |w.addr|)
               && (w.result == Failed ==> |part| < |w.addr| && (!s.pipe.readopen || w.p in s.killed))
               && (w.result == Pending ==>
                     && w.p < |s.procs|
                     && (forall i: nat :: At(s.procs[w.p], i) ==> i <= |w.addr| && part == w.addr[..i])
                     && (s.procs[w.p] == WEnd ==> part == w.addr))
  {
    StartFlow(n, data);
    RunKeepsFlow(Blank(), Init(n, data), run);
    hide RingOk, Part, Story, After, Possible;
    var s, h := After(Init(n, data), run), Story(Blank(), Init(n, data), run);
    CallAt(h, s, c);
    if h.writes[c].result == Pending {
      FlowAt(h, s, h.writes[c].p);
    }
  }

  // The reads that returned, and the one under way, delivered exactly what was taken out
  // of the stream, each byte once and in order.  None exceeds its limit; one that asked
  // for something and got nothing found the write end closed, and only a killed reader
  // is interrupted.
  lemma ReadsDeliver(n: nat, data: seq<Byte>, run: seq<Step>, k: nat)
    requires |data| == PIPESIZE && Possible(Init(n, data), run)
    ensures var s, h := After(Init(n, data), run), Story(Blank(), Init(n, data), run);
            && Flat(h.given) + InFlight(s) == s.pipe.got <= s.pipe.written
            && (k < |h.given| ==> match h.given[k]
                                  case Read(_, m, out) => |out| <= m && (out == [] && m > 0 ==> !s.pipe.writeopen)
                                  case Interrupted(p) => p in s.killed)
  {
    StartFlow(n, data);
    RunKeepsFlow(Blank(), Init(n, data), run);
    hide Part, Story, After, Possible, Held;
    var s, h := After(Init(n, data), run), Story(Blank(), Init(n, data), run);
    assert k < |h.given| ==> ReadFlow(s, h.given[k]);
  }

  // A read that is about to return less than it was asked for has emptied the pipe.
  lemma ShortReadDrains(n: nat, data: seq<Byte>, run: seq<Step>, p: nat)
    requires |data| == PIPESIZE && Possible(Init(n, data), run)
    ensures var s, h := After(Init(n, data), run), Story(Blank(), Init(n, data), run);
            p < |s.procs| && s.procs[p].REnd? ==>
              && p in h.asked && |s.procs[p].out| <= h.asked[p] && s.procs[p].out == InFlight(s)
              && (|s.procs[p].out| < h.asked[p] ==> s.pipe.got == s.pipe.written)
  {
    StartFlow(n, data);
    RunKeepsFlow(Blank(), Init(n, data), run);
    hide Part, Story, After, Possible, Held;
    var s, h := After(Init(n, data), run), Story(Blank(), Init(n, data), run);
    if p < |s.procs| {
      FlowAt(h, s, p);
      FullEmpty(s.pipe);
    }
  }
}
