/**
  The kernel trace ring: the last 128 events, three 32-bit counters, one reader.

  Ghost state is unbounded.  `history` is every event ever recorded, `fates` says
  for every position the reader has moved past whether that event was delivered,
  overwritten by the writer, or lost because copying it to the user failed, and
  `received` is what user programs got.  The counters are these lengths and counts
  modulo 2^32.
 */
module TraceRing {
  import opened Counters

  const SIZE: nat := 128
  const NAME_LEN: nat := 16

  datatype Option<T> = None | Some(value: T)

  datatype Event = Event(seqno: Word, ticks: Word, kind: int, pid: int, arg0: int, arg1: int, arg2: int,
                         comm: string, name: string, overwritten: Word)

  datatype Fate = Delivered | Overwritten | Lost

  // A copy of a C string into a fixed field keeps all but the last byte.
  function Clip(s: string): (r: string)
    ensures r <= s && |r| == if |s| < 16 then |s| else 15
  {
    if |s| < NAME_LEN then s else s[..NAME_LEN - 1]
  }

  ghost function Count(fates: seq<Fate>, f: Fate): nat {
    if fates == [] then 0 else Count(fates[..|fates| - 1], f) + if fates[|fates| - 1] == f then 1 else 0
  }

  lemma CountStep(fates: seq<Fate>, f: Fate, g: Fate)
    ensures Count(fates + [g], f) == Count(fates, f) + if f == g then 1 else 0
  {
    assert (fates + [g])[..|fates|] == fates;
  }

  // Every position passed is accounted for exactly once.
  lemma {:induction false} FatesAddUp(fates: seq<Fate>)
    ensures Count(fates, Delivered) + Count(fates, Overwritten) + Count(fates, Lost) == |fates|
  {
    if fates != [] {
      FatesAddUp(fates[..|fates| - 1]);
    }
  }

  // The positions that were delivered, in order.
  ghost function Positions(fates: seq<Fate>): (r: seq<nat>)
    ensures forall k :: 0 <= k < |r| ==> r[k] < |fates|
  {
    if fates == [] then [] else
      var n := |fates| - 1;
      Positions(fates[..n]) + if fates[n] == Delivered then [n] else []
  }

  ghost function Chosen(history: seq<Event>, at: seq<nat>): (r: seq<Event>)
    requires forall k :: 0 <= k < |at| ==> at[k] < |history|
    ensures |r| == |at| && forall k :: 0 <= k < |at| ==> r[k] == history[at[k]]
  {
    seq(|at|, k requires 0 <= k < |at| => history[at[k]])
  }

  lemma PositionsStep(fates: seq<Fate>, f: Fate)
    ensures Positions(fates + [f]) == Positions(fates) + if f == Delivered then [|fates|] else []
  {
    assert (fates + [f])[..|fates|] == fates;
  }

  // Position p is among the delivered ones exactly if its fate says so, and they ascend.
  lemma {:induction false} PositionsOk(fates: seq<Fate>)
    ensures var at := Positions(fates);
            && (forall p :: 0 <= p < |fates| ==> (p in at <==> fates[p] == Delivered))
            && (forall i, j :: 0 <= i < j < |at| ==> at[i] < at[j])
            && |at| == Count(fates, Delivered)
  {
    if fates != [] {
      PositionsOk(fates[..|fates| - 1]);
    }
  }

  // Events the reader missed between positions a and b.
  ghost function Missed(fates: seq<Fate>, a: nat, b: nat): nat
    requires a <= b <= |fates|
  {
    Count(fates[a..b], Overwritten) + Count(fates[a..b], Lost)
  }

  // Between two events the reader received one after the other it missed exactly as
  // many as the gap in their sequence numbers says.
  lemma GapsAreLosses(r: Recorder, k: nat)
    requires r.Ok() && k + 1 < |r.received|
    ensures var at := Positions(r.fates);
            && |at| == |r.received| && at[k] < at[k + 1]
            && at[k + 1] - at[k] - 1 == Missed(r.fates, at[k] + 1, at[k + 1])
            && (r.received[k + 1].seqno - r.received[k].seqno - 1) % WORD ==
               Missed(r.fates, at[k] + 1, at[k + 1]) % WORD
  {
    var at := Positions(r.fates);
    PositionsOk(r.fates);
    var gap := r.fates[at[k] + 1..at[k + 1]];
    FatesAddUp(gap);
    forall p | at[k] < p < at[k + 1]
      ensures r.fates[p] != Delivered
    {
      forall i | 0 <= i < |at|
        ensures at[i] != p
      {
        assert (i < k ==> at[i] < at[k]) && (i > k + 1 ==> at[k + 1] < at[i]);
      }
    }
    NoneDelivered(gap);
    assert Stamped(r.history, at[k]) && Stamped(r.history, at[k + 1]);
    DifferenceOfResidues(at[k + 1], at[k], WORD);
  }

  // Delivered, overwritten and lost events together make up the reader's counter.
  lemma Accounting(r: Recorder)
    requires r.Ok()
    ensures (|r.received| + Count(r.fates, Overwritten) + Count(r.fates, Lost)) % WORD == r.readseq
    ensures |r.received| + Count(r.fates, Overwritten) + Count(r.fates, Lost) <= |r.history|
  {
    PositionsOk(r.fates);
    FatesAddUp(r.fates);
  }

  lemma {:induction false} NoneDelivered(fates: seq<Fate>)
    requires forall p :: 0 <= p < |fates| ==> fates[p] != Delivered
    ensures Count(fates, Delivered) == 0
  {
    if fates != [] {
      NoneDelivered(fates[..|fates| - 1]);
    }
  }

  // ----- the invariant

  // Ring and ghost state as one value.
  datatype Recorder = Recorder(seqno: Word, readseq: Word, overwritten: Word, events: seq<Event>,
                               history: seq<Event>, fates: seq<Fate>, received: seq<Event>)
  {
    ghost predicate Ok() {
      && |events| == SIZE && |fates| <= |history| <= |fates| + SIZE
      && seqno == |history| % WORD && readseq == |fates| % WORD && overwritten == Count(fates, Overwritten) % WORD
      && (forall i :: 0 <= i < |history| ==> Stamped(history, i))
      && (forall i :: |history| - SIZE <= i < |history| && 0 <= i ==> Held(events, history, i))
      && received == Chosen(history, Positions(fates))
    }
  }

  ghost predicate Stamped(history: seq<Event>, i: nat)
    requires i < |history|
  {
    history[i].seqno == i % WORD
  }

  // Event i is still in its slot.
  ghost predicate Held(events: seq<Event>, history: seq<Event>, i: nat)
    requires |events| == SIZE && i < |history|
  {
    events[i % SIZE] == history[i]
  }

  lemma Bounds(r: Recorder)
    requires r.Ok()
    ensures |r.events| == SIZE && |r.fates| <= |r.history| <= |r.fates| + SIZE
    ensures r.readseq == r.seqno <==> |r.fates| == |r.history|
  {
    Distance(|r.history|, |r.fates|);
  }

  // What the writer's test computes once the new event is in.
  lemma Behind(r: Recorder)
    requires r.Ok()
    ensures Minus(Next(r.seqno), r.readseq) > SIZE <==> |r.history| - |r.fates| == SIZE
    ensures |r.history| - |r.fates| == SIZE ==> Minus(Next(r.seqno), SIZE) == Next(r.readseq)
  {
    var n, m := |r.history|, |r.fates|;
    Increment(n);
    Increment(m);
    Distance(n + 1, m);
    if n - m == SIZE {
      ShiftByMultiple(n + 1 - SIZE, -((n + 1) / WORD), WORD);
      assert (n + 1) % WORD - SIZE == (n + 1 - SIZE) + -((n + 1) / WORD) * WORD;
    }
  }

  // What delivering k events from position r does to the ghost state.
  ghost function Deliver(fates: seq<Fate>, k: nat): (r: seq<Fate>)
    ensures |r| == |fates| + k
  {
    fates + seq(k, _ => Delivered)
  }

  lemma DeliverNone(fates: seq<Fate>)
    ensures Deliver(fates, 0) == fates
  {
  }

  lemma DeliverStep(fates: seq<Fate>, k: nat)
    ensures Deliver(fates, k + 1) == Deliver(fates, k) + [Delivered]
  {
  }

  // Moving the reader past one event.
  ghost function Passed(r: Recorder, f: Fate): Recorder
    requires r.Ok() && |r.fates| < |r.history|
  {
    r.(readseq := Next(r.readseq), fates := r.fates + [f],
       overwritten := if f == Overwritten then Next(r.overwritten) else r.overwritten,
       received := if f == Delivered then r.received + [r.history[|r.fates|]] else r.received)
  }

  lemma PassedOk(r: Recorder, f: Fate)
    requires r.Ok() && |r.fates| < |r.history|
    ensures Passed(r, f).Ok()
    ensures r.events[Slot(r.readseq, SIZE)] == r.history[|r.fates|]
  {
    hide Next, Slot, Count, Positions;
    var n := |r.fates|;
    Increment(n);
    SlotOf(n, SIZE, WORD / SIZE);
    Increment(Count(r.fates, Overwritten));
    CountStep(r.fates, Overwritten, f);
    PositionsStep(r.fates, f);
    assert Held(r.events, r.history, n);
    assert Passed(r, f).received == Chosen(r.history, Positions(r.fates + [f]));
  }

  class Ring {
    var enabled: bool
    var seqno: Word
    var readseq: Word
    var overwritten: Word
    var events: array<Event>
    ghost var history: seq<Event>
    ghost var fates: seq<Fate>
    ghost var received: seq<Event>

    ghost function View(): Recorder
      reads this, events
    {
      Recorder(seqno, readseq, overwritten, events[..], history, fates, received)
    }

    ghost predicate Valid()
      reads this, events
    {
      View().Ok()
    }

    constructor ()
      ensures Valid() && enabled && history == [] && fates == [] && received == [] && fresh(events)
    {
      enabled, seqno, readseq, overwritten := true, 0, 0, 0;
      events := new Event[SIZE](_ => Event(0, 0, 0, 0, 0, 0, 0, "", "", 0));
      history, fates, received := [], [], [];
    }

    // `comm` is the name of the current process, if there is one with a positive pid.
    method TraceEvent(kind: int, pid: int, arg0: int, arg1: int, arg2: int, name: Option<string>, comm: Option<string>,
                      ticks: Word)
      requires Valid()
      modifies this`seqno, this`readseq, this`overwritten, this`history, this`fates, events
      ensures Valid()
      ensures !enabled ==> history == old(history) && fates == old(fates)
      ensures enabled ==>
                && var e := Event(old(seqno), ticks, kind, pid, arg0, arg1, arg2,
                                  Clip(if comm.Some? then comm.value else "kernel"),
                                  Clip(if name.Some? then name.value else ""), old(overwritten));
                && history == old(history) + [e]
                && fates == old(fates) + if |old(history)| - |old(fates)| == SIZE then [Overwritten] else []
    {
      if !enabled {
        return;
      }
      hide Recorder.Ok, Next, Minus, Slot, Clip, Deliver;
      ghost var r := View();
      Bounds(r);
      var comm' := Clip(if comm.Some? then comm.value else "kernel");
      var name' := Clip(if name.Some? then name.value else "");
      var e := Event(seqno, ticks, kind, pid, arg0, arg1, arg2, comm', name', overwritten);
      if |history| - |fates| == SIZE {
        PassedOk(r, Overwritten);
      }
      Behind(r);
      RecordedOk(if |history| - |fates| == SIZE then Passed(r, Overwritten) else r, e);
      events[Slot(seqno, SIZE)] := e;
      history := history + [e];
      seqno := Next(seqno);
      if Minus(seqno, readseq) > SIZE {
        readseq := Minus(seqno, SIZE);
        overwritten := Next(overwritten);
        fates := fates + [Overwritten];
      }
    }

    // Takes the oldest unread event; `faulty` says that copying it to the user fails.
    method Take(faulty: bool) returns (e: Event)
      requires Valid() && |fates| < |history|
      modifies `readseq, `fates, `received
      ensures Valid() && e == history[old(|fates|)]
      ensures fates == old(fates) + [if faulty then Lost else Delivered]
      ensures received == if faulty then old(received) else old(received) + [e]
    {
      hide Recorder.Ok, Next, Slot;
      ghost var r := View();
      Bounds(r);
      PassedOk(r, if faulty then Lost else Delivered);
      e := events[Slot(readseq, SIZE)];
      readseq := Next(readseq);
      fates := fates + [if faulty then Lost else Delivered];
      received := if faulty then received else received + [e];
      assert View() == Passed(r, if faulty then Lost else Delivered);
    }

    // Copying event number c to the user fails exactly if c is in `faults`; that event
    // is then lost.
    method TraceRead(max: int, faults: set<nat>) returns (n: int, buf: seq<Event>, ghost lost: bool)
      requires Valid()
      modifies `readseq, `fates, `received
      ensures Valid() && received == old(received) + buf
      ensures max <= 0 ==> n == 0 && buf == [] && fates == old(fates) && !lost
      ensures max > 0 ==> |buf| <= max
      ensures old(|fates|) + |buf| <= |history| && buf == Run(history, old(|fates|), |buf|)
      ensures fates == if lost then Deliver(old(fates), |buf|) + [Lost] else Deliver(old(fates), |buf|)
      ensures max > 0 && !lost ==> n == |buf| && (n == max || |fates| == |history|)
      ensures lost ==> |buf| in faults && n == if |buf| > 0 then |buf| else -1
      ensures forall c: nat :: c < |buf| ==> c !in faults
    {
      DeliverNone(fates);
      hide Run, Recorder.Ok, Deliver, View;
      n, buf, lost := 0, [], false;
      ghost var a, rec := |fates|, received;
      Ends();
      if max <= 0 {
        return;
      }
      while n < max && readseq != seqno
        invariant Valid() && 0 <= n <= max && n == |buf|
        invariant a + n <= |history| && buf == Run(history, a, n) && received == rec + buf
        invariant fates == Deliver(old(fates), n)
        invariant forall c: nat :: c < n ==> c !in faults
        invariant readseq == seqno <==> |fates| == |history|
      {
        var e := Take(n in faults);
        if n in faults {
          lost := true;
          n := if n > 0 then n else -1;
          return;
        }
        DeliverStep(old(fates), n);
        RunStep(history, a, n, rec, buf);
        buf := buf + [e];
        n := n + 1;
        Ends();
      }
    }

    // The reader has caught up exactly if its counter equals the writer's.
    lemma Ends()
      requires Valid()
      ensures |fates| <= |history| && (readseq == seqno <==> |fates| == |history|)
    {
      Bounds(View());
    }
  }

  // n events of the history from position a on.
  ghost function Run(history: seq<Event>, a: nat, n: nat): (r: seq<Event>)
    requires a + n <= |history|
    ensures |r| == n
  {
    history[a..a + n]
  }

  lemma RunStep(history: seq<Event>, a: nat, n: nat, rec: seq<Event>, buf: seq<Event>)
    requires a + n < |history| && buf == Run(history, a, n)
    ensures buf + [history[a + n]] == Run(history, a, n + 1)
    ensures rec + buf + [history[a + n]] == rec + (buf + [history[a + n]])
  {
  }

  // Recording one more event when there is room for it.
  lemma RecordedOk(r: Recorder, e: Event)
    requires r.Ok() && |r.history| - |r.fates| < SIZE && e.seqno == r.seqno
    ensures r.(seqno := Next(r.seqno), history := r.history + [e], events := r.events[Slot(r.seqno, SIZE) := e]).Ok()
  {
    var n := |r.history|;
    SlotOf(n, SIZE, WORD / SIZE);
    Increment(n);
    var g := r.(seqno := Next(r.seqno), history := r.history + [e], events := r.events[Slot(r.seqno, SIZE) := e]);
    forall i | 0 <= i < |g.history|
      ensures Stamped(g.history, i)
    {
      assert i < n ==> Stamped(r.history, i);
    }
    forall i | |g.history| - SIZE <= i < |g.history| && 0 <= i
      ensures Held(g.events, g.history, i)
    {
      if i < n {
        assert Held(r.events, r.history, i);
        SlotsDiffer(i, n, SIZE);
      }
    }
    assert Chosen(g.history, Positions(r.fates)) == Chosen(r.history, Positions(r.fates));
  }
}
