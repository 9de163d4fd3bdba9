/**
  A pipe's buffer: a ring of 512 bytes and two 32-bit counters that wrap.

  `written` and `got` are every byte ever stored and taken out, without bound.
 */
module PipeRing {
  import opened Counters

  const PIPESIZE: nat := 512

  newtype Byte = x: int | 0 <= x < 256

  datatype Pipe = Pipe(data: seq<Byte>, nread: Word, nwrite: Word, readopen: bool, writeopen: bool,
                       written: seq<Byte>, got: seq<Byte>)

  // Byte k of the stream is in its slot.
  ghost predicate Held(p: Pipe, k: nat)
    requires |p.data| == PIPESIZE && k < |p.written|
  {
    p.data[k % PIPESIZE] == p.written[k]
  }

  ghost predicate RingOk(p: Pipe) {
    && |p.data| == PIPESIZE
    && |p.got| <= |p.written| <= |p.got| + PIPESIZE
    && p.got <= p.written
    && p.nread == |p.got| % WORD && p.nwrite == |p.written| % WORD
    && forall k :: |p.got| <= k < |p.written| ==> Held(p, k)
  }

  predicate Full(p: Pipe) {
    p.nwrite == Plus(p.nread, PIPESIZE)
  }

  predicate Empty(p: Pipe) {
    p.nread == p.nwrite
  }

  // The tests on the wrapped counters are the tests on the stream.
  lemma FullEmpty(p: Pipe)
    requires RingOk(p)
    ensures Full(p) <==> |p.written| == |p.got| + PIPESIZE
    ensures Empty(p) <==> |p.written| == |p.got|
  {
    Sum(|p.got|, PIPESIZE);
    Distance(|p.written|, |p.got|);
    Distance(|p.got| + PIPESIZE, |p.written|);
  }

  function Put(p: Pipe, b: Byte): Pipe
    requires |p.data| == PIPESIZE
  {
    p.(data := p.data[Slot(p.nwrite, PIPESIZE) := b], nwrite := Next(p.nwrite), written := p.written + [b])
  }

  lemma PutOk(p: Pipe, b: Byte)
    requires RingOk(p) && !Full(p)
    ensures RingOk(Put(p, b))
  {
    var n := |p.written|;
    FullEmpty(p);
    SlotOf(n, PIPESIZE, WORD / PIPESIZE);
    Increment(n);
    var q := Put(p, b);
    forall k | |q.got| <= k < |q.written|
      ensures Held(q, k)
    {
      if k < n {
        assert Held(p, k);
        SlotsDiffer(k, n, PIPESIZE);
      }
    }
  }

  function Head(p: Pipe): Byte
    requires |p.data| == PIPESIZE
  {
    p.data[Slot(p.nread, PIPESIZE)]
  }

  function Take(p: Pipe): Pipe
    requires |p.data| == PIPESIZE
  {
    p.(nread := Next(p.nread), got := p.got + [Head(p)])
  }

  lemma TakeOk(p: Pipe)
    requires RingOk(p) && !Empty(p)
    ensures RingOk(Take(p)) && Head(p) == p.written[|p.got|]
  {
    var n := |p.got|;
    FullEmpty(p);
    SlotOf(n, PIPESIZE, WORD / PIPESIZE);
    Increment(n);
    assert Held(p, n);
    var q := Take(p);
    forall k | |q.got| <= k < |q.written|
      ensures Held(q, k)
    {
      assert Held(p, k);
    }
  }

  lemma PutKeeps(q: Pipe, b: Byte)
    requires |q.data| == PIPESIZE
    ensures Put(q, b).written == q.written + [b] && Put(q, b).got == q.got
    ensures Put(q, b).readopen == q.readopen && Put(q, b).writeopen == q.writeopen
  {
  }

  lemma TakeKeeps(q: Pipe)
    requires |q.data| == PIPESIZE
    ensures Take(q).written == q.written && Take(q).readopen == q.readopen && Take(q).writeopen == q.writeopen
  {
  }

  ghost function PutAll(p: Pipe, bytes: seq<Byte>): (r: Pipe)
    requires |p.data| == PIPESIZE
    ensures |r.data| == PIPESIZE
    decreases |bytes|
  {
    if bytes == [] then p else Put(PutAll(p, bytes[..|bytes| - 1]), bytes[|bytes| - 1])
  }

  lemma PutAllStep(p: Pipe, bytes: seq<Byte>, b: Byte)
    requires |p.data| == PIPESIZE
    ensures PutAll(p, bytes + [b]) == Put(PutAll(p, bytes), b)
  {
    assert (bytes + [b])[..|bytes|] == bytes;
  }

  lemma {:induction false} PutAllWritten(p: Pipe, bytes: seq<Byte>)
    requires |p.data| == PIPESIZE
    ensures PutAll(p, bytes).written == p.written + bytes && PutAll(p, bytes).got == p.got
    ensures PutAll(p, bytes).readopen == p.readopen && PutAll(p, bytes).writeopen == p.writeopen
    decreases |bytes|
  {
    if bytes != [] {
      PutAllWritten(p, bytes[..|bytes| - 1]);
      assert bytes == bytes[..|bytes| - 1] + [bytes[|bytes| - 1]];
    }
  }

  class Buffer {
    var data: array<Byte>
    var nread: Word
    var nwrite: Word
    var readopen: bool
    var writeopen: bool
    ghost var written: seq<Byte>
    ghost var got: seq<Byte>

    ghost function View(): Pipe
      reads this, data
    {
      Pipe(data[..], nread, nwrite, readopen, writeopen, written, got)
    }

    // What pipealloc sets up.
    constructor (data: array<Byte>)
      requires data.Length == PIPESIZE
      ensures RingOk(View()) && this.data == data && readopen && writeopen && written == [] && got == []
    {
      this.data := data;
      readopen, writeopen, nread, nwrite := true, true, 0, 0;
      written, got := [], [];
    }

    // pipewrite from byte i on, until it is done or has to sleep.
    method Fill(addr: seq<Byte>, i: nat) returns (j: nat)
      requires RingOk(View()) && i <= |addr|
      modifies this`nwrite, this`written, data
      ensures RingOk(View()) && i <= j <= |addr| && View() == PutAll(old(View()), addr[i..j])
      ensures written == old(written) + addr[i..j] && (j == |addr| || Full(View()))
      ensures data == old(data)
    {
      j := i;
      ghost var p := View();
      hide RingOk, PutAll, Put, Full;
      assert addr[i..i] == [];
      PutAllNone(p);
      while j < |addr| && nwrite != Plus(nread, PIPESIZE)
        invariant i <= j <= |addr| && RingOk(View()) && View() == PutAll(p, addr[i..j]) && data == old(data)
      {
        ghost var v := View();
        NotFull(v);
        PutFields(v, addr[j]);
        data[Slot(nwrite, PIPESIZE)] := addr[j];
        nwrite := Next(nwrite);
        written := written + [addr[j]];
        PutAllStep(p, addr[i..j], addr[j]);
        assert addr[i..j] + [addr[j]] == addr[i..j + 1];
        assert View() == Put(v, addr[j]);
        j := j + 1;
      }
      PutAllWritten(p, addr[i..j]);
      NotFull(View());
    }

    // piperead's copy loop: up to n bytes.
    method Drain(n: nat) returns (out: seq<Byte>)
      requires RingOk(View())
      modifies `nread, `got
      ensures RingOk(View()) && |out| <= n && (|out| == n || Empty(View()))
      ensures got == old(got) + out && got <= written
      ensures View() == old(View()).(nread := nread, got := got)
    {
      out := [];
      ghost var p := View();
      hide RingOk, Take, Head;
      while |out| < n && nread != nwrite
        invariant |out| <= n && RingOk(View()) && got == old(got) + out
        decreases n - |out|
      {
        ghost var v := View();
        TakeFields(v);
        var b := data[Slot(nread, PIPESIZE)];
        nread := Next(nread);
        out := out + [b];
        got := got + [b];
        assert View() == Take(v);
      }
      GotPrefix(View());
    }
  }

  lemma PutAllNone(p: Pipe)
    requires RingOk(p)
    ensures PutAll(p, []) == p && |p.data| == PIPESIZE
  {
  }

  lemma NotFull(p: Pipe)
    requires RingOk(p)
    ensures |p.data| == PIPESIZE && (Full(p) <==> p.nwrite == Plus(p.nread, PIPESIZE))
  {
  }

  lemma PutFields(p: Pipe, b: Byte)
    requires RingOk(p) && !Full(p)
    ensures |p.data| == PIPESIZE && RingOk(Put(p, b))
    ensures Put(p, b) ==
            p.(data := p.data[Slot(p.nwrite, PIPESIZE) := b], nwrite := Next(p.nwrite), written := p.written + [b])
  {
    PutOk(p, b);
  }

  lemma TakeFields(p: Pipe)
    requires RingOk(p) && !Empty(p)
    ensures |p.data| == PIPESIZE && RingOk(Take(p))
    ensures Take(p) == p.(nread := Next(p.nread), got := p.got + [p.data[Slot(p.nread, PIPESIZE)]])
  {
    TakeOk(p);
  }

  lemma GotPrefix(p: Pipe)
    requires RingOk(p)
    ensures p.got <= p.written
  {
  }
}
