/**
  The logging layer as the kernel runs it: the in-memory header, the loops that
  copy blocks, and the operation counters.

  `disk` is what survives a crash and `pinned` the dirty buffers that log_write
  holds in the cache; reading a block gives its pinned copy, or else the disk's.
  `history` records the disk after each block write.
 */
module Log {
  import opened RedoLog

  datatype LogWriteResult = Logged | TooBigTransaction | OutsideTransaction

  // What the cache shows of a disk under some dirty buffers.
  ghost function Overlay(d: Disk, pinned: map<int, Block>): (cur: Disk)
    ensures |cur| == |d|
  {
    seq(|d|, b requires 0 <= b < |d| => if b in pinned then pinned[b] else d[b])
  }

  ghost function Elems(bs: seq<int>): (s: set<int>) {
    set b | b in bs
  }

  class Log {
    const l: Layout
    var disk: Disk
    var pinned: map<int, Block>
    var n: nat
    var block: seq<int>
    var outstanding: nat
    var committing: bool
    ghost var history: seq<Disk>

    ghost predicate Shape()
      reads this
    {
      IsDisk(l, disk) && n <= |block| == LOGSIZE
    }

    ghost function Blocks(): seq<int>
      requires Shape()
      reads this
    {
      block[..n]
    }

    ghost function Cur(): Disk
      reads this
    {
      Overlay(disk, pinned)
    }

    // The header lists exactly the pinned blocks.
    ghost predicate Pins()
      requires Shape()
      reads this
    {
      ValidBlocks(l, Blocks()) && pinned.Keys == Elems(Blocks())
    }

    ghost predicate LogUnpinned()
      reads this
    {
      forall b :: InLog(l, b) ==> b !in pinned
    }

    // Holds whenever log.lock is free and no commit is running.
    ghost predicate Valid()
      reads this
    {
      Shape() && Clean(l, disk) && Pins() && !committing && (outstanding == 0 ==> n == 0)
    }

    // A freshly booted kernel: nothing cached, recovery not yet run.
    constructor (l: Layout, d: Disk)
      requires Recoverable(l, d)
      ensures this.l == l && disk == d && pinned == map[] && Shape()
      ensures n == 0 && outstanding == 0 && !committing && history == []
    {
      this.l := l;
      disk, pinned := d, map[];
      n, block := 0, seq(LOGSIZE, _ => 0);
      outstanding, committing := 0, false;
      history := [];
    }

    method Bread(b: nat) returns (data: Block)
      requires b < |disk|
      ensures data == Cur()[b]
    {
      data := if b in pinned then pinned[b] else disk[b];
    }

    // Writing a buffer to disk also unpins it.
    method Bwrite(b: nat, data: Block)
      requires b < |disk|
      modifies `disk, `pinned, `history
      ensures disk == old(disk)[b := data] && pinned == old(pinned) - {b}
      ensures history == old(history) + [disk]
    {
      disk := disk[b := data];
      pinned := pinned - {b};
      history := history + [disk];
    }

    // Copies the logged blocks home.
    method InstallTrans()
      requires Shape() && ValidBlocks(l, Blocks())
      requires LogUnpinned()
      modifies `disk, `pinned, `history
      ensures Shape() && disk == Install(l, old(disk), Blocks(), n)
      ensures history == old(history) + InstallTrace(l, old(disk), Blocks(), n)
      ensures pinned == old(pinned) - Elems(Blocks())
    {
      hide Elems, Install, InstallTrace;
      ghost var d0, p0, h0, bs := disk, pinned, history, Blocks();
      var tail := 0;
      InstallStarts(l, d0, p0, bs);
      while tail < n
        invariant 0 <= tail <= n
        invariant disk == Install(l, d0, bs, tail)
        invariant pinned == p0 - Elems(bs[..tail])
        invariant history == h0 + InstallTrace(l, d0, bs, tail)
      {
        InstallReads(l, d0, bs, tail);
        var lbuf := Bread(l.start + tail + 1);
        assert bs[tail] == block[tail];
        InstallStep(l, d0, p0, bs, tail);
        Bwrite(block[tail], lbuf);
        tail := tail + 1;
      }
      assert bs[..n] == bs;
    }

    method ReadHead()
      requires Shape() && IsHeader(disk[l.start]) && l.start !in pinned
      modifies `n, `block
      ensures Shape() && Blocks() == DecodeHead(disk[l.start])
    {
      var lh := Bread(l.start);
      n := lh[0];
      var i := 0;
      while i < n
        invariant 0 <= i <= n <= LOGSIZE && n == lh[0] && |block| == LOGSIZE
        invariant forall j :: 0 <= j < i ==> block[j] == lh[1 + j]
      {
        block := block[i := lh[1 + i]];
        i := i + 1;
      }
    }

    method WriteHead()
      requires Shape() && |disk[l.start]| == WORDS && l.start !in pinned
      modifies `disk, `pinned, `history
      ensures disk == SetHead(l, old(disk), old(Blocks())) && pinned == old(pinned)
      ensures history == old(history) + [disk]
    {
      var hb := Bread(l.start);
      ghost var hb0 := hb;
      hb := hb[0 := n];
      var i := 0;
      while i < n
        invariant 0 <= i <= n
        invariant |hb| == WORDS && hb == [n] + block[..i] + hb0[1 + i..]
      {
        hb := hb[1 + i := block[i]];
        i := i + 1;
      }
      Bwrite(l.start, hb);
    }

    // Boot-time recovery.  The trace is the one RedoLog reasons about.
    method RecoverFromLog()
      requires Shape() && Recoverable(l, disk) && pinned == map[] && outstanding == 0 && !committing
      modifies `disk, `pinned, `history, `n, `block
      ensures disk == Recover(l, old(disk)) && pinned == map[] && Valid()
      ensures history == old(history) + RecoveryTrace(l, old(disk))
    {
      ReadHead();
      RecoverHome(l, disk);
      InstallAndErase();
      assert Blocks() == [];
    }

    // Copies the cached blocks into the log.
    method WriteLogBlocks()
      requires Shape() && ValidBlocks(l, Blocks())
      requires LogUnpinned()
      modifies `disk, `pinned, `history
      ensures Shape() && pinned == old(pinned)
      ensures disk == WriteLog(l, old(disk), old(Cur()), Blocks(), n)
      ensures history == old(history) + WriteLogTrace(l, old(disk), old(Cur()), Blocks(), n)
    {
      ghost var d0, c0, h0, bs := disk, Cur(), history, Blocks();
      var tail := 0;
      while tail < n
        invariant 0 <= tail <= n
        invariant disk == WriteLog(l, d0, c0, bs, tail) && pinned == old(pinned)
        invariant history == h0 + WriteLogTrace(l, d0, c0, bs, tail)
      {
        WriteLogReads(l, d0, pinned, bs, tail);
        assert bs[tail] == block[tail];
        var from := Bread(block[tail]);
        Bwrite(l.start + tail + 1, from);
        tail := tail + 1;
      }
    }

    // The writes up to and including the header: the point of commitment.
    method LogTransaction()
      requires Shape() && |disk[l.start]| == WORDS && ValidBlocks(l, Blocks()) && LogUnpinned()
      modifies `disk, `pinned, `history
      ensures Shape() && pinned == old(pinned)
      ensures disk == LoggedDisk(l, old(disk), old(Cur()), Blocks())
      ensures history == old(history) + (WriteLogTrace(l, old(disk), old(Cur()), Blocks(), n) + [disk])
    {
      WriteLogContents(l, disk, Cur(), Blocks(), n);
      WriteLogBlocks();
      WriteHead();
    }

    // The writes after commitment.
    method InstallAndErase()
      requires Shape() && |disk[l.start]| == WORDS && ValidBlocks(l, Blocks()) && LogUnpinned()
      modifies `disk, `pinned, `history, `n
      ensures Shape() && n == 0 && pinned == old(pinned) - Elems(old(Blocks()))
      ensures disk == InstalledDisk(l, old(disk), old(Blocks()))
      ensures history == old(history) + (InstallTrace(l, old(disk), old(Blocks()), old(n)) + [disk])
    {
      InstallContents(l, disk, Blocks(), n);
      InstallTrans();
      n := 0;
      assert Blocks() == [];
      WriteHead();
    }

    // Writes log, header, home blocks and the erased header, in that order.
    method Commit()
      requires Shape() && Clean(l, disk) && Pins()
      modifies `disk, `pinned, `history, `n
      ensures Shape() && n == 0 && pinned == map[]
      ensures history == old(history) + CommitTrace(l, old(disk), old(Cur()), old(Blocks()))
      ensures Clean(l, disk) && SameHome(l, disk, old(Cur()))
    {
      hide Overlay, Elems;
      ghost var d0, c0, bs := disk, Cur(), Blocks();
      CommitFromPins(l, d0, pinned, bs);
      if n > 0 {
        CommitCompletes(l, d0, c0, bs);
        LogTransaction();
        InstallAndErase();
        CommitTraceParts(l, d0, c0, bs, old(history), history);
      }
    }

    // Whether the operation may start now; if not, begin_op sleeps and asks again.
    method BeginOp() returns (admitted: bool)
      modifies `outstanding
      ensures admitted <==> !committing && n + (old(outstanding) + 1) * MAXOPBLOCKS <= LOGSIZE
      ensures outstanding == old(outstanding) + if admitted then 1 else 0
    {
      admitted := !committing && n + (outstanding + 1) * MAXOPBLOCKS <= LOGSIZE;
      if admitted {
        outstanding := outstanding + 1;
      }
    }

    // The last operation to end commits the whole group.
    method EndOp()
      requires Valid() && outstanding > 0
      modifies this
      ensures Valid() && outstanding == old(outstanding) - 1
      ensures SameHome(l, Cur(), old(Cur()))
      ensures outstanding > 0 ==> disk == old(disk) && pinned == old(pinned) && Blocks() == old(Blocks())
                                  && history == old(history)
      ensures outstanding == 0 ==>
                && history == old(history) + CommitTrace(l, old(disk), old(Cur()), old(Blocks()))
                && pinned == map[]
    {
      hide CommitTrace, Clean, Overlay;
      outstanding := outstanding - 1;
      if outstanding == 0 {
        committing := true;
        Commit();
        committing := false;
        assert Blocks() == [];
        OverlayNothing(disk);
      }
    }

    // The caller changed block b to data in its buffer.
    method LogWrite(b: nat, data: Block) returns (r: LogWriteResult)
      requires Valid() && b < l.nblocks && !InLog(l, b)
      modifies `pinned, `n, `block
      ensures r.TooBigTransaction? <==> old(n) >= LOGSIZE || old(n) >= l.size - 1
      ensures r.OutsideTransaction? <==> !r.TooBigTransaction? && outstanding < 1
      ensures !r.Logged? ==> pinned == old(pinned) && n == old(n) && block == old(block)
      ensures r.Logged? ==>
                && Valid()
                && Cur() == old(Cur())[b := data]
                && Blocks() == if b in old(Blocks()) then old(Blocks()) else old(Blocks()) + [b]
    {
      hide Clean, Overlay, Elems, ValidBlocks;
      if n >= LOGSIZE || n >= l.size - 1 {
        return TooBigTransaction;
      }
      if outstanding < 1 {
        return OutsideTransaction;
      }
      ghost var bs := Blocks();
      Enter(b);
      pinned := pinned[b := data];
      OverlayPut(disk, old(pinned), b, data);
      EnterOk(l, bs, b);
      assert pinned.Keys == old(pinned).Keys + {b};
      return Logged;
    }

    // The loop over the header: a block that is listed already is not listed again.
    method Enter(b: nat)
      requires Shape() && n < LOGSIZE
      modifies `n, `block
      ensures Shape() && Blocks() == if b in old(Blocks()) then old(Blocks()) else old(Blocks()) + [b]
    {
      ghost var bs := Blocks();
      var i := 0;
      while i < n && block[i] != b
        invariant 0 <= i <= n
        invariant forall j :: 0 <= j < i ==> block[j] != b
      {
        i := i + 1;
      }
      block := block[i := b];
      if i == n {
        assert block[..n + 1] == bs + [b];
        n := n + 1;
      } else {
        assert bs[i] == b;
        assert block[..n] == bs;
      }
    }
  }

  lemma OverlayNothing(d: Disk)
    ensures Overlay(d, map[]) == d
  {
  }

  lemma OverlayPut(d: Disk, pinned: map<int, Block>, b: nat, data: Block)
    requires b < |d|
    ensures Overlay(d, pinned[b := data]) == Overlay(d, pinned)[b := data]
  {
  }

  lemma EnterOk(l: Layout, bs: seq<int>, b: nat)
    requires ValidBlocks(l, bs) && b < l.nblocks && !InLog(l, b) && |bs| < LOGSIZE && |bs| < l.size - 1
    ensures var bs' := if b in bs then bs else bs + [b];
            ValidBlocks(l, bs') && Elems(bs') == Elems(bs) + {b}
  {
  }

  lemma InstallStarts(l: Layout, d: Disk, pinned: map<int, Block>, bs: seq<int>)
    requires IsDisk(l, d) && ValidBlocks(l, bs)
    ensures Install(l, d, bs, 0) == d && InstallTrace(l, d, bs, 0) == [] && pinned - Elems(bs[..0]) == pinned
  {
  }

  lemma InstallStep(l: Layout, d: Disk, pinned: map<int, Block>, bs: seq<int>, k: nat)
    requires IsDisk(l, d) && ValidBlocks(l, bs) && k < |bs|
    ensures Install(l, d, bs, k + 1) == Install(l, d, bs, k)[bs[k] := d[l.start + k + 1]]
    ensures InstallTrace(l, d, bs, k + 1) == InstallTrace(l, d, bs, k) + [Install(l, d, bs, k + 1)]
    ensures pinned - Elems(bs[..k + 1]) == (pinned - Elems(bs[..k])) - {bs[k]}
  {
    assert bs[..k + 1] == bs[..k] + [bs[k]];
    assert Elems(bs[..k + 1]) == Elems(bs[..k]) + {bs[k]};
  }

  // Log slots are still readable while their blocks go home.
  lemma InstallReads(l: Layout, d: Disk, bs: seq<int>, k: nat)
    requires IsDisk(l, d) && ValidBlocks(l, bs) && k < |bs|
    ensures Install(l, d, bs, k)[l.start + k + 1] == d[l.start + k + 1]
  {
    InstallContents(l, d, bs, k);
  }

  // Log writes never disturb what the cache shows of a home block.
  lemma WriteLogReads(l: Layout, d: Disk, pinned: map<int, Block>, bs: seq<int>, k: nat)
    requires IsDisk(l, d) && ValidBlocks(l, bs) && k < |bs|
    requires forall b :: InLog(l, b) ==> b !in pinned
    ensures var c := Overlay(d, pinned); Overlay(WriteLog(l, d, c, bs, k), pinned)[bs[k]] == c[bs[k]]
    ensures l.start + k + 1 !in pinned
  {
    WriteLogContents(l, d, Overlay(d, pinned), bs, k);
    assert InLog(l, l.start + k + 1);
  }

  lemma CommitFromPins(l: Layout, d: Disk, pinned: map<int, Block>, bs: seq<int>)
    requires Clean(l, d) && ValidBlocks(l, bs) && pinned.Keys == Elems(bs)
    ensures CommitReady(l, d, Overlay(d, pinned), bs)
    ensures forall b :: InLog(l, b) ==> b !in pinned
    ensures bs == [] ==> pinned == map[] && Overlay(d, pinned) == d
  {
    forall b | b in pinned
      ensures !InLog(l, b)
    {
      var i :| 0 <= i < |bs| && bs[i] == b;
    }
  }
}
