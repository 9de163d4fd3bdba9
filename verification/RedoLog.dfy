/**
  The on-disk redo log: its format, recovery, and what the disk looks like after
  every single block write of a commit or of a recovery.

  A disk is a sequence of blocks and a block a sequence of 32-bit words.  Block
  writes are atomic; a crash loses everything but the disk.
 */
module RedoLog {

  const MAXOPBLOCKS: nat := 10
  const LOGSIZE: nat := 30
  const WORDS: nat := 128

  type Block = seq<int>
  type Disk = seq<Block>

  // The header block is block `start`; log slots follow it up to `start + size`.
  datatype Layout = Layout(start: nat, size: nat, nblocks: nat)

  predicate InLog(l: Layout, b: int) {
    l.start <= b < l.start + l.size
  }

  predicate IsDisk(l: Layout, d: Disk) {
    0 < l.size && l.start + l.size <= l.nblocks && |d| == l.nblocks
  }

  // Two disks agree on every block that is not part of the log.
  ghost predicate SameHome(l: Layout, d: Disk, e: Disk) {
    |d| == |e| && forall b :: 0 <= b < |d| && !InLog(l, b) ==> d[b] == e[b]
  }

  predicate IsHeader(h: Block) {
    |h| == WORDS && 0 <= h[0] <= LOGSIZE
  }

  function DecodeHead(h: Block): (bs: seq<int>)
    requires IsHeader(h)
  {
    h[1..1 + h[0]]
  }

  // The entries past the count keep whatever they held before.
  function EncodeHead(h: Block, bs: seq<int>): (r: Block)
    requires |h| == WORDS && |bs| <= LOGSIZE
    ensures IsHeader(r) && DecodeHead(r) == bs
  {
    [|bs|] + bs + h[1 + |bs|..]
  }

  ghost predicate Distinct(bs: seq<int>) {
    forall i, j :: 0 <= i < j < |bs| ==> bs[i] != bs[j]
  }

  // Block numbers a transaction may carry.
  ghost predicate ValidBlocks(l: Layout, bs: seq<int>) {
    && |bs| <= LOGSIZE
    && |bs| < l.size
    && Distinct(bs)
    && forall i :: 0 <= i < |bs| ==> 0 <= bs[i] < l.nblocks && !InLog(l, bs[i])
  }

  ghost predicate Recoverable(l: Layout, d: Disk) {
    && IsDisk(l, d)
    && IsHeader(d[l.start])
    && ValidBlocks(l, DecodeHead(d[l.start]))
  }

  ghost predicate Clean(l: Layout, d: Disk) {
    IsDisk(l, d) && IsHeader(d[l.start]) && DecodeHead(d[l.start]) == []
  }

  // The disk after the first k logged blocks were copied home.
  ghost function Install(l: Layout, d: Disk, bs: seq<int>, k: nat): (e: Disk)
    requires IsDisk(l, d) && ValidBlocks(l, bs) && k <= |bs|
    ensures |e| == |d|
  {
    if k == 0 then d else Install(l, d, bs, k - 1)[bs[k - 1] := d[l.start + k]]
  }

  // The disk after the first k cached blocks were copied into the log.
  ghost function WriteLog(l: Layout, d: Disk, cur: Disk, bs: seq<int>, k: nat): (e: Disk)
    requires IsDisk(l, d) && |cur| == |d| && ValidBlocks(l, bs) && k <= |bs|
    ensures |e| == |d|
  {
    if k == 0 then d else WriteLog(l, d, cur, bs, k - 1)[l.start + k := cur[bs[k - 1]]]
  }

  // The disks after each of the first k copies home.
  ghost function InstallTrace(l: Layout, d: Disk, bs: seq<int>, k: nat): (t: seq<Disk>)
    requires IsDisk(l, d) && ValidBlocks(l, bs) && k <= |bs|
    ensures |t| == k
  {
    if k == 0 then [] else InstallTrace(l, d, bs, k - 1) + [Install(l, d, bs, k)]
  }

  // The disks after each of the first k copies into the log.
  ghost function WriteLogTrace(l: Layout, d: Disk, cur: Disk, bs: seq<int>, k: nat): (t: seq<Disk>)
    requires IsDisk(l, d) && |cur| == |d| && ValidBlocks(l, bs) && k <= |bs|
    ensures |t| == k
  {
    if k == 0 then [] else WriteLogTrace(l, d, cur, bs, k - 1) + [WriteLog(l, d, cur, bs, k)]
  }

  ghost function SetHead(l: Layout, d: Disk, bs: seq<int>): (e: Disk)
    requires IsDisk(l, d) && |d[l.start]| == WORDS && |bs| <= LOGSIZE
    ensures SameHome(l, d, e)
  {
    d[l.start := EncodeHead(d[l.start], bs)]
  }

  // The disk after every logged block went home and the header was erased.
  ghost function InstalledDisk(l: Layout, d: Disk, bs: seq<int>): (e: Disk)
    requires IsDisk(l, d) && |d[l.start]| == WORDS && ValidBlocks(l, bs)
    ensures |e| == |d|
  {
    InstallContents(l, d, bs, |bs|);
    SetHead(l, Install(l, d, bs, |bs|), [])
  }

  // What a recovery that is not interrupted leaves on the disk.
  ghost function Recover(l: Layout, d: Disk): (e: Disk)
    requires Recoverable(l, d)
  {
    InstalledDisk(l, d, DecodeHead(d[l.start]))
  }

  // Every disk state that a recovery passes through, one per block write.
  ghost function RecoveryTrace(l: Layout, d: Disk): (t: seq<Disk>)
    requires Recoverable(l, d)
  {
    var bs := DecodeHead(d[l.start]);
    InstallTrace(l, d, bs, |bs|) + [Recover(l, d)]
  }

  ghost function LoggedDisk(l: Layout, d: Disk, cur: Disk, bs: seq<int>): (e: Disk)
    requires IsDisk(l, d) && |cur| == |d| && ValidBlocks(l, bs) && |d[l.start]| == WORDS
    ensures |e| == |d| && |e[l.start]| == WORDS
  {
    WriteLogContents(l, d, cur, bs, |bs|);
    SetHead(l, WriteLog(l, d, cur, bs, |bs|), bs)
  }

  // Every disk state that a commit passes through, one per block write.
  ghost function CommitTrace(l: Layout, d: Disk, cur: Disk, bs: seq<int>): (t: seq<Disk>)
    requires IsDisk(l, d) && |cur| == |d| && ValidBlocks(l, bs) && |d[l.start]| == WORDS
  {
    if bs == [] then [] else
      var h := LoggedDisk(l, d, cur, bs);
      (WriteLogTrace(l, d, cur, bs, |bs|) + [h])
      + (InstallTrace(l, h, bs, |bs|) + [InstalledDisk(l, h, bs)])
  }

  // Disk e is disk d with the first k logged blocks home.
  ghost predicate Copied(l: Layout, d: Disk, e: Disk, bs: seq<int>, k: nat) {
    && IsDisk(l, d) && ValidBlocks(l, bs) && k <= |bs| && |e| == |d|
    && (forall j :: 0 <= j < k ==> e[bs[j]] == d[l.start + 1 + j])
    && (forall b :: 0 <= b < |d| && b !in bs[..k] ==> e[b] == d[b])
    && (forall b :: 0 <= b < |d| && InLog(l, b) ==> e[b] == d[b])
  }

  lemma {:induction false} InstallContents(l: Layout, d: Disk, bs: seq<int>, k: nat)
    requires IsDisk(l, d) && ValidBlocks(l, bs) && k <= |bs|
    ensures Copied(l, d, Install(l, d, bs, k), bs, k)
  {
    hide Copied;
    if k == 0 {
      NothingCopied(l, d, bs);
    } else {
      InstallContents(l, d, bs, k - 1);
      InstallOne(l, d, Install(l, d, bs, k - 1), bs, k);
    }
  }

  lemma NothingCopied(l: Layout, d: Disk, bs: seq<int>)
    requires IsDisk(l, d) && ValidBlocks(l, bs)
    ensures Copied(l, d, d, bs, 0)
  {
  }

  // One more block copied home.
  lemma InstallOne(l: Layout, d: Disk, e: Disk, bs: seq<int>, k: nat)
    requires 0 < k <= |bs| && Copied(l, d, e, bs, k - 1)
    ensures Copied(l, d, e[bs[k - 1] := d[l.start + k]], bs, k)
  {
    assert bs[..k] == bs[..k - 1] + [bs[k - 1]];
  }

  lemma {:induction false} WriteLogContents(l: Layout, d: Disk, cur: Disk, bs: seq<int>, k: nat)
    requires IsDisk(l, d) && |cur| == |d| && ValidBlocks(l, bs) && k <= |bs|
    ensures var e := WriteLog(l, d, cur, bs, k);
            && SameHome(l, d, e)
            && e[l.start] == d[l.start]
            && (forall j :: 0 <= j < k ==> e[l.start + 1 + j] == cur[bs[j]])
  {
    if k > 0 {
      WriteLogContents(l, d, cur, bs, k - 1);
    }
  }

  lemma {:induction false} InstallTraceAt(l: Layout, d: Disk, bs: seq<int>, k: nat, i: nat)
    requires IsDisk(l, d) && ValidBlocks(l, bs) && i < k <= |bs|
    ensures InstallTrace(l, d, bs, k)[i] == Install(l, d, bs, i + 1)
  {
    if i < k - 1 {
      InstallTraceAt(l, d, bs, k - 1, i);
    }
  }

  lemma {:induction false} WriteLogTraceAt(l: Layout, d: Disk, cur: Disk, bs: seq<int>, k: nat, i: nat)
    requires IsDisk(l, d) && |cur| == |d| && ValidBlocks(l, bs) && i < k <= |bs|
    ensures WriteLogTrace(l, d, cur, bs, k)[i] == WriteLog(l, d, cur, bs, i + 1)
  {
    if i < k - 1 {
      WriteLogTraceAt(l, d, cur, bs, k - 1, i);
    }
  }

  // What recovery does to home blocks, without mentioning its steps.
  lemma RecoverHome(l: Layout, d: Disk)
    requires Recoverable(l, d)
    ensures var bs := DecodeHead(d[l.start]);
            var e := Recover(l, d);
            && Clean(l, e)
            && (forall j :: 0 <= j < |bs| ==> e[bs[j]] == d[l.start + 1 + j])
            && (forall b :: 0 <= b < |d| && b !in bs && !InLog(l, b) ==> e[b] == d[b])
  {
    var bs := DecodeHead(d[l.start]);
    InstallContents(l, d, bs, |bs|);
    assert bs[..|bs|] == bs;
  }

  lemma RecoverClean(l: Layout, d: Disk)
    requires Clean(l, d)
    ensures Recoverable(l, d) && SameHome(l, Recover(l, d), d)
  {
  }

  // Interrupting an installation anywhere and recovering gives the same home blocks.
  lemma InstallPrefixRecovers(l: Layout, d: Disk, k: nat)
    requires Recoverable(l, d) && k <= |DecodeHead(d[l.start])|
    ensures var c := Install(l, d, DecodeHead(d[l.start]), k);
            Recoverable(l, c) && SameHome(l, Recover(l, c), Recover(l, d))
  {
    var bs := DecodeHead(d[l.start]);
    var c := Install(l, d, bs, k);
    InstallContents(l, d, bs, k);
    RecoverHome(l, d);
    RecoverHome(l, c);
    forall b | 0 <= b < |d| && !InLog(l, b)
      ensures Recover(l, c)[b] == Recover(l, d)[b]
    {
      if b in bs {
        var j :| 0 <= j < |bs| && bs[j] == b;
        assert c[l.start + 1 + j] == d[l.start + 1 + j];
      } else {
        assert b !in bs[..k];
      }
    }
  }

  lemma RecoveryStateRecovers(l: Layout, d: Disk, i: nat)
    requires Recoverable(l, d) && i < |RecoveryTrace(l, d)|
    ensures var c := RecoveryTrace(l, d)[i];
            Recoverable(l, c) && SameHome(l, Recover(l, c), Recover(l, d))
  {
    var bs := DecodeHead(d[l.start]);
    if i < |bs| {
      InstallTraceAt(l, d, bs, |bs|, i);
      InstallPrefixRecovers(l, d, i + 1);
    } else {
      RecoverHome(l, d);
      RecoverClean(l, Recover(l, d));
    }
  }

  // A chain of interrupted recoveries: each state but the first is one that the
  // recovery started from the state before it passed through.
  ghost predicate CrashChain(l: Layout, run: seq<Disk>) {
    && run != []
    && (forall i :: 0 <= i < |run| ==> Recoverable(l, run[i]))
    && (forall i :: 0 < i < |run| ==> run[i] in RecoveryTrace(l, run[i - 1]))
  }

  lemma {:induction false} AnyNumberOfRecoveryCrashes(l: Layout, run: seq<Disk>)
    requires CrashChain(l, run)
    ensures SameHome(l, Recover(l, run[|run| - 1]), Recover(l, run[0]))
  {
    var n := |run|;
    if n > 1 {
      var shorter := run[..n - 1];
      AnyNumberOfRecoveryCrashes(l, shorter);
      var i :| 0 <= i < |RecoveryTrace(l, run[n - 2])| && RecoveryTrace(l, run[n - 2])[i] == run[n - 1];
      RecoveryStateRecovers(l, run[n - 2], i);
    }
  }

  // A commit starts from an erased log, with every block whose cached copy
  // differs from the disk listed in the in-memory header.
  ghost predicate CommitReady(l: Layout, d: Disk, cur: Disk, bs: seq<int>) {
    && Clean(l, d)
    && |cur| == |d|
    && ValidBlocks(l, bs)
    && forall b :: 0 <= b < |d| && !InLog(l, b) && b !in bs ==> cur[b] == d[b]
  }

  lemma LogWritesKeepOldState(l: Layout, d: Disk, cur: Disk, bs: seq<int>, k: nat)
    requires CommitReady(l, d, cur, bs) && k <= |bs|
    ensures var c := WriteLog(l, d, cur, bs, k); Clean(l, c) && SameHome(l, Recover(l, c), d)
  {
    WriteLogContents(l, d, cur, bs, k);
    RecoverClean(l, WriteLog(l, d, cur, bs, k));
  }

  // A disk whose log holds the cached copy of every block it lacks recovers to the cached contents.
  lemma LoggedRecovers(l: Layout, d: Disk, cur: Disk, bs: seq<int>)
    requires IsDisk(l, d) && |cur| == |d| && ValidBlocks(l, bs)
    requires IsHeader(d[l.start]) && DecodeHead(d[l.start]) == bs
    requires forall j :: 0 <= j < |bs| ==> d[l.start + 1 + j] == cur[bs[j]]
    requires forall b :: 0 <= b < |d| && !InLog(l, b) && b !in bs ==> d[b] == cur[b]
    ensures Recoverable(l, d) && SameHome(l, Recover(l, d), cur)
  {
    RecoverHome(l, d);
    forall b | 0 <= b < |d| && !InLog(l, b)
      ensures Recover(l, d)[b] == cur[b]
    {
      if b in bs {
        var j :| 0 <= j < |bs| && bs[j] == b;
        assert d[l.start + 1 + j] == cur[bs[j]];
      }
    }
  }

  lemma HeadWriteCommits(l: Layout, d: Disk, cur: Disk, bs: seq<int>)
    requires CommitReady(l, d, cur, bs)
    ensures var h := LoggedDisk(l, d, cur, bs);
            && Recoverable(l, h)
            && DecodeHead(h[l.start]) == bs
            && SameHome(l, Recover(l, h), cur)
  {
    WriteLogContents(l, d, cur, bs, |bs|);
    LoggedRecovers(l, LoggedDisk(l, d, cur, bs), cur, bs);
  }

  // Crash atomicity of one commit: crash after i + 1 of its block writes, then
  // crash any number of times inside recovery; when a recovery at last
  // completes, the home blocks are the old ones if the first header write had
  // not reached the disk, and the cached ones if it had.
  lemma CommitIsCrashAtomic(l: Layout, d: Disk, cur: Disk, bs: seq<int>, i: nat, run: seq<Disk>)
    requires CommitReady(l, d, cur, bs)
    requires i < |CommitTrace(l, d, cur, bs)|
    requires CrashChain(l, run) && run[0] == CommitTrace(l, d, cur, bs)[i]
    ensures var last := Recover(l, run[|run| - 1]);
            if i < |bs| then SameHome(l, last, d) else SameHome(l, last, cur)
  {
    AnyNumberOfRecoveryCrashes(l, run);
    CommitStateRecovers(l, d, cur, bs, i);
  }

  lemma CommitStateRecovers(l: Layout, d: Disk, cur: Disk, bs: seq<int>, i: nat)
    requires CommitReady(l, d, cur, bs)
    requires i < |CommitTrace(l, d, cur, bs)|
    ensures var c := CommitTrace(l, d, cur, bs)[i];
            && Recoverable(l, c)
            && SameHome(l, Recover(l, c), if i < |bs| then d else cur)
  {
    CommitTraceAt(l, d, cur, bs, i);
    var h := LoggedDisk(l, d, cur, bs);
    if i < |bs| {
      LogWritesKeepOldState(l, d, cur, bs, i + 1);
    } else {
      HeadWriteCommits(l, d, cur, bs);
      if i > |bs| {
        RecoveryStateRecovers(l, h, i - |bs| - 1);
      }
    }
  }

  // Once the header is written, a commit goes through the states of a recovery.
  lemma CommitTraceAt(l: Layout, d: Disk, cur: Disk, bs: seq<int>, i: nat)
    requires CommitReady(l, d, cur, bs)
    requires i < |CommitTrace(l, d, cur, bs)|
    ensures var n := |bs|;
            var h := LoggedDisk(l, d, cur, bs);
            && Recoverable(l, h)
            && |CommitTrace(l, d, cur, bs)| == n + 1 + |RecoveryTrace(l, h)|
            && CommitTrace(l, d, cur, bs)[i] ==
               if i < n then WriteLog(l, d, cur, bs, i + 1)
               else if i == n then h
               else RecoveryTrace(l, h)[i - n - 1]
  {
    hide WriteLog, WriteLogTrace, Install, InstallTrace, LoggedDisk, InstalledDisk, SameHome;
    HeadWriteCommits(l, d, cur, bs);
    if i < |bs| {
      WriteLogTraceAt(l, d, cur, bs, |bs|, i);
    }
  }

  // A commit that is not interrupted leaves an erased log and the cached contents at home.
  lemma CommitCompletes(l: Layout, d: Disk, cur: Disk, bs: seq<int>)
    requires CommitReady(l, d, cur, bs) && bs != []
    ensures var e := InstalledDisk(l, LoggedDisk(l, d, cur, bs), bs); Clean(l, e) && SameHome(l, e, cur)
  {
    var h := LoggedDisk(l, d, cur, bs);
    HeadWriteCommits(l, d, cur, bs);
    RecoverHome(l, h);
  }

  // A history that grew by the two halves of a commit grew by its trace.
  lemma CommitTraceParts(l: Layout, d: Disk, cur: Disk, bs: seq<int>, before: seq<Disk>, after: seq<Disk>)
    requires IsDisk(l, d) && |cur| == |d| && ValidBlocks(l, bs) && |d[l.start]| == WORDS && bs != []
    requires var h := LoggedDisk(l, d, cur, bs);
             after == before + (WriteLogTrace(l, d, cur, bs, |bs|) + [h])
                      + (InstallTrace(l, h, bs, |bs|) + [InstalledDisk(l, h, bs)])
    ensures after == before + CommitTrace(l, d, cur, bs)
  {
  }
}
