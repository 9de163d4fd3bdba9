/**
  A circular doubly linked list threaded through two arrays of node numbers,
  and the list surgery that the buffer cache does on it.  A ghost ring lists the
  nodes in next order, the list head first.
 */
module LinkedRing {

  ghost function Succ(i: nat, n: nat): nat {
    if i + 1 == n then 0 else i + 1
  }

  ghost predicate Linked(next: seq<nat>, prev: seq<nat>, ring: seq<nat>, head: nat) {
    && |next| == |prev|
    && ring != [] && ring[0] == head
    && (forall i :: 0 <= i < |ring| ==> ring[i] < |next|)
    && (forall i, j :: 0 <= i < j < |ring| ==> ring[i] != ring[j])
    && (forall i :: 0 <= i < |ring| ==> next[ring[i]] == ring[Succ(i, |ring|)])
    && (forall i :: 0 <= i < |ring| ==> prev[ring[Succ(i, |ring|)]] == ring[i])
  }

  ghost function Without(ring: seq<nat>, j: nat): seq<nat>
    requires j < |ring|
  {
    ring[..j] + ring[j + 1..]
  }

  lemma UnlinkLinked(next: seq<nat>, prev: seq<nat>, ring: seq<nat>, head: nat, j: nat)
    requires Linked(next, prev, ring, head) && 1 <= j < |ring|
    ensures var b := ring[j];
            && next[b] < |prev| && prev[b] < |next| && next[b] != b && prev[b] != b
            && Linked(next[prev[b] := next[b]], prev[next[b] := prev[b]], Without(ring, j), head)
  {
    var b, n := ring[j], |ring|;
    var ring' := Without(ring, j);
    assert Succ(j - 1, n) == j;
    assert prev[ring[Succ(j - 1, n)]] == ring[j - 1];
    assert next[ring[j]] == ring[Succ(j, n)];
    var next' := next[prev[b] := next[b]];
    var prev' := prev[next[b] := prev[b]];
    forall i | 0 <= i < |ring'|
      ensures next'[ring'[i]] == ring'[Succ(i, |ring'|)]
      ensures prev'[ring'[Succ(i, |ring'|)]] == ring'[i]
    {
      UnlinkAt(next, prev, ring, j, i);
    }
  }

  lemma UnlinkAt(next: seq<nat>, prev: seq<nat>, ring: seq<nat>, j: nat, i: nat)
    requires 1 <= j < |ring| && Linked(next, prev, ring, ring[0]) && i < |ring| - 1
    requires next[ring[j]] == ring[Succ(j, |ring|)] && prev[ring[j]] == ring[j - 1]
    ensures var ring' := Without(ring, j);
            var next', prev' := next[ring[j - 1] := ring[Succ(j, |ring|)]], prev[ring[Succ(j, |ring|)] := ring[j - 1]];
            next'[ring'[i]] == ring'[Succ(i, |ring'|)] && prev'[ring'[Succ(i, |ring'|)]] == ring'[i]
  {
    var n := |ring|;
    var ring' := Without(ring, j);
    var k := if i < j then i else i + 1;
    assert ring'[i] == ring[k];
    assert next[ring[k]] == ring[Succ(k, n)];
    if k == j - 1 {
      assert ring'[Succ(i, |ring'|)] == ring[Succ(j, n)];
    } else {
      assert ring'[Succ(i, |ring'|)] == ring[Succ(k, n)];
      assert prev[ring[Succ(k, n)]] == ring[k];
      assert Succ(k, n) != Succ(j, n);
    }
  }

  lemma InsertLinked(next: seq<nat>, prev: seq<nat>, ring: seq<nat>, head: nat, b: nat)
    requires Linked(next, prev, ring, head) && b < |next| && b !in ring
    ensures next[head] < |prev| && head < |next|
    ensures Linked(next[b := next[head]][head := b], prev[b := head][next[head] := b], [head, b] + ring[1..], head)
  {
    var n := |ring|;
    var ring' := [head, b] + ring[1..];
    assert next[ring[0]] == ring[Succ(0, n)];
    var next' := next[b := next[head]][head := b];
    var prev' := prev[b := head][next[head] := b];
    forall i | 0 <= i < |ring'|
      ensures next'[ring'[i]] == ring'[Succ(i, |ring'|)]
      ensures prev'[ring'[Succ(i, |ring'|)]] == ring'[i]
    {
      if i >= 2 {
        assert ring'[i] == ring[i - 1];
        assert ring'[Succ(i, |ring'|)] == ring[Succ(i - 1, n)];
        assert prev[ring[Succ(i - 1, n)]] == ring[i - 1];
        assert Succ(i - 1, n) != Succ(0, n);
      } else if i == 1 {
        assert ring'[Succ(1, |ring'|)] == ring[Succ(0, n)];
      }
    }
  }
}

/**
  The buffer cache over a disk that stores blocks in memory.  Bget, Acquire, IdeRead,
  Modify, Pin and Bwrite are one step of the original each; Bread joins the first
  three, and Brelse joins releasing the buffer's lock and dropping the reference.
  The ghost array `stored` is the plain array of
  blocks that the cache refines: it changes only when a holder logs or writes
  its buffer.
 */
module BufferCache {
  import opened LinkedRing

  const NBUF: nat := 30

  type Block = seq<int>

  // dev 0 marks a buffer that has never been used; the only disk is device 1.
  datatype Buf = Buf(dev: nat, blockno: nat, valid: bool, dirty: bool, refcnt: nat, locked: bool, data: Block)

  predicate Holds(b: Buf, blockno: nat) {
    b.dev == 1 && b.blockno == blockno
  }

  predicate Reusable(b: Buf) {
    b.refcnt == 0 && !b.dirty
  }

  ghost predicate DirtyCopy(bufs: seq<Buf>, blockno: nat) {
    exists i :: 0 <= i < |bufs| && Holds(bufs[i], blockno) && bufs[i].dirty
  }

  ghost predicate UniqueKeys(bufs: seq<Buf>) {
    forall i, j :: 0 <= i < j < |bufs| && bufs[i].dev == 1 && bufs[j].dev == 1 ==> bufs[i].blockno != bufs[j].blockno
  }

  ghost predicate BufOk(b: Buf, disk: seq<Block>, stored: seq<Block>) {
    && (b.dev == 1 ==> b.blockno < |disk| == |stored|)
    && b.dev <= 1
    && (b.dirty ==> b.valid && b.dev == 1)
    && (b.locked ==> b.refcnt > 0)
    && (b.valid && !b.locked && b.dev == 1 ==> b.data == stored[b.blockno])
  }

  // Every buffer agrees with the refined array, and so does the disk wherever
  // no dirty buffer covers it.
  ghost predicate Coherent(bufs: seq<Buf>, disk: seq<Block>, stored: seq<Block>) {
    && |disk| == |stored|
    && UniqueKeys(bufs)
    && (forall i :: 0 <= i < |bufs| ==> BufOk(bufs[i], disk, stored))
    && (forall k :: 0 <= k < |disk| && disk[k] != stored[k] ==> DirtyCopy(bufs, k))
  }

  datatype Got = Hit(b: nat) | Recycled(b: nat) | NoBuffers

  class BufferCache {
    var bufs: seq<Buf>
    var next: seq<nat>
    var prev: seq<nat>
    var disk: seq<Block>
    ghost var ring: seq<nat>
    ghost var stored: seq<Block>

    ghost predicate Listed()
      reads this
    {
      && |bufs| == NBUF && |next| == NBUF + 1 && |ring| == NBUF + 1
      && Linked(next, prev, ring, NBUF)
      && forall b :: 0 <= b <= NBUF ==> b in ring
    }

    ghost predicate Valid()
      reads this
    {
      Listed() && Coherent(bufs, disk, stored)
    }

    // binit: every buffer unused, linked in reverse order of its number.
    constructor (disk: seq<Block>)
      ensures Valid() && this.disk == disk && stored == disk
      ensures forall b :: 0 <= b < NBUF ==> bufs[b].dev == 0 && bufs[b].refcnt == 0
      ensures forall i :: 1 <= i <= NBUF ==> ring[i] == NBUF - i
    {
      this.disk, stored := disk, disk;
      bufs := seq(NBUF, _ => Buf(0, 0, false, false, 0, false, []));
      next, prev := seq(NBUF + 1, _ => NBUF), seq(NBUF + 1, _ => NBUF);
      ring := [NBUF];
      new;
      var b := 0;
      while b < NBUF
        invariant 0 <= b <= NBUF
        invariant |next| == NBUF + 1 && |ring| == b + 1 && Linked(next, prev, ring, NBUF)
        invariant forall i :: 1 <= i <= b ==> ring[i] == b - i
        invariant |bufs| == NBUF && forall k :: 0 <= k < NBUF ==> bufs[k] == Buf(0, 0, false, false, 0, false, [])
        invariant this.disk == disk == stored
      {
        InsertFront(b);
        b := b + 1;
      }
      forall c | 0 <= c <= NBUF
        ensures c in ring
      {
        assert ring[NBUF - c] == c;
      }
    }

    // The four assignments that put a buffer behind the list head.
    method InsertFront(b: nat)
      requires |next| == NBUF + 1 && b < NBUF && b !in ring && Linked(next, prev, ring, NBUF)
      modifies `next, `prev, `ring
      ensures |next| == NBUF + 1 && Linked(next, prev, ring, NBUF) && ring == [NBUF, b] + old(ring)[1..]
    {
      InsertLinked(next, prev, ring, NBUF, b);
      next := next[b := next[NBUF]];
      prev := prev[b := NBUF];
      prev := prev[next[NBUF] := b];
      next := next[NBUF := b];
      ring := [NBUF, b] + ring[1..];
    }

    // Looks the block up, or recycles the least recently used idle clean buffer.
    // The caller holds a reference, but not yet the buffer's lock.
    method Bget(blockno: nat) returns (r: Got)
      requires Valid() && blockno < |disk|
      modifies `bufs
      ensures Valid()
      ensures r.Hit? ==>
                && r.b < NBUF && Holds(old(bufs)[r.b], blockno)
                && bufs == old(bufs)[r.b := old(bufs)[r.b].(refcnt := old(bufs)[r.b].refcnt + 1)]
      ensures !r.Hit? ==> forall b :: 0 <= b < NBUF ==> !Holds(old(bufs)[b], blockno)
      ensures r.Recycled? ==>
                && r.b < NBUF && Reusable(old(bufs)[r.b])
                && bufs == old(bufs)[r.b := Buf(1, blockno, false, false, 1, false, old(bufs)[r.b].data)]
                && exists i :: 1 <= i <= NBUF && ring[i] == r.b
                               && forall j :: i < j <= NBUF ==> !Reusable(old(bufs)[ring[j]])
      ensures r.NoBuffers? ==> bufs == old(bufs) && forall b :: 0 <= b < NBUF ==> !Reusable(bufs[b])
    {
      var b := next[NBUF];
      ghost var i := 1;
      assert next[ring[0]] == ring[Succ(0, NBUF + 1)];
      while b != NBUF
        invariant 1 <= i <= NBUF + 1
        invariant b == if i == NBUF + 1 then NBUF else ring[i]
        invariant forall j :: 1 <= j < i ==> !Holds(bufs[ring[j]], blockno)
        decreases NBUF + 1 - i
      {
        assert i <= NBUF && ring[i] != ring[0];
        if Holds(bufs[b], blockno) {
          HitKeepsCoherent(bufs, disk, stored, b);
          bufs := bufs[b := bufs[b].(refcnt := bufs[b].refcnt + 1)];
          return Hit(b);
        }
        assert next[ring[i]] == ring[Succ(i, NBUF + 1)];
        b := next[b];
        i := i + 1;
      }
      assert i == NBUF + 1;
      assert forall c :: 0 <= c < NBUF ==> !Holds(bufs[c], blockno) by {
        forall c | 0 <= c < NBUF
          ensures !Holds(bufs[c], blockno)
        {
          assert c in ring;
        }
      }
      r := Recycle(blockno);
    }

    // The second half of bget: the block is not cached.
    method Recycle(blockno: nat) returns (r: Got)
      requires Valid() && blockno < |disk|
      requires forall b :: 0 <= b < NBUF ==> !Holds(bufs[b], blockno)
      modifies `bufs
      ensures Valid() && !r.Hit?
      ensures r.Recycled? ==>
                && r.b < NBUF && Reusable(old(bufs)[r.b])
                && bufs == old(bufs)[r.b := Buf(1, blockno, false, false, 1, false, old(bufs)[r.b].data)]
                && exists i :: 1 <= i <= NBUF && ring[i] == r.b
                               && forall j :: i < j <= NBUF ==> !Reusable(old(bufs)[ring[j]])
      ensures r.NoBuffers? ==> bufs == old(bufs) && forall b :: 0 <= b < NBUF ==> !Reusable(bufs[b])
    {
      var b := prev[NBUF];
      ghost var i := NBUF;
      assert prev[ring[Succ(NBUF, NBUF + 1)]] == ring[NBUF];
      while b != NBUF
        invariant 0 <= i <= NBUF && b == ring[i]
        invariant forall j :: i < j <= NBUF ==> !Reusable(bufs[ring[j]])
        decreases i
      {
        assert i >= 1 && ring[0] != ring[i];
        if Reusable(bufs[b]) {
          RecycleKeepsCoherent(bufs, disk, stored, b, blockno);
          bufs := bufs[b := Buf(1, blockno, false, false, 1, false, bufs[b].data)];
          return Recycled(b);
        }
        assert prev[ring[Succ(i - 1, NBUF + 1)]] == ring[i - 1];
        b := prev[b];
        i := i - 1;
      }
      assert i == 0 by {
        assert ring[0] == ring[i];
      }
      forall c | 0 <= c < NBUF
        ensures !Reusable(bufs[c])
      {
        assert c in ring;
      }
      return NoBuffers;
    }

    // bread, from getting the reference to holding the buffer with its contents.
    // `waits` means that the buffer is locked and the caller goes to sleep with its reference.
    method Bread(blockno: nat) returns (r: Got, waits: bool)
      requires Valid() && blockno < |disk|
      modifies `bufs
      ensures Valid()
      ensures r.NoBuffers? <==> (forall b :: 0 <= b < NBUF ==> !Holds(old(bufs)[b], blockno) && !Reusable(old(bufs)[b]))
      ensures !r.NoBuffers? ==>
                && r.b < NBUF && Holds(bufs[r.b], blockno)
                && bufs[r.b].refcnt > 0 && waits == old(bufs)[r.b].locked
                && (forall c :: 0 <= c < NBUF && c != r.b ==> bufs[c] == old(bufs)[c])
                && (Holds(old(bufs)[r.b], blockno) || Reusable(old(bufs)[r.b]))
                && (Holds(old(bufs)[r.b], blockno) ==>
                      bufs[r.b].refcnt == old(bufs)[r.b].refcnt + 1 && bufs[r.b].dirty == old(bufs)[r.b].dirty)
                && (!Holds(old(bufs)[r.b], blockno) ==> bufs[r.b].refcnt == 1 && !bufs[r.b].dirty)
      ensures !r.NoBuffers? && !waits ==>
                bufs[r.b].locked && bufs[r.b].valid && bufs[r.b].data == stored[blockno]
    {
      r := Bget(blockno);
      waits := false;
      if !r.NoBuffers? {
        waits := bufs[r.b].locked;
        if !waits {
          Acquire(r.b);
          IdeRead(r.b);
        }
      }
    }

    // acquiresleep on an unlocked buffer.
    method Acquire(b: nat)
      requires Valid() && b < NBUF && bufs[b].refcnt > 0 && !bufs[b].locked
      modifies `bufs
      ensures Valid() && bufs == old(bufs)[b := old(bufs)[b].(locked := true)]
    {
      SameKeysCoherent(bufs, disk, stored, b, bufs[b].(locked := true));
      bufs := bufs[b := bufs[b].(locked := true)];
    }

    // The rest of bread: a buffer that is not valid is read from disk.
    method IdeRead(b: nat)
      requires Valid() && b < NBUF && bufs[b].dev == 1 && bufs[b].locked
      requires bufs[b].valid ==> bufs[b].data == stored[bufs[b].blockno]
      modifies `bufs
      ensures Valid() && bufs == old(bufs)[b := old(bufs)[b].(valid := true, data := bufs[b].data)]
      ensures bufs[b].data == stored[bufs[b].blockno]
    {
      if !bufs[b].valid {
        var buf := bufs[b].(valid := true, data := disk[bufs[b].blockno]);
        InvalidMatchesDisk(bufs, disk, stored, b);
        SameKeysCoherent(bufs, disk, stored, b, buf);
        bufs := bufs[b := buf];
      }
    }

    // The holder changes its copy; nothing is stored yet.
    method Modify(b: nat, data: Block)
      requires Valid() && b < NBUF && bufs[b].locked
      modifies `bufs
      ensures Valid() && bufs == old(bufs)[b := old(bufs)[b].(data := data)]
    {
      SameKeysCoherent(bufs, disk, stored, b, bufs[b].(data := data));
      bufs := bufs[b := bufs[b].(data := data)];
    }

    // log_write's part in the cache: the buffer is pinned and its data stored.
    method Pin(b: nat)
      requires Valid() && b < NBUF && bufs[b].locked && bufs[b].valid && bufs[b].dev == 1
      modifies `bufs, `stored
      ensures Valid() && bufs == old(bufs)[b := old(bufs)[b].(dirty := true)]
      ensures stored == old(stored)[bufs[b].blockno := bufs[b].data]
    {
      PinKeepsCoherent(bufs, disk, stored, b);
      stored := stored[bufs[b].blockno := bufs[b].data];
      bufs := bufs[b := bufs[b].(dirty := true)];
    }

    // bwrite: the disk gets the data and the buffer is clean again.
    method Bwrite(b: nat)
      requires Valid() && b < NBUF && bufs[b].locked && bufs[b].dev == 1
      modifies `bufs, `stored, `disk
      ensures Valid() && bufs == old(bufs)[b := old(bufs)[b].(dirty := false, valid := true)]
      ensures stored == old(stored)[bufs[b].blockno := bufs[b].data]
      ensures disk == old(disk)[bufs[b].blockno := bufs[b].data]
    {
      var k := bufs[b].blockno;
      WriteKeepsCoherent(bufs, disk, stored, b);
      stored := stored[k := bufs[b].data];
      disk := disk[k := bufs[b].data];
      bufs := bufs[b := bufs[b].(dirty := false, valid := true)];
    }

    // The holder lets go of a buffer whose data it has stored; the last one out
    // moves the buffer to the front of the list.
    method Brelse(b: nat)
      requires Valid() && b < NBUF && bufs[b].locked
      requires bufs[b].dev == 1 && bufs[b].valid ==> bufs[b].data == stored[bufs[b].blockno]
      modifies `bufs, `next, `prev, `ring
      ensures Valid()
      ensures bufs == old(bufs)[b := old(bufs)[b].(locked := false, refcnt := old(bufs)[b].refcnt - 1)]
      ensures exists j :: 1 <= j <= NBUF && old(ring)[j] == b &&
                          ring == if bufs[b].refcnt == 0 then [NBUF, b] + Without(old(ring), j)[1..] else old(ring)
    {
      var buf := bufs[b].(locked := false, refcnt := bufs[b].refcnt - 1);
      SameKeysCoherent(bufs, disk, stored, b, buf);
      bufs := bufs[b := buf];
      assert b in ring;
      ghost var j :| 0 <= j <= NBUF && ring[j] == b;
      if buf.refcnt == 0 {
        MoveToFront(b, j);
      }
    }

    // ----- a commit on the cache

    // The two breads of a round of write_log or install_trans: a log block and a home
    // block that is pinned.  Neither panics and neither has to wait.
    method Pair(slot: nat, home: nat) returns (a: nat, b: nat)
      requires Valid() && slot < |disk| && home < |disk| && Spare(bufs)
      requires Clear(bufs, slot) && Pinned(bufs, home)
      modifies `bufs
      ensures Valid() && a < NBUF && b < NBUF && a != b && slot != home && |bufs| == NBUF
      ensures Held(bufs[a], slot, stored) && !bufs[a].dirty && (Holds(old(bufs)[a], slot) || Reusable(old(bufs)[a]))
      ensures Held(bufs[b], home, stored) && bufs[b].dirty && Holds(old(bufs)[b], home)
      ensures bufs[b] == old(bufs)[b].(refcnt := 1, locked := true)
      ensures old(bufs)[b].refcnt == 0 && !old(bufs)[b].locked
      ensures forall c :: 0 <= c < NBUF && c != a && c != b ==> bufs[c] == old(bufs)[c]
    {
      hide Linked;
      var r, waits := Bread(slot);
      assert !r.NoBuffers?;
      a := r.b;
      ghost var mid := bufs;
      var q, waits2 := Bread(home);
      assert !q.NoBuffers?;
      b := q.b;
    }

    lemma Sizes()
      requires Valid()
      ensures |bufs| == NBUF && |disk| == |stored| && UniqueKeys(bufs)
    {
    }

    // A round of write_log.
    method CopyOut(slot: nat, home: nat) returns (ghost a: nat)
      requires Valid() && slot < |disk| && home < |disk| && Spare(bufs)
      requires Clear(bufs, slot) && Pinned(bufs, home)
      modifies `bufs, `next, `prev, `ring, `disk, `stored
      ensures Valid() && Settles(old(bufs), bufs, a, slot)
      ensures disk == old(disk)[slot := old(stored)[home]] && stored == old(stored)[slot := old(stored)[home]]
    {
      hide Valid, Linked, Without, Spare, Clear, Pinned;
      Sizes();
      var to, from := Pair(slot, home);
      a := to;
      Modify(to, bufs[from].data);
      Bwrite(to);
      Brelse(from);
      Brelse(to);
    }

    // A round of install_trans.
    method CopyHome(slot: nat, home: nat) returns (ghost a: nat, ghost b: nat)
      requires Valid() && slot < |disk| && home < |disk| && Spare(bufs)
      requires Clear(bufs, slot) && Pinned(bufs, home)
      modifies `bufs, `next, `prev, `ring, `disk, `stored
      ensures Valid() && a != b && b < NBUF && Holds(old(bufs)[b], home) && Holds(bufs[b], home) && Idle(bufs[b])
      ensures Settles(old(bufs)[b := bufs[b]], bufs, a, slot)
      ensures disk == old(disk)[home := old(stored)[slot]] && stored == old(stored)[home := old(stored)[slot]]
    {
      hide Valid, Linked, Without, Spare, Clear, Pinned;
      Sizes();
      var from, to := Pair(slot, home);
      a, b := from, to;
      Modify(to, bufs[from].data);
      Bwrite(to);
      Brelse(from);
      Brelse(to);
    }

    method WriteHead(start: nat, head: Block) returns (ghost a: nat)
      requires Valid() && start < |disk| && Spare(bufs) && Clear(bufs, start)
      modifies `bufs, `next, `prev, `ring, `disk, `stored
      ensures Valid() && Settles(old(bufs), bufs, a, start)
      ensures disk == old(disk)[start := head] && stored == old(stored)[start := head]
    {
      hide Linked;
      var r, waits := Bread(start);
      assert !r.NoBuffers?;
      a := r.b;
      Modify(r.b, head);
      Bwrite(r.b);
      Brelse(r.b);
    }

    method WriteLog(start: nat, lh: seq<nat>)
      requires Valid() && LogFits(start, lh, |disk|) && Ready(bufs, start, lh, 0)
      modifies `bufs, `next, `prev, `ring, `disk, `stored
      ensures Valid() && |disk| == old(|disk|) && Ready(bufs, start, lh, 0)
      ensures Logged(old(disk), old(stored), disk, stored, start, lh, |lh|)
    {
      hide Linked, Ready, Logged, Coherent, LogFits;
      Sizes();
      NothingLogged(disk, stored, start, lh);
      var tail := 0;
      while tail < |lh|
        invariant 0 <= tail <= |lh| && Valid() && |disk| == old(|disk|) && Ready(bufs, start, lh, 0)
        invariant Logged(old(disk), old(stored), disk, stored, start, lh, tail)
      {
        ghost var bufs0, disk0, stored0 := bufs, disk, stored;
        ReadyAt(bufs, start, lh, 0, tail, |disk|);
        var a := CopyOut(start + tail + 1, lh[tail]);
        ReadySettles(bufs0, bufs, a, start, lh, 0, start + tail + 1, |disk|);
        LoggedStep(old(disk), old(stored), disk0, stored0, start, lh, tail);
        tail := tail + 1;
      }
    }

    method InstallTrans(start: nat, lh: seq<nat>)
      requires Valid() && LogFits(start, lh, |disk|) && Ready(bufs, start, lh, 0)
      requires forall j :: 0 <= j < |lh| ==> stored[start + 1 + j] == stored[lh[j]]
      modifies `bufs, `next, `prev, `ring, `disk, `stored
      ensures Valid() && |disk| == old(|disk|) && Ready(bufs, start, lh, |lh|) && stored == old(stored)
      ensures Unpinned(bufs, lh, |lh|)
    {
      hide Linked, Ready, Coherent, Unpinned;
      var tail := 0;
      NoneUnpinned(bufs, lh);
      while tail < |lh|
        invariant 0 <= tail <= |lh| && Valid() && |disk| == old(|disk|) && Ready(bufs, start, lh, tail)
        invariant stored == old(stored) && Unpinned(bufs, lh, tail)
      {
        ghost var bufs0 := bufs;
        Sizes();
        ReadyAt(bufs, start, lh, tail, tail, |disk|);
        assert stored[start + 1 + tail] == stored[lh[tail]];
        var a, b := CopyHome(start + tail + 1, lh[tail]);
        assert stored == old(stored);
        ReadyNext(bufs0, b, bufs[b], start, lh, tail, |disk|);
        ReadySettles(bufs0[b := bufs[b]], bufs, a, start, lh, tail + 1, start + tail + 1, |disk|);
        UnpinnedStep(bufs0, bufs, a, b, start, lh, tail, |disk|);
        tail := tail + 1;
      }
    }

    // commit(): with the logged blocks pinned, nobody holding them or the log, and one
    // buffer to spare, it never runs out of buffers and leaves the logged contents on disk.
    method Commit(start: nat, lh: seq<nat>, head: Block, erased: Block)
      requires Valid() && LogFits(start, lh, |disk|) && Ready(bufs, start, lh, 0)
      modifies `bufs, `next, `prev, `ring, `disk, `stored
      ensures Valid() && |disk| == old(|disk|) && Unpinned(bufs, lh, |lh|)
      ensures forall j :: 0 <= j < |lh| ==> disk[lh[j]] == stored[lh[j]] == old(stored)[lh[j]]
      ensures forall k :: 0 <= k < |disk| && !(start <= k <= start + |lh|) ==> stored[k] == old(stored)[k]
      ensures lh != [] ==> disk[start] == stored[start] == erased
    {
      hide Linked, Ready, Coherent, Unpinned, LogFits;
      if lh == [] {
        NoneUnpinned(bufs, lh);
        return;
      }
      FitsFacts(start, lh, |disk|);
      WriteLog(start, lh);
      ghost var bufs1, stored1 := bufs, stored;
      ReadyHead(bufs, start, lh, 0);
      var a := WriteHead(start, head);
      ReadySettles(bufs1, bufs, a, start, lh, 0, start, |disk|);
      InstallTrans(start, lh);
      ghost var bufs2, disk2 := bufs, disk;
      ReadyHead(bufs, start, lh, |lh|);
      a := WriteHead(start, erased);
      UnpinnedSettles(bufs2, bufs, a, lh, start);
      CleanIsStored(bufs, disk, stored, lh);
    }

    method MoveToFront(b: nat, ghost j: nat)
      requires Listed() && b < NBUF && 1 <= j <= NBUF && ring[j] == b
      modifies `next, `prev, `ring
      ensures Listed() && ring == [NBUF, b] + Without(old(ring), j)[1..]
    {
      ghost var rest := Without(ring, j);
      UnlinkLinked(next, prev, ring, NBUF, j);
      prev, next := prev[next[b] := prev[b]], next[prev[b] := next[b]];
      KeepsAllNodes(ring, j, NBUF);
      assert b !in rest;
      ring := rest;
      InsertFront(b);
    }
  }

  lemma KeepsAllNodes(ring: seq<nat>, j: nat, head: nat)
    requires 1 <= j < |ring| && ring[0] == head
    ensures forall c :: c in ring ==> c in [head, ring[j]] + Without(ring, j)[1..]
  {
    var ring' := [head, ring[j]] + Without(ring, j)[1..];
    forall c | c in ring
      ensures c in ring'
    {
      var i :| 0 <= i < |ring| && ring[i] == c;
      var k := if i == 0 then 0 else if i == j then 1 else if i < j then i + 1 else i;
      assert ring'[k] == c;
    }
  }

  // ----- coherence of single-buffer changes

  // Changing a buffer but neither its key nor its dirty flag.
  lemma SameKeysCoherent(bufs: seq<Buf>, disk: seq<Block>, stored: seq<Block>, b: nat, buf: Buf)
    requires Coherent(bufs, disk, stored) && b < |bufs|
    requires buf.dev == bufs[b].dev && buf.blockno == bufs[b].blockno && buf.dirty == bufs[b].dirty
    requires BufOk(buf, disk, stored)
    ensures Coherent(bufs[b := buf], disk, stored)
  {
    var bufs' := bufs[b := buf];
    forall k | 0 <= k < |disk| && disk[k] != stored[k]
      ensures DirtyCopy(bufs', k)
    {
      var i :| 0 <= i < |bufs| && Holds(bufs[i], k) && bufs[i].dirty;
      assert Holds(bufs'[i], k) && bufs'[i].dirty;
    }
  }

  lemma HitKeepsCoherent(bufs: seq<Buf>, disk: seq<Block>, stored: seq<Block>, b: nat)
    requires Coherent(bufs, disk, stored) && b < |bufs|
    ensures Coherent(bufs[b := bufs[b].(refcnt := bufs[b].refcnt + 1)], disk, stored)
  {
    SameKeysCoherent(bufs, disk, stored, b, bufs[b].(refcnt := bufs[b].refcnt + 1));
  }

  // An idle clean buffer covers no block that differs from the disk.
  lemma RecycleKeepsCoherent(bufs: seq<Buf>, disk: seq<Block>, stored: seq<Block>, b: nat, blockno: nat)
    requires Coherent(bufs, disk, stored) && b < |bufs| && Reusable(bufs[b]) && blockno < |disk|
    requires forall c :: 0 <= c < |bufs| ==> !Holds(bufs[c], blockno)
    ensures Coherent(bufs[b := Buf(1, blockno, false, false, 1, false, bufs[b].data)], disk, stored)
  {
    var bufs' := bufs[b := Buf(1, blockno, false, false, 1, false, bufs[b].data)];
    forall i, j | 0 <= i < j < |bufs'| && bufs'[i].dev == 1 && bufs'[j].dev == 1
      ensures bufs'[i].blockno != bufs'[j].blockno
    {
      assert !Holds(bufs[i], blockno) && !Holds(bufs[j], blockno);
    }
    forall k | 0 <= k < |disk| && disk[k] != stored[k]
      ensures DirtyCopy(bufs', k)
    {
      var i :| 0 <= i < |bufs| && Holds(bufs[i], k) && bufs[i].dirty;
      assert Holds(bufs'[i], k) && bufs'[i].dirty;
    }
  }

  // A buffer not yet read from disk may take the disk's contents.
  lemma InvalidMatchesDisk(bufs: seq<Buf>, disk: seq<Block>, stored: seq<Block>, b: nat)
    requires Coherent(bufs, disk, stored) && b < |bufs| && bufs[b].dev == 1 && !bufs[b].valid
    ensures bufs[b].blockno < |disk| && disk[bufs[b].blockno] == stored[bufs[b].blockno]
  {
    assert forall i :: 0 <= i < |bufs| && Holds(bufs[i], bufs[b].blockno) ==> i == b;
  }

  lemma PinKeepsCoherent(bufs: seq<Buf>, disk: seq<Block>, stored: seq<Block>, b: nat)
    requires Coherent(bufs, disk, stored) && b < |bufs| && bufs[b].locked && bufs[b].valid && bufs[b].dev == 1
    ensures Coherent(bufs[b := bufs[b].(dirty := true)], disk, stored[bufs[b].blockno := bufs[b].data])
  {
    var bufs' := bufs[b := bufs[b].(dirty := true)];
    var stored' := stored[bufs[b].blockno := bufs[b].data];
    forall k | 0 <= k < |disk| && disk[k] != stored'[k]
      ensures DirtyCopy(bufs', k)
    {
      if k == bufs[b].blockno {
        assert Holds(bufs'[b], k) && bufs'[b].dirty;
      } else {
        var i :| 0 <= i < |bufs| && Holds(bufs[i], k) && bufs[i].dirty;
        assert Holds(bufs'[i], k) && bufs'[i].dirty;
      }
    }
    OthersKeepContents(bufs, disk, stored, b, bufs'[b], stored');
  }

  lemma WriteKeepsCoherent(bufs: seq<Buf>, disk: seq<Block>, stored: seq<Block>, b: nat)
    requires Coherent(bufs, disk, stored) && b < |bufs| && bufs[b].locked && bufs[b].dev == 1
    ensures var k := bufs[b].blockno;
            Coherent(bufs[b := bufs[b].(dirty := false, valid := true)], disk[k := bufs[b].data],
                     stored[k := bufs[b].data])
  {
    var k := bufs[b].blockno;
    var bufs' := bufs[b := bufs[b].(dirty := false, valid := true)];
    var disk', stored' := disk[k := bufs[b].data], stored[k := bufs[b].data];
    forall c | 0 <= c < |disk| && disk'[c] != stored'[c]
      ensures DirtyCopy(bufs', c)
    {
      var i :| 0 <= i < |bufs| && Holds(bufs[i], c) && bufs[i].dirty;
      assert Holds(bufs'[i], c) && bufs'[i].dirty;
    }
    OthersKeepContents(bufs, disk, stored, b, bufs'[b], stored');
  }

  // Storing one block leaves every other buffer's agreement alone.
  lemma OthersKeepContents(bufs: seq<Buf>, disk: seq<Block>, stored: seq<Block>, b: nat, buf: Buf, stored': seq<Block>)
    requires Coherent(bufs, disk, stored) && b < |bufs| && bufs[b].dev == 1
    requires stored' == stored[bufs[b].blockno := bufs[b].data]
    requires buf.dev == 1 && buf.blockno == bufs[b].blockno && BufOk(buf, disk, stored')
    ensures UniqueKeys(bufs[b := buf])
    ensures forall i :: 0 <= i < |bufs| && i != b ==> BufOk(bufs[i], disk, stored')
  {
    forall i | 0 <= i < |bufs| && i != b
      ensures BufOk(bufs[i], disk, stored')
    {
      if bufs[i].dev == 1 {
        assert bufs[i].blockno != bufs[b].blockno;
      }
    }
  }

  // ----- commit always finds a buffer

  ghost predicate Idle(b: Buf) {
    b.refcnt == 0 && !b.locked && !b.dirty
  }

  ghost predicate Spare(bufs: seq<Buf>) {
    exists i :: 0 <= i < |bufs| && Reusable(bufs[i])
  }

  // Nobody holds a buffer of block k, and it is not dirty.
  ghost predicate Clear(bufs: seq<Buf>, k: nat) {
    forall i :: 0 <= i < |bufs| && Holds(bufs[i], k) ==> Idle(bufs[i])
  }

  // Block k is cached in a dirty buffer that nobody holds.
  ghost predicate Pinned(bufs: seq<Buf>, k: nat) {
    && DirtyCopy(bufs, k)
    && forall i :: 0 <= i < |bufs| && Holds(bufs[i], k) ==> bufs[i].refcnt == 0 && !bufs[i].locked && bufs[i].dirty
  }

  // The caller is the only one to hold this buffer of block k.
  ghost predicate Held(b: Buf, k: nat, stored: seq<Block>) {
    k < |stored| && Holds(b, k) && b.refcnt == 1 && b.locked && b.valid && b.data == stored[k]
  }

  // Only buffer a has changed: it now has block k, and may be recycled.
  ghost predicate Settles(bufs: seq<Buf>, bufs': seq<Buf>, a: nat, k: nat) {
    && |bufs'| == |bufs| && a < |bufs| && Holds(bufs'[a], k) && Idle(bufs'[a])
    && (Holds(bufs[a], k) || Reusable(bufs[a]))
    && forall c :: 0 <= c < |bufs| && c != a ==> bufs'[c] == bufs[c]
  }

  // The log with its blocks lies apart from the blocks to be logged.
  ghost predicate LogFits(start: nat, lh: seq<nat>, size: nat) {
    && start + |lh| < size
    && (forall j :: 0 <= j < |lh| ==> lh[j] < size && !(start <= lh[j] <= start + |lh|))
    && forall i, j :: 0 <= i < j < |lh| ==> lh[i] != lh[j]
  }

  // What commit relies on before it has installed block k.
  ghost predicate Ready(bufs: seq<Buf>, start: nat, lh: seq<nat>, k: nat) {
    && Spare(bufs) && (forall n :: start <= n <= start + |lh| ==> Clear(bufs, n))
    && forall j :: k <= j < |lh| ==> Pinned(bufs, lh[j])
  }

  ghost predicate Unpinned(bufs: seq<Buf>, lh: seq<nat>, k: nat) {
    forall j :: 0 <= j < k && j < |lh| ==> Clear(bufs, lh[j])
  }

  // The first k logged blocks are in the log, on disk.
  ghost predicate Logged(disk: seq<Block>, stored: seq<Block>, disk': seq<Block>, stored': seq<Block>, start: nat,
                         lh: seq<nat>, k: nat) {
    && |disk'| == |stored'| == |disk| == |stored| && k <= |lh| && LogFits(start, lh, |disk|)
    && (forall n :: start < n <= start + k ==> disk'[n] == stored'[n] == stored[lh[n - start - 1]])
    && forall n :: 0 <= n < |disk| && !(start < n <= start + k) ==> disk'[n] == disk[n] && stored'[n] == stored[n]
  }

  lemma NothingLogged(disk: seq<Block>, stored: seq<Block>, start: nat, lh: seq<nat>)
    requires |disk| == |stored| && LogFits(start, lh, |disk|)
    ensures Logged(disk, stored, disk, stored, start, lh, 0)
  {
  }

  lemma LoggedStep(disk: seq<Block>, stored: seq<Block>, disk1: seq<Block>, stored1: seq<Block>, start: nat,
                   lh: seq<nat>, k: nat)
    requires Logged(disk, stored, disk1, stored1, start, lh, k) && k < |lh|
    ensures start + k + 1 < |disk1| && lh[k] < |stored1|
    ensures var x := stored1[lh[k]];
            Logged(disk, stored, disk1[start + k + 1 := x], stored1[start + k + 1 := x], start, lh, k + 1)
  {
  }

  lemma FitsFacts(start: nat, lh: seq<nat>, size: nat)
    requires LogFits(start, lh, size)
    ensures start + |lh| < size && forall j :: 0 <= j < |lh| ==> lh[j] < size && !(start <= lh[j] <= start + |lh|)
  {
  }

  lemma ReadyAt(bufs: seq<Buf>, start: nat, lh: seq<nat>, k: nat, tail: nat, size: nat)
    requires Ready(bufs, start, lh, k) && LogFits(start, lh, size) && k <= tail < |lh|
    ensures Spare(bufs) && Clear(bufs, start + tail + 1) && Pinned(bufs, lh[tail])
    ensures start + tail + 1 < size && lh[tail] < size
  {
    hide Spare, Clear, Pinned;
  }

  lemma ReadyHead(bufs: seq<Buf>, start: nat, lh: seq<nat>, k: nat)
    requires Ready(bufs, start, lh, k)
    ensures Spare(bufs) && Clear(bufs, start)
  {
    hide Spare, Clear, Pinned;
  }

  lemma ReadySettles(bufs: seq<Buf>, bufs': seq<Buf>, a: nat, start: nat, lh: seq<nat>, k: nat, n: nat, size: nat)
    requires Ready(bufs, start, lh, k) && LogFits(start, lh, size) && start <= n <= start + |lh|
             && Settles(bufs, bufs', a, n)
    ensures Ready(bufs', start, lh, k)
  {
    hide Clear, Pinned, Settles, LogFits;
    SettlesSpare(bufs, bufs', a, n);
    forall m | start <= m <= start + |lh|
      ensures Clear(bufs', m)
    {
      SettlesClear(bufs, bufs', a, n, m);
    }
    FitsFacts(start, lh, size);
    forall j | k <= j < |lh|
      ensures Pinned(bufs', lh[j])
    {
      SettlesPinned(bufs, bufs', a, n, lh[j]);
    }
  }

  lemma SettlesSpare(bufs: seq<Buf>, bufs': seq<Buf>, a: nat, n: nat)
    requires Settles(bufs, bufs', a, n)
    ensures Spare(bufs')
  {
    assert Reusable(bufs'[a]);
  }

  lemma SettlesClear(bufs: seq<Buf>, bufs': seq<Buf>, a: nat, n: nat, m: nat)
    requires Settles(bufs, bufs', a, n) && Clear(bufs, m)
    ensures Clear(bufs', m)
  {
  }

  lemma SettlesPinned(bufs: seq<Buf>, bufs': seq<Buf>, a: nat, n: nat, m: nat)
    requires Settles(bufs, bufs', a, n) && Pinned(bufs, m) && m != n
    ensures Pinned(bufs', m)
  {
    var i :| 0 <= i < |bufs| && Holds(bufs[i], m) && bufs[i].dirty;
    assert Holds(bufs'[i], m) && bufs'[i].dirty;
  }

  // One block installed: its buffer is clean.
  lemma ReadyNext(bufs: seq<Buf>, b: nat, buf: Buf, start: nat, lh: seq<nat>, k: nat, size: nat)
    requires Ready(bufs, start, lh, k) && LogFits(start, lh, size) && k < |lh|
    requires b < |bufs| && Holds(bufs[b], lh[k]) && Holds(buf, lh[k]) && Idle(buf)
    ensures Ready(bufs[b := buf], start, lh, k + 1)
  {
    hide Pinned, Clear;
    var bufs' := bufs[b := buf];
    assert Reusable(bufs'[b]);
    forall m | start <= m <= start + |lh|
      ensures Clear(bufs', m)
    {
      OtherClear(bufs, b, buf, lh[k], m);
    }
    forall j | k + 1 <= j < |lh|
      ensures Pinned(bufs', lh[j])
    {
      OtherPinned(bufs, b, buf, lh[k], lh[j]);
    }
  }

  lemma OtherClear(bufs: seq<Buf>, b: nat, buf: Buf, k: nat, m: nat)
    requires Clear(bufs, m) && b < |bufs| && Holds(buf, k) && (k != m || Idle(buf))
    ensures Clear(bufs[b := buf], m)
  {
  }

  lemma OtherPinned(bufs: seq<Buf>, b: nat, buf: Buf, k: nat, m: nat)
    requires Pinned(bufs, m) && b < |bufs| && Holds(bufs[b], k) && Holds(buf, k) && k != m
    ensures Pinned(bufs[b := buf], m)
  {
    var i :| 0 <= i < |bufs| && Holds(bufs[i], m) && bufs[i].dirty;
    assert Holds(bufs[b := buf][i], m) && bufs[b := buf][i].dirty;
  }

  lemma NoneUnpinned(bufs: seq<Buf>, lh: seq<nat>)
    ensures Unpinned(bufs, lh, 0)
  {
  }

  lemma UnpinnedStep(bufs: seq<Buf>, bufs': seq<Buf>, a: nat, b: nat, start: nat, lh: seq<nat>, k: nat, size: nat)
    requires Unpinned(bufs, lh, k) && k < |lh| && UniqueKeys(bufs) && a != b && b < |bufs| == |bufs'|
    requires Holds(bufs[b], lh[k]) && Holds(bufs'[b], lh[k]) && Idle(bufs'[b])
    requires Settles(bufs[b := bufs'[b]], bufs', a, start + k + 1)
    ensures Unpinned(bufs', lh, k + 1)
  {
    hide Settles, UniqueKeys, Clear;
    forall j | 0 <= j < k + 1
      ensures Clear(bufs', lh[j])
    {
      if j == k {
        OnlyHolder(bufs, b, bufs'[b], lh[k]);
      } else {
        OtherClear(bufs, b, bufs'[b], lh[k], lh[j]);
      }
      SettlesClear(bufs[b := bufs'[b]], bufs', a, start + k + 1, lh[j]);
    }
  }

  lemma OnlyHolder(bufs: seq<Buf>, b: nat, buf: Buf, k: nat)
    requires UniqueKeys(bufs) && b < |bufs| && Holds(bufs[b], k) && Holds(buf, k) && Idle(buf)
    ensures Clear(bufs[b := buf], k)
  {
  }

  lemma UnpinnedSettles(bufs: seq<Buf>, bufs': seq<Buf>, a: nat, lh: seq<nat>, n: nat)
    requires Unpinned(bufs, lh, |lh|) && Settles(bufs, bufs', a, n)
    ensures Unpinned(bufs', lh, |lh|)
  {
    hide Settles, Clear;
    forall j | 0 <= j < |lh|
      ensures Clear(bufs', lh[j])
    {
      SettlesClear(bufs, bufs', a, n, lh[j]);
    }
  }

  // What no dirty buffer covers is on disk.
  lemma CleanIsStored(bufs: seq<Buf>, disk: seq<Block>, stored: seq<Block>, lh: seq<nat>)
    requires Coherent(bufs, disk, stored) && Unpinned(bufs, lh, |lh|) && forall j :: 0 <= j < |lh| ==> lh[j] < |disk|
    ensures forall j :: 0 <= j < |lh| ==> disk[lh[j]] == stored[lh[j]]
  {
    forall j | 0 <= j < |lh|
      ensures disk[lh[j]] == stored[lh[j]]
    {
      assert Clear(bufs, lh[j]);
      assert !DirtyCopy(bufs, lh[j]);
    }
  }

  ghost function DirtyKeys(bufs: seq<Buf>, n: nat): set<nat>
    requires n <= |bufs|
  {
    set i | 0 <= i < n && bufs[i].dirty :: bufs[i].blockno
  }

  // How many of the first n buffers are dirty, and how many somebody holds.
  ghost function Dirty(bufs: seq<Buf>, n: nat): nat
    requires n <= |bufs|
  {
    if n == 0 then 0 else Dirty(bufs, n - 1) + if bufs[n - 1].dirty then 1 else 0
  }

  ghost function InUse(bufs: seq<Buf>, n: nat): nat
    requires n <= |bufs|
  {
    if n == 0 then 0 else InUse(bufs, n - 1) + if bufs[n - 1].refcnt > 0 then 1 else 0
  }

  // The buffers that somebody holds.
  ghost function Taken(bufs: seq<Buf>, n: nat): set<nat>
    requires n <= |bufs|
  {
    set i | 0 <= i < n && bufs[i].refcnt > 0
  }

  lemma {:induction false} InUseIsTaken(bufs: seq<Buf>, n: nat)
    requires n <= |bufs|
    ensures InUse(bufs, n) == |Taken(bufs, n)|
  {
    if n == 0 {
      assert Taken(bufs, n) == {};
    } else {
      InUseIsTaken(bufs, n - 1);
      assert Taken(bufs, n) == Taken(bufs, n - 1) + if bufs[n - 1].refcnt > 0 then {n - 1} else {};
    }
  }

  ghost function Elems(s: seq<nat>): set<nat> {
    set k | k in s
  }

  // If the pinned blocks and the buffers that others hold are together fewer than the
  // buffers, commit has its buffer to spare.
  lemma CommitHasBuffer(bufs: seq<Buf>, logged: seq<nat>)
    requires UniqueKeys(bufs) && |logged| + |Taken(bufs, |bufs|)| < |bufs|
    requires forall i :: 0 <= i < |bufs| && bufs[i].dirty ==> bufs[i].dev == 1 && bufs[i].blockno in logged
    ensures Spare(bufs)
  {
    var n := |bufs|;
    DirtyCount(bufs, n);
    assert DirtyKeys(bufs, n) <= Elems(logged);
    SubsetSize(DirtyKeys(bufs, n), Elems(logged));
    SeqSetSize(logged);
    InUseIsTaken(bufs, n);
    BusyCount(bufs, n);
  }

  // Buffers that cannot be recycled are dirty or held.
  lemma {:induction false} BusyCount(bufs: seq<Buf>, n: nat)
    requires n <= |bufs| && Dirty(bufs, n) + InUse(bufs, n) < n
    ensures exists i :: 0 <= i < n && Reusable(bufs[i])
  {
    if bufs[n - 1].dirty || bufs[n - 1].refcnt > 0 {
      BusyCount(bufs, n - 1);
    } else {
      assert Reusable(bufs[n - 1]);
    }
  }

  lemma {:induction false} DirtyCount(bufs: seq<Buf>, n: nat)
    requires n <= |bufs| && UniqueKeys(bufs)
    requires forall i :: 0 <= i < |bufs| && bufs[i].dirty ==> bufs[i].dev == 1
    ensures |DirtyKeys(bufs, n)| == Dirty(bufs, n)
  {
    hide DirtyKeys;
    if n > 0 {
      DirtyCount(bufs, n - 1);
      NextDirty(bufs, n - 1);
    } else {
      NoneDirty(bufs);
    }
  }

  lemma NoneDirty(bufs: seq<Buf>)
    ensures DirtyKeys(bufs, 0) == {}
  {
  }

  lemma NextDirty(bufs: seq<Buf>, n: nat)
    requires n < |bufs| && UniqueKeys(bufs)
    requires forall i :: 0 <= i < |bufs| && bufs[i].dirty ==> bufs[i].dev == 1
    ensures DirtyKeys(bufs, n + 1) == DirtyKeys(bufs, n) + if bufs[n].dirty then {bufs[n].blockno} else {}
    ensures bufs[n].dirty ==> bufs[n].blockno !in DirtyKeys(bufs, n)
  {
    var keys, more := DirtyKeys(bufs, n), if bufs[n].dirty then {bufs[n].blockno} else {};
    forall k | k in keys + more
      ensures k in DirtyKeys(bufs, n + 1)
    {
      if k in keys {
        var i :| 0 <= i < n && bufs[i].dirty && bufs[i].blockno == k;
      }
    }
  }

  lemma {:induction false} SubsetSize(a: set<nat>, b: set<nat>)
    requires a <= b
    ensures |a| <= |b|
  {
    assert b == a + (b - a);
  }

  lemma {:induction false} SeqSetSize(s: seq<nat>)
    ensures |Elems(s)| <= |s|
  {
    if s != [] {
      var rest := s[..|s| - 1];
      SeqSetSize(rest);
      assert Elems(s) == Elems(rest) + {s[|s| - 1]};
    } else {
      assert Elems(s) == {};
    }
  }
}
