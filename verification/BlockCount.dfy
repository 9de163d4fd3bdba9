/**
  Counting blocks: how many are free, how many a write of a range of a file's
  blocks has to take, and why the one against the other decides whether there
  are enough.
 */
module BlockCount {
  import opened Bitmap
  import opened BlockMap

  // ----- free blocks

  ghost function FreeSet(v: Volume): set<nat>
    requires Shape(v)
  {
    set c | 0 <= c < v.size && !Bit(v.bitmap, c)
  }

  ghost function FreeCount(v: Volume): nat
    requires Shape(v)
  {
    |FreeSet(v)|
  }

  // Marking a free block makes it one less.
  lemma MarkCounts(v: Volume, w: Volume, b: nat)
    requires Shape(v) && Shape(w) && w.size == v.size && b < v.size && !Bit(v.bitmap, b)
             && w.bitmap == SetBit(v.bitmap, b)
    ensures FreeCount(w) == FreeCount(v) - 1
  {
    forall c | 0 <= c < v.size
      ensures Bit(w.bitmap, c) <==> Bit(v.bitmap, c) || c == b
    {
      BitChange(v.bitmap, b, c);
    }
    assert FreeSet(w) == FreeSet(v) - {b};
  }

  // Clearing a used one makes it one more.
  lemma ClearCounts(v: Volume, w: Volume, b: nat)
    requires Shape(v) && Shape(w) && w.size == v.size && b < v.size && Bit(v.bitmap, b)
             && w.bitmap == ClearBit(v.bitmap, b)
    ensures FreeCount(w) == FreeCount(v) + 1
  {
    forall c | 0 <= c < v.size
      ensures Bit(w.bitmap, c) <==> Bit(v.bitmap, c) && c != b
    {
      BitChange(v.bitmap, b, c);
    }
    assert FreeSet(w) == FreeSet(v) + {b};
  }

  // What bfree does to a bitmap.
  lemma Cleared(v: Volume, b: nat)
    requires b < v.size <= 8 * |v.bitmap| && Bit(v.bitmap, b)
    ensures var w := v.(bitmap := ClearBit(v.bitmap, b));
            && (forall c :: 0 <= c < v.size ==> (Bit(w.bitmap, c) <==> Bit(v.bitmap, c) && c != b))
            && (Shape(v) ==> Shape(w) && FreeCount(w) == FreeCount(v) + 1)
  {
    hide Bit, FreeCount;
    var w := v.(bitmap := ClearBit(v.bitmap, b));
    forall c | 0 <= c < v.size
      ensures Bit(w.bitmap, c) <==> Bit(v.bitmap, c) && c != b
    {
      BitChange(v.bitmap, b, c);
    }
    if Shape(v) {
      ClearCounts(v, w, b);
    }
  }

  lemma NoneFree(v: Volume)
    requires Shape(v) && forall c :: 0 <= c < v.size ==> Bit(v.bitmap, c)
    ensures FreeCount(v) == 0
  {
    assert FreeSet(v) == {};
  }

  lemma SomeFree(v: Volume, b: nat)
    requires Shape(v) && b < v.size && !Bit(v.bitmap, b)
    ensures FreeCount(v) > 0
  {
    assert b in FreeSet(v);
  }

  lemma SameBitmap(v: Volume, w: Volume)
    requires Shape(v) && Shape(w) && w.size == v.size && w.bitmap == v.bitmap
    ensures FreeCount(w) == FreeCount(v)
  {
    assert FreeSet(w) == FreeSet(v);
  }

  // ----- which slots an allocation changes

  ghost predicate OnlyThis(v: Volume, w: Volume, t: Slot) {
    && Shape(v) && Shape(w) && |w.inodes| == |v.inodes|
    && forall s :: IsSlot(v, s) && s != t ==> BlockOf(w, s) == BlockOf(v, s)
  }

  // No slot changed but the one for block bn of inum and, for a block past the direct
  // ones, the indirect block.
  ghost predicate OnlySlot(v: Volume, w: Volume, inum: nat, bn: nat) {
    && Shape(v) && Shape(w) && |w.inodes| == |v.inodes|
    && forall s :: IsSlot(v, s) && s != SlotFor(inum, bn) && !(bn >= NDIRECT && s == Slot(inum, NDIRECT)) ==>
                     BlockOf(w, s) == BlockOf(v, s)
  }

  lemma AllocDirectOnly(v: Volume, owner: map<nat, Slot>, i: nat, k: nat, b: nat)
    requires Owned(v, owner, {}) && b < v.size && !Bit(v.bitmap, b) && i < |v.inodes| && k <= NDIRECT
    requires v.inodes[i].addrs[k] == 0
    ensures var w := AllocDirect(v, i, k, b);
            OnlyThis(v, w, Slot(i, k)) && BlockOf(w, Slot(i, k)) == b && FreeCount(w) == FreeCount(v) - 1
  {
    var w := AllocDirect(v, i, k, b);
    forall s | IsSlot(v, s)
      ensures Shape(w) && BlockOf(w, s) == if s == Slot(i, k) then b else BlockOf(v, s)
    {
      AllocDirectSlots(v, owner, i, k, b, s);
    }
    assert IsSlot(v, Slot(i, k));
    MarkCounts(v, w, b);
  }

  lemma AllocEntryOnly(v: Volume, owner: map<nat, Slot>, i: nat, j: nat, b: nat)
    requires Owned(v, owner, {}) && b < v.size && !Bit(v.bitmap, b) && i < |v.inodes| && j < NINDIRECT
    requires BlockOf(v, Slot(i, NDIRECT)) != 0 && v.inodes[i].addrs[NDIRECT] < v.size
    ensures var w, t := AllocEntry(v, i, j, b), Slot(i, NDIRECT + 1 + j);
            OnlyThis(v, w, t) && BlockOf(w, t) == b && FreeCount(w) == FreeCount(v) - 1
  {
    var w := AllocEntry(v, i, j, b);
    forall s | IsSlot(v, s)
      ensures Shape(w) && BlockOf(w, s) == if s == Slot(i, NDIRECT + 1 + j) then b else BlockOf(v, s)
    {
      AllocEntrySlots(v, owner, i, j, b, s);
    }
    assert IsSlot(v, Slot(i, NDIRECT + 1 + j));
    MarkCounts(v, w, b);
  }

  // ----- what a range of blocks costs

  ghost predicate Lacks(v: Volume, inum: nat, bn: nat)
    requires Shape(v) && inum < |v.inodes| && bn < MAXFILE
  {
    BlockOf(v, SlotFor(inum, bn)) == 0
  }

  ghost predicate LacksIndirect(v: Volume, inum: nat)
    requires Shape(v) && inum < |v.inodes|
  {
    BlockOf(v, Slot(inum, NDIRECT)) == 0
  }

  // The blocks bmap takes for block bn.
  ghost function Cost(v: Volume, inum: nat, bn: nat): nat
    requires Shape(v) && inum < |v.inodes| && bn < MAXFILE
  {
    (if Lacks(v, inum, bn) then 1 else 0) + if bn >= NDIRECT && LacksIndirect(v, inum) then 1 else 0
  }

  // ----- mapping a block

  // The slot's block is taken if it has none: addr is 0 if none was left.
  ghost predicate Took(v: Volume, w: Volume, s: Slot, addr: nat) {
    && OnlyThis(v, w, s) && IsSlot(v, s)
    && (addr == 0 <==> BlockOf(v, s) == 0 && FreeCount(v) == 0)
    && (addr == 0 || BlockOf(v, s) != 0 ==> w == v)
    && (addr != 0 ==>
          addr == BlockOf(w, s) && FreeCount(w) + (if BlockOf(v, s) == 0 then 1 else 0) == FreeCount(v))
  }

  // Block bn of the file and its indirect block are there, at exactly their cost; addr
  // is 0 if they could not be had.
  ghost predicate Mapped(v: Volume, w: Volume, inum: nat, bn: nat, addr: nat) {
    && OnlySlot(v, w, inum, bn) && inum < |v.inodes| && bn < MAXFILE
    && (addr == 0 <==> FreeCount(v) < Cost(v, inum, bn))
    && (addr != 0 ==>
          && addr == BlockOf(w, SlotFor(inum, bn)) && (bn >= NDIRECT ==> !LacksIndirect(w, inum))
          && FreeCount(w) + Cost(v, inum, bn) == FreeCount(v))
    && (!Lacks(v, inum, bn) ==> w == v)
  }

  lemma TookDirect(v: Volume, w: Volume, inum: nat, bn: nat, addr: nat)
    requires bn < NDIRECT && Took(v, w, Slot(inum, bn), addr)
    ensures Mapped(v, w, inum, bn, addr)
  {
  }

  lemma TookEntry(v: Volume, u: Volume, w: Volume, inum: nat, bn: nat, ind: nat, addr: nat)
    requires NDIRECT <= bn < MAXFILE && Took(v, u, Slot(inum, NDIRECT), ind)
    requires if ind == 0 then w == u && addr == 0 else Took(u, w, Slot(inum, bn + 1), addr)
    ensures Mapped(v, w, inum, bn, addr)
  {
    hide FreeCount;
    assert IsSlot(v, Slot(inum, bn + 1)) && IsSlot(u, Slot(inum, NDIRECT));
  }

  // Some block of [lo, hi) is behind the indirect block.
  predicate Reaches(lo: nat, hi: nat) {
    lo < hi && hi > NDIRECT
  }

  // The blocks needed to have all of [lo, hi).
  ghost function Need(v: Volume, inum: nat, lo: nat, hi: nat): nat
    requires Shape(v) && inum < |v.inodes| && hi <= MAXFILE
    decreases hi
  {
    if hi <= lo then 0
    else
      Need(v, inum, lo, hi - 1) + (if Lacks(v, inum, hi - 1) then 1 else 0)
      + if hi - 1 >= NDIRECT && LacksIndirect(v, inum) && !Reaches(lo, hi - 1) then 1 else 0
  }

  lemma {:induction false} NeedGrows(v: Volume, inum: nat, lo: nat, mid: nat, hi: nat)
    requires Shape(v) && inum < |v.inodes| && mid <= hi <= MAXFILE
    ensures Need(v, inum, lo, mid) <= Need(v, inum, lo, hi)
    decreases hi
  {
    if mid < hi {
      NeedGrows(v, inum, lo, mid, hi - 1);
    }
  }

  // In w, blocks [lo, hi) of the file have been filled from v, at exactly the price.
  ghost predicate Spent(v: Volume, w: Volume, inum: nat, lo: nat, hi: nat) {
    && Shape(v) && Shape(w) && |w.inodes| == |v.inodes| && inum < |v.inodes| && lo <= hi <= MAXFILE
    && FreeCount(w) + Need(v, inum, lo, hi) == FreeCount(v)
    && (forall bn :: lo <= bn < hi ==> !Lacks(w, inum, bn))
    && (forall bn :: 0 <= bn < MAXFILE && !(lo <= bn < hi) ==> (Lacks(w, inum, bn) <==> Lacks(v, inum, bn)))
    && (LacksIndirect(w, inum) <==> LacksIndirect(v, inum) && !Reaches(lo, hi))
  }

  lemma SpentNone(v: Volume, inum: nat, lo: nat)
    requires Shape(v) && inum < |v.inodes| && lo <= MAXFILE
    ensures Spent(v, v, inum, lo, lo)
  {
  }

  // Mapping the next block, or the last one once more.
  lemma SpentStep(v: Volume, w0: Volume, w1: Volume, inum: nat, lo: nat, hi: nat, bn: nat, addr: nat)
    requires Spent(v, w0, inum, lo, hi) && (bn == hi || lo <= bn == hi - 1)
    requires Mapped(w0, w1, inum, bn, addr) && addr != 0
    ensures Spent(v, w1, inum, lo, bn + 1)
  {
    hide FreeCount, OnlySlot;
    OnlySlotShape(w0, w1, inum, bn);
    forall k | 0 <= k < MAXFILE && k != bn
      ensures Lacks(w1, inum, k) <==> Lacks(w0, inum, k)
    {
      OnlySlotAt(w0, w1, inum, bn, SlotFor(inum, k));
    }
    if bn < NDIRECT {
      OnlySlotAt(w0, w1, inum, bn, Slot(inum, NDIRECT));
    }
  }

  lemma OnlySlotShape(v: Volume, w: Volume, inum: nat, bn: nat)
    requires OnlySlot(v, w, inum, bn)
    ensures Shape(v) && Shape(w) && |w.inodes| == |v.inodes|
  {
  }

  lemma OnlySlotAt(v: Volume, w: Volume, inum: nat, bn: nat, s: Slot)
    requires OnlySlot(v, w, inum, bn) && IsSlot(v, s) && s != SlotFor(inum, bn)
    requires bn < NDIRECT || s != Slot(inum, NDIRECT)
    ensures BlockOf(w, s) == BlockOf(v, s)
  {
  }

  // Changing data or sizes costs nothing.
  lemma SpentSame(v: Volume, w0: Volume, w1: Volume, inum: nat, lo: nat, hi: nat)
    requires Spent(v, w0, inum, lo, hi) && Shape(w1) && |w1.inodes| == |w0.inodes|
    requires w1.size == w0.size && w1.bitmap == w0.bitmap && forall s :: IsSlot(w0, s) ==>
               BlockOf(w1, s) == BlockOf(w0, s)
    ensures Spent(v, w1, inum, lo, hi)
  {
    SameBitmap(w0, w1);
    assert forall bn :: 0 <= bn < MAXFILE ==>
             IsSlot(w0, SlotFor(inum, bn)) && (Lacks(w1, inum, bn) <==> Lacks(w0, inum, bn));
    assert IsSlot(w0, Slot(inum, NDIRECT));
  }

  // A block that cannot be had means that the whole range cannot.
  lemma SpentFails(v: Volume, w: Volume, inum: nat, lo: nat, hi: nat, bn: nat, end: nat)
    requires Spent(v, w, inum, lo, hi) && bn < end <= MAXFILE && (bn == hi || lo <= bn == hi - 1)
    requires FreeCount(w) < Cost(w, inum, bn)
    ensures FreeCount(v) < Need(v, inum, lo, end)
  {
    assert bn == hi;
    assert Need(v, inum, lo, bn + 1) == Need(v, inum, lo, bn) + Cost(w, inum, bn);
    NeedGrows(v, inum, lo, bn + 1, end);
  }

  // What is left to pay for once part of a range is filled.
  lemma {:induction false} NeedThen(v: Volume, w: Volume, inum: nat, lo: nat, mid: nat, lo': nat, hi: nat)
    requires Spent(v, w, inum, lo, mid) && lo <= lo' <= mid <= hi <= MAXFILE && (lo < mid || lo' == lo)
    requires lo' == mid || lo' + 1 == mid
    ensures Need(v, inum, lo, hi) == Need(v, inum, lo, mid) + Need(w, inum, lo', hi)
    decreases hi
  {
    if mid < hi {
      NeedThen(v, w, inum, lo, mid, lo', hi - 1);
    } else {
      assert lo' < mid ==> !Lacks(w, inum, lo') && Need(w, inum, lo', lo') == 0;
    }
  }

  // One range after the other.
  lemma SpentThen(v: Volume, w: Volume, u: Volume, inum: nat, lo: nat, mid: nat, lo': nat, hi: nat)
    requires Spent(v, w, inum, lo, mid) && Spent(w, u, inum, lo', hi) && lo <= lo' <= mid <= hi
    requires (lo < mid || lo' == lo) && (lo' == mid || lo' + 1 == mid)
    ensures Spent(v, u, inum, lo, hi)
  {
    NeedThen(v, w, inum, lo, mid, lo', hi);
    forall bn | lo <= bn < hi
      ensures !Lacks(u, inum, bn)
    {
      assert bn < lo' ==> !Lacks(w, inum, bn);
    }
  }
}
