/**
  mkfs: builds the initial file system in an image of zeros by handing out inode
  numbers and block numbers in order, and writes the bitmap last.  An image too
  small for its files is an explicit outcome.
 */
module Mkfs {
  import opened Bitmap
  import opened BlockCount
  import opened BlockMap
  import opened FileSystem

  const T_DIR: nat := 1
  const T_FILE: nat := 2

  class Mkfs {
    const size: nat
    const nmeta: nat
    var freeinode: nat
    var freeblock: nat
    var data: seq<Block>
    var inodes: seq<Inode>
    var bitmap: seq<bv8>        // the bitmap block, written at the end
    ghost var marks: seq<bv8>   // what it will have to say
    ghost var owner: map<nat, Slot>
    ghost var files: seq<seq<Byte>>

    ghost function View(): Volume
      reads this
    {
      Volume(size, nmeta, marks, data, inodes)
    }

    // Blocks are handed out in order, and only to slots.
    ghost predicate Marked()
      reads this
    {
      && Owned(View(), owner, {}) && nmeta <= freeblock <= size
      && (forall c :: 0 <= c < size ==> (Bit(marks, c) <==> c < freeblock))
      && (forall b :: freeblock <= b < size ==> data[b] == Zero())
    }

    ghost predicate Valid()
      reads this
    {
      Marked() && FilesOk(View(), files, freeinode) && freeblock == nmeta + Total(files)
    }

    constructor (size: nat, nmeta: nat, ninodes: nat, nbytes: nat)
      requires 0 < nmeta <= size < WORDLIMIT && size <= 8 * nbytes
      ensures Valid() && this.size == size && this.nmeta == nmeta && freeinode == 1 && freeblock == nmeta
      ensures |inodes| == ninodes && |bitmap| == nbytes
      ensures (forall i :: 0 <= i < ninodes ==> inodes[i] == Blank(0, 0)) && FreeEmpty(inodes)
      ensures |files| == ninodes && forall i :: 0 <= i < ninodes ==> files[i] == []
      ensures forall c :: 0 <= c < 8 * nbytes ==> !Bit(bitmap, c)
    {
      this.size, this.nmeta := size, nmeta;
      freeinode, freeblock := 1, nmeta;
      data := seq(size, _ => Zero());
      inodes := seq(ninodes, _ => Blank(0, 0));
      bitmap := seq(nbytes, _ => 0);
      marks, owner, files := PrefixMarks(nbytes, nmeta), map[], seq(ninodes, _ => []);
      new;
      PrefixBits(nbytes, nmeta);
      PrefixBits(nbytes, 0);
      assert bitmap == PrefixMarks(nbytes, 0);
      TotalNothing(ninodes);
    }

    // freeblock++, on a block that is still zero; 0 if the image is full.
    method TakeBlock() returns (b: nat)
      requires Marked()
      modifies `freeblock, `marks
      ensures b == 0 <==> old(freeblock) == size
      ensures b == 0 ==> View() == old(View()) && freeblock == old(freeblock)
      ensures b != 0 ==>
                && b == old(freeblock) < size && freeblock == b + 1 && !Bit(old(marks), b)
                && View() == Allocated(old(View()), b)
    {
      if freeblock == size {
        return 0;
      }
      b := freeblock;
      freeblock := freeblock + 1;
      marks := SetBit(marks, b);
      assert data[b := Zero()] == data;
    }

    method Ialloc(kind: nat) returns (inum: nat)
      requires Valid() && freeinode < |inodes|
      modifies `freeinode, `inodes
      ensures Valid() && inum == old(freeinode) && freeinode == inum + 1
      ensures inodes == old(inodes)[inum := Blank(kind, 1)] && files == old(files) && files[inum] == []
    {
      ghost var v := View();
      inum := freeinode;
      BlankInode(v, owner, inum, kind);
      UnusedIsEmpty(v, files, freeinode);
      freeinode := freeinode + 1;
      inodes := inodes[inum := Blank(kind, 1)];
      hide Owned, Content, Tight, Filled, Blank;
      assert View() == v.(inodes := v.inodes[inum := Blank(kind, 1)]);
    }

    // The block for index fbn of a file, taken from the image if there is none
    // yet; 0 if the image is full.
    method MapBlock(inum: nat, fbn: nat) returns (x: nat)
      requires Marked() && inum < |View().inodes| && fbn < MAXFILE
      modifies `freeblock, `marks, `data, `inodes, `owner
      ensures Marked() && Owned(View(), owner, {}) && |inodes| == |old(inodes)|
      ensures Keeps(old(View()), View(), inum) && Patched(old(View()), View(), inum, 0, [])
      ensures Mapped(old(View()), View(), inum, fbn, x)
      ensures x == 0 <==> size < old(freeblock) + Cost(old(View()), inum, fbn)
    {
      hide Keeps, Patched, OnlySlot, Owned, FreeCount, Took;
      OwnedShape(View(), owner);
      BlocksLeft(View(), freeblock);
      if fbn < NDIRECT {
        x := MapDirect(inum, fbn);
        TookDirect(old(View()), View(), inum, fbn, x);
        return;
      }
      x := MapDirect(inum, NDIRECT);
      ghost var v1, ind := View(), x;
      if x != 0 {
        TookBlock(old(View()), v1, Slot(inum, NDIRECT), x);
        x := MapEntry(inum, fbn - NDIRECT);
        KeepsTransitive(old(View()), v1, View(), inum);
        PatchedNothing(old(View()), v1, View(), inum, 0, []);
      }
      TookEntry(old(View()), v1, View(), inum, fbn, ind, x);
    }

    method MapDirect(inum: nat, k: nat) returns (x: nat)
      requires Marked() && inum < |inodes| && k <= NDIRECT
      modifies `freeblock, `marks, `data, `inodes, `owner
      ensures Marked() && |inodes| == |old(inodes)|
      ensures Keeps(old(View()), View(), inum) && Patched(old(View()), View(), inum, 0, [])
      ensures Took(old(View()), View(), Slot(inum, k), x)
    {
      hide Keeps, Patched, FreeCount;
      ghost var v := View();
      x := inodes[inum].addrs[k];
      NothingPatched(v, inum);
      BlocksLeft(v, freeblock);
      if x == 0 {
        x := TakeBlock();
        if x != 0 {
          AllocDirectBytes(v, owner, inum, k, x);
          AllocDirectOk(v, owner, inum, k, x);
          AllocDirectOnly(v, owner, inum, k, x);
          MarksGrow(v.bitmap, marks, x, size);
          inodes := inodes[inum := inodes[inum].(addrs := inodes[inum].addrs[k := x])];
          owner := owner[x := Slot(inum, k)];
          assert View() == AllocDirect(v, inum, k, x);
        }
      }
    }

    method MapEntry(inum: nat, j: nat) returns (x: nat)
      requires Marked() && inum < |inodes| && j < NINDIRECT && BlockOf(View(), Slot(inum, NDIRECT)) != 0
      modifies `freeblock, `marks, `data, `owner
      ensures Marked()
      ensures Keeps(old(View()), View(), inum) && Patched(old(View()), View(), inum, 0, [])
      ensures Took(old(View()), View(), Slot(inum, NDIRECT + 1 + j), x)
    {
      hide Keeps, Patched, OnlyThis, BlockOf, Owned, Shape, FreeCount;
      ghost var v := View();
      EntryFacts(v, owner, inum, j, freeblock);
      BlocksLeft(v, freeblock);
      var ind := inodes[inum].addrs[NDIRECT];
      x := Word(data[ind], j);
      if x == 0 {
        x := TakeBlock();
        if x != 0 {
          AllocEntryBytes(v, owner, inum, j, x);
          AllocEntryOk(v, owner, inum, j, x);
          AllocEntryOnly(v, owner, inum, j, x);
          MarksGrow(v.bitmap, marks, x, size);
          data := data[ind := PutWord(data[ind], j, x)];
          owner := owner[x := Slot(inum, NDIRECT + 1 + j)];
          assert View() == AllocEntry(v, inum, j, x);
        }
      }
    }

    // Appends bytes to a file; false exactly if the file would pass MAXBYTES or the
    // image has too few blocks for the files.
    method Iappend(inum: nat, src: seq<Byte>) returns (ok: bool)
      requires Valid() && inum < freeinode <= |inodes| == |files|
      modifies `freeblock, `marks, `data, `inodes, `owner, `files
      ensures ok <==> Fits(old(files), inum, src, size - nmeta)
      ensures ok ==>
                && Valid() && |inodes| == |old(inodes)| == |files|
                && files == old(files)[inum := old(files)[inum] + src]
                && inodes[inum].kind == old(inodes)[inum].kind && inodes[inum].nlink == old(inodes)[inum].nlink
                && forall j :: 0 <= j < |inodes| && j != inum ==> inodes[j] == old(inodes)[j]
    {
      hide *;
      ghost var v := View();
      AppendStarts(inum, src);
      var off := inodes[inum].size;
      BlockSize(off);
      if off + |src| > MAXBYTES {
        return false;
      }
      var tot := 0;
      assert src[..0] == [];
      while tot < |src|
        invariant 0 <= tot <= |src| && Marked() && files == old(files)
        invariant WriteInv(v, View(), owner, inum, off, src[..tot])
        invariant TightBut(v, View(), inum, CeilBlocks(off + tot))
        invariant off + tot <= v.inodes[inum].size ==> View().inodes == v.inodes
        invariant Spent(v, View(), inum, off / BSIZE, BlocksEnd(off, tot))
      {
        var n1 := AppendBlock(v, inum, off, src, tot);
        if n1 == 0 {
          return false;
        }
        tot := tot + n1;
      }
      assert src[..|src|] == src;
      SpentPrice(v, View(), inum, off / BSIZE, BlocksEnd(off, |src|));
      FinishAppend(v, inum, off, src, old(freeblock));
      return true;
    }

    lemma AppendStarts(inum: nat, src: seq<Byte>)
      requires Valid() && inum < freeinode <= |inodes| == |files|
      ensures Marked() && FilesOk(View(), files, freeinode) && freeblock == nmeta + Total(files)
      ensures View().inodes == inodes && |files| == |inodes| && inodes[inum].size <= MAXBYTES
      ensures var v, off := View(), inodes[inum].size;
              && WriteInv(v, v, owner, inum, off, []) && TightBut(v, v, inum, CeilBlocks(off + 0))
              && Filled(v, inum) && Spent(v, v, inum, off / BSIZE, BlocksEnd(off, 0))
              && FreeCount(v) == size - freeblock
      ensures var v, off := View(), inodes[inum].size;
              && (Fits(files, inum, src, size - nmeta) ==> off + |src| <= MAXBYTES)
              && (off + |src| <= MAXBYTES ==>
                    && BlocksEnd(off, |src|) <= MAXFILE
                    && (Fits(files, inum, src, size - nmeta) <==>
                        Need(v, inum, off / BSIZE, BlocksEnd(off, |src|)) <= FreeCount(v)))
    {
      hide Owned, Filled, Tight, Content, WriteInv, Spent, FreeCount, Need, TightBut, Total, BlocksEnd, BlocksFor;
      var v, off := View(), inodes[inum].size;
      assert Filled(v, inum) && Tight(v, inum) && Content(v, inum) == files[inum];
      ContentLength(v, inum);
      WriteStart(v, owner, inum, off);
      TightStart(v, inum);
      SpentStarts(v, inum, off);
      BlocksLeft(v, freeblock);
      TotalUpdate(files, inum, files[inum] + src);
      if off + |src| <= MAXBYTES {
        BlocksEndFits(off, |src|);
        NeedTight(v, inum, off, |src|);
      }
    }

    // One round of iappend's loop; 0 if there is no block left.
    method AppendBlock(ghost v: Volume, inum: nat, off: nat, src: seq<Byte>, tot: nat) returns (n1: nat)
      requires Marked() && tot < |src| && off + |src| <= MAXBYTES && WriteInv(v, View(), owner, inum, off, src[..tot])
      requires TightBut(v, View(), inum, CeilBlocks(off + tot)) && Filled(v, inum) && off == v.inodes[inum].size
      requires off + tot <= v.inodes[inum].size ==> View().inodes == v.inodes
      requires Spent(v, View(), inum, off / BSIZE, BlocksEnd(off, tot))
      modifies `freeblock, `marks, `data, `inodes, `owner
      ensures n1 <= |src| - tot
      ensures n1 == 0 ==>
                BlocksEnd(off, |src|) <= MAXFILE && FreeCount(v) < Need(v, inum, off / BSIZE, BlocksEnd(off, |src|))
      ensures n1 > 0 ==>
                && Marked() && WriteInv(v, View(), owner, inum, off, src[..tot + n1])
                && TightBut(v, View(), inum, CeilBlocks(off + (tot + n1)))
                && (off + tot + n1 <= v.inodes[inum].size ==> View().inodes == v.inodes)
                && Spent(v, View(), inum, off / BSIZE, BlocksEnd(off, tot + n1))
    {
      hide *;
      BlockSize(off + tot);
      var at := off + tot;
      var fbn := at / BSIZE;
      ghost var w0, owner0 := View(), owner;
      BlocksEndAt(off, tot, |src|);
      RoundBegins(v, w0, owner, inum, off, src[..tot]);
      var x := MapBlock(inum, fbn);
      if x == 0 {
        MappedNot(w0, View(), inum, fbn);
        SpentFails(v, w0, inum, off / BSIZE, BlocksEnd(off, tot), fbn, BlocksEnd(off, |src|));
        return 0;
      }
      RoundLength(at);
      n1 := Min(|src| - tot, (fbn + 1) * BSIZE - at);
      ghost var w1 := View();
      IsMappedAt(w0, w1, owner, inum, fbn, x);
      AppendRound(v, w0, owner0, inum, off, src, tot, n1, x);
      Splice(x, at, src[tot..tot + n1]);
    }

    lemma AppendRound(v: Volume, w0: Volume, owner0: map<nat, Slot>, inum: nat, off: nat, src: seq<Byte>, tot: nat,
                      n1: nat, x: nat)
      requires Marked() && tot < |src| && off + |src| <= MAXBYTES && n1 == Min(|src| - tot, BSIZE - (off + tot) % BSIZE)
      requires WriteInv(v, w0, owner0, inum, off, src[..tot]) && Spent(v, w0, inum, off / BSIZE, BlocksEnd(off, tot))
      requires Filled(v, inum) && (off + tot <= v.inodes[inum].size ==> w0.inodes == v.inodes)
      requires TightBut(v, w0, inum, CeilBlocks(off + tot))
      requires MappedAt(w0, View(), owner, inum, (off + tot) / BSIZE, x)
      ensures 0 < n1 <= |src| - tot && (off + tot) % BSIZE + n1 <= BSIZE && x < freeblock
      ensures var w2 := Written(View(), x, off + tot, src[tot..tot + n1]);
              && WriteInv(v, w2, owner, inum, off, src[..tot + n1]) && Owned(w2, owner, {})
              && Spent(v, w2, inum, off / BSIZE, BlocksEnd(off, tot + n1))
              && (off + tot + n1 <= v.inodes[inum].size ==> w2.inodes == v.inodes)
              && TightBut(v, w2, inum, CeilBlocks(off + (tot + n1)))
    {
      hide Owned, Keeps, Patched, Spent, Mapped, OnlySlot, Filled, TightBut, WriteInv, Bit, Covered;
      var w1 := View();
      WriteRound(v, w0, w1, owner0, owner, inum, off, src, tot, n1, x);
      var w2 := Written(w1, x, off + tot, src[tot..tot + n1]);
      RoundBegins(v, w2, owner, inum, off, src[..tot + n1]);
      MappedAtBlock(w0, w1, owner, inum, (off + tot) / BSIZE, x);
      InUseBelow(w1, owner, SlotFor(inum, (off + tot) / BSIZE), freeblock);
      WrittenSlots(w1, owner, inum, x, off + tot, src[tot..tot + n1]);
      TightStep(v, w0, w1, w2, inum, off + tot, n1);
    }

    lemma FreshTotal()
      requires Valid() && freeblock == nmeta
      ensures Total(files) == 0
    {
    }

    lemma NextIsEmpty()
      requires Valid() && freeinode < |inodes|
      ensures freeinode < |files| && files[freeinode] == []
    {
      UnusedIsEmpty(View(), files, freeinode);
    }

    // bcopy into a block in use, and wsect.
    method Splice(x: nat, at: nat, piece: seq<Byte>)
      requires Marked() && x < freeblock && at % BSIZE + |piece| <= BSIZE
      requires Owned(Written(View(), x, at, piece), owner, {})
      modifies `data
      ensures Marked() && View() == Written(old(View()), x, at, piece)
    {
      hide Bit;
      data := data[x := Spliced(data[x], at % BSIZE, piece)];
    }

    // din.size and winode at the end of iappend.
    method FinishAppend(ghost v: Volume, inum: nat, off: nat, src: seq<Byte>, ghost free0: nat)
      requires Marked() && WriteInv(v, View(), owner, inum, off, src) && off == v.inodes[inum].size <= MAXBYTES
      requires TightBut(v, View(), inum, CeilBlocks(off + |src|))
      requires FilesOk(v, files, freeinode) && inum < freeinode && |files| == |v.inodes|
      requires Spent(v, View(), inum, off / BSIZE, BlocksEnd(off, |src|))
      requires FreeCount(v) == size - free0 && free0 == nmeta + Total(files)
      modifies `inodes, `files
      ensures Valid() && |inodes| == |v.inodes| == |files|
      ensures files == old(files)[inum := old(files)[inum] + src]
      ensures inodes[inum].kind == v.inodes[inum].kind && inodes[inum].nlink == v.inodes[inum].nlink
      ensures forall j :: 0 <= j < |inodes| && j != inum ==> inodes[j] == v.inodes[j]
    {
      hide Owned, FilesOk, WriteInv, TightBut, Bit, Spent, FreeCount, Need;
      ghost var w := View();
      InvKept(v, w, owner, inum, off, src);
      FinishFiles(v, w, owner, inum, off, src, files, freeinode);
      BlocksLeft(w, freeblock);
      AppendCounts(v, w, inum, off, src, files, freeinode);
      inodes := inodes[inum := inodes[inum].(size := off + |src|)];
      files := files[inum := files[inum] + src];
      assert View() == Resized(w, inum, off + |src|);
    }

    // mkfs's balloc: the bitmap block, bit by bit.
    method WriteBitmap(used: nat)
      requires used <= 8 * |bitmap| && forall c :: 0 <= c < 8 * |bitmap| ==> !Bit(bitmap, c)
      modifies `bitmap
      ensures |bitmap| == |old(bitmap)| && forall c :: 0 <= c < 8 * |bitmap| ==> (Bit(bitmap, c) <==> c < used)
    {
      var i := 0;
      while i < used
        invariant 0 <= i <= used && |bitmap| == |old(bitmap)|
        invariant forall c :: 0 <= c < 8 * |bitmap| ==> (Bit(bitmap, c) <==> c < i)
      {
        MarksGrow(bitmap, SetBit(bitmap, i), i, 8 * |bitmap|);
        bitmap := SetBit(bitmap, i);
        i := i + 1;
      }
    }

    // The main program: a root directory with its two dot entries and, for every
    // file, a directory entry and the file's bytes.
    method Build(dot: seq<Byte>, dotdot: seq<Byte>, entries: seq<seq<Byte>>, contents: seq<seq<Byte>>)
      returns (ok: bool)
      requires Valid() && freeinode == 1 && freeblock == nmeta && 2 + |entries| <= |inodes| == |files|
      requires |entries| == |contents| && files[1] == [] && FreeEmpty(inodes)
      requires size <= 8 * |bitmap| && forall c :: 0 <= c < 8 * |bitmap| ==> !Bit(bitmap, c)
      modifies this
      ensures ok <==> Room(|dot + dotdot + Flat(entries)|, contents, size - nmeta)
      ensures ok ==>
                && Built(Volume(size, nmeta, bitmap, data, inodes), owner, dot + dotdot + Flat(entries), contents)
                && FreeEmpty(inodes) && Typed(inodes, 2 + |contents|)
    {
      hide *;
      FreshTotal();
      KindsStart(inodes);
      ghost var x0 := inodes;
      var root := Ialloc(T_DIR);
      KindsAlloc(x0, 1, T_DIR);
      ghost var x1 := inodes;
      assert [] + dot == dot;
      RootFits(files, dot, dotdot, entries, contents, size - nmeta);
      ok := Iappend(root, dot);
      if !ok {
        return;
      }
      KindsAppend(x1, inodes, root, 2);
      ghost var x2 := inodes;
      ok := Iappend(root, dotdot);
      if !ok {
        return;
      }
      KindsAppend(x2, inodes, root, 2);
      ok := AddFiles(dot + dotdot, entries, contents);
      if ok {
        FixRoot(dot + dotdot + Flat(entries), contents);
      }
    }

    // The root's size is rounded up, then the bitmap is written.
    method FixRoot(ghost root: seq<Byte>, ghost contents: seq<seq<Byte>>)
      requires Valid() && 2 + |contents| <= |inodes| && size <= 8 * |bitmap|
      requires forall c :: 0 <= c < 8 * |bitmap| ==> !Bit(bitmap, c)
      requires files[1] == root && FilesAre(files, contents) && KindsOk(inodes, freeinode)
      requires freeinode == 2 + |contents|
      modifies `inodes, `bitmap
      ensures Built(Volume(size, nmeta, bitmap, data, inodes), owner, root, contents)
      ensures FreeEmpty(inodes) && Typed(inodes, 2 + |contents|)
    {
      hide Owned, Filled, KindsOk, FreeEmpty, Tight, Content, Built, ByteAt, BlockOf, Typed;
      ghost var v := View();
      var off := inodes[1].size;
      off := (off / BSIZE + 1) * BSIZE;
      inodes := inodes[1 := inodes[1].(size := off)];
      KindsAppend(v.inodes, inodes, 1, freeinode);
      KindsEnd(v, files, inodes, freeinode);
      WriteBitmap(freeblock);
      BuiltOk(v, owner, bitmap, freeblock, files, root, contents);
    }

    method AddFiles(start: seq<Byte>, entries: seq<seq<Byte>>, contents: seq<seq<Byte>>) returns (ok: bool)
      requires Valid() && freeinode == 2 && 2 + |entries| <= |inodes| == |files| && |entries| == |contents|
      requires files[1] == start && |start| <= MAXBYTES && Total(files) == BlocksFor(|start|) <= size - nmeta
      requires KindsOk(inodes, freeinode)
      modifies `freeblock, `marks, `data, `inodes, `owner, `freeinode, `files
      ensures ok <==> Room(|start + Flat(entries)|, contents, size - nmeta)
      ensures ok ==>
                && Valid() && |files| == |inodes| == |old(inodes)|
                && files[1] == start + Flat(entries)
                && FilesAre(files, contents) && KindsOk(inodes, freeinode) && freeinode == 2 + |contents|
    {
      hide *;
      var i := 0;
      FilesStart(files, start, entries, contents, size - nmeta);
      while i < |entries|
        invariant 0 <= i <= |entries| && Valid() && freeinode == 2 + i && |files| == |inodes| == |old(inodes)|
        invariant files[1] == start + Flat(entries[..i])
        invariant FilesAre(files, contents[..i]) && KindsOk(inodes, freeinode)
        invariant Total(files) == BlocksFor(|files[1]|) + Total(contents[..i])
        invariant Room(|files[1]|, contents[..i], size - nmeta)
      {
        FilesStep(files, files[1] + entries[i], contents, i);
        FlatStep(start, entries, i);
        RoomStep(|files[1]|, |entries[i]|, contents, i, size - nmeta);
        RoomShrinks(start, entries, contents, i + 1, size - nmeta);
        ok := AddFile(entries[i], contents[i]);
        if !ok {
          return;
        }
        i := i + 1;
      }
      assert entries[..|entries|] == entries && contents[..|contents|] == contents;
      return true;
    }

    method AddFile(entry: seq<Byte>, content: seq<Byte>) returns (ok: bool)
      requires Valid() && 2 <= freeinode < |inodes| == |files| && KindsOk(inodes, freeinode)
      modifies `freeblock, `marks, `data, `inodes, `owner, `freeinode, `files
      ensures ok <==>
                && |old(files)[1]| + |entry| <= MAXBYTES && |content| <= MAXBYTES
                && Total(old(files)) - BlocksFor(|old(files)[1]|) + BlocksFor(|old(files)[1]| + |entry|)
                   + BlocksFor(|content|) <= size - nmeta
      ensures ok ==>
                && Valid() && |files| == |inodes| == |old(inodes)| && freeinode == old(freeinode) + 1
                && files == old(files)[old(freeinode) := content][1 := old(files)[1] + entry]
                && KindsOk(inodes, freeinode)
                && Total(files) == Total(old(files)) - BlocksFor(|old(files)[1]|)
                                   + BlocksFor(|old(files)[1]| + |entry|) + BlocksFor(|content|)
    {
      hide *;
      NextIsEmpty();
      AddFileFits(files, freeinode, entry, content, size - nmeta);
      KindsAlloc(inodes, freeinode, T_FILE);
      var inum := Ialloc(T_FILE);
      ghost var x1 := inodes;
      ok := Iappend(1, entry);
      if ok {
        KindsAppend(x1, inodes, 1, freeinode);
        ghost var x2 := inodes;
        assert files[inum] + content == content;
        ok := Iappend(inum, content);
        if ok {
          KindsAppend(x2, inodes, inum, freeinode);
        }
      }
    }
  }

  // ----- types

  // The root is a directory and the rest are files, with one link each; inodes without
  // a type have no block.
  ghost predicate KindsOk(inodes: seq<Inode>, n: nat) {
    && FreeEmpty(inodes)
    && forall i :: 1 <= i < n && i < |inodes| ==> inodes[i].nlink == 1 && inodes[i].kind == if i == 1 then 1 else 2
  }

  // Below n as above, and free from there on.
  ghost predicate Typed(inodes: seq<Inode>, n: nat) {
    forall i :: 1 <= i < |inodes| ==>
      if i >= n then inodes[i].kind == 0 else inodes[i].nlink == 1 && inodes[i].kind == if i == 1 then 1 else 2
  }

  lemma KindsStart(inodes: seq<Inode>)
    requires FreeEmpty(inodes)
    ensures KindsOk(inodes, 1)
  {
  }

  lemma KindsEnd(v: Volume, files: seq<seq<Byte>>, inodes: seq<Inode>, n: nat)
    requires KindsOk(inodes, n) && FilesOk(v, files, n) && 1 < n && |inodes| == |v.inodes|
    requires forall i :: 2 <= i < |inodes| ==> inodes[i] == v.inodes[i]
    ensures FreeEmpty(inodes) && Typed(inodes, n)
  {
  }

  lemma KindsAlloc(inodes: seq<Inode>, n: nat, kind: nat)
    requires KindsOk(inodes, n) && 1 <= n < |inodes| && kind == (if n == 1 then T_DIR else T_FILE)
    ensures KindsOk(inodes[n := Blank(kind, 1)], n + 1)
  {
  }

  lemma KindsAppend(a: seq<Inode>, b: seq<Inode>, inum: nat, n: nat)
    requires KindsOk(a, n) && |a| == |b| && 1 <= inum < n && inum < |a|
    requires b[inum].kind == a[inum].kind && b[inum].nlink == a[inum].nlink
    requires forall j :: 0 <= j < |a| && j != inum ==> b[j] == a[j]
    ensures KindsOk(b, n)
  {
  }

  // ----- how many blocks files take

  // The blocks of a file of n bytes, with its indirect block.
  function BlocksFor(n: nat): nat {
    CeilBlocks(n) + if CeilBlocks(n) > NDIRECT then 1 else 0
  }

  ghost function Total(files: seq<seq<Byte>>): nat {
    if files == [] then 0 else Total(files[..|files| - 1]) + BlocksFor(|files[|files| - 1]|)
  }

  ghost predicate Fits(files: seq<seq<Byte>>, inum: nat, src: seq<Byte>, room: int)
    requires inum < |files|
  {
    |files[inum]| + |src| <= MAXBYTES && Total(files[inum := files[inum] + src]) <= room
  }

  // A root directory of n bytes and these files can be had in room blocks.
  ghost predicate Room(n: nat, contents: seq<seq<Byte>>, room: int) {
    && n <= MAXBYTES && (forall i :: 0 <= i < |contents| ==> |contents[i]| <= MAXBYTES)
    && BlocksFor(n) + Total(contents) <= room
  }

  lemma {:induction false} TotalUpdate(files: seq<seq<Byte>>, k: nat, s: seq<Byte>)
    requires k < |files|
    ensures Total(files[k := s]) == Total(files) - BlocksFor(|files[k]|) + BlocksFor(|s|)
    decreases |files|
  {
    var n := |files| - 1;
    if k < n {
      TotalUpdate(files[..n], k, s);
      assert files[k := s][..n] == files[..n][k := s];
    } else {
      assert files[k := s][..n] == files[..n];
    }
  }

  lemma {:induction false} TotalNothing(n: nat)
    ensures Total(seq<seq<Byte>>(n, _ => [])) == 0
  {
    if n > 0 {
      TotalNothing(n - 1);
      assert seq<seq<Byte>>(n, _ => [])[..n - 1] == seq<seq<Byte>>(n - 1, _ => []);
    }
  }

  lemma {:induction false} TotalGrows(contents: seq<seq<Byte>>, i: nat)
    requires i <= |contents|
    ensures Total(contents[..i]) <= Total(contents)
    decreases |contents|
  {
    if i < |contents| {
      TotalGrows(contents[..|contents| - 1], i);
      assert contents[..|contents| - 1][..i] == contents[..i];
    } else {
      assert contents[..i] == contents;
    }
  }

  lemma BlocksForGrows(m: nat, n: nat)
    requires m <= n
    ensures BlocksFor(m) <= BlocksFor(n)
  {
  }

  lemma {:induction false} FlatGrows(ss: seq<seq<Byte>>, i: nat)
    requires i <= |ss|
    ensures |Flat(ss[..i])| <= |Flat(ss)|
    decreases |ss|
  {
    if i < |ss| {
      FlatGrows(ss[..|ss| - 1], i);
      assert ss[..|ss| - 1][..i] == ss[..i];
    } else {
      assert ss[..i] == ss;
    }
  }

  // What does not fit for the first i files does not fit for all of them.
  lemma RoomShrinks(start: seq<Byte>, entries: seq<seq<Byte>>, contents: seq<seq<Byte>>, i: nat, room: int)
    requires i <= |entries| == |contents|
    ensures Room(|start + Flat(entries)|, contents, room) ==> Room(|start + Flat(entries[..i])|, contents[..i], room)
  {
    FlatGrows(entries, i);
    TotalGrows(contents, i);
    BlocksForGrows(|start + Flat(entries[..i])|, |start + Flat(entries)|);
  }

  lemma RoomStep(n: nat, m: nat, contents: seq<seq<Byte>>, i: nat, room: int)
    requires i < |contents| && Room(n, contents[..i], room)
    ensures Total(contents[..i + 1]) == Total(contents[..i]) + BlocksFor(|contents[i]|)
    ensures Room(n + m, contents[..i + 1], room) <==>
            && n + m <= MAXBYTES && |contents[i]| <= MAXBYTES
            && BlocksFor(n + m) + Total(contents[..i]) + BlocksFor(|contents[i]|) <= room
  {
    hide BlocksFor;
    assert contents[..i + 1][..i] == contents[..i];
    assert forall j :: 0 <= j < i + 1 ==> contents[..i + 1][j] == contents[j];
    assert forall j :: 0 <= j < i ==> contents[..i][j] == contents[j];
  }

  lemma FilesStart(files: seq<seq<Byte>>, start: seq<Byte>, entries: seq<seq<Byte>>, contents: seq<seq<Byte>>,
                   room: int)
    requires 2 <= |files| && |start| <= MAXBYTES && BlocksFor(|start|) <= room
    ensures start == start + Flat(entries[..0]) && FilesAre(files, contents[..0])
    ensures Total(contents[..0]) == 0 && Room(|start|, contents[..0], room)
  {
  }

  // The two dot entries, one after the other.
  lemma RootFits(files: seq<seq<Byte>>, dot: seq<Byte>, dotdot: seq<Byte>, entries: seq<seq<Byte>>,
                 contents: seq<seq<Byte>>, room: int)
    requires 2 <= |files| && files[1] == [] && Total(files) == 0 && |entries| == |contents|
    ensures var both := files[1 := dot + dotdot];
            && files[1 := dot][1 := dot + dotdot] == both && Total(both) == BlocksFor(|dot + dotdot|)
            && (Fits(files, 1, dot, room) && Fits(files[1 := dot], 1, dotdot, room) ==>
                  |dot + dotdot| <= MAXBYTES && BlocksFor(|dot + dotdot|) <= room)
            && (Room(|dot + dotdot + Flat(entries)|, contents, room) ==>
                  Fits(files, 1, dot, room) && Fits(files[1 := dot], 1, dotdot, room))
  {
    hide BlocksFor, Total, Flat, Room;
    EmptyBlocks();
    assert [] + dot == dot;
    TotalUpdate(files, 1, dot);
    TotalUpdate(files, 1, dot + dotdot);
    BlocksForGrows(|dot|, |dot + dotdot|);
    RoomShrinks(dot + dotdot, entries, contents, 0, room);
    RoomOfNone(dot + dotdot, entries, contents, room);
  }

  lemma RoomOfNone(start: seq<Byte>, entries: seq<seq<Byte>>, contents: seq<seq<Byte>>, room: int)
    ensures Room(|start + Flat(entries[..0])|, contents[..0], room) ==>
              |start| <= MAXBYTES && BlocksFor(|start|) <= room
  {
    assert start == start + Flat(entries[..0]);
  }

  lemma EmptyBlocks()
    ensures BlocksFor(0) == 0
  {
  }

  // A directory entry and then the file's bytes: the second append is the harder one.
  lemma AddFileFits(files: seq<seq<Byte>>, k: nat, entry: seq<Byte>, content: seq<Byte>, room: int)
    requires 2 <= k < |files| && files[k] == []
    ensures var f1, f2 := files[1 := files[1] + entry], files[k := content][1 := files[1] + entry];
            && f1[k := content] == f2
            && Total(f2) == Total(files) - BlocksFor(|files[1]|) + BlocksFor(|files[1]| + |entry|)
                            + BlocksFor(|content|)
            && (Fits(files, 1, entry, room) && Fits(f1, k, content, room) <==>
                && |files[1]| + |entry| <= MAXBYTES && |content| <= MAXBYTES && Total(f2) <= room)
  {
    hide BlocksFor, Total;
    EmptyBlocks();
    var f1, f2 := files[1 := files[1] + entry], files[k := content][1 := files[1] + entry];
    TotalUpdate(files, 1, files[1] + entry);
    TotalUpdate(f1, k, content);
    assert [] + content == content && f1[k := content] == f2;
  }

  // Blocks from n on are the free ones.
  lemma BlocksLeft(v: Volume, n: nat)
    requires Shape(v) && n <= v.size && forall c :: 0 <= c < v.size ==> (Bit(v.bitmap, c) <==> c < n)
    ensures FreeCount(v) == v.size - n
  {
    assert FreeSet(v) == Numbers(n, v.size);
  }

  ghost function Numbers(lo: nat, hi: nat): (r: set<nat>)
    requires lo <= hi
    ensures |r| == hi - lo && forall c :: c in r <==> lo <= c < hi
  {
    if lo == hi then {} else Numbers(lo, hi - 1) + {hi - 1}
  }

  // Growing a file that has exactly its blocks takes exactly the blocks it will have
  // more.
  lemma NeedTight(v: Volume, inum: nat, off: nat, n: nat)
    requires Shape(v) && inum < |v.inodes| && Filled(v, inum) && Tight(v, inum) && off == v.inodes[inum].size
    requires off + n <= MAXBYTES && BlocksEnd(off, n) <= MAXFILE
    ensures Need(v, inum, off / BSIZE, BlocksEnd(off, n)) + BlocksFor(off) == BlocksFor(off + n)
  {
    TightIndirect(v, inum, off);
    if n > 0 {
      NeedFrom(v, inum, off, BlocksEnd(off, n));
    }
  }

  lemma TightIndirect(v: Volume, inum: nat, off: nat)
    requires Shape(v) && inum < |v.inodes| && Filled(v, inum) && Tight(v, inum)
             && off == v.inodes[inum].size <= MAXBYTES
    ensures LacksIndirect(v, inum) <==> CeilBlocks(off) <= NDIRECT
    ensures forall bn :: 0 <= bn < MAXFILE ==> (Lacks(v, inum, bn) <==> bn >= CeilBlocks(off))
  {
    forall bn | 0 <= bn < MAXFILE
      ensures Lacks(v, inum, bn) <==> bn >= CeilBlocks(off)
    {
      assert bn * BSIZE < off <==> bn < CeilBlocks(off);
    }
    if CeilBlocks(off) > NDIRECT {
      assert !Lacks(v, inum, NDIRECT);
      EntryNeedsIndirect(v, inum, 0);
    }
  }

  lemma {:induction false} NeedFrom(v: Volume, inum: nat, off: nat, hi: nat)
    requires Shape(v) && inum < |v.inodes| && CeilBlocks(off) <= hi <= MAXFILE
    requires LacksIndirect(v, inum) <==> CeilBlocks(off) <= NDIRECT
    requires forall bn :: 0 <= bn < MAXFILE ==> (Lacks(v, inum, bn) <==> bn >= CeilBlocks(off))
    ensures Need(v, inum, off / BSIZE, hi)
            == hi - CeilBlocks(off) + if hi > NDIRECT && CeilBlocks(off) <= NDIRECT then 1 else 0
    decreases hi
  {
    if CeilBlocks(off) < hi {
      NeedFrom(v, inum, off, hi - 1);
    }
  }

  // The kernel's view of a finished image is a valid file system exactly if the root
  // is filled.
  method Mount(image: Mkfs, inodestart: nat, bmapstart: nat, ghost root: seq<Byte>, ghost contents: seq<seq<Byte>>)
    returns (fs: FileSystem)
    requires Built(Volume(image.size, image.nmeta, image.bitmap, image.data, image.inodes), image.owner, root, contents)
    ensures fs.View() == Volume(image.size, image.nmeta, image.bitmap, image.data, image.inodes)
    ensures fs.Valid() <==> |root| % BSIZE != 0
    ensures fs.Valid() ==> forall k :: 0 <= k < |contents| ==> 2 + k < |fs.inodes| && fs.File(2 + k) == contents[k]
  {
    hide Owned, Filled, Content, ByteAt;
    fs := new FileSystem(image.size, image.nmeta, inodestart, bmapstart, image.bitmap, image.data,
                                    image.inodes, image.owner);
  }

  // File k has inode number k + 2.
  ghost predicate FilesAre(files: seq<seq<Byte>>, contents: seq<seq<Byte>>) {
    2 + |contents| <= |files| && forall i :: 2 <= i < 2 + |contents| ==> files[i] == contents[i - 2]
  }

  lemma FilesStep(files: seq<seq<Byte>>, root: seq<Byte>, contents: seq<seq<Byte>>, i: nat)
    requires i < |contents| && 2 + i < |files| && FilesAre(files, contents[..i])
    ensures FilesAre(files[2 + i := contents[i]][1 := root], contents[..i + 1])
  {
  }

  ghost function Flat(ss: seq<seq<Byte>>): seq<Byte> {
    if ss == [] then [] else Flat(ss[..|ss| - 1]) + ss[|ss| - 1]
  }

  lemma FlatStep(start: seq<Byte>, ss: seq<seq<Byte>>, i: nat)
    requires i < |ss|
    ensures start + Flat(ss[..i]) + ss[i] == start + Flat(ss[..i + 1])
  {
    assert ss[..i + 1][..i] == ss[..i];
  }

  // The finished image: blocks are owned as the bitmap says, files have their
  // bytes, and the root, whose size was rounded up past its entries, is filled
  // unless its entries end on a block boundary.
  ghost predicate Built(v: Volume, owner: map<nat, Slot>, root: seq<Byte>, contents: seq<seq<Byte>>) {
    && Owned(v, owner, {}) && 2 + |contents| <= |v.inodes|
    && (forall i :: 2 <= i < 2 + |contents| ==> Content(v, i) == contents[i - 2])
    && (forall i :: 0 <= i < |v.inodes| && i != 1 ==> Filled(v, i))
    && |root| <= MAXBYTES && (forall p :: 0 <= p < |root| ==> ByteAt(v, 1, p) == root[p])
    && v.inodes[1].size == (|root| / BSIZE + 1) * BSIZE
    && (Filled(v, 1) <==> |root| % BSIZE != 0)
  }

  lemma BuiltOk(v: Volume, owner: map<nat, Slot>, bitmap: seq<bv8>, n: nat, files: seq<seq<Byte>>, root: seq<Byte>,
                contents: seq<seq<Byte>>)
    requires Owned(v, owner, {}) && 2 + |contents| <= |v.inodes| && v.size <= 8 * |bitmap|
    requires forall i :: 0 <= i < |v.inodes| ==> Filled(v, i) && Tight(v, i)
    requires forall c :: 0 <= c < v.size ==> (Bit(v.bitmap, c) <==> c < n)
    requires forall c :: 0 <= c < v.size ==> (Bit(bitmap, c) <==> c < n)
    requires |files| == |v.inodes| && forall i :: 0 <= i < |v.inodes| ==> Content(v, i) == files[i]
    requires files[1] == root && FilesAre(files, contents)
    ensures Built(v.(bitmap := bitmap,
                     inodes := v.inodes[1 := v.inodes[1].(size := (v.inodes[1].size / BSIZE + 1) * BSIZE)]), owner,
                       root, contents)
  {
    hide Bit, Word, Tight, FilesAre;
    var u := v.(bitmap := bitmap,
                inodes := v.inodes[1 := v.inodes[1].(size := (v.inodes[1].size / BSIZE + 1) * BSIZE)]);
    assert Filled(v, 1) && Content(v, 1) == root;
    assert Shape(u);
    assert forall s :: IsSlot(v, s) ==> BlockOf(u, s) == BlockOf(v, s);
    forall b | 0 <= b < u.size
      ensures Bit(u.bitmap, b) <==> b < u.nmeta || b in owner
    {
      assert Bit(v.bitmap, b) <==> b < n;
    }
    assert Owned(u, owner, {});
    forall i | 0 <= i < |v.inodes| && i != 1
      ensures Filled(u, i) && Content(u, i) == Content(v, i)
    {
      SameInodeSameFile(v, u, i);
    }
    FilesListed(files, contents);
    RootFilled(v, u, |root|);
    assert forall p :: 0 <= p < |root| ==> ByteAt(u, 1, p) == ByteAt(v, 1, p) == root[p];
  }

  lemma FilesListed(files: seq<seq<Byte>>, contents: seq<seq<Byte>>)
    requires FilesAre(files, contents)
    ensures 2 + |contents| <= |files| && forall i :: 2 <= i < 2 + |contents| ==> files[i] == contents[i - 2]
  {
  }

  lemma RootFilled(v: Volume, u: Volume, n: nat)
    requires Shape(v) && Shape(u) && 1 < |v.inodes| == |u.inodes| && v.inodes[1].size == n <= MAXBYTES
    requires u.inodes[1].size == (n / BSIZE + 1) * BSIZE
    requires forall s :: IsSlot(v, s) ==> BlockOf(u, s) == BlockOf(v, s)
    requires Filled(v, 1) && Tight(v, 1)
    ensures Filled(u, 1) <==> n % BSIZE != 0
  {
    var last := n / BSIZE;
    if n % BSIZE == 0 && n < MAXBYTES {
      assert IsSlot(v, SlotFor(1, last)) && last * BSIZE >= v.inodes[1].size;
      assert BlockOf(u, SlotFor(1, last)) == 0;
      assert last * BSIZE < u.inodes[1].size;
    } else if n % BSIZE != 0 {
      forall bn | 0 <= bn < MAXFILE && bn * BSIZE < u.inodes[1].size
        ensures BlockOf(u, SlotFor(1, bn)) != 0
      {
        assert IsSlot(v, SlotFor(1, bn)) && bn * BSIZE < n;
      }
    }
  }

  function CeilBlocks(n: nat): nat {
    (n + BSIZE - 1) / BSIZE
  }

  // Blocks of inum from hi on are absent, and other files have the slots they had.
  ghost predicate TightBut(v: Volume, w: Volume, inum: nat, hi: nat) {
    && Shape(v) && Shape(w) && |w.inodes| == |v.inodes| && inum < |v.inodes|
    && (forall bn :: hi <= bn < MAXFILE ==> BlockOf(w, SlotFor(inum, bn)) == 0)
    && (hi <= NDIRECT ==> LacksIndirect(w, inum))
    && (forall s :: IsSlot(v, s) && s.inum != inum ==> BlockOf(w, s) == BlockOf(v, s))
  }

  lemma TightStart(v: Volume, inum: nat)
    requires Shape(v) && inum < |v.inodes| && Tight(v, inum)
    ensures TightBut(v, v, inum, CeilBlocks(v.inodes[inum].size))
  {
  }

  lemma TightStep(v: Volume, w0: Volume, w1: Volume, w2: Volume, inum: nat, at: nat, n1: nat)
    requires TightBut(v, w0, inum, CeilBlocks(at)) && OnlySlot(w0, w1, inum, at / BSIZE)
    requires Shape(w2) && |w2.inodes| == |w1.inodes| && forall s :: IsSlot(w1, s) ==> BlockOf(w2, s) == BlockOf(w1, s)
    requires 0 < n1 <= BSIZE - at % BSIZE
    ensures TightBut(v, w2, inum, CeilBlocks(at + n1))
  {
    CeilStep(at, n1);
    forall bn | CeilBlocks(at + n1) <= bn < MAXFILE
      ensures BlockOf(w2, SlotFor(inum, bn)) == 0
    {
      assert IsSlot(w0, SlotFor(inum, bn)) && bn != at / BSIZE;
      assert BlockOf(w0, SlotFor(inum, bn)) == 0;
    }
  }

  lemma CeilStep(at: nat, n1: nat)
    requires 0 < n1 <= BSIZE - at % BSIZE
    ensures CeilBlocks(at) <= CeilBlocks(at + n1) && at / BSIZE < CeilBlocks(at + n1)
  {
  }

  lemma ContentLength(v: Volume, inum: nat)
    requires Shape(v) && inum < |v.inodes| && Filled(v, inum)
    ensures |Content(v, inum)| == v.inodes[inum].size <= MAXBYTES
  {
  }

  lemma FinishFiles(v: Volume, w: Volume, owner: map<nat, Slot>, inum: nat, off: nat, src: seq<Byte>,
                    files: seq<seq<Byte>>, freeinode: nat)
    requires WriteInv(v, w, owner, inum, off, src) && TightBut(v, w, inum, CeilBlocks(off + |src|))
    requires FilesOk(v, files, freeinode) && inum < freeinode && off == v.inodes[inum].size <= MAXBYTES
    ensures var u := Resized(w, inum, off + |src|);
            Owned(u, owner, {}) && FilesOk(u, files[inum := files[inum] + src], freeinode)
  {
    hide Owned, Filled, Tight, TightBut, Content, Keeps, Patched, BlockOf, ByteAt, Blank, Covered;
    SizeKept(v, w, inum);
    assert Filled(v, inum) && Content(v, inum) == files[inum];
    ContentLength(v, inum);
    FinishOk(v, w, owner, inum, off, src);
    TightEnd(v, w, owner, inum, off + |src|);
    AppendSpec(Content(v, inum), src);
    forall j | 0 <= j < |v.inodes| && j != inum
      ensures Content(Resized(w, inum, off + |src|), j) == Content(v, j)
    {
      assert FileKept(v, Resized(w, inum, off + |src|), j);
    }
    FinishTable(v, Resized(w, inum, off + |src|), inum, src, files, freeinode);
  }

  lemma AppendSpec(c: seq<Byte>, src: seq<Byte>)
    requires |c| + |src| <= MAXBYTES
    ensures WriteSpec(c, |c|, src) == Some(c + src)
  {
    assert c[..|c|] == c && c + src + [] == c + src;
  }

  lemma FinishTable(v: Volume, u: Volume, inum: nat, src: seq<Byte>, files: seq<seq<Byte>>, freeinode: nat)
    requires FilesOk(v, files, freeinode) && inum < freeinode && inum < |v.inodes| == |u.inodes| && Shape(u)
    requires forall i :: 0 <= i < |u.inodes| ==> Filled(u, i)
    requires forall i :: 0 <= i < |u.inodes| ==> Tight(u, i)
    requires Content(u, inum) == Content(v, inum) + src
    requires forall j :: 0 <= j < |u.inodes| && j != inum ==> Content(u, j) == Content(v, j)
    requires forall j :: 0 <= j < |u.inodes| && j != inum ==> u.inodes[j] == v.inodes[j]
    ensures FilesOk(u, files[inum := files[inum] + src], freeinode)
  {
    hide Filled, Tight, Content, Blank;
    assert Content(v, inum) == files[inum];
  }

  lemma TightEnd(v: Volume, w: Volume, owner: map<nat, Slot>, inum: nat, end: nat)
    requires Owned(w, owner, {}) && Keeps(v, w, inum) && TightBut(v, w, inum, CeilBlocks(end))
             && end >= w.inodes[inum].size
    requires forall i :: 0 <= i < |v.inodes| ==> Tight(v, i)
    ensures var u := Resized(w, inum, end);
            Shape(u) && |u.inodes| == |v.inodes| && forall i :: 0 <= i < |v.inodes| ==> Tight(u, i)
  {
    var u := Resized(w, inum, end);
    ResizeKeeps(w, owner, inum, end);
    forall i, bn | 0 <= i < |v.inodes| && 0 <= bn < MAXFILE && bn * BSIZE >= u.inodes[i].size
      ensures BlockOf(u, SlotFor(i, bn)) == 0
    {
      assert IsSlot(v, SlotFor(i, bn));
      if i == inum {
        assert bn >= CeilBlocks(end);
      } else {
        assert Tight(v, i);
      }
    }
    forall i | 0 <= i < |v.inodes| && u.inodes[i].size <= NDIRECT * BSIZE
      ensures LacksIndirect(u, i)
    {
      assert IsSlot(v, Slot(i, NDIRECT));
      if i == inum {
        assert CeilBlocks(end) <= NDIRECT;
      } else {
        assert Tight(v, i);
      }
    }
  }

  function Blank(kind: nat, nlink: nat): Inode {
    Inode(kind, nlink, 0, seq(NDIRECT + 1, _ => 0))
  }

  // Files have exactly the blocks their sizes call for and the bytes listed;
  // inodes not handed out yet are blank.
  ghost predicate FilesOk(v: Volume, files: seq<seq<Byte>>, freeinode: nat) {
    && Shape(v) && |files| == |v.inodes| && 1 <= freeinode
    && (forall i :: 0 <= i < |v.inodes| ==> Filled(v, i) && Tight(v, i) && Content(v, i) == files[i])
    && (forall i :: freeinode <= i < |v.inodes| ==> v.inodes[i] == Blank(0, 0))
  }

  // No block at or past the end of the file, and no indirect block without need.
  ghost predicate Tight(v: Volume, inum: nat)
    requires Shape(v) && inum < |v.inodes|
  {
    && (forall bn :: 0 <= bn < MAXFILE && bn * BSIZE >= v.inodes[inum].size ==> BlockOf(v, SlotFor(inum, bn)) == 0)
    && (v.inodes[inum].size <= NDIRECT * BSIZE ==> LacksIndirect(v, inum))
  }

  lemma InUseBelow(v: Volume, owner: map<nat, Slot>, s: Slot, n: nat)
    requires Owned(v, owner, {}) && IsSlot(v, s) && BlockOf(v, s) != 0
    requires forall c :: 0 <= c < v.size ==> (Bit(v.bitmap, c) <==> c < n)
    ensures BlockOf(v, s) < n
  {
    assert BlockOf(v, s) in owner;
  }

  lemma EntryFacts(v: Volume, owner: map<nat, Slot>, inum: nat, j: nat, n: nat)
    requires Owned(v, owner, {}) && inum < |v.inodes| && j < NINDIRECT && BlockOf(v, Slot(inum, NDIRECT)) != 0
    requires forall c :: 0 <= c < v.size ==> (Bit(v.bitmap, c) <==> c < n)
    ensures |v.data| == v.size <= 8 * |v.bitmap| && |v.inodes[inum].addrs| == NDIRECT + 1
    ensures var ind := v.inodes[inum].addrs[NDIRECT];
            && ind < v.size && ind < n && |v.data[ind]| == BSIZE
            && Word(v.data[ind], j) == BlockOf(v, Slot(inum, NDIRECT + 1 + j))
    ensures forall b :: 0 <= b < |v.data| ==> |v.data[b]| == BSIZE
    ensures Keeps(v, v, inum) && Patched(v, v, inum, 0, []) && OnlyThis(v, v, Slot(inum, NDIRECT + 1 + j))
            && v.size < WORDLIMIT
  {
    NothingPatched(v, inum);
    IndirectBlock(v, owner, inum);
    InUseBelow(v, owner, Slot(inum, NDIRECT), n);
  }

  lemma MarksGrow(before: seq<bv8>, after: seq<bv8>, b: nat, size: nat)
    requires b < size <= 8 * |before| && after == SetBit(before, b)
    requires forall c :: 0 <= c < size ==> (Bit(before, c) <==> c < b)
    ensures forall c :: 0 <= c < size ==> (Bit(after, c) <==> c < b + 1)
  {
    forall c | 0 <= c < size
      ensures Bit(after, c) <==> c < b + 1
    {
      BitChange(before, b, c);
    }
  }

  lemma UnusedIsEmpty(v: Volume, files: seq<seq<Byte>>, freeinode: nat)
    requires FilesOk(v, files, freeinode)
    ensures freeinode < |files| ==> files[freeinode] == []
  {
    if freeinode < |files| {
      assert Filled(v, freeinode) && Content(v, freeinode) == files[freeinode] && v.inodes[freeinode] == Blank(0, 0);
      ContentLength(v, freeinode);
    }
  }

  lemma TookBlock(v: Volume, w: Volume, s: Slot, addr: nat)
    requires Took(v, w, s, addr) && addr != 0
    ensures Shape(w) && IsSlot(w, s) && BlockOf(w, s) == addr
  {
  }

  lemma MappedNot(v: Volume, w: Volume, inum: nat, bn: nat)
    requires Mapped(v, w, inum, bn, 0)
    ensures Shape(v) && inum < |v.inodes| && bn < MAXFILE && FreeCount(v) < Cost(v, inum, bn)
  {
  }

  lemma RoundLength(at: nat)
    ensures (at / BSIZE + 1) * BSIZE - at == BSIZE - at % BSIZE
  {
  }

  lemma WrittenSlots(w1: Volume, owner: map<nat, Slot>, inum: nat, x: nat, at: nat, piece: seq<Byte>)
    requires Owned(w1, owner, {}) && inum < |w1.inodes| && at % BSIZE + |piece| <= BSIZE && at < MAXBYTES
    requires Shape(w1) && x == BlockOf(w1, SlotFor(inum, at / BSIZE)) != 0
    ensures var w2 := Written(w1, x, at, piece);
            Shape(w2) && forall s :: IsSlot(w1, s) ==> BlockOf(w2, s) == BlockOf(w1, s)
  {
    hide Owned, Keeps, Patched, BlockOf;
    WriteBytes(w1, owner, inum, at, piece, x);
    OwnedShape(w1, owner);
    WriteKeepsOwned(w1, owner, x, Spliced(w1.data[x], at % BSIZE, piece));
    OwnedShape(Written(w1, x, at, piece), owner);
  }

  lemma InvKept(v: Volume, w: Volume, owner: map<nat, Slot>, inum: nat, off: nat, src: seq<Byte>)
    requires WriteInv(v, w, owner, inum, off, src)
    ensures Shape(w) && inum < |v.inodes| == |w.inodes| && w.inodes[inum].size == v.inodes[inum].size
    ensures off + |src| <= MAXBYTES && w.inodes[inum].kind == v.inodes[inum].kind
    ensures w.inodes[inum].nlink == v.inodes[inum].nlink
    ensures forall j :: 0 <= j < |v.inodes| && j != inum ==> w.inodes[j] == v.inodes[j]
  {
    hide Owned, Patched, Covered, Keeps;
    SizeKept(v, w, inum);
  }

  lemma AppendCounts(v: Volume, w: Volume, inum: nat, off: nat, src: seq<Byte>, files: seq<seq<Byte>>, freeinode: nat)
    requires FilesOk(v, files, freeinode) && inum < |files| && off == v.inodes[inum].size && off + |src| <= MAXBYTES
    requires Spent(v, w, inum, off / BSIZE, BlocksEnd(off, |src|))
    ensures FreeCount(w) + Total(files[inum := files[inum] + src]) == FreeCount(v) + Total(files)
  {
    hide Filled, Tight, Content, Total, BlocksFor, FreeCount, BlocksEnd;
    assert Filled(v, inum) && Tight(v, inum) && Content(v, inum) == files[inum];
    ContentLength(v, inum);
    TotalUpdate(files, inum, files[inum] + src);
    NeedTight(v, inum, off, |src|);
  }

  lemma BlankInode(v: Volume, owner: map<nat, Slot>, inum: nat, kind: nat)
    requires Owned(v, owner, {}) && inum < |v.inodes| && v.inodes[inum] == Blank(0, 0)
    ensures var w := v.(inodes := v.inodes[inum := Blank(kind, 1)]);
            && Owned(w, owner, {}) && Content(w, inum) == [] && Filled(w, inum) && Tight(w, inum)
            && (forall j :: 0 <= j < |v.inodes| && j != inum ==>
                  Content(w, j) == Content(v, j) && (Filled(v, j) ==> Filled(w, j)) && (Tight(v, j) ==> Tight(w, j)))
  {
    var w := v.(inodes := v.inodes[inum := Blank(kind, 1)]);
    assert Shape(w);
    assert forall s :: IsSlot(v, s) ==> BlockOf(w, s) == BlockOf(v, s);
    forall j | 0 <= j < |v.inodes| && j != inum
      ensures Content(w, j) == Content(v, j)
    {
      SameInodeSameFile(v, w, j);
    }
  }

  // A bitmap whose first n bits are set.
  ghost function PrefixMarks(nbytes: nat, n: nat): (bm: seq<bv8>)
    requires n <= 8 * nbytes
    ensures |bm| == nbytes
  {
    if n == 0 then seq(nbytes, _ => 0) else SetBit(PrefixMarks(nbytes, n - 1), n - 1)
  }

  lemma {:induction false} PrefixBits(nbytes: nat, n: nat)
    requires n <= 8 * nbytes
    ensures forall c :: 0 <= c < 8 * nbytes ==> (Bit(PrefixMarks(nbytes, n), c) <==> c < n)
  {
    if n == 0 {
      forall c | 0 <= c < 8 * nbytes
        ensures !Bit(PrefixMarks(nbytes, 0), c)
      {
        NoBits(c % 8);
      }
    } else {
      PrefixBits(nbytes, n - 1);
      forall c | 0 <= c < 8 * nbytes
        ensures Bit(PrefixMarks(nbytes, n), c) <==> c < n
      {
        BitChange(PrefixMarks(nbytes, n - 1), n - 1, c);
      }
    }
  }

  lemma NoBits(k: nat)
    requires k < 8
    ensures !Test(0, k)
  {
  }
}
