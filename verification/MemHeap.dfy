/** memheap.c: the boundary-tag allocator that serves as the system heap.

    A Heap object is struct rt_memheap; its pool and its free list header lie in `ram`,
    an array of words that several heaps share.  The source's repeated list statements are
    the small methods at the start of the class, its functions are the methods after them.
    The heap's semaphore is not modelled: each function is taken as one step, although
    rt_memheap_alloc reads available_size before it takes the semaphore, and rt_memheap_realloc
    gives it back before it allocates, copies and frees. */
module MemHeap {
  import opened Tiling
  import opened MemHeapWords
  import opened MemHeapSteps
  import opened MemHeapOps
  import opened MemHeapMerge

  function Max(a: int, b: int): int {
    if a < b then b else a
  }

  ghost predicate Opened(b: bool) {
    b
  }

  class Heap {
    const ram: array<int>
    const id: int
    const start: nat
    const poolSize: nat
    const freeHeader: nat
    var available: int
    var maxUsed: int
    ghost var shape: Shape

    /** The lists are sealed: only the methods that say Opened(true) look inside. */
    ghost predicate Valid()
      reads this, ram
    {
      && (forall b {:trigger Opened(b)} :: Opened(b) ==> HeapOk(ram[..], shape) && available == FreeSum(shape.bs))
      && shape.id == id && shape.fh == freeHeader
      && shape.lo == start && shape.hi == start + poolSize && ram.Length <= SPACE
      && poolSize - available <= maxUsed <= poolSize
    }

    /** The blocks handed out, and the tailer. */
    ghost function Blocks(): set<Block>
      reads this
    {
      Live(shape.bs)
    }

    /** rt_memheap_init on `bytes` bytes at `start`: one free block and the tailer. */
    constructor (ram: array<int>, id: int, start: nat, bytes: nat, freeHeader: nat)
      requires bytes / 4 >= 2 * HEADER + MIN_ALLOC
      requires 0 < start && start + bytes / 4 <= ram.Length <= SPACE
      requires 0 < freeHeader && freeHeader + HEADER <= ram.Length
      requires freeHeader + HEADER <= start || start + bytes / 4 <= freeHeader
      modifies ram
      ensures Valid()
      ensures this.ram == ram && this.id == id && this.start == start && this.freeHeader == freeHeader
      ensures poolSize == bytes / 4 && available == poolSize - 2 * HEADER && maxUsed == 2 * HEADER
      ensures shape.bs == [Block(start, available, false), Block(start + HEADER + available, 0, true)]
      ensures shape.fl == [start]
      ensures OthersKept(old(ram[..]), ram[..], shape)
    {
      this.ram, this.id, this.start, this.freeHeader := ram, id, start, freeHeader;
      poolSize := bytes / 4;
      available := bytes / 4 - 2 * HEADER;
      maxUsed := bytes / 4 - (bytes / 4 - 2 * HEADER);
      shape := Fresh(id, start, bytes / 4, freeHeader);
      new;
      InitWords(start + available + HEADER);
      FreshOk(ram[..], shape);
    }

    /** The words rt_memheap_init writes: list header, first block, tailer, free list. */
    method InitWords(tail: nat)
      requires start + HEADER <= tail && tail + HEADER <= ram.Length
      requires freeHeader + HEADER <= ram.Length
      requires freeHeader + HEADER <= start || tail + HEADER <= freeHeader
      modifies ram
      ensures HeaderAt(ram[..], Block(start, tail - start - HEADER, false), id, tail, tail)
      ensures HeaderAt(ram[..], Block(tail, 0, true), id, start, start)
      ensures ram[freeHeader + 4] == start == ram[freeHeader + 5] && ram[start + 4] == freeHeader == ram[start + 5]
      ensures forall a :: 0 <= a < ram.Length ==>
        start <= a < tail + HEADER || freeHeader <= a < freeHeader + HEADER || ram[a] == old(ram[a])
    {
      InitFirst(tail);
      InitItem(tail, true, start, start, NULL, NULL);
    }

    /** The list header and the first block, the only node of the free list. */
    method InitFirst(tail: nat)
      requires start + HEADER <= tail <= ram.Length && freeHeader + HEADER <= ram.Length
      requires freeHeader + HEADER <= start || tail <= freeHeader
      modifies ram
      ensures HeaderAt(ram[..], Block(start, tail - start - HEADER, false), id, tail, tail)
      ensures ram[freeHeader + 4] == start == ram[freeHeader + 5] && ram[start + 4] == freeHeader == ram[start + 5]
      ensures forall a :: 0 <= a < ram.Length ==>
        start <= a < start + HEADER || freeHeader <= a < freeHeader + HEADER || ram[a] == old(ram[a])
    {
      InitItem(freeHeader, false, NULL, NULL, freeHeader, freeHeader);
      InitItem(start, false, tail, tail, start, start);
      ram[start + 4] := ram[freeHeader + 4];
      ram[start + 5] := freeHeader;
      ram[freeHeader + 5] := start;
      ram[freeHeader + 4] := start;
    }

    method InitItem(p: nat, u: bool, next: nat, prev: nat, nextFree: nat, prevFree: nat)
      requires p + HEADER <= ram.Length
      modifies ram
      ensures ram[p] == MagicOf(u) && ram[p + 1] == id && ram[p + 2] == next && ram[p + 3] == prev
      ensures ram[p + 4] == nextFree && ram[p + 5] == prevFree
      ensures forall a :: 0 <= a < ram.Length ==> p <= a < p + HEADER || ram[a] == old(ram[a])
    {
      ram[p] := MagicOf(u);
      ram[p + 1] := id;
      ram[p + 2] := next;
      ram[p + 3] := prev;
      ram[p + 4] := nextFree;
      ram[p + 5] := prevFree;
    }

    // ---- the list statements ----

    method UnlinkFree(p: nat)
      requires UnlinkSafe(ram[..], p)
      modifies ram
      ensures ram[..] == UnlinkMem(old(ram[..]), p)
    {
      var next, prev := ram[p + 4], ram[p + 5];
      ram[next + 5] := prev;
      ram[prev + 4] := next;
    }

    method ClearLinks(p: nat)
      requires In(ram[..], p + 5)
      modifies ram
      ensures ram[..] == ClearMem(old(ram[..]), p)
    {
      ram[p + 4] := NULL;
      ram[p + 5] := NULL;
    }

    method PushFree(fh: nat, p: nat)
      requires PushSafe(ram[..], fh, p)
      modifies ram
      ensures ram[..] == PushMem(old(ram[..]), fh, p)
    {
      var first := ram[fh + 4];
      ram[p + 4] := first;
      ram[p + 5] := fh;
      ram[first + 5] := p;
      ram[fh + 4] := p;
    }

    method Mark(p: nat, u: bool)
      requires In(ram[..], p)
      modifies ram
      ensures ram[..] == MarkMem(old(ram[..]), p, u)
    {
      ram[p] := if u then SetUsedBit(ram[p]) else ClearUsedBit(ram[p]);
    }

    method SplitBlock(id: int, p: nat, q: nat)
      requires SplitSafe(ram[..], p, q)
      modifies ram
      ensures ram[..] == SplitMem(old(ram[..]), id, p, q)
    {
      var next := ram[p + 2];
      ram[q] := MAGIC;
      ram[q + 1] := id;
      ram[q + 3] := p;
      ram[q + 2] := next;
      ram[next + 3] := q;
      ram[p + 2] := q;
    }

    method JoinWithPrev(q: nat)
      requires JoinSafe(ram[..], q)
      modifies ram
      ensures ram[..] == JoinMem(old(ram[..]), q)
    {
      var next, prev := ram[q + 2], ram[q + 3];
      ram[next + 3] := prev;
      ram[prev + 2] := next;
    }

    /** MEMITEM_SIZE: the room of the block at `p`, read from its next word. */
    method ItemSize(p: nat, ghost s: Shape, ghost i: nat) returns (size: nat)
      requires Woven(ram[..], s)
      requires i + 1 < |s.bs| && s.bs[i].addr == p
      ensures size == s.bs[i].size
    {
      assert InRing(ram[..], s.bs, s.id, i);
      assert End(s.bs[i], HEADER) == s.bs[i + 1].addr;
      size := ram[p + 2] - p - HEADER;
    }

    /** The room of a block in the free list. */
    method FreeItem(p: nat, ghost k: nat) returns (freeSize: nat)
      requires Valid() && k < |shape.fl| && p == shape.fl[k]
      ensures freeSize == SizeAt(shape.bs, p)
    {
      assert Opened(true);
      ghost var i := BlockOf(shape.bs, shape.fl, k);
      freeSize := ItemSize(p, shape, i);
      SizeAtIs(shape.bs, start, start + poolSize, i);
    }

    /** Its next_free word. */
    method NextFree(p: nat, ghost k: nat) returns (next: nat)
      requires Valid() && k < |shape.fl| && p == shape.fl[k]
      ensures next == Node(freeHeader, shape.fl, k + 2)
    {
      assert Opened(true);
      assert LinkedAt(ram[..], freeHeader, shape.fl, k + 1);
      next := ram[p + 4];
    }

    /** Walks the free list for the first block with room for `want`. */
    method FindFree(want: nat) returns (p: nat, freeSize: nat, ghost k: nat)
      requires Valid() && want > 0
      ensures k == FirstFit(shape.bs, shape.fl, want) <= |shape.fl|
      ensures freeSize >= want <==> k < |shape.fl|
      ensures k < |shape.fl| ==> p == shape.fl[k] && freeSize == SizeAt(shape.bs, p)
    {
      assert Opened(true);
      k := 0;
      freeSize := 0;
      assert LinkedAt(ram[..], freeHeader, shape.fl, 0);
      p := ram[freeHeader + 4];
      while p != freeHeader && freeSize < want
        invariant k <= |shape.fl| && p == Node(freeHeader, shape.fl, k + 1)
        invariant forall q :: 0 <= q < k ==> SizeAt(shape.bs, shape.fl[q]) < want
        invariant freeSize >= want ==> k < |shape.fl| && freeSize == SizeAt(shape.bs, p)
        decreases |shape.fl| - k, freeSize < want
      {
        freeSize := FreeItem(p, k);
        if freeSize < want {
          p := NextFree(p, k);
          k := k + 1;
        }
      }
      FirstFitIs(shape.bs, shape.fl, want, k);
    }

    /** The list statements of an allocation that splits free block `p` at `q`. */
    method Carve(p: nat, q: nat, ghost s: Shape, ghost i: nat, ghost k: nat)
      requires HeapOk(ram[..], s) && s.id == id && s.fh == freeHeader
      requires i + 1 < |s.bs| && k < |s.fl| && s.fl[k] == p == s.bs[i].addr && !s.bs[i].used
      requires p + HEADER + MIN_ALLOC <= q && q + HEADER + MIN_ALLOC <= End(s.bs[i], HEADER)
      modifies ram
      ensures HeapOk(ram[..], Carved(s, i, k, q))
      ensures RoomsKept(old(ram[..]), ram[..], Live(s.bs)) && OthersKept(old(ram[..]), ram[..], s)
    {
      ghost var m := ram[..];
      CarvePath(m, SplitMem(m, id, p, q), s, i, k, q);
      SplitBlock(id, p, q);
      UnlinkFree(p);
      ClearLinks(p);
      ghost var m3 := ram[..];
      CarvedShape(s, i, k, q);
      CarveDonePath(m, m3, s, i, k, q);
      PushFree(freeHeader, q);
      Mark(p, true);
    }

    /** The part of rt_memheap_alloc for a block that is large enough to be split. */
    method TakeSplit(p: nat, size: nat, ghost i: nat, ghost k: nat)
      requires Valid() && size >= MIN_ALLOC
      requires i + 1 < |shape.bs| && k < |shape.fl| && shape.fl[k] == p == shape.bs[i].addr && !shape.bs[i].used
      requires shape.bs[i].size >= size + HEADER + MIN_ALLOC
      modifies ram, this`available, this`maxUsed, this`shape
      ensures Valid()
      ensures maxUsed == Max(old(maxUsed), poolSize - available)
      ensures Blocks() == old(Blocks()) + {Block(p, size, true)}
      ensures shape.fl == [p + HEADER + size] + Without(old(shape).fl, k)
      ensures available == old(available) - size - HEADER
      ensures RoomsKept(old(ram[..]), ram[..], old(Blocks())) && OthersKept(old(ram[..]), ram[..], shape)
    {
      assert Opened(true);
      ghost var s := shape;
      var q := p + size + HEADER;
      Carve(p, q, s, i, k);
      CarvedShape(s, i, k, q);
      assert Front(s.bs[i], q) == Block(p, size, true);
      shape := Carved(s, i, k, q);
      available := available - size - HEADER;
      if poolSize - available > maxUsed {
        maxUsed := poolSize - available;
      }
    }

    /** The part of rt_memheap_alloc for a block that is taken whole. */
    method TakeWhole(p: nat, freeSize: nat, ghost i: nat, ghost k: nat)
      requires Valid()
      requires i < |shape.bs| && k < |shape.fl| && shape.fl[k] == p == shape.bs[i].addr && !shape.bs[i].used
      requires freeSize == shape.bs[i].size
      modifies ram, this`available, this`maxUsed, this`shape
      ensures Valid()
      ensures maxUsed == Max(old(maxUsed), poolSize - available)
      ensures Blocks() == old(Blocks()) + {Block(p, freeSize, true)}
      ensures shape.fl == Without(old(shape).fl, k)
      ensures available == old(available) - freeSize
      ensures RoomsKept(old(ram[..]), ram[..], old(Blocks())) && OthersKept(old(ram[..]), ram[..], shape)
    {
      assert Opened(true);
      ghost var s := shape;
      available := available - freeSize;
      if poolSize - available > maxUsed {
        maxUsed := poolSize - available;
      }
      TakeOut(p, s, i, k);
      shape := Marked(s.(fl := Without(s.fl, k)), i, true);
    }

    /** The list statements of an allocation that takes free block `p` whole. */
    method TakeOut(p: nat, ghost s: Shape, ghost i: nat, ghost k: nat)
      requires HeapOk(ram[..], s)
      requires i < |s.bs| && k < |s.fl| && s.fl[k] == p == s.bs[i].addr && !s.bs[i].used
      modifies ram
      ensures HeapOk(ram[..], Marked(s.(fl := Without(s.fl, k)), i, true))
      ensures Live(Marked(s, i, true).bs) == Live(s.bs) + {s.bs[i].(used := true)}
      ensures FreeSum(Marked(s, i, true).bs) == FreeSum(s.bs) - s.bs[i].size
      ensures RoomsKept(old(ram[..]), ram[..], Live(s.bs)) && OthersKept(old(ram[..]), ram[..], s)
    {
      ghost var m := ram[..];
      TakeOutPath(m, s, i, k);
      UnlinkFree(p);
      ClearLinks(p);
      AllocWholePath(m, ram[..], s, i, k);
      Mark(p, true);
    }

    /** rt_memheap_alloc.  First fit over the free list; a block that is large enough for
        another header and MIN_ALLOC words behind the request is split. */
    method Alloc(bytes: Size) returns (r: nat)
      requires Valid()
      modifies ram, this`available, this`maxUsed, this`shape
      ensures Valid()
      ensures maxUsed == Max(old(maxUsed), poolSize - available)
      ensures r == NULL <==>
        (Want(bytes) >= old(available) || FirstFit(old(shape).bs, old(shape).fl, Want(bytes)) == |old(shape).fl|)
      ensures r == NULL ==> shape == old(shape) && available == old(available) && ram[..] == old(ram[..])
      ensures r != NULL ==> Granted(old(shape), r, Want(bytes))
      ensures r != NULL ==>
        Want(bytes) <= GrantedBlock(old(shape), r, Want(bytes)).size < Want(bytes) + HEADER + MIN_ALLOC
      ensures r != NULL ==> Blocks() == old(Blocks()) + {GrantedBlock(old(shape), r, Want(bytes))}
      ensures r != NULL ==> GrantedBlock(old(shape), r, Want(bytes)) !in old(Blocks())
      ensures r != NULL ==> available == old(available) - Taken(old(shape), r, Want(bytes))
      ensures r != NULL ==> DroppedFrom(old(shape).fl, shape.fl, r - HEADER,
        if SizeAt(old(shape).bs, r - HEADER) >= Want(bytes) + HEADER + MIN_ALLOC then [r + Want(bytes)] else [])
      ensures RoomsKept(old(ram[..]), ram[..], old(Blocks())) && OthersKept(old(ram[..]), ram[..], shape)
    {
      assert Opened(true);
      ghost var s := shape;
      var size := Want(bytes);
      if size < available {
        ghost var k: nat;
        var p, freeSize;
        p, freeSize, k := FindFree(size);
        if freeSize >= size {
          ghost var i := BlockOf(s.bs, s.fl, k);
          SizeAtIs(s.bs, s.lo, s.hi, i);
          FreeIsNotLive(s, i);
          assert i + 1 < |s.bs|;
          BelowSpace(s, i);
          if freeSize >= Wrapped(size + HEADER + MIN_ALLOC) {
            TakeSplit(p, size, i, k);
          } else {
            TakeWhole(p, freeSize, i, k);
          }
          r := p + HEADER;
          return;
        }
      }
      r := NULL;
    }

    /** RT_MEMHEAP_IS_USED, read from the magic word. */
    method IsUsed(p: nat, ghost s: Shape, ghost i: nat) returns (u: bool)
      requires Woven(ram[..], s) && i < |s.bs| && s.bs[i].addr == p
      ensures u == s.bs[i].used
    {
      assert InRing(ram[..], s.bs, s.id, i);
      u := ram[p] % 2 == USED;
    }

    /** The prev word of block `p`. */
    method PrevItem(p: nat, ghost s: Shape, ghost i: nat) returns (prev: nat)
      requires Woven(ram[..], s) && i < |s.bs| && s.bs[i].addr == p
      ensures prev == PrevAddr(s.bs, i)
    {
      assert InRing(ram[..], s.bs, s.id, i);
      prev := ram[p + 3];
    }

    /** Gives the freed block `p` to a free block before it (rt_memheap_free). */
    method MergeLeft(p: nat, ghost s: Shape, ghost h: nat)
      returns (header: nat, listed: bool, ghost s': Shape, ghost h': nat)
      requires Woven(ram[..], s) && h + 1 < |s.bs| && s.bs[h].addr == p
      requires Pending(s, h, multiset{p})
      modifies ram, this`available
      ensures Woven(ram[..], s') && h' < |s'.bs| && s'.bs[h'].addr == header
      ensures Pending(s', h', if listed then multiset{} else multiset{header})
      ensures h' == 0 || s'.bs[h' - 1].used
      ensures listed == (h > 0 && !s.bs[h - 1].used) && (!listed ==> header == p)
      ensures h' + 1 < |s'.bs| && s'.bs[h' + 1] == s.bs[h + 1]
      ensures Live(s'.bs) == Live(s.bs) && s' == s.(bs := s'.bs)
      ensures available - FreeSum(s'.bs) == old(available) - FreeSum(s.bs) && available >= old(available)
      ensures RoomsKept(old(ram[..]), ram[..], Live(s.bs)) && OthersKept(old(ram[..]), ram[..], s)
    {
      ghost var o := if h > 0 then h - 1 else |s.bs| - 1;
      var prev := PrevItem(p, s, h);
      var used := IsUsed(prev, s, o);
      if !used {
        available := available + HEADER;
        MergeLeftShape(s, h);
        MergeLeftPath(ram[..], s, h);
        JoinWithPrev(p);
        header, listed, s', h' := prev, true, Joined(s, h - 1), h - 1;
        JoinedAt(s.bs, h - 1, JoinedBlock(s.bs[h - 1], s.bs[h]));
      } else {
        header, listed, s', h' := p, false, s, h;
      }
    }

    /** Takes a free block behind block `p`, of size `size`, into it. */
    method MergeRight(p: nat, ghost s: Shape, ghost h: nat, ghost missing: multiset<nat>)
      returns (merged: bool, size: nat, ghost s': Shape)
      requires Woven(ram[..], s) && h + 1 < |s.bs| && s.bs[h].addr == p
      requires Pending(s, h, missing) && missing <= multiset{p}
      modifies ram
      ensures Woven(ram[..], s') && h + 1 < |s'.bs| && s'.bs[h].addr == p
      ensures Pending(s', h, missing) && s'.bs[h + 1].used
      ensures h > 0 ==> s'.bs[h - 1] == s.bs[h - 1]
      ensures Live(s'.bs) == Live(s.bs) && s' == s.(bs := s'.bs, fl := s'.fl)
      ensures FreeSum(s'.bs) == FreeSum(s.bs) + if merged then HEADER else 0
      ensures merged ==> s'.bs[h].size == s.bs[h].size + HEADER + size && FreeSum(s.bs) >= size
      ensures !merged ==> s'.bs[h].size == s.bs[h].size
      ensures BehindGone(s, h, s'.fl)
      ensures RoomsKept(old(ram[..]), ram[..], Live(s.bs)) && OthersKept(old(ram[..]), ram[..], s)
    {
      assert InRing(ram[..], s.bs, s.id, h);
      var next := ram[p + 2];
      var used := IsUsed(next, s, h + 1);
      merged, size, s' := !used, 0, s;
      if merged {
        size, s' := TakeNext(next, s, h, missing);
      }
    }

    /** The free block behind is taken in. */
    method TakeNext(next: nat, ghost s: Shape, ghost h: nat, ghost missing: multiset<nat>)
      returns (size: nat, ghost s': Shape)
      requires Woven(ram[..], s) && h + 1 < |s.bs| && s.bs[h + 1].addr == next && !s.bs[h + 1].used
      requires Pending(s, h, missing) && missing <= multiset{s.bs[h].addr}
      modifies ram
      ensures Woven(ram[..], s') && h + 1 < |s'.bs| && s'.bs[h].addr == s.bs[h].addr
      ensures Pending(s', h, missing) && s'.bs[h + 1].used
      ensures h > 0 ==> s'.bs[h - 1] == s.bs[h - 1]
      ensures Live(s'.bs) == Live(s.bs) && s' == s.(bs := s'.bs, fl := s'.fl)
      ensures FreeSum(s'.bs) == FreeSum(s.bs) + HEADER
      ensures s'.bs[h].size == s.bs[h].size + HEADER + size && FreeSum(s.bs) >= size
      ensures DroppedFrom(s.fl, s'.fl, next, [])
      ensures RoomsKept(old(ram[..]), ram[..], Live(s.bs)) && OthersKept(old(ram[..]), ram[..], s)
    {
      ghost var k := ListedNode(s, h, missing);
      MergeRightShape(s, h, missing, k);
      MergeRightPath(ram[..], s, h, k);
      FreeSumAtLeast(s.bs, h + 1);
      size := ItemSize(next, s, h + 1);
      // the source unlinks the ring first; the two pairs of links are independent
      UnlinkFree(next);
      JoinWithPrev(next);
      s' := Joined(s, h).(fl := Without(s.fl, k));
      JoinedAt(s.bs, h, JoinedBlock(s.bs[h], s.bs[h + 1]));
      assert s'.fl == [] + Without(s.fl, k);
    }

    /** The lock-held part of rt_memheap_free from the mark on: block `h` of `s` is marked
        free and counted; merge it, then list it. */
    method Coalesce(p: nat, ghost s: Shape, ghost h: nat) returns (ghost s': Shape)
      requires Woven(ram[..], s) && h + 1 < |s.bs| && s.bs[h].addr == p && s.fh == freeHeader
      requires Pending(s, h, multiset{p})
      modifies ram, this`available
      ensures HeapOk(ram[..], s')
      ensures Live(s'.bs) == Live(s.bs) && s' == s.(bs := s'.bs, fl := s'.fl) && Relisted(s, h, s'.fl)
      ensures available - FreeSum(s'.bs) == old(available) - FreeSum(s.bs) && available >= old(available)
      ensures RoomsKept(old(ram[..]), ram[..], Live(s.bs)) && OthersKept(old(ram[..]), ram[..], s)
    {
      var header, listed;
      ghost var h1;
      header, listed, s', h1 := MergeBoth(p, s, h);
      ghost var merged := s'.fl;
      s' := ListPivot(header, listed, s', h1, old(ram[..]));
      RelistedIs(s, h, merged, s'.fl);
    }

    /** The two merges of rt_memheap_free. */
    method MergeBoth(p: nat, ghost s: Shape, ghost h: nat)
      returns (header: nat, listed: bool, ghost s': Shape, ghost h': nat)
      requires Woven(ram[..], s) && h + 1 < |s.bs| && s.bs[h].addr == p && Pending(s, h, multiset{p})
      modifies ram, this`available
      ensures Woven(ram[..], s') && h' + 1 < |s'.bs| && s'.bs[h'].addr == header
      ensures Pending(s', h', if listed then multiset{} else multiset{header})
      ensures (h' == 0 || s'.bs[h' - 1].used) && s'.bs[h' + 1].used
      ensures listed == (h > 0 && !s.bs[h - 1].used) && (!listed ==> header == p)
      ensures BehindGone(s, h, s'.fl)
      ensures Live(s'.bs) == Live(s.bs) && s' == s.(bs := s'.bs, fl := s'.fl)
      ensures available - FreeSum(s'.bs) == old(available) - FreeSum(s.bs) && available >= old(available)
      ensures RoomsKept(old(ram[..]), ram[..], Live(s.bs)) && OthersKept(old(ram[..]), ram[..], s)
    {
      header, listed, s', h' := MergeLeft(p, s, h);
      ghost var m := ram[..];
      var merged, size;
      merged, size, s' := MergeRight(header, s', h', if listed then multiset{} else multiset{header});
      if merged {
        available := available + HEADER;
      }
      QuietThen(old(ram[..]), m, ram[..], Live(s.bs), s);
    }

    /** Inserts the merged block into the free list unless it is there already. */
    method ListPivot(header: nat, listed: bool, ghost s: Shape, ghost h: nat, ghost was: seq<int>)
      returns (ghost s': Shape)
      requires Woven(ram[..], s) && h + 1 < |s.bs| && s.bs[h].addr == header && s.fh == freeHeader
      requires Pending(s, h, if listed then multiset{} else multiset{header})
      requires (h == 0 || s.bs[h - 1].used) && s.bs[h + 1].used
      requires Quiet(was, ram[..], s)
      modifies ram
      ensures HeapOk(ram[..], s')
      ensures s' == s.(fl := s'.fl) && AtFront(s.fl, s'.fl, listed, header)
      ensures Quiet(was, ram[..], s)
    {
      s' := s;
      if !listed {
        MissingIsNoNode(s, h);
        PushStep(ram[..], s, h);
        PendingPush(s, h);
        PushFree(freeHeader, header);
        QuietThen(was, old(ram[..]), ram[..], Live(s.bs), s);
        s' := s.(fl := [header] + s.fl);
      }
      PendingDone(s', h);
    }

    /** Marks block `i` as available and merges it. */
    method Release(p: nat, ghost i: nat)
      requires Valid()
      requires i + 1 < |shape.bs| && shape.bs[i].addr == p && shape.bs[i].used
      modifies ram, this`available, this`shape
      ensures Valid() && available >= old(available)
      ensures Blocks() == old(Blocks()) - {old(shape).bs[i]} && Relisted(old(shape), i, shape.fl)
      ensures RoomsKept(old(ram[..]), ram[..], Blocks()) && OthersKept(old(ram[..]), ram[..], shape)
    {
      assert Opened(true);
      ghost var s, m := shape, ram[..];
      FreedPending(s, i);
      MarkStep(m, s, i, false);
      var size := ItemSize(p, s, i);
      Mark(p, false);
      ghost var m1, s1 := ram[..], Marked(s, i, false);
      available := available + size;
      shape := Coalesce(p, s1, i);
      QuietThen(m, m1, ram[..], Live(s1.bs), s1);
    }

    /** rt_memheap_free.  `b` is the block that `ptr` was handed out for. */
    method Free(ptr: nat, ghost b: Block)
      requires Valid()
      requires ptr != NULL ==> b in Blocks() && b.size > 0 && ptr == b.addr + HEADER
      modifies ram, this`available, this`shape
      ensures Valid() && available >= old(available)
      ensures ptr == NULL ==> shape == old(shape) && available == old(available) && ram[..] == old(ram[..])
      ensures ptr != NULL ==> Blocks() == old(Blocks()) - {b}
      ensures ptr != NULL ==>
        exists i: nat :: i + 1 < |old(shape).bs| && old(shape).bs[i] == b && Relisted(old(shape), i, shape.fl)
      ensures RoomsKept(old(ram[..]), ram[..], Blocks()) && OthersKept(old(ram[..]), ram[..], shape)
    {
      assert Opened(true);
      if ptr == NULL {
        return;
      }
      ghost var i := IndexOf(shape, b);
      Release(ptr - HEADER, i);
    }

    /** A used block takes over the free block behind it (first half of growing in place). */
    method Absorb(p: nat, ghost s: Shape, ghost i: nat) returns (ghost s': Shape)
      requires HeapOk(ram[..], s) && i + 1 < |s.bs| && s.bs[i].addr == p && s.bs[i].used && !s.bs[i + 1].used
      modifies ram
      ensures HeapOk(ram[..], s') && s' == s.(bs := s'.bs, fl := s'.fl)
      ensures i + 1 < |s'.bs| && s'.bs[i] == JoinedBlock(s.bs[i], s.bs[i + 1]) && s'.bs[i + 1].used
      ensures FreeSum(s'.bs) == FreeSum(s.bs) - s.bs[i + 1].size
      ensures Live(s'.bs) == Live(s.bs) - {s.bs[i]} + {s'.bs[i]}
      ensures RoomsKept(old(ram[..]), ram[..], Live(s.bs)) && OthersKept(old(ram[..]), ram[..], s)
    {
      var next := NextItem(p, s, i);
      ghost var k := NodeOf(s, i + 1);
      s' := AbsorbOk(ram[..], s, i, k);
      UnlinkFree(next);
      JoinWithPrev(next);
    }

    /** The next word of block `p`. */
    method NextItem(p: nat, ghost s: Shape, ghost i: nat) returns (next: nat)
      requires Woven(ram[..], s) && i + 1 < |s.bs| && s.bs[i].addr == p
      ensures next == s.bs[i + 1].addr
    {
      assert InRing(ram[..], s.bs, s.id, i);
      next := ram[p + 2];
    }

    /** Cuts used block `p` at `q`: what is behind becomes the pivot. */
    method Cut(p: nat, q: nat, ghost s: Shape, ghost i: nat) returns (ghost s': Shape)
      requires HeapOk(ram[..], s) && s.id == id
      requires i + 1 < |s.bs| && s.bs[i].addr == p && s.bs[i].used
      requires p + HEADER + MIN_ALLOC <= q && q + HEADER + MIN_ALLOC <= End(s.bs[i], HEADER)
      modifies ram
      ensures Woven(ram[..], s') && s' == s.(bs := s'.bs)
      ensures i + 2 < |s'.bs| && s'.bs[i].used && s'.bs[i + 1] == Rest(s.bs[i], q) && s'.bs[i + 2] == s.bs[i + 1]
      ensures Pending(s', i + 1, multiset{q})
      ensures Live(s'.bs) == Live(s.bs) - {s.bs[i]} + {Front(s.bs[i], q)}
      ensures FreeSum(s'.bs) == FreeSum(s.bs) + Rest(s.bs[i], q).size
      ensures RoomsKept(old(ram[..]), ram[..], Live(s'.bs)) && OthersKept(old(ram[..]), ram[..], s)
    {
      SplitStep(ram[..], s, i, q);
      HalvedSums(s, i, q);
      HalvedPending(s, i, q);
      HalvedAt(s, i, q);
      SplitBlock(id, p, q);
      s' := Halved(s, i, q);
    }

    /** The same, and the pivot goes to the free list; no free block is behind it. */
    method CutAndList(p: nat, q: nat, ghost s: Shape, ghost i: nat) returns (ghost s': Shape)
      requires HeapOk(ram[..], s) && s.id == id && s.fh == freeHeader
      requires i + 1 < |s.bs| && s.bs[i].addr == p && s.bs[i].used && s.bs[i + 1].used
      requires p + HEADER + MIN_ALLOC <= q && q + HEADER + MIN_ALLOC <= End(s.bs[i], HEADER)
      modifies ram
      ensures HeapOk(ram[..], s') && s' == s.(bs := s'.bs, fl := s'.fl)
      ensures Live(s'.bs) == Live(s.bs) - {s.bs[i]} + {Front(s.bs[i], q)}
      ensures FreeSum(s'.bs) == FreeSum(s.bs) + Rest(s.bs[i], q).size
      ensures RoomsKept(old(ram[..]), ram[..], Live(s'.bs)) && OthersKept(old(ram[..]), ram[..], s)
    {
      s' := Cut(p, q, s, i);
      s' := ListPivot(q, false, s', i + 1, old(ram[..]));
    }

    /** The list statements of growing in place: the block takes over the free block behind
        it and gives back what is left. */
    method GrowLists(p: nat, newSize: nat, ghost s: Shape, ghost i: nat) returns (ghost s': Shape)
      requires HeapOk(ram[..], s) && s.id == id && s.fh == freeHeader
      requires i + 1 < |s.bs| && s.bs[i].addr == p && s.bs[i].used && !s.bs[i + 1].used
      requires s.bs[i].size < newSize && s.bs[i + 1].size + s.bs[i].size > newSize + MIN_ALLOC
      modifies ram
      ensures HeapOk(ram[..], s') && s' == s.(bs := s'.bs, fl := s'.fl)
      ensures Live(s'.bs) == Live(s.bs) - {s.bs[i]} + {Block(p, newSize, true)}
      ensures FreeSum(s'.bs) == FreeSum(s.bs) - (newSize - s.bs[i].size)
      ensures RoomsKept(old(ram[..]), ram[..], Live(s.bs)) && OthersKept(old(ram[..]), ram[..], s)
    {
      ghost var m := ram[..];
      ghost var s1 := Absorb(p, s, i);
      ghost var m1 := ram[..];
      var q := p + HEADER + newSize;
      s' := CutAndList(p, q, s1, i);
      assert Front(s1.bs[i], q) == Block(p, newSize, true);
      GrownQuiet(m, m1, ram[..], s, s1, s', i, q);
    }

    /** rt_memheap_realloc, growing in place. */
    method Grow(p: nat, newSize: nat, oldSize: nat, ghost i: nat)
      requires Valid()
      requires i + 1 < |shape.bs| && shape.bs[i].addr == p && shape.bs[i].used && !shape.bs[i + 1].used
      requires oldSize == shape.bs[i].size < newSize && shape.bs[i + 1].size + oldSize > newSize + MIN_ALLOC
      modifies ram, this`available, this`maxUsed, this`shape
      ensures Valid()
      ensures maxUsed == Max(old(maxUsed), poolSize - available)
      ensures Blocks() == old(Blocks()) - {old(shape).bs[i]} + {Block(p, newSize, true)}
      ensures RoomsKept(old(ram[..]), ram[..], old(Blocks())) && OthersKept(old(ram[..]), ram[..], shape)
    {
      assert Opened(true);
      available := available - (newSize - oldSize);
      if poolSize - available > maxUsed {
        maxUsed := poolSize - available;
      }
      shape := GrowLists(p, newSize, shape, i);
    }

    /** rt_memheap_realloc, shrinking: the block is split, and the part split off is merged
        with a free block behind it. */
    method Shrink(p: nat, newSize: nat, ghost i: nat)
      requires Valid()
      requires i + 1 < |shape.bs| && shape.bs[i].addr == p && shape.bs[i].used
      requires newSize >= MIN_ALLOC && newSize + HEADER + MIN_ALLOC < shape.bs[i].size
      modifies ram, this`available, this`shape
      ensures Valid() && available >= old(available)
      ensures Blocks() == old(Blocks()) - {old(shape).bs[i]} + {Block(p, newSize, true)}
      ensures RoomsKept(old(ram[..]), ram[..], Blocks()) && OthersKept(old(ram[..]), ram[..], shape)
    {
      assert Opened(true);
      ghost var s, m := shape, ram[..];
      var q := p + newSize + HEADER;
      ghost var s1 := Cut(p, q, s, i);
      assert Front(s.bs[i], q) == Block(p, newSize, true);
      ghost var m1 := ram[..];
      shape := SettleRest(q, s1, i + 1);
      QuietThen(m, m1, ram[..], Live(s1.bs), s);
    }

    /** The part split off is merged with a free block behind it, listed and counted. */
    method SettleRest(q: nat, ghost s: Shape, ghost h: nat) returns (ghost s': Shape)
      requires Woven(ram[..], s) && h + 1 < |s.bs| && s.bs[h].addr == q && s.fh == freeHeader
      requires Pending(s, h, multiset{q}) && h > 0 && s.bs[h - 1].used
      modifies ram, this`available
      ensures HeapOk(ram[..], s') && Live(s'.bs) == Live(s.bs) && s' == s.(bs := s'.bs, fl := s'.fl)
      ensures available - FreeSum(s'.bs) == old(available) + s.bs[h].size - FreeSum(s.bs) && available >= old(available)
      ensures RoomsKept(old(ram[..]), ram[..], Live(s.bs)) && OthersKept(old(ram[..]), ram[..], s)
    {
      var merged, size;
      merged, size, s' := MergeRight(q, s, h, multiset{q});
      if merged {
        available := available - size;
      }
      s' := ListPivot(q, false, s', h, old(ram[..]));
      var newRoom := ItemSize(q, s', h);
      available := available + newRoom;
    }

    /** rt_memcpy on word-aligned buffers: four words at a time, then one at a time. */
    method CopyWords(dst: nat, src: nat, count: nat)
      requires src + count <= ram.Length && dst + count <= ram.Length
      requires src + count <= dst || dst + count <= src
      modifies ram
      ensures forall a :: dst <= a < dst + count ==> ram[a] == old(ram[a - dst + src])
      ensures forall a :: 0 <= a < ram.Length && !(dst <= a < dst + count) ==> ram[a] == old(ram[a])
    {
      var done := 0;
      while count - done >= 4
        invariant done <= count
        invariant forall a :: dst <= a < dst + done ==> ram[a] == old(ram[a - dst + src])
        invariant forall a :: 0 <= a < ram.Length && !(dst <= a < dst + done) ==> ram[a] == old(ram[a])
      {
        ram[dst + done] := ram[src + done];
        ram[dst + done + 1] := ram[src + done + 1];
        ram[dst + done + 2] := ram[src + done + 2];
        ram[dst + done + 3] := ram[src + done + 3];
        done := done + 4;
      }
      while done < count
        invariant done <= count
        invariant forall a :: dst <= a < dst + done ==> ram[a] == old(ram[a - dst + src])
        invariant forall a :: 0 <= a < ram.Length && !(dst <= a < dst + done) ==> ram[a] == old(ram[a])
      {
        ram[dst + done] := ram[src + done];
        done := done + 1;
      }
    }

    /** A client writes the `o`-th word of block `b`, which it was handed. */
    method Write(b: Block, o: nat, v: int)
      requires Valid() && b in Blocks() && o < b.size
      modifies ram
      ensures Valid()
      ensures RoomsKept(old(ram[..]), ram[..], Blocks() - {b}) && OthersKept(old(ram[..]), ram[..], shape)
      ensures ram.Length > b.addr + HEADER + o && ram[b.addr + HEADER + o] == v
    {
      assert Opened(true);
      ghost var m := ram[..];
      ghost var i := IndexOf(shape, b);
      Ordered(shape.bs, HEADER, start, start + poolSize, i, i + 1);
      OrderedAll(shape.bs, HEADER, start, start + poolSize);
      ram[b.addr + HEADER + o] := v;
      RoomWriteKeeps(m, ram[..], shape, i);
    }

    /** The part of rt_memheap_realloc that moves the data to a new block. */
    method Move(ptr: nat, want: nat, ghost b: Block) returns (r: nat, ghost nb: Block)
      requires Valid() && MIN_ALLOC <= want < SPACE
      requires b in Blocks() && 0 < b.size < want && ptr == b.addr + HEADER
      modifies ram, this`available, this`maxUsed, this`shape
      ensures Valid()
      ensures r == NULL ==> maxUsed == Max(old(maxUsed), poolSize - old(available))
      ensures r != NULL ==>
        r >= HEADER && maxUsed == Max(old(maxUsed), poolSize - old(available) + Taken(old(shape), r, want))
      ensures r == NULL <==> NoFit(old(shape), old(available), want)
      ensures r == NULL ==> shape == old(shape) && available == old(available) && ram[..] == old(ram[..])
      ensures r != NULL ==> Granted(old(shape), r, want) && nb == GrantedBlock(old(shape), r, want)
      ensures r != NULL ==> nb.addr + HEADER == r && want <= nb.size < want + HEADER + MIN_ALLOC
      ensures r != NULL ==> r != ptr && nb !in old(Blocks()) && Blocks() == old(Blocks()) - {b} + {nb}
      ensures r != NULL ==> DataKept(old(ram[..]), ram[..], ptr, r, b.size)
      ensures RoomsKept(old(ram[..]), ram[..], old(Blocks()) - {b}) && OthersKept(old(ram[..]), ram[..], shape)
    {
      ghost var m, live := ram[..], Blocks();
      ghost var before := shape;
      nb := b;
      WantAligned(want);
      r := Alloc(4 * want);
      if r != NULL {
        nb := GrantedBlock(before, r, want);
        ghost var m1 := ram[..];
        MoveInto(ptr, r, b, nb);
        Moved(m, m1, ram[..], live, b, nb, shape);
      }
    }

    /** The data goes to the new block and the old one is freed. */
    method MoveInto(ptr: nat, r: nat, ghost b: Block, ghost nb: Block)
      requires Valid()
      requires b in Blocks() && nb in Blocks() && b != nb && 0 < b.size <= nb.size
      requires ptr == b.addr + HEADER && r == nb.addr + HEADER
      modifies ram, this`available, this`shape
      ensures Valid() && available >= old(available)
      ensures Blocks() == old(Blocks()) - {b} && r != ptr
      ensures RoomsKept(old(ram[..]), ram[..], Blocks() - {nb}) && OthersKept(old(ram[..]), ram[..], shape)
      ensures DataKept(old(ram[..]), ram[..], ptr, r, b.size)
    {
      ghost var m := ram[..];
      CopyToNew(ptr, r, b, nb);
      ghost var m1 := ram[..];
      Free(ptr, b);
      QuietThen(m, m1, ram[..], Blocks() - {nb}, shape);
      assert SameRoom(m1, ram[..], nb);
      DataAfter(m, m1, ram[..], b, nb);
    }

    /** rt_memcpy of the old room into the new one. */
    method CopyToNew(ptr: nat, r: nat, ghost b: Block, ghost nb: Block)
      requires Valid()
      requires b in Blocks() && nb in Blocks() && b != nb && 0 < b.size <= nb.size
      requires ptr == b.addr + HEADER && r == nb.addr + HEADER
      modifies ram
      ensures Valid()
      ensures RoomsKept(old(ram[..]), ram[..], Blocks() - {nb}) && OthersKept(old(ram[..]), ram[..], shape)
      ensures DataKept(old(ram[..]), ram[..], ptr, r, b.size) && r != ptr
    {
      assert Opened(true);
      ghost var m := ram[..];
      ghost var i := IndexOf(shape, b);
      ghost var j := IndexOf(shape, nb);
      RoomsApart(shape, i, j);
      var oldSize := ItemSize(ptr - HEADER, shape, i);
      CopyWords(r, ptr, oldSize);
      RoomWriteKeeps(m, ram[..], shape, j);
    }

    /** The part of rt_memheap_realloc that tries to grow into a free block behind. */
    method TryGrow(ptr: nat, newSize: nat, oldSize: nat, ghost b: Block) returns (grown: bool)
      requires Valid()
      requires b in Blocks() && 0 < b.size == oldSize < newSize < SPACE && ptr == b.addr + HEADER
      requires !Overruns(shape, b, newSize)
      modifies ram, this`available, this`maxUsed, this`shape
      ensures Valid()
      ensures maxUsed == Max(old(maxUsed), poolSize - available)
      ensures grown <==> GrowsInPlace(old(shape), b, newSize)
      ensures !grown ==> shape == old(shape) && available == old(available) && ram[..] == old(ram[..])
      ensures grown ==> Blocks() == old(Blocks()) - {b} + {Block(b.addr, newSize, true)}
      ensures DataKept(old(ram[..]), ram[..], ptr, ptr, oldSize)
      ensures RoomsKept(old(ram[..]), ram[..], old(Blocks())) && OthersKept(old(ram[..]), ram[..], shape)
    {
      assert Opened(true);
      grown := false;
      ghost var i := IndexOf(shape, b);
      GrowsHere(shape, b, newSize, i);
      BlockInside(shape, i);
      assert InRing(ram[..], shape.bs, shape.id, i);
      var next := ram[ptr - HEADER + 2];
      var used := IsUsed(next, shape, i + 1);
      if !used {
        var nextSize := ItemSize(next, shape, i + 1);
        if nextSize + oldSize > Wrapped(newSize + MIN_ALLOC) {
          Grow(ptr - HEADER, newSize, oldSize, i);
          grown := true;
        }
      }
    }

    /** rt_memheap_realloc for a block that was handed out and a size that is not zero. */
    method Resize(ptr: nat, newSize: nat, ghost b: Block) returns (r: nat, ghost nb: Block)
      requires Valid() && MIN_ALLOC <= newSize < SPACE
      requires b in Blocks() && b.size > 0 && ptr == b.addr + HEADER && !Overruns(shape, b, newSize)
      modifies ram, this`available, this`maxUsed, this`shape
      ensures Valid()
      ensures maxUsed == Max(old(maxUsed), poolSize - Lowest(old(shape), old(available), available, r, ptr, newSize))
      ensures r == NULL <==>
        newSize > b.size && !GrowsInPlace(old(shape), b, newSize) && NoFit(old(shape), old(available), newSize)
      ensures r == NULL ==> shape == old(shape) && available == old(available) && ram[..] == old(ram[..])
      ensures r == ptr <==> newSize <= b.size || GrowsInPlace(old(shape), b, newSize)
      ensures r == ptr ==> nb == Block(b.addr, if CutsOff(b, newSize) then newSize else b.size, true)
      ensures r != NULL ==> nb.addr + HEADER == r && newSize <= nb.size <= newSize + HEADER + MIN_ALLOC
      ensures r != NULL ==> Blocks() == old(Blocks()) - {b} + {nb}
      ensures r != NULL && r != ptr ==> nb !in old(Blocks()) && Granted(old(shape), r, newSize)
      ensures r != NULL ==> DataKept(old(ram[..]), ram[..], ptr, r, if b.size < newSize then b.size else newSize)
      ensures RoomsKept(old(ram[..]), ram[..], old(Blocks()) - {b}) && OthersKept(old(ram[..]), ram[..], shape)
    {
      var oldSize := RoomOf(ptr, b);
      if newSize > oldSize {
        var grown := TryGrow(ptr, newSize, oldSize, b);
        if grown {
          return ptr, Block(b.addr, newSize, true);
        }
        r, nb := Move(ptr, newSize, b);
      } else if Wrapped(newSize + HEADER + MIN_ALLOC) >= oldSize {
        return ptr, b;
      } else {
        ShrinkTo(ptr, newSize, b);
        return ptr, Block(b.addr, newSize, true);
      }
    }

    /** The size of the block handed out as `ptr`. */
    method RoomOf(ptr: nat, ghost b: Block) returns (size: nat)
      requires Valid() && b in Blocks() && b.size > 0 && ptr == b.addr + HEADER
      ensures size == b.size && ptr + size <= ram.Length && size + 2 * HEADER < SPACE
    {
      assert Opened(true);
      ghost var i := IndexOf(shape, b);
      BlockInside(shape, i);
      BelowSpace(shape, i);
      size := ItemSize(ptr - HEADER, shape, i);
    }

    method ShrinkTo(ptr: nat, newSize: nat, ghost b: Block)
      requires Valid() && b in Blocks() && ptr == b.addr + HEADER
      requires newSize >= MIN_ALLOC && newSize + HEADER + MIN_ALLOC < b.size
      modifies ram, this`available, this`shape
      ensures Valid() && available >= old(available)
      ensures Blocks() == old(Blocks()) - {b} + {Block(b.addr, newSize, true)}
      ensures DataKept(old(ram[..]), ram[..], ptr, ptr, newSize)
      ensures RoomsKept(old(ram[..]), ram[..], old(Blocks()) - {b}) && OthersKept(old(ram[..]), ram[..], shape)
    {
      assert Opened(true);
      ghost var m := ram[..];
      ghost var i := IndexOf(shape, b);
      BlockInside(shape, i);
      Shrink(ptr - HEADER, newSize, i);
      assert SameRoom(m, ram[..], Block(b.addr, newSize, true));
    }

    /** rt_memheap_realloc.  `b` is the block that `ptr` was handed out for, `nb` the block
        that `r` is handed out for. */
    method Realloc(ptr: nat, bytes: Size, ghost b: Block) returns (r: nat, ghost nb: Block)
      requires Valid()
      requires ptr != NULL ==> b in Blocks() && b.size > 0 && ptr == b.addr + HEADER && !Overruns(shape, b, Want(bytes))
      modifies ram, this`available, this`maxUsed, this`shape
      ensures Valid()
      ensures maxUsed == Max(old(maxUsed),
        poolSize - Lowest(old(shape), old(available), available, r, ptr, Want(bytes)))
      ensures r == NULL <==> ReallocFails(old(shape), old(available), ptr, bytes, b)
      ensures r == NULL && bytes == 0 && ptr != NULL ==> Blocks() == old(Blocks()) - {b}
      ensures r == NULL && (bytes > 0 || ptr == NULL) ==>
        shape == old(shape) && available == old(available) && ram[..] == old(ram[..])
      ensures r != NULL ==> nb.addr + HEADER == r && Want(bytes) <= nb.size <= Want(bytes) + HEADER + MIN_ALLOC
      ensures r != NULL ==> Blocks() == old(Blocks()) - Given(ptr, b) + {nb}
      ensures r != NULL && ptr != NULL ==>
        (r == ptr <==> Want(bytes) <= b.size || GrowsInPlace(old(shape), b, Want(bytes)))
      ensures r != NULL && r == ptr ==>
        nb == Block(b.addr, if CutsOff(b, Want(bytes)) then Want(bytes) else b.size, true)
      ensures r != NULL && r != ptr ==> nb !in old(Blocks()) && Granted(old(shape), r, Want(bytes))
      ensures r != NULL && ptr != NULL ==>
        DataKept(old(ram[..]), ram[..], ptr, r, if b.size < Want(bytes) then b.size else Want(bytes))
      ensures RoomsKept(old(ram[..]), ram[..], old(Blocks()) - Given(ptr, b))
      ensures OthersKept(old(ram[..]), ram[..], shape)
    {
      if bytes == 0 {
        Free(ptr, b);
        return NULL, b;
      }
      var newSize := Want(bytes);
      if ptr == NULL {
        WantAligned(newSize);
        r := Alloc(4 * newSize);
        nb := if r == NULL then b else GrantedBlock(old(shape), r, newSize);
        return;
      }
      r, nb := Resize(ptr, newSize, b);
    }

    /** A block given for a request has room for it exactly if the request's size does not wrap. */
    lemma RoomEnough(bytes: Size, b: Block)
      requires Valid() && b in Blocks() && b.size >= Want(bytes)
      ensures 4 * b.size >= bytes <==> bytes <= 0xffff_fffc
    {
      assert Opened(true);
      var i := IndexOf(shape, b);
      BelowSpace(shape, i);
    }

    /** What rt_memheap_realloc does when its size test wraps and the block behind is free, however
        small it is: the block takes that one over, and the header of what is left of it is made
        inside the block's own header.  The first word of the block is lost. */
    method Overrun(ptr: nat, newSize: nat, ghost b: Block, ghost i: nat) returns (r: nat)
      requires Valid() && SPACE - MIN_ALLOC <= newSize < SPACE
      requires i + 1 < |shape.bs| && shape.bs[i] == b && b.used && !shape.bs[i + 1].used && ptr == b.addr + HEADER
      modifies ram, this`available, this`maxUsed
      ensures r == ptr < ram.Length
      ensures available == (old(available) - (newSize - b.size)) % SPACE
      ensures maxUsed == Max(old(maxUsed), (poolSize - available) % SPACE)
      ensures ram[ptr] ==
        if newSize == SPACE - 1 then id else if newSize == SPACE - 2 then End(shape.bs[i + 1], HEADER) else b.addr
    {
      assert Opened(true);
      r := ptr;
      BlockInside(shape, i);
      var oldSize := ItemSize(ptr - HEADER, shape, i);
      available := (available - (newSize - oldSize)) % SPACE;
      if (poolSize - available) % SPACE > maxUsed {
        maxUsed := (poolSize - available) % SPACE;
      }
      TakeOver(ptr - HEADER, Wrapped(ptr + newSize), i);
    }

    method TakeOver(p: nat, q: nat, ghost i: nat)
      requires HeapOk(ram[..], shape) && shape.id == id && shape.fh == freeHeader && i + 1 < |shape.bs|
      requires shape.bs[i].addr == p && shape.bs[i].used && !shape.bs[i + 1].used && p + 3 <= q <= p + 5
      modifies ram
      ensures p + HEADER < ram.Length
      ensures ram[p + HEADER] == if q == p + 5 then id else if q == p + 4 then End(shape.bs[i + 1], HEADER) else p
    {
      ghost var s := Absorb(p, shape, i);
      assert End(s.bs[i], HEADER) == s.bs[i + 1].addr == End(shape.bs[i + 1], HEADER) by {
        assert End(shape.bs[i], HEADER) == shape.bs[i + 1].addr;
      }
      MakeOver(p, q, s, i);
    }

    /** The header is made at `q`, inside the header of block `p`. */
    method MakeOver(p: nat, q: nat, ghost s: Shape, ghost i: nat)
      requires HeapOk(ram[..], s) && s.id == id && s.fh == freeHeader && i + 1 < |s.bs|
      requires s.bs[i].addr == p && s.bs[i].used && s.bs[i].size >= HEADER && p + 3 <= q <= p + 5
      modifies ram
      ensures p + HEADER < ram.Length
      ensures ram[p + HEADER] == if q == p + 5 then id else if q == p + 4 then s.bs[i + 1].addr else p
    {
      ghost var m := ram[..];
      OverSafe(m, s, i);
      OverWords(m, id, freeHeader, p, q, s.bs[i + 1].addr);
      SplitBlock(id, p, q);
      PushFree(freeHeader, q);
    }
  }

  lemma OverWords(m: seq<int>, id: int, fh: nat, p: nat, q: nat, next: nat)
    requires p + 3 <= q <= p + 5 && p + 2 * HEADER <= |m| && m[p + 2] == next
    requires p + 2 * HEADER <= next && next + HEADER <= |m| && fh + HEADER <= |m|
    requires (fh + HEADER <= p || p + 2 * HEADER <= fh) && (fh + HEADER <= next || next + HEADER <= fh)
    requires 0 <= m[fh + 4] && m[fh + 4] + HEADER <= |m| && m[fh + 4] + 5 != p + HEADER
    ensures SplitSafe(m, p, q) && PushSafe(SplitMem(m, id, p, q), fh, q)
    ensures PushMem(SplitMem(m, id, p, q), fh, q)[p + HEADER] ==
      if q == p + 5 then id else if q == p + 4 then next else p
  {
    var n := SplitMem(m, id, p, q);
    assert n[p + HEADER] == if q == p + 5 then id else if q == p + 4 then next else p;
    assert n[fh + 4] == m[fh + 4];
  }

  /** A header made inside the header of a used block: where it is written, and that it is not at
      a node of the free list. */
  lemma OverSafe(m: seq<int>, s: Shape, i: nat)
    requires HeapOk(m, s) && i + 1 < |s.bs| && s.bs[i].used && s.bs[i].size >= HEADER
    ensures s.bs[i].addr + 2 * HEADER <= |m| && m[s.bs[i].addr + 2] == s.bs[i + 1].addr
    ensures s.bs[i].addr + 2 * HEADER <= s.bs[i + 1].addr && s.bs[i + 1].addr + HEADER <= |m|
    ensures s.fh + HEADER <= s.bs[i].addr || s.bs[i].addr + 2 * HEADER <= s.fh
    ensures s.fh + HEADER <= s.bs[i + 1].addr || s.bs[i + 1].addr + HEADER <= s.fh
    ensures m[s.fh + 4] >= 0 && m[s.fh + 4] + HEADER <= |m| && m[s.fh + 4] + 5 != s.bs[i].addr + HEADER
  {
    BlockInside(s, i);
    BlockInside(s, i + 1);
    assert InRing(m, s.bs, s.id, i) && LinkedAt(m, s.fh, s.fl, 0);
    assert End(s.bs[i], HEADER) == s.bs[i + 1].addr;
    assert NodeClear(s.bs[i], Node(s.fh, s.fl, 1));
  }

  /** The size test of rt_memheap_realloc wraps, and the block behind `b` is free. */
  ghost predicate Overruns(s: Shape, b: Block, want: nat) {
    want + MIN_ALLOC >= SPACE && exists i :: 0 <= i < |s.bs| - 1 && s.bs[i] == b && !s.bs[i + 1].used
  }

  /** A block leaves room for the tailer. */
  lemma BelowSpace(s: Shape, i: nat)
    requires Tiled(s.bs, HEADER, s.lo, s.hi) && i + 1 < |s.bs| && 0 < s.lo && s.hi <= SPACE
    ensures s.bs[i].size + 2 * HEADER < SPACE
  {
    OrderedAll(s.bs, HEADER, s.lo, s.hi);
    var last := |s.bs| - 1;
    assert End(s.bs[i], HEADER) <= s.bs[last].addr;
  }

  /** The least room that was available during rt_memheap_realloc: when the data moved, both
      blocks were in use for a while. */
  ghost function Lowest(s: Shape, before: int, after: int, r: nat, ptr: nat, want: nat): int {
    if r >= HEADER && r != ptr then before - Taken(s, r, want) else if before < after then before else after
  }

  /** The node at address a has left the free list, with `front` put before the others. */
  ghost predicate DroppedFrom(was: seq<nat>, now: seq<nat>, a: nat, front: seq<nat>) {
    exists k: nat :: k < |was| && was[k] == a && now == front + Without(was, k)
  }

  /** The block is at the front of the list unless it was listed already. */
  ghost predicate AtFront(was: seq<nat>, now: seq<nat>, listed: bool, a: nat) {
    forall b {:trigger Opened(b)} :: Opened(b) ==> now == if listed then was else [a] + was
  }

  /** A free block behind block h has left the list. */
  ghost predicate BehindGone(s: Shape, h: nat, fl: seq<nat>) {
    && h + 1 < |s.bs|
    && forall b {:trigger Opened(b)} :: Opened(b) ==>
      if s.bs[h + 1].used then fl == s.fl else DroppedFrom(s.fl, fl, s.bs[h + 1].addr, [])
  }

  /** The free list after block i has been freed: a free block behind it has left the list, and the
      block is at the front unless it went to a free block before it, which keeps its place. */
  ghost predicate Relisted(s: Shape, i: nat, fl: seq<nat>) {
    && i + 1 < |s.bs|
    && var front := if i > 0 && !s.bs[i - 1].used then [] else [s.bs[i].addr];
       if s.bs[i + 1].used then fl == front + s.fl else DroppedFrom(s.fl, fl, s.bs[i + 1].addr, front)
  }

  lemma RelistedIs(s: Shape, h: nat, merged: seq<nat>, fl: seq<nat>)
    requires h + 1 < |s.bs|
    requires BehindGone(s, h, merged)
    requires AtFront(merged, fl, h > 0 && !s.bs[h - 1].used, s.bs[h].addr)
    ensures Relisted(s, h, fl)
  {
    assert Opened(true);
    if !s.bs[h + 1].used {
      var k: nat :| k < |s.fl| && s.fl[k] == s.bs[h + 1].addr && merged == [] + Without(s.fl, k);
      assert merged == Without(s.fl, k);
      assert h > 0 && !s.bs[h - 1].used ==> fl == [] + Without(s.fl, k);
    } else {
      assert h > 0 && !s.bs[h - 1].used ==> fl == [] + s.fl;
    }
  }

  /** The block a caller gives back with `ptr`. */
  ghost function Given(ptr: nat, b: Block): set<Block> {
    if ptr == NULL then {} else {b}
  }

  /** When rt_memheap_realloc gives nothing back. */
  ghost predicate ReallocFails(s: Shape, available: int, ptr: nat, bytes: Size, b: Block) {
    || bytes == 0
    || (ptr == NULL && NoFit(s, available, Want(bytes)))
    || (ptr != NULL && Want(bytes) > b.size && !GrowsInPlace(s, b, Want(bytes)) && NoFit(s, available, Want(bytes)))
  }

  /** Block `b` becomes as large as wanted when it stays: it grows, or enough is left over for another
      block. */
  ghost predicate CutsOff(b: Block, want: nat) {
    want > b.size || want + HEADER + MIN_ALLOC < b.size
  }

  /** A free block behind `b` is large enough to grow into. */
  ghost predicate GrowsInPlace(s: Shape, b: Block, want: nat) {
    exists i :: 0 <= i < |s.bs| - 1 && s.bs[i] == b && !s.bs[i + 1].used && s.bs[i + 1].size + b.size > want + MIN_ALLOC
  }

  /** The address returned is that of the first fit in the free list. */
  ghost predicate Granted(s: Shape, r: nat, want: nat) {
    && r >= HEADER
    && FirstFit(s.bs, s.fl, want) < |s.fl|
    && s.fl[FirstFit(s.bs, s.fl, want)] == r - HEADER
    && SizeAt(s.bs, r - HEADER) >= want
  }

  /** The block in use after the first fit was taken for `want` words. */
  ghost function GrantedBlock(s: Shape, r: nat, want: nat): Block
    requires r >= HEADER
  {
    var room := SizeAt(s.bs, r - HEADER);
    Block(r - HEADER, if room >= want + HEADER + MIN_ALLOC then want else room, true)
  }

  /** What the first fit costs: its room, or the request and a new header. */
  ghost function Taken(s: Shape, r: nat, want: nat): nat
    requires r >= HEADER
  {
    var room := SizeAt(s.bs, r - HEADER);
    if room >= want + HEADER + MIN_ALLOC then want + HEADER else room
  }

  lemma FreeIsNotLive(s: Shape, i: nat)
    requires Tiled(s.bs, HEADER, s.lo, s.hi) && i < |s.bs| && !s.bs[i].used
    ensures forall size :: Block(s.bs[i].addr, size, true) !in Live(s.bs)
  {
    DistinctBlocks(s.bs, HEADER, s.lo, s.hi);
  }

  lemma AbsorbOk(m: seq<int>, s: Shape, i: nat, k: nat) returns (s': Shape)
    requires HeapOk(m, s) && i + 1 < |s.bs| && s.bs[i].used && !s.bs[i + 1].used && k < |s.fl|
    requires s.fl[k] == s.bs[i + 1].addr
    ensures UnlinkSafe(m, s.bs[i + 1].addr)
    ensures JoinSafe(UnlinkMem(m, s.bs[i + 1].addr), s.bs[i + 1].addr)
    ensures HeapOk(JoinMem(UnlinkMem(m, s.bs[i + 1].addr), s.bs[i + 1].addr), s')
    ensures s' == s.(bs := s'.bs, fl := s'.fl)
    ensures i + 1 < |s'.bs| && s'.bs[i] == JoinedBlock(s.bs[i], s.bs[i + 1]) && s'.bs[i + 1].used
    ensures FreeSum(s'.bs) == FreeSum(s.bs) - s.bs[i + 1].size
    ensures Live(s'.bs) == Live(s.bs) - {s.bs[i]} + {s'.bs[i]}
    ensures RoomsKept(m, JoinMem(UnlinkMem(m, s.bs[i + 1].addr), s.bs[i + 1].addr), Live(s.bs))
    ensures OthersKept(m, JoinMem(UnlinkMem(m, s.bs[i + 1].addr), s.bs[i + 1].addr), s)
  {
    AbsorbShape(s, i, k);
    AbsorbPath(m, s, i, k);
    JoinedAt(s.bs, i, JoinedBlock(s.bs[i], s.bs[i + 1]));
    s' := Joined(s, i).(fl := Without(s.fl, k));
  }

  lemma JoinedIsNew(s: Shape, i: nat)
    requires Tiled(s.bs, HEADER, s.lo, s.hi) && i + 1 < |s.bs|
    ensures JoinedBlock(s.bs[i], s.bs[i + 1]) !in Live(s.bs)
  {
    DistinctBlocks(s.bs, HEADER, s.lo, s.hi);
  }

  /** The free block behind the pivot is in the free list. */
  lemma ListedNode(s: Shape, h: nat, missing: multiset<nat>) returns (k: nat)
    requires h + 1 < |s.bs| && Pending(s, h, missing) && missing <= multiset{s.bs[h].addr} && !s.bs[h + 1].used
    ensures k < |s.fl| && s.fl[k] == s.bs[h + 1].addr
  {
    FreeBagHas(s.bs, h + 1);
    Ordered(s.bs, HEADER, s.lo, s.hi, h, h + 1);
    assert s.bs[h + 1].addr in multiset(s.fl);
    k :| 0 <= k < |s.fl| && s.fl[k] == s.bs[h + 1].addr;
  }

  /** Where a block handed out stands among the blocks. */
  lemma IndexOf(s: Shape, b: Block) returns (i: nat)
    requires Shaped(s.bs) && b in Live(s.bs) && b.size > 0
    ensures i + 1 < |s.bs| && s.bs[i] == b && b.used
  {
    i :| 0 <= i < |s.bs| && s.bs[i] == b;
  }

  /** The node of a free block. */
  lemma NodeOf(s: Shape, i: nat) returns (k: nat)
    requires FreeExactly(s.bs, s.fl) && i < |s.bs| && !s.bs[i].used
    ensures k < |s.fl| && s.fl[k] == s.bs[i].addr
  {
    FreeBagHas(s.bs, i);
    assert s.bs[i].addr in multiset(s.fl);
    k :| 0 <= k < |s.fl| && s.fl[k] == s.bs[i].addr;
  }

  /** After growing, every block of before lies inside a block in use. */
  lemma GrownCovers(s: Shape, s1: Shape, s2: Shape, i: nat, q: nat)
    requires i + 1 < |s.bs| && i < |s1.bs| && s1.bs[i] == JoinedBlock(s.bs[i], s.bs[i + 1])
    requires s1.bs[i].addr + HEADER <= q && End(s.bs[i], HEADER) <= q
    requires Live(s1.bs) == Live(s.bs) - {s.bs[i]} + {s1.bs[i]}
    requires Live(s2.bs) == Live(s1.bs) - {s1.bs[i]} + {Front(s1.bs[i], q)}
    requires s1.bs[i] !in Live(s.bs) && s.bs[i] in Live(s.bs)
    ensures Live(s2.bs) == Live(s.bs) - {s.bs[i]} + {Front(s1.bs[i], q)}
    ensures forall b :: b in Live(s.bs) ==>
      exists c :: c in Live(s2.bs) && c.addr <= b.addr && End(b, HEADER) <= End(c, HEADER)
  {
    forall b | b in Live(s.bs)
      ensures exists c :: c in Live(s2.bs) && c.addr <= b.addr && End(b, HEADER) <= End(c, HEADER)
    {
      var c := if b == s.bs[i] then Front(s1.bs[i], q) else b;
      assert c in Live(s2.bs);
    }
  }

  lemma GrownQuiet(m: seq<int>, m1: seq<int>, n: seq<int>, s: Shape, s1: Shape, s2: Shape, i: nat, q: nat)
    requires Shaped(s.bs) && Tiled(s.bs, HEADER, s.lo, s.hi)
    requires i + 1 < |s.bs| && s.bs[i].used && i < |s1.bs| && s1.bs[i] == JoinedBlock(s.bs[i], s.bs[i + 1])
    requires s1.bs[i].addr + HEADER <= q && End(s.bs[i], HEADER) <= q
    requires Live(s1.bs) == Live(s.bs) - {s.bs[i]} + {s1.bs[i]}
    requires Live(s2.bs) == Live(s1.bs) - {s1.bs[i]} + {Front(s1.bs[i], q)}
    requires RoomsKept(m, m1, Live(s.bs)) && RoomsKept(m1, n, Live(s2.bs))
    requires OthersKept(m, m1, s) && OthersKept(m1, n, s)
    ensures Live(s2.bs) == Live(s.bs) - {s.bs[i]} + {Front(s1.bs[i], q)}
    ensures RoomsKept(m, n, Live(s.bs)) && OthersKept(m, n, s)
  {
    JoinedIsNew(s, i);
    GrownCovers(s, s1, s2, i, q);
    RoomsInside(m1, n, Live(s2.bs), Live(s.bs));
    QuietThen(m, m1, n, Live(s.bs), s);
  }

  /** Alloc has nothing to give for `want` words. */
  ghost predicate NoFit(s: Shape, available: int, want: nat) {
    want >= available || FirstFit(s.bs, s.fl, want) == |s.fl|
  }

  /** The `count` words at `src` are at `dst` afterwards. */
  ghost predicate DataKept(m: seq<int>, n: seq<int>, src: nat, dst: nat, count: nat) {
    && |m| == |n| && src + count <= |m| && dst + count <= |m|
    && forall a :: dst <= a < dst + count ==> n[a] == m[a - dst + src]
  }

  /** Allocation (m to m1), copy and release (m1 to n). */
  lemma Moved(m: seq<int>, m1: seq<int>, n: seq<int>, live: set<Block>, b: Block, nb: Block, s: Shape)
    requires b in live && RoomsKept(m, m1, live) && OthersKept(m, m1, s) && OthersKept(m1, n, s)
    requires RoomsKept(m1, n, live - {b})
    requires DataKept(m1, n, b.addr + HEADER, nb.addr + HEADER, b.size)
    ensures RoomsKept(m, n, live - {b}) && OthersKept(m, n, s)
    ensures DataKept(m, n, b.addr + HEADER, nb.addr + HEADER, b.size)
  {
    assert SameRoom(m, m1, b);
    QuietThen(m, m1, n, live - {b}, s);
    DataChain(m, m1, n, b, nb);
  }

  lemma DataChain(m: seq<int>, m1: seq<int>, n: seq<int>, b: Block, nb: Block)
    requires SameRoom(m, m1, b)
    requires DataKept(m1, n, b.addr + HEADER, nb.addr + HEADER, b.size)
    ensures DataKept(m, n, b.addr + HEADER, nb.addr + HEADER, b.size)
  {
  }

  lemma DataAfter(m: seq<int>, m1: seq<int>, n: seq<int>, b: Block, nb: Block)
    requires SameRoom(m1, n, nb) && b.size <= nb.size
    requires DataKept(m, m1, b.addr + HEADER, nb.addr + HEADER, b.size)
    ensures DataKept(m, n, b.addr + HEADER, nb.addr + HEADER, b.size)
  {
  }

  /** The rooms of two blocks have no word in common, and lie in memory. */
  lemma RoomsApart(s: Shape, i: nat, j: nat)
    requires Tiled(s.bs, HEADER, s.lo, s.hi) && i < |s.bs| && j < |s.bs| && i != j
    ensures End(s.bs[i], HEADER) <= s.bs[j].addr || End(s.bs[j], HEADER) <= s.bs[i].addr
    ensures End(s.bs[i], HEADER) <= s.hi && End(s.bs[j], HEADER) <= s.hi
  {
    OrderedAll(s.bs, HEADER, s.lo, s.hi);
  }

  lemma GrowsHere(s: Shape, b: Block, want: nat, i: nat)
    requires Tiled(s.bs, HEADER, s.lo, s.hi) && i + 1 < |s.bs| && s.bs[i] == b
    ensures GrowsInPlace(s, b, want) <==> !s.bs[i + 1].used && s.bs[i + 1].size + b.size > want + MIN_ALLOC
  {
    DistinctBlocks(s.bs, HEADER, s.lo, s.hi);
  }

  lemma BlockInside(s: Shape, i: nat)
    requires Tiled(s.bs, HEADER, s.lo, s.hi) && i < |s.bs|
    ensures s.lo <= s.bs[i].addr && End(s.bs[i], HEADER) <= s.hi
  {
    OrderedAll(s.bs, HEADER, s.lo, s.hi);
  }

  /** The shape of a heap that was just made. */
  ghost function Fresh(id: int, start: nat, poolSize: nat, fh: nat): Shape
    requires poolSize >= 2 * HEADER
  {
    Shape(id, start, start + poolSize, fh,
          [Block(start, poolSize - 2 * HEADER, false), Block(start + poolSize - HEADER, 0, true)], [start])
  }

  lemma FreshOk(m: seq<int>, s: Shape)
    requires s.hi >= s.lo + 2 * HEADER + MIN_ALLOC && 0 < s.lo && s.hi <= |m|
    requires 0 < s.fh && s.fh + HEADER <= |m| && (s.fh + HEADER <= s.lo || s.hi <= s.fh)
    requires s == Fresh(s.id, s.lo, s.hi - s.lo, s.fh)
    requires HeaderAt(m, s.bs[0], s.id, s.bs[1].addr, s.bs[1].addr)
    requires HeaderAt(m, s.bs[1], s.id, s.lo, s.lo)
    requires m[s.fh + 4] == s.lo == m[s.fh + 5] && m[s.lo + 4] == s.fh == m[s.lo + 5]
    ensures HeapOk(m, s) && FreeSum(s.bs) == s.bs[0].size
  {
    FreshShape(s);
    FreshLinks(m, s);
    NodesClear(s);
  }

  lemma FreshLinks(m: seq<int>, s: Shape)
    requires |s.bs| == 2 && s.fl == [s.lo] && s.bs[0].addr == s.lo
    requires HeaderAt(m, s.bs[0], s.id, s.bs[1].addr, s.bs[1].addr)
    requires HeaderAt(m, s.bs[1], s.id, s.lo, s.lo)
    requires NodesApart(|m|, s.fh, s.fl)
    requires m[s.fh + 4] == s.lo == m[s.fh + 5] && m[s.lo + 4] == s.fh == m[s.lo + 5]
    ensures Ring(m, s.bs, s.id) && FreeRing(m, s.fh, s.fl)
  {
    assert InRing(m, s.bs, s.id, 0) && InRing(m, s.bs, s.id, 1);
    assert LinkedAt(m, s.fh, s.fl, 0) && LinkedAt(m, s.fh, s.fl, 1);
  }

  lemma FreshShape(s: Shape)
    requires s.hi >= s.lo + 2 * HEADER + MIN_ALLOC && s == Fresh(s.id, s.lo, s.hi - s.lo, s.fh)
    ensures Tiled(s.bs, HEADER, s.lo, s.hi) && Shaped(s.bs) && FreeExactly(s.bs, s.fl)
    ensures FreeSum(s.bs) == s.bs[0].size
  {
    assert s.bs == [s.bs[0]] + [s.bs[1]];
    SumsOfPair(s.bs[0], s.bs[1]);
    SumsOfOne(s.bs[0]);
    SumsOfOne(s.bs[1]);
  }

  lemma NodesClear(s: Shape)
    requires Tiled(s.bs, HEADER, s.lo, s.hi) && FreeExactly(s.bs, s.fl)
    requires s.fh + HEADER <= s.lo || s.hi <= s.fh
    ensures AllClear(s.bs, s.fh, s.fl)
  {
    OrderedAll(s.bs, HEADER, s.lo, s.hi);
    forall x: nat, q | x <= |s.fl| + 1 && 0 <= q < |s.bs|
      ensures NodeClear(s.bs[q], Node(s.fh, s.fl, x))
    {
      if 1 <= x <= |s.fl| {
        var i := BlockOf(s.bs, s.fl, x - 1);
        assert End(s.bs[q], HEADER) <= s.bs[i].addr || q == i || End(s.bs[i], HEADER) <= s.bs[q].addr;
      }
    }
  }
}
