/** The system heap on top of memheap.c: rt_malloc, rt_free and rt_realloc over several
    heaps that lie side by side in one memory.  heaps[0] is the default heap; the others
    are tried in the order of the object list.  A heap's id is its place in `heaps`, which
    is what a block's pool_ptr word holds. */
module SystemHeap {
  import opened Tiling
  import opened MemHeapWords
  import opened MemHeapSteps
  import opened MemHeapOps
  import opened MemHeapMerge
  import opened MemHeap

  /** The words two heaps own have no word in common. */
  ghost predicate ApartShapes(s: Shape, t: Shape) {
    && (s.hi <= t.lo || t.hi <= s.lo)
    && (s.fh + HEADER <= t.lo || t.hi <= s.fh)
    && (t.fh + HEADER <= s.lo || s.hi <= t.fh)
    && (s.fh + HEADER <= t.fh || t.fh + HEADER <= s.fh)
  }

  /** A heap looks only at the words it owns. */
  lemma HeapOkElsewhere(m: seq<int>, n: seq<int>, s: Shape, t: Shape)
    requires HeapOk(m, t) && OthersKept(m, n, s) && ApartShapes(s, t)
    ensures HeapOk(n, t)
    ensures RoomsKept(m, n, Live(t.bs))
  {
    forall a | Owned(t, a) && 0 <= a < |m|
      ensures n[a] == m[a]
    {
      assert !Owned(s, a);
    }
    OwnWords(m, n, t);
  }

  /** All that a heap looks at is as it was. */
  lemma OwnWords(m: seq<int>, n: seq<int>, t: Shape)
    requires HeapOk(m, t) && |n| == |m| && forall a :: Owned(t, a) && 0 <= a < |m| ==> n[a] == m[a]
    ensures HeapOk(n, t)
    ensures RoomsKept(m, n, Live(t.bs))
  {
    OrderedAll(t.bs, HEADER, t.lo, t.hi);
    forall k | 0 <= k < |t.bs|
      ensures InRing(n, t.bs, t.id, k)
    {
      assert InRing(m, t.bs, t.id, k);
    }
    OwnLinks(m, n, t);
    forall b | b in Live(t.bs)
      ensures SameRoom(m, n, b)
    {
      var k :| 0 <= k < |t.bs| && t.bs[k] == b;
      assert t.lo <= b.addr && End(b, HEADER) <= t.hi;
    }
  }

  lemma OwnLinks(m: seq<int>, n: seq<int>, t: Shape)
    requires Woven(m, t) && |n| == |m| && forall a :: Owned(t, a) && 0 <= a < |m| ==> n[a] == m[a]
    ensures FreeRing(n, t.fh, t.fl)
  {
    forall x: nat | x <= |t.fl| + 1
      ensures n[Node(t.fh, t.fl, x) + 4] == m[Node(t.fh, t.fl, x) + 4]
      ensures n[Node(t.fh, t.fl, x) + 5] == m[Node(t.fh, t.fl, x) + 5]
    {
      assert Owned(t, Node(t.fh, t.fl, x) + 4) && Owned(t, Node(t.fh, t.fl, x) + 5);
    }
    FreeRingSame(m, n, t.fh, t.fl);
  }

  ghost predicate ApartHeaps(a: Heap, b: Heap) {
    && (a.start + a.poolSize <= b.start || b.start + b.poolSize <= a.start)
    && (a.freeHeader + HEADER <= b.start || b.start + b.poolSize <= a.freeHeader)
    && (b.freeHeader + HEADER <= a.start || a.start + a.poolSize <= b.freeHeader)
    && (a.freeHeader + HEADER <= b.freeHeader || b.freeHeader + HEADER <= a.freeHeader)
  }

  class Heaps {
    const ram: array<int>
    const heaps: seq<Heap>

    ghost predicate Linked()
    {
      && |heaps| > 0
      && (forall i :: 0 <= i < |heaps| ==> heaps[i].ram == ram && heaps[i].id == i)
      && (forall i, j :: 0 <= i < j < |heaps| ==> heaps[i] != heaps[j])
      && (forall i, j :: 0 <= i < |heaps| && 0 <= j < |heaps| && i != j ==> ApartHeaps(heaps[i], heaps[j]))
    }

    ghost predicate Valid()
      reads this, heaps, ram
    {
      && Linked()
      && (forall i {:trigger Has(i)} :: Has(i) ==> heaps[i].Valid())
    }

    ghost predicate Has(i: int) {
      0 <= i < |heaps|
    }

    constructor (ram: array<int>, heaps: seq<Heap>)
      requires |heaps| > 0
      requires forall i :: 0 <= i < |heaps| ==> heaps[i].ram == ram && heaps[i].id == i && heaps[i].Valid()
      requires forall i, j :: 0 <= i < j < |heaps| ==> heaps[i] != heaps[j]
      requires forall i, j :: 0 <= i < |heaps| && 0 <= j < |heaps| && i != j ==> ApartHeaps(heaps[i], heaps[j])
      ensures Valid() && this.ram == ram && this.heaps == heaps
    {
      this.ram, this.heaps := ram, heaps;
    }

    /** rt_memheap_alloc on one of the heaps: the others do not see it. */
    method AllocFrom(h: nat, bytes: Size) returns (r: nat)
      requires Valid() && h < |heaps|
      modifies ram, heaps[h]
      ensures Valid()
      ensures r == NULL <==> NoFit(old(heaps[h].shape), old(heaps[h].available), Want(bytes))
      ensures r == NULL ==>
        && heaps[h].shape == old(heaps[h].shape)
        && heaps[h].available == old(heaps[h].available)
        && ram[..] == old(ram[..])
      ensures r != NULL ==> Granted(old(heaps[h].shape), r, Want(bytes))
      ensures r != NULL ==>
        heaps[h].Blocks() == old(heaps[h].Blocks()) + {GrantedBlock(old(heaps[h].shape), r, Want(bytes))}
      ensures r != NULL ==> GrantedBlock(old(heaps[h].shape), r, Want(bytes)) !in old(heaps[h].Blocks())
      ensures forall i :: 0 <= i < |heaps| ==> RoomsKept(old(ram[..]), ram[..], old(heaps[i].Blocks()))
    {
      ghost var m := ram[..];
      assert Has(h);
      r := heaps[h].Alloc(bytes);
      forall i | 0 <= i < |heaps| && i != h
        ensures heaps[i].Valid() && RoomsKept(m, ram[..], heaps[i].Blocks())
      {
        assert Has(i) && ApartHeaps(heaps[h], heaps[i]) && Opened(true);
        HeapOkElsewhere(m, ram[..], heaps[h].shape, heaps[i].shape);
      }
    }

    /** rt_memheap_free on one of the heaps. */
    method FreeIn(h: nat, ptr: nat, ghost b: Block)
      requires Valid() && h < |heaps|
      requires b in heaps[h].Blocks() && b.size > 0 && ptr == b.addr + HEADER
      modifies ram, heaps[h]
      ensures Valid()
      ensures heaps[h].Blocks() == old(heaps[h].Blocks()) - {b}
      ensures forall i :: 0 <= i < |heaps| ==> RoomsKept(old(ram[..]), ram[..], heaps[i].Blocks())
    {
      ghost var m := ram[..];
      assert Has(h);
      heaps[h].Free(ptr, b);
      forall i | 0 <= i < |heaps| && i != h
        ensures heaps[i].Valid() && RoomsKept(m, ram[..], heaps[i].Blocks())
      {
        assert Has(i) && ApartHeaps(heaps[h], heaps[i]) && Opened(true);
        HeapOkElsewhere(m, ram[..], heaps[h].shape, heaps[i].shape);
      }
    }

    /** rt_memheap_realloc on the heap the block belongs to. */
    method ResizeIn(h: nat, ptr: nat, newSize: nat, ghost b: Block) returns (r: nat, ghost nb: Block)
      requires Valid() && h < |heaps| && MIN_ALLOC <= newSize < SPACE
      requires b in heaps[h].Blocks() && b.size > 0 && ptr == b.addr + HEADER
      requires !Overruns(heaps[h].shape, b, newSize)
      modifies ram, heaps[h]
      ensures Valid()
      ensures r == NULL <==> Stuck(old(heaps[h].shape), old(heaps[h].available), b, newSize)
      ensures r == NULL ==>
        && heaps[h].shape == old(heaps[h].shape)
        && heaps[h].available == old(heaps[h].available)
        && ram[..] == old(ram[..])
      ensures r == ptr <==> newSize <= b.size || GrowsInPlace(old(heaps[h].shape), b, newSize)
      ensures r == ptr ==> nb == Block(b.addr, if CutsOff(b, newSize) then newSize else b.size, true)
      ensures r != NULL ==> nb.addr + HEADER == r && newSize <= nb.size <= newSize + HEADER + MIN_ALLOC
      ensures r != NULL ==> heaps[h].Blocks() == old(heaps[h].Blocks()) - {b} + {nb}
      ensures r != NULL ==> DataKept(old(ram[..]), ram[..], ptr, r, if b.size < newSize then b.size else newSize)
      ensures forall i :: 0 <= i < |heaps| ==>
        RoomsKept(old(ram[..]), ram[..], old(heaps[i].Blocks()) - (if i == h then {b} else {}))
    {
      ghost var m := ram[..];
      assert Has(h);
      r, nb := heaps[h].Resize(ptr, newSize, b);
      forall i | 0 <= i < |heaps| && i != h
        ensures heaps[i].Valid() && RoomsKept(m, ram[..], heaps[i].Blocks())
      {
        assert Has(i) && ApartHeaps(heaps[h], heaps[i]) && Opened(true);
        HeapOkElsewhere(m, ram[..], heaps[h].shape, heaps[i].shape);
      }
    }

    /** A heap that has nothing to give for `want` words. */
    ghost predicate Full(h: nat, want: nat)
      requires h < |heaps|
      reads this, heaps
    {
      NoFit(heaps[h].shape, heaps[h].available, want)
    }

    /** rt_malloc: the default heap first, then the others in order; `h` is the heap that gave. */
    method Malloc(bytes: Size) returns (r: nat, ghost h: nat, ghost nb: Block)
      requires Valid()
      modifies ram, heaps
      ensures Valid()
      ensures r == NULL <==> forall i :: 0 <= i < |heaps| ==> old(Full(i, Want(bytes)))
      ensures r == NULL ==> ram[..] == old(ram[..])
      ensures r == NULL ==> forall i :: 0 <= i < |heaps| ==> heaps[i].shape == old(heaps[i].shape)
      ensures r != NULL ==>
        h < |heaps| && !old(Full(h, Want(bytes))) && forall i :: 0 <= i < h ==> old(Full(i, Want(bytes)))
      ensures r != NULL ==> r == nb.addr + HEADER && nb !in old(heaps[h].Blocks())
      ensures r != NULL ==> Want(bytes) <= nb.size < Want(bytes) + HEADER + MIN_ALLOC
      ensures r != NULL ==> heaps[h].Blocks() == old(heaps[h].Blocks()) + {nb}
      ensures r != NULL ==> forall i :: 0 <= i < |heaps| && i != h ==> heaps[i].shape == old(heaps[i].shape)
      ensures forall i :: 0 <= i < |heaps| ==> RoomsKept(old(ram[..]), ram[..], old(heaps[i].Blocks()))
    {
      h, nb := 0, Block(0, 0, false);
      var next := 0;
      while next < |heaps|
        invariant Valid() && next <= |heaps| && ram[..] == old(ram[..])
        invariant forall i :: 0 <= i < |heaps| ==>
          heaps[i].shape == old(heaps[i].shape) && heaps[i].available == old(heaps[i].available)
        invariant forall i :: 0 <= i < next ==> old(Full(i, Want(bytes)))
      {
        r := AllocFrom(next, bytes);
        if r != NULL {
          h, nb := next, GrantedBlock(old(heaps[next].shape), r, Want(bytes));
          assert !old(Full(h, Want(bytes)));
          return;
        }
        next := next + 1;
      }
      r := NULL;
    }

    /** The heap a block belongs to, read from its pool_ptr word. */
    method PoolOf(ptr: nat, ghost h: nat, ghost b: Block) returns (pool: nat)
      requires Valid() && h < |heaps|
      requires b in heaps[h].Blocks() && b.size > 0 && ptr == b.addr + HEADER
      ensures pool == h
    {
      assert Has(h) && Opened(true);
      ghost var i := IndexOf(heaps[h].shape, b);
      assert InRing(ram[..], heaps[h].shape.bs, h, i);
      pool := ram[ptr - HEADER + 1];
    }

    /** rt_free: the block goes back to the heap it came from. */
    method Free(ptr: nat, ghost h: nat, ghost b: Block)
      requires Valid()
      requires ptr != NULL ==> h < |heaps| && b in heaps[h].Blocks() && b.size > 0 && ptr == b.addr + HEADER
      modifies ram, heaps
      ensures Valid()
      ensures ptr == NULL ==> ram[..] == old(ram[..])
      ensures ptr != NULL ==> heaps[h].Blocks() == old(heaps[h].Blocks()) - {b}
      ensures forall i :: 0 <= i < |heaps| && (ptr == NULL || i != h) ==> heaps[i].shape == old(heaps[i].shape)
      ensures forall i :: 0 <= i < |heaps| ==> RoomsKept(old(ram[..]), ram[..], heaps[i].Blocks())
    {
      if ptr == NULL {
        return;
      }
      var pool := PoolOf(ptr, h, b);
      FreeIn(pool, ptr, b);
    }

    /** rt_memcpy from a block of one heap into a block of another. */
    method CopyAcross(ptr: nat, r: nat, ghost h: nat, ghost b: Block, ghost g: nat, ghost nb: Block)
      requires Valid() && h < |heaps| && g < |heaps| && g != h
      requires b in heaps[h].Blocks() && 0 < b.size <= nb.size && ptr == b.addr + HEADER
      requires nb in heaps[g].Blocks() && r == nb.addr + HEADER
      modifies ram
      ensures Valid()
      ensures DataKept(old(ram[..]), ram[..], ptr, r, b.size)
      ensures forall i :: 0 <= i < |heaps| ==>
        RoomsKept(old(ram[..]), ram[..], heaps[i].Blocks() - (if i == g then {nb} else {}))
    {
      var pool := PoolOf(ptr, h, b);
      assert Has(pool);
      var size := heaps[pool].RoomOf(ptr, b);
      RoomsAcross(h, b, g, nb);
      CopyInto(ptr, r, size, g, nb);
    }

    /** Blocks of two heaps have no word in common. */
    lemma RoomsAcross(h: nat, b: Block, g: nat, nb: Block)
      requires Valid() && h < |heaps| && g < |heaps| && g != h
      requires b in heaps[h].Blocks() && 0 < b.size && nb in heaps[g].Blocks() && 0 < nb.size
      ensures End(b, HEADER) <= nb.addr || End(nb, HEADER) <= b.addr
      ensures End(b, HEADER) <= ram.Length && End(nb, HEADER) <= ram.Length
    {
      assert Has(g) && Has(h) && Opened(true);
      var j := IndexOf(heaps[g].shape, nb);
      BlockInside(heaps[g].shape, j);
      var i := IndexOf(heaps[h].shape, b);
      BlockInside(heaps[h].shape, i);
      assert ApartHeaps(heaps[g], heaps[h]);
    }

    /** rt_memcpy into a block. */
    method CopyInto(ptr: nat, r: nat, size: nat, ghost g: nat, ghost nb: Block)
      requires Valid() && g < |heaps| && nb in heaps[g].Blocks() && 0 < size <= nb.size && r == nb.addr + HEADER
      requires End(nb, HEADER) <= ram.Length && ptr + size <= ram.Length && (ptr + size <= r || r + size <= ptr)
      modifies ram
      ensures Valid()
      ensures DataKept(old(ram[..]), ram[..], ptr, r, size)
      ensures forall i :: 0 <= i < |heaps| ==>
        RoomsKept(old(ram[..]), ram[..], heaps[i].Blocks() - (if i == g then {nb} else {}))
    {
      ghost var m := ram[..];
      assert Has(g) && Opened(true);
      ghost var j := IndexOf(heaps[g].shape, nb);
      heaps[0].CopyWords(r, ptr, size);
      RoomWriteKeeps(m, ram[..], heaps[g].shape, j);
      forall k | 0 <= k < |heaps| && k != g
        ensures heaps[k].Valid() && RoomsKept(m, ram[..], heaps[k].Blocks())
      {
        assert Has(k) && ApartHeaps(heaps[g], heaps[k]) && Opened(true);
        HeapOkElsewhere(m, ram[..], heaps[g].shape, heaps[k].shape);
      }
    }

    /** The part of rt_realloc that moves a block to another heap: copy, then free. */
    method MoveAcross(ptr: nat, r: nat, ghost h: nat, ghost b: Block, ghost g: nat, ghost nb: Block)
      requires Valid() && h < |heaps| && g < |heaps| && g != h
      requires b in heaps[h].Blocks() && 0 < b.size <= nb.size && ptr == b.addr + HEADER
      requires nb in heaps[g].Blocks() && r == nb.addr + HEADER
      modifies ram, heaps
      ensures Valid()
      ensures heaps[h].Blocks() == old(heaps[h].Blocks()) - {b}
      ensures forall i :: 0 <= i < |heaps| && i != h ==> heaps[i].shape == old(heaps[i].shape)
      ensures DataKept(old(ram[..]), ram[..], ptr, r, b.size)
      ensures forall i :: 0 <= i < |heaps| ==>
        RoomsKept(old(ram[..]), ram[..], heaps[i].Blocks() - (if i == g then {nb} else {}))
    {
      ghost var m := ram[..];
      CopyAcross(ptr, r, h, b, g, nb);
      ghost var m1 := ram[..];
      Free(ptr, h, b);
      assert SameRoom(m1, ram[..], nb);
      DataAfter(m, m1, ram[..], b, nb);
      forall i | 0 <= i < |heaps|
        ensures RoomsKept(m, ram[..], heaps[i].Blocks() - (if i == g then {nb} else {}))
      {
        RoomsThen(m, m1, ram[..], heaps[i].Blocks() - (if i == g then {nb} else {}));
      }
    }

    /** The part of rt_realloc that looks in the other heaps when the block's own heap has
        nothing to give; the old contents always fit, so all of them are copied. */
    method Relocate(ptr: nat, bytes: Size, ghost h: nat, ghost b: Block) returns (r: nat, ghost g: nat, ghost nb: Block)
      requires Valid() && h < |heaps| && Full(h, Want(bytes))
      requires b in heaps[h].Blocks() && 0 < b.size <= Want(bytes) && ptr == b.addr + HEADER
      modifies ram, heaps
      ensures Valid()
      ensures r == NULL <==> forall i :: 0 <= i < |heaps| ==> old(Full(i, Want(bytes)))
      ensures r == NULL ==>
        ram[..] == old(ram[..]) && forall i :: 0 <= i < |heaps| ==> heaps[i].shape == old(heaps[i].shape)
      ensures r != NULL ==> g < |heaps| && g != h && r == nb.addr + HEADER
      ensures r != NULL ==> !old(Full(g, Want(bytes))) && forall i :: 0 <= i < g ==> old(Full(i, Want(bytes)))
      ensures r != NULL ==> Want(bytes) <= nb.size < Want(bytes) + HEADER + MIN_ALLOC
      ensures r != NULL ==>
        heaps[g].Blocks() == old(heaps[g].Blocks()) + {nb} && heaps[h].Blocks() == old(heaps[h].Blocks()) - {b}
      ensures forall i :: 0 <= i < |heaps| && i != g && i != h ==> heaps[i].shape == old(heaps[i].shape)
      ensures r != NULL ==> DataKept(old(ram[..]), ram[..], ptr, r, b.size)
      ensures forall i :: 0 <= i < |heaps| ==>
        RoomsKept(old(ram[..]), ram[..], old(heaps[i].Blocks()) - (if i == h then {b} else {}))
    {
      r, g, nb := Malloc(bytes);
      if r != NULL {
        ghost var m1 := ram[..];
        assert SameRoom(old(ram[..]), m1, b);
        MoveAcross(ptr, r, h, b, g, nb);
        DataChain(old(ram[..]), m1, ram[..], b, nb);
        forall i | 0 <= i < |heaps|
          ensures RoomsKept(old(ram[..]), ram[..], old(heaps[i].Blocks()) - (if i == h then {b} else {}))
        {
          RoomsThen(old(ram[..]), m1, ram[..], old(heaps[i].Blocks()) - (if i == h then {b} else {}));
        }
      }
    }

    /** rt_realloc.  `h` and `b` are the heap and the block that `ptr` was handed out for,
        `g` and `nb` those that `r` is handed out for. */
    method Realloc(ptr: nat, bytes: Size, ghost h: nat, ghost b: Block) returns (r: nat, ghost g: nat, ghost nb: Block)
      requires Valid()
      requires ptr != NULL ==> h < |heaps| && b in heaps[h].Blocks() && b.size > 0 && ptr == b.addr + HEADER
      requires ptr != NULL ==> !Overruns(heaps[h].shape, b, Want(bytes))
      modifies ram, heaps
      ensures Valid()
      ensures ptr == NULL || bytes == 0 || (r == NULL <==>
        (old(Stuck(heaps[h].shape, heaps[h].available, b, Want(bytes))) && forall i :: 0 <= i < |heaps| ==>
          old(Full(i, Want(bytes)))))
      ensures bytes > 0 && r == NULL ==>
        ram[..] == old(ram[..]) && forall i :: 0 <= i < |heaps| ==> heaps[i].shape == old(heaps[i].shape)
      ensures bytes == 0 && ptr != NULL ==> r == NULL && heaps[h].Blocks() == old(heaps[h].Blocks()) - {b}
      ensures r != NULL ==> g < |heaps| && r == nb.addr + HEADER && nb in heaps[g].Blocks()
      ensures r != NULL ==> Want(bytes) <= nb.size <= Want(bytes) + HEADER + MIN_ALLOC
      ensures r != NULL && ptr != NULL ==>
        (r == ptr && g == h <==> Want(bytes) <= b.size || GrowsInPlace(old(heaps[h].shape), b, Want(bytes)))
      ensures r != NULL && ptr != NULL ==>
        (g != h <==> old(Stuck(heaps[h].shape, heaps[h].available, b, Want(bytes))))
      ensures r != NULL && (ptr == NULL || g != h) ==>
        !old(Full(g, Want(bytes))) && forall i :: 0 <= i < g ==> old(Full(i, Want(bytes)))
      ensures r != NULL ==>
        heaps[g].Blocks() == old(heaps[g].Blocks()) - (if ptr != NULL && g == h then {b} else {}) + {nb}
      ensures forall i :: 0 <= i < |heaps| && (r == NULL || i != g) && (ptr == NULL || i != h) ==>
        heaps[i].shape == old(heaps[i].shape)
      ensures r != NULL && ptr != NULL && g != h ==> heaps[h].Blocks() == old(heaps[h].Blocks()) - {b}
      ensures r != NULL && ptr != NULL ==>
        DataKept(old(ram[..]), ram[..], ptr, r, if b.size < Want(bytes) then b.size else Want(bytes))
      ensures forall i :: 0 <= i < |heaps| ==>
        RoomsKept(old(ram[..]), ram[..], old(heaps[i].Blocks()) - (if ptr != NULL && i == h then {b} else {}))
    {
      if ptr == NULL {
        r, g, nb := Malloc(bytes);
        return;
      }
      if bytes == 0 {
        Free(ptr, h, b);
        return NULL, h, b;
      }
      var pool := PoolOf(ptr, h, b);
      r, nb := ResizeIn(pool, ptr, Want(bytes), b);
      g := h;
      if r == NULL {
        assert forall i :: 0 <= i < |heaps| ==> Full(i, Want(bytes)) == old(Full(i, Want(bytes)));
        r, g, nb := Relocate(ptr, bytes, h, b);
      }
    }
  }

  /** rt_memheap_realloc on the block's own heap gives nothing. */
  ghost predicate Stuck(s: Shape, available: int, b: Block, want: nat) {
    want > b.size && !GrowsInPlace(s, b, want) && NoFit(s, available, want)
  }

  lemma RoomsThen(m: seq<int>, n: seq<int>, o: seq<int>, live: set<Block>)
    requires RoomsKept(m, n, live) && RoomsKept(n, o, live)
    ensures RoomsKept(m, o, live)
  {
    forall b | b in live
      ensures SameRoom(m, o, b)
    {
      assert SameRoom(m, n, b) && SameRoom(n, o, b);
    }
  }

  /** What rt_memheap_init is called with: where a pool begins, its size in bytes, and where the
      heap keeps its free list header. */
  datatype Pool = Pool(start: nat, bytes: nat, freeHeader: nat)

  /** Room for the first block and the tailer, and the list header somewhere else. */
  ghost predicate Fits(p: Pool, length: nat) {
    && p.bytes / 4 >= 2 * HEADER + MIN_ALLOC && 0 < p.start && p.start + p.bytes / 4 <= length <= SPACE
    && 0 < p.freeHeader && p.freeHeader + HEADER <= length
    && (p.freeHeader + HEADER <= p.start || p.start + p.bytes / 4 <= p.freeHeader)
  }

  ghost predicate ApartPools(p: Pool, q: Pool) {
    && (p.start + p.bytes / 4 <= q.start || q.start + q.bytes / 4 <= p.start)
    && (p.freeHeader + HEADER <= q.start || q.start + q.bytes / 4 <= p.freeHeader)
    && (q.freeHeader + HEADER <= p.start || p.start + p.bytes / 4 <= q.freeHeader)
    && (p.freeHeader + HEADER <= q.freeHeader || q.freeHeader + HEADER <= p.freeHeader)
  }

  /** The tailer is the only block in use. */
  ghost predicate NothingHeld(h: Heap)
    reads h
  {
    forall b :: b in h.Blocks() ==> b.size == 0
  }

  /** A heap that was made in a pool. */
  ghost predicate MadeIn(h: Heap, p: Pool) {
    h.start == p.start && h.poolSize == p.bytes / 4 && h.freeHeader == p.freeHeader
  }

  /** Every pool is made a heap of its own: rt_system_heap_init for the first, rt_memheap_init
      for the others.  A later one does not disturb those made before. */
  method Boot(ram: array<int>, pools: seq<Pool>) returns (system: Heaps)
    requires |pools| > 0
    requires forall i :: 0 <= i < |pools| ==> Fits(pools[i], ram.Length)
    requires forall i, j :: 0 <= i < |pools| && 0 <= j < |pools| && i != j ==> ApartPools(pools[i], pools[j])
    modifies ram
    ensures system.Valid() && fresh(system) && system.ram == ram && |system.heaps| == |pools|
    ensures forall i :: 0 <= i < |pools| ==> MadeIn(system.heaps[i], pools[i])
    ensures forall i :: 0 <= i < |pools| ==> NothingHeld(system.heaps[i])
  {
    var heaps: seq<Heap> := [];
    while |heaps| < |pools|
      invariant |heaps| <= |pools|
      invariant forall i :: 0 <= i < |heaps| ==>
        fresh(heaps[i]) && heaps[i].ram == ram && heaps[i].id == i && MadeIn(heaps[i], pools[i])
      invariant forall i :: 0 <= i < |heaps| ==> heaps[i].Valid()
      invariant forall i :: 0 <= i < |heaps| ==> NothingHeld(heaps[i])
      invariant forall i, j :: 0 <= i < j < |heaps| ==> heaps[i] != heaps[j]
    {
      var next := MakeAfter(ram, heaps, |heaps|, pools[|heaps|]);
      heaps := heaps + [next];
    }
    system := new Heaps(ram, heaps);
  }

  /** One more heap beside those there are. */
  method MakeAfter(ram: array<int>, ghost heaps: seq<Heap>, id: nat, p: Pool) returns (h: Heap)
    requires Fits(p, ram.Length)
    requires forall i :: 0 <= i < |heaps| ==> heaps[i].ram == ram && heaps[i].Valid() && BesideHeap(heaps[i], p)
    modifies ram
    ensures fresh(h) && h.Valid() && h.ram == ram && h.id == id && MadeIn(h, p)
    ensures NothingHeld(h)
    ensures forall i :: 0 <= i < |heaps| ==> heaps[i].Valid() && heaps[i].Blocks() == old(heaps[i].Blocks())
  {
    ghost var m := ram[..];
    h := new Heap(ram, id, p.start, p.bytes, p.freeHeader);
    assert Opened(true);
    forall i | 0 <= i < |heaps|
      ensures heaps[i].Valid()
    {
      HeapOkElsewhere(m, ram[..], h.shape, heaps[i].shape);
    }
  }

  ghost predicate BesideHeap(h: Heap, p: Pool) {
    && (h.start + h.poolSize <= p.start || p.start + p.bytes / 4 <= h.start)
    && (h.freeHeader + HEADER <= p.start || p.start + p.bytes / 4 <= h.freeHeader)
    && (p.freeHeader + HEADER <= h.start || h.start + h.poolSize <= p.freeHeader)
    && (h.freeHeader + HEADER <= p.freeHeader || p.freeHeader + HEADER <= h.freeHeader)
  }
}
