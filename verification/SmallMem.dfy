/** The small-memory allocator of mem.c: address-ordered blocks, first fit from the lowest free
    block on.  heap_sem is not modelled: each operation is taken as one step, although rt_realloc
    gives the semaphore back before it calls rt_malloc and rt_free. */
module SmallMem {
  import opened Tiling
  import opened SmallMemWords
  import opened SmallMemBlocks

  const NULL: nat := 0
  const ALIGN: nat := 4

  /** The addresses, and the sizes that rt_size_t holds. */
  const SPACE: nat := 0x1_0000_0000

  type Size = n: nat | n < SPACE

  /** RT_ALIGN(size, RT_ALIGN_SIZE): it wraps to 0 for the last three sizes, and only then is the
      aligned size too small. */
  function Aligned(bytes: Size): (r: Size)
    ensures r >= bytes <==> bytes <= 0xffff_fffc
    ensures r % ALIGN == 0 && (bytes <= 0xffff_fffc ==> r < bytes + ALIGN)
    ensures bytes > 0xffff_fffc ==> r == 0
  {
    (bytes + ALIGN - 1) % SPACE / ALIGN * ALIGN
  }

  /** The aligned size, and at least MIN_SIZE_ALIGNED. */
  function Want(bytes: Size): Size {
    if Aligned(bytes) < MIN_SIZE then MIN_SIZE else Aligned(bytes)
  }

  /** The largest request: rt_malloc serves it with the smallest block, and rt_realloc frees. */
  lemma SizeWraps()
    ensures Aligned(0xffff_ffff) == 0 && Want(0xffff_ffff) == MIN_SIZE
  {
  }

  /** The search of rt_malloc ends at heap_end exactly if the heap is as large as the request.  In a
      heap smaller than MIN_SIZE the bound wraps, heap_end leads to itself, and the search goes on
      for ever. */
  lemma SearchEnds(size: Size, want: Size)
    requires size + HEADER < SPACE && want + HEADER < SPACE
    ensures size + HEADER < (size - want) % SPACE <==> size < want
  {
  }

  /** What the search of rt_malloc accepts. */
  ghost predicate Fits(bs: seq<Block>, from: nat, size: nat, want: nat, i: nat)
    requires i < |bs|
  {
    bs[i].addr >= from && !bs[i].used && bs[i].size >= want && bs[i].addr + want < size
  }

  ghost predicate FirstFit(bs: seq<Block>, from: nat, size: nat, want: nat, i: nat) {
    i < |bs| && Fits(bs, from, size, want, i) && forall j :: 0 <= j < i ==> !Fits(bs, from, size, want, j)
  }

  /** No block is accepted. */
  ghost predicate NoFit(bs: seq<Block>, from: nat, size: nat, want: nat) {
    forall i :: 0 <= i < |bs| ==> !Fits(bs, from, size, want, i)
  }

  /** The search accepts every free block that is large enough, unless it is an exact fit at the
      very end of the heap. */
  lemma OnlyLastExactFitMissed(bs: seq<Block>, size: nat, want: nat, i: nat)
    requires Tiled(bs, HEADER, 0, size + HEADER) && i < |bs| && !bs[i].used && bs[i].size >= want
    ensures Fits(bs, FirstFree(bs, size + HEADER), size, want, i) <==> !(i == |bs| - 1 && bs[i].size == want)
  {
    OrderedAll(bs, HEADER, 0, size + HEADER);
    FirstFreeLowest(bs, 0, size + HEADER, i);
  }

  /** The guard of rt_realloc under which a block gives up its end. */
  predicate Shrinks(b: Block, newSize: nat) {
    newSize + HEADER + MIN_SIZE < b.size
  }

  function Most(m: nat, n: nat): nat {
    if m < n then n else m
  }

  class SmallHeap {
    const size: nat
    const next: array<nat>
    const prev: array<nat>
    const used: array<bool>
    var lfree: nat
    var usedMem: nat
    var maxMem: nat
    ghost var bs: seq<Block>

    ghost function Top(): nat {
      size + HEADER
    }

    ghost function Mem(): Headers
      reads next, prev, used
    {
      Headers(next[..], prev[..], used[..])
    }

    ghost predicate Tied()
      reads this, next, prev, used
    {
      next != prev && HeadersOk(Mem(), bs, Top())
    }

    /** lfree is a free block or heap_end. */
    ghost predicate LFreeOk()
      reads this
    {
      lfree == Top() || FreeAt(bs, lfree)
    }

    ghost predicate Valid()
      reads this, next, prev, used
    {
      && MIN_SIZE <= size < SPACE - 2 * HEADER && Tied() && NoAdjacentFree(bs) && LFreeOk()
      && usedMem == UsedExtent(bs, HEADER) && usedMem <= maxMem
    }

    /** lfree is the lowest free block. */
    ghost predicate Lowest()
      reads this
    {
      lfree == FirstFree(bs, Top())
    }

    /** rt_system_heap_init */
    constructor (size: nat)
      requires MIN_SIZE <= size < SPACE - 2 * HEADER
      ensures Valid() && Lowest() && this.size == size && bs == [Block(0, size, false)]
      ensures fresh(next) && fresh(prev) && fresh(used) && usedMem == maxMem == 0
    {
      this.size := size;
      next, prev, used := new nat[size + 2 * HEADER], new nat[size + 2 * HEADER], new bool[size + 2 * HEADER];
      lfree, usedMem, maxMem := 0, 0, 0;
      bs := [Block(0, size, false)];
      new;
      next[0], prev[0], used[0] := size + HEADER, 0, false;
      next[size + HEADER], prev[size + HEADER], used[size + HEADER] := size + HEADER, size + HEADER, true;
      ExtentOne(bs[0]);
    }

    /** The search of rt_malloc. */
    method FindFit(want: nat) returns (found: bool, ptr: nat, ghost i: nat)
      requires Tied() && LFreeOk() && want <= size
      ensures found ==> FirstFit(bs, lfree, size, want, i) && ptr == bs[i].addr
      ensures !found ==> NoFit(bs, lfree, size, want)
    {
      found, ptr := false, lfree;
      i := StartOf(want);
      while ptr < size - want
        invariant i <= |bs| && ptr == if i < |bs| then bs[i].addr else Top()
        invariant lfree <= ptr && forall j :: 0 <= j < i ==> !Fits(bs, lfree, size, want, j)
        decreases |bs| - i
      {
        assert HeaderAt(Mem(), bs, i);
        NextIs(i);
        if !used[ptr] && next[ptr] - (ptr + HEADER) >= want {
          found := true;
          return;
        }
        i := i + 1;
        ptr := next[ptr];
      }
      forall j | i <= j < |bs|
        ensures !Fits(bs, lfree, size, want, j)
      {
        InOrder(bs, Top(), i, j);
      }
    }

    /** mem->used = u */
    method SetUsed(a: nat, u: bool, ghost i: nat)
      requires Tied() && i < |bs| && a == bs[i].addr
      modifies used, this`bs
      ensures Tied() && bs == Splice(old(bs), i, i + 1, [old(bs)[i].(used := u)])
    {
      MarkedOk(Mem(), bs, Top(), i, u);
      ghost var m := Marked(Mem(), a, u);
      used[a] := u;
      bs := Splice(bs, i, i + 1, [bs[i].(used := u)]);
      assert Mem() == m;
    }

    /** A new free block behind the first `first` bytes of the room of block i. */
    method Split(a: nat, first: nat, ghost i: nat)
      requires Tied() && i < |bs| && a == bs[i].addr && first + HEADER <= bs[i].size
      modifies next, prev, used, this`bs
      ensures Tied() && bs == Splice(old(bs), i, i + 1, Halves(old(bs)[i], first, old(bs)[i].used))
    {
      SplitOffOk(Mem(), bs, Top(), i, first);
      ghost var m := SplitOff(Mem(), a, first, Top());
      assert HeaderAt(Mem(), bs, i);
      var b := a + HEADER + first;
      used[b] := false;
      next[b] := next[a];
      prev[b] := a;
      next[a] := b;
      if next[b] != size + HEADER {
        prev[next[b]] := b;
      }
      bs := Splice(bs, i, i + 1, Halves(bs[i], first, bs[i].used));
      assert Mem() == m;
    }

    /** Block i takes in the block behind it. */
    method Join(a: nat, b: nat, ghost i: nat)
      requires Tied() && i + 1 < |bs| && a == bs[i].addr && b == bs[i + 1].addr
      modifies next, prev, this`bs
      ensures Tied() && bs == Splice(old(bs), i, i + 2, [Both(old(bs)[i], old(bs)[i + 1])])
    {
      JoinedOk(Mem(), bs, Top(), i);
      ghost var m := Joined(Mem(), a, b);
      next[a] := next[b];
      prev[next[b]] := a;
      bs := Splice(bs, i, i + 2, [Both(bs[i], bs[i + 1])]);
      assert Mem() == m;
    }

    /** The block found for rt_malloc is handed out. */
    method Grant(ptr: nat, want: nat, ghost i: nat)
      requires Tied() && i < |bs| && ptr == bs[i].addr && !bs[i].used && bs[i].size >= want
      modifies next, prev, used, this`bs, this`usedMem, this`maxMem
      ensures Tied() && bs == Splice(old(bs), i, i + 1, Granted(old(bs)[i], want))
      ensures usedMem == old(usedMem) + HEADER + Granted(old(bs)[i], want)[0].size
      ensures maxMem == if old(maxMem) < usedMem then usedMem else old(maxMem)
    {
      ghost var was := bs;
      assert HeaderAt(Mem(), bs, i);
      if next[ptr] - (ptr + HEADER) >= want + HEADER + MIN_SIZE {
        Split(ptr, want, i);
        assert bs[i] == Halves(was[i], want, false)[0];
        SetUsed(ptr, true, i);
        assert bs == Splice(was, i, i + 1, Granted(was[i], want));
        usedMem := usedMem + want + HEADER;
      } else {
        SetUsed(ptr, true, i);
        usedMem := usedMem + (next[ptr] - ptr);
      }
      if maxMem < usedMem {
        maxMem := usedMem;
      }
    }

    /** From block i on to the next free block. */
    method Advance(ghost i: nat)
      requires Tied() && i < |bs| && lfree == bs[i].addr
      modifies this`lfree
      ensures lfree == FirstFree(bs[i..], Top()) && LFreeOk()
    {
      ghost var k := i;
      NextIs(i);
      while used[lfree] && lfree != size + HEADER
        invariant i <= k <= |bs| && lfree <= Top() && lfree == if k < |bs| then bs[k].addr else Top()
        invariant FirstFree(bs[i..], Top()) == FirstFree(bs[k..], Top())
        decreases |bs| - k
      {
        assert HeaderAt(Mem(), bs, k);
        NextIs(k);
        assert bs[k..][1..] == bs[k + 1..];
        lfree := next[lfree];
        k := k + 1;
      }
      if k < |bs| {
        assert HeaderAt(Mem(), bs, k);
        NextIs(k);
      } else {
        assert bs[k..] == [];
      }
    }

    /** rt_malloc */
    method Malloc(bytes: Size) returns (r: nat, ghost b: Block)
      requires Valid()
      modifies next, prev, used, this`bs, this`usedMem, this`maxMem, this`lfree
      ensures Valid() && (old(Lowest()) ==> Lowest())
      ensures r == NULL <==> bytes == 0 || Aligned(bytes) > size || NoFit(old(bs), old(lfree), size, Want(bytes))
      ensures r == NULL ==> bs == old(bs) && lfree == old(lfree) && usedMem == old(usedMem) && maxMem == old(maxMem)
      ensures r != NULL ==>
        && r == b.addr + HEADER
        && b !in old(Live(bs))
        && Live(bs) == old(Live(bs)) + {b}
        && usedMem == old(usedMem) + HEADER + b.size
      ensures r != NULL ==> Given(old(bs), old(lfree), Want(bytes), b)
      ensures maxMem == if old(maxMem) < usedMem then usedMem else old(maxMem)
    {
      r, b := NULL, Block(0, 0, false);
      if bytes == 0 || Aligned(bytes) > size {
        return;
      }
      var want := Want(bytes);
      var found, ptr, i := FindFit(want);
      if found {
        b := Granted(bs[i], want)[0];
        Take(ptr, want, i);
        r := ptr + HEADER;
      }
    }

    /** Block b is the first that fits, all of it unless enough is left over for another one. */
    ghost predicate Given(bs: seq<Block>, lfree: nat, want: nat, b: Block) {
      && want <= b.size < want + HEADER + MIN_SIZE && b.used
      && exists i: nat ::
        && FirstFit(bs, lfree, size, want, i) && b.addr == bs[i].addr
        && b.size == if bs[i].size >= want + HEADER + MIN_SIZE then want else bs[i].size
    }

    /** The block that the search of rt_malloc has found is handed out. */
    method Take(ptr: nat, want: nat, ghost i: nat)
      requires Valid() && i < |bs| && ptr == bs[i].addr && Fits(bs, lfree, size, want, i) && want >= MIN_SIZE
      modifies next, prev, used, this`bs, this`usedMem, this`maxMem, this`lfree
      ensures Valid() && (old(Lowest()) ==> Lowest())
      ensures var b := Granted(old(bs)[i], want)[0];
        && b.addr == ptr && b.used && b.size >= want && b !in old(Live(bs)) && Live(bs) == old(Live(bs)) + {b}
        && usedMem == old(usedMem) + HEADER + b.size
      ensures maxMem == if old(maxMem) < usedMem then usedMem else old(maxMem)
    {
      OrderedAll(bs, HEADER, 0, Top());
      GrantedApart(bs, i, want);
      GrantedSums(bs, i, want);
      GrantedLive(bs, 0, Top(), i, want);
      LFreeGranted(i, want);
      ghost var b := Granted(bs[i], want)[0];
      Grant(ptr, want, i);
      assert bs[i] == b;
      if ptr == lfree {
        Advance(i);
      }
    }

    /** Where lfree belongs after block i has been handed out. */
    lemma LFreeGranted(i: nat, want: nat)
      requires Tied() && LFreeOk() && i < |bs| && !bs[i].used && bs[i].size >= want && lfree <= bs[i].addr
      ensures var r := Splice(bs, i, i + 1, Granted(bs[i], want));
        && (lfree != bs[i].addr ==> lfree == Top() || FreeAt(r, lfree))
        && (Lowest() && lfree != bs[i].addr ==> lfree == FirstFree(r, Top()))
        && (Lowest() && lfree == bs[i].addr ==> FirstFree(r, Top()) == FirstFree(r[i..], Top()))
    {
      var r := Splice(bs, i, i + 1, Granted(bs[i], want));
      OrderedAll(bs, HEADER, 0, Top());
      if lfree != bs[i].addr && lfree != Top() {
        var k :| 0 <= k < |bs| && bs[k].addr == lfree && !bs[k].used;
        assert r[k] == bs[k];
        FirstFreeLater(bs, Top(), i, Granted(bs[i], want));
      }
      if Lowest() && lfree == bs[i].addr {
        forall j | 0 <= j < i
          ensures bs[j].used
        {
          if !bs[j].used {
            FirstFreeLowest(bs, 0, Top(), j);
          }
        }
        FirstFreeGranted(bs, Top(), i, want);
      }
    }

    /** plug_holes: a free block takes in the free blocks behind and before it. */
    method PlugHoles(mem: nat, ghost i: nat)
      requires Tied() && LFreeOk() && i < |bs| && mem == bs[i].addr && !bs[i].used && ApartBut(bs, i, true, true)
      modifies next, prev, this`bs, this`lfree
      ensures Tied() && LFreeOk() && NoAdjacentFree(bs)
      ensures lfree == PluggedLFree(old(bs), i, old(lfree))
      ensures UsedExtent(bs, HEADER) == old(UsedExtent(bs, HEADER)) && Live(bs) == old(Live(bs))
      ensures FirstFree(bs, Top()) == old(FirstFree(bs, Top()))
    {
      PlugForward(mem, i);
      PlugBackward(mem, i);
    }

    method PlugForward(mem: nat, ghost i: nat)
      requires Tied() && LFreeOk() && i < |bs| && mem == bs[i].addr && !bs[i].used && ApartBut(bs, i, true, true)
      modifies next, prev, this`bs, this`lfree
      ensures Tied() && LFreeOk() && i < |bs| && mem == bs[i].addr && !bs[i].used && ApartBut(bs, i, true, false)
      ensures bs[..i] == old(bs)[..i]
      ensures lfree ==
        if i + 1 < |old(bs)| && !old(bs)[i + 1].used && old(lfree) == old(bs)[i + 1].addr then mem else old(lfree)
      ensures UsedExtent(bs, HEADER) == old(UsedExtent(bs, HEADER)) && Live(bs) == old(Live(bs))
      ensures FirstFree(bs, Top()) == old(FirstFree(bs, Top()))
    {
      assert HeaderAt(Mem(), bs, i);
      NextIs(i);
      if i + 1 < |bs| {
        assert HeaderAt(Mem(), bs, i + 1);
      }
      var nmem := next[mem];
      if mem != nmem && !used[nmem] && nmem != size + HEADER {
        ghost var j := i + 1;
        JoinedFree(bs, 0, Top(), i);
        ApartJoined(bs, i, true);
        if lfree != Top() {
          FreeAtJoined(bs, i, lfree);
        }
        if lfree == nmem {
          lfree := mem;
        }
        Join(mem, nmem, i);
        assert bs[i] == Both(old(bs)[i], old(bs)[j]);
      }
    }

    method PlugBackward(mem: nat, ghost i: nat)
      requires Tied() && LFreeOk() && i < |bs| && mem == bs[i].addr && !bs[i].used && ApartBut(bs, i, true, false)
      modifies next, prev, this`bs, this`lfree
      ensures Tied() && LFreeOk() && NoAdjacentFree(bs)
      ensures lfree == if i > 0 && !old(bs)[i - 1].used && old(lfree) == mem then old(bs)[i - 1].addr else old(lfree)
      ensures UsedExtent(bs, HEADER) == old(UsedExtent(bs, HEADER)) && Live(bs) == old(Live(bs))
      ensures FirstFree(bs, Top()) == old(FirstFree(bs, Top()))
    {
      assert HeaderAt(Mem(), bs, i);
      OrderedAll(bs, HEADER, 0, Top());
      var pmem := prev[mem];
      if i > 0 {
        assert HeaderAt(Mem(), bs, i - 1);
      }
      if pmem != mem && !used[pmem] {
        ghost var h := i - 1;
        JoinedFree(bs, 0, Top(), h);
        ApartJoined(bs, h, false);
        if lfree != Top() {
          FreeAtJoined(bs, h, lfree);
        }
        if lfree == mem {
          lfree := pmem;
        }
        Join(pmem, mem, h);
        assert bs[h] == Both(old(bs)[h], old(bs)[i]);
      }
    }

    /** The block at lfree; the ones before it do not count. */
    lemma StartOf(want: nat) returns (i: nat)
      requires Tied() && LFreeOk()
      ensures i <= |bs| && lfree == (if i < |bs| then bs[i].addr else Top())
      ensures forall j :: 0 <= j < i ==> bs[j].addr < lfree
    {
      if lfree == Top() {
        i := |bs|;
        forall j | 0 <= j < i
          ensures bs[j].addr < lfree
        {
          NextIs(j);
        }
      } else {
        i :| 0 <= i < |bs| && bs[i].addr == lfree && !bs[i].used;
        forall j | 0 <= j < i
          ensures bs[j].addr < lfree
        {
          InOrder(bs, Top(), j, i);
        }
      }
    }

    /** Where the header at next leads. */
    lemma NextIs(i: nat)
      requires Tied() && i < |bs|
      ensures End(bs[i], HEADER) == if i + 1 < |bs| then bs[i + 1].addr else Top()
      ensures bs[i].addr < End(bs[i], HEADER) <= Top()
    {
      OrderedAll(bs, HEADER, 0, Top());
    }

    /** rt_free: the block is freed and joined with its free neighbours. */
    method Free(rmem: nat, ghost b: Block)
      requires Valid() && (rmem != NULL ==> b in Live(bs) && rmem == b.addr + HEADER)
      modifies next, prev, used, this`bs, this`usedMem, this`lfree
      ensures Valid() && (old(Lowest()) ==> Lowest())
      ensures rmem == NULL ==> bs == old(bs) && lfree == old(lfree) && usedMem == old(usedMem)
      ensures rmem != NULL ==> Live(bs) == old(Live(bs)) - {b} && usedMem == old(usedMem) - HEADER - b.size
    {
      if rmem == NULL {
        return;
      }
      var mem := rmem - HEADER;
      ghost var i :| 0 <= i < |bs| && bs[i] == b;
      Release(mem, i);
      LowestStays(i);
      PlugHoles(mem, i);
    }

    /** The part of rt_free before plug_holes. */
    method Release(mem: nat, ghost i: nat)
      requires Valid() && i < |bs| && mem == bs[i].addr && bs[i].used
      modifies used, this`bs, this`usedMem, this`lfree
      ensures Tied() && LFreeOk() && i < |bs| && mem == bs[i].addr && !bs[i].used && ApartBut(bs, i, true, true)
      ensures usedMem == old(usedMem) - HEADER - old(bs)[i].size == UsedExtent(bs, HEADER)
      ensures Live(bs) == old(Live(bs)) - {old(bs)[i]} && (old(Lowest()) ==> Lowest())
    {
      assert HeaderAt(Mem(), bs, i);
      FreedSums(bs, 0, Top(), i);
      FirstFreeFreed(bs, 0, Top(), i);
      ghost var was, wasFree := bs, lfree;
      assert Splice(bs, i, i + 1, [bs[i].(used := false)]) == bs[i := bs[i].(used := false)];
      SetUsed(mem, false, i);
      if mem < lfree {
        lfree := mem;
      }
      usedMem := usedMem - (next[mem] - mem);
      StillFree(was, wasFree, i);
    }

    /** After block i has been freed lfree is still a free block. */
    lemma StillFree(was: seq<Block>, lfreeWas: nat, i: nat)
      requires i < |was| && bs == was[i := was[i].(used := false)] && (lfreeWas == Top() || FreeAt(was, lfreeWas))
      requires lfree == lfreeWas || lfree == was[i].addr
      ensures LFreeOk()
    {
      assert bs[i].addr == was[i].addr && !bs[i].used;
      if lfreeWas != Top() {
        var k :| 0 <= k < |was| && was[k].addr == lfreeWas && !was[k].used;
        assert bs[k].addr == lfreeWas && !bs[k].used;
      }
    }

    /** plug_holes has no reason to move lfree when it is the lowest. */
    lemma LowestStays(i: nat)
      requires Tied() && i < |bs| && !bs[i].used
      ensures Lowest() ==> PluggedLFree(bs, i, lfree) == lfree
    {
      FirstFreeLowest(bs, 0, Top(), i);
      if i > 0 {
        InOrder(bs, Top(), i - 1, i);
        if !bs[i - 1].used {
          FirstFreeLowest(bs, 0, Top(), i - 1);
        }
      }
      if i + 1 < |bs| {
        InOrder(bs, Top(), i, i + 1);
      }
    }

    /** The part of rt_realloc that shrinks a block in place. */
    method Shrink(rmem: nat, newSize: nat, ghost b: Block)
      requires Valid() && b in Live(bs) && rmem == b.addr + HEADER && newSize > 0
      requires newSize + HEADER + MIN_SIZE < b.size
      modifies next, prev, used, this`bs, this`usedMem, this`lfree
      ensures Valid() && Live(bs) == old(Live(bs)) - {b} + {Block(b.addr, newSize, true)}
      ensures usedMem == old(usedMem) - (b.size - newSize)
      ensures old(Lowest()) ==> (Lowest() <==> old(lfree) < b.addr || FreeAt(old(bs), End(b, HEADER)))
    {
      var mem := rmem - HEADER;
      ghost var i :| 0 <= i < |bs| && bs[i] == b;
      assert HeaderAt(Mem(), bs, i);
      SplitUsed(mem, newSize, i);
      ghost var r, l := bs, lfree;
      PlugHoles(mem + HEADER + newSize, i + 1);
      assert Lowest() <==> PluggedLFree(r, i + 1, l) == FirstFree(r, Top());
    }

    /** The end of a used block is split off. */
    method SplitUsed(mem: nat, newSize: nat, ghost i: nat)
      requires Valid() && i < |bs| && mem == bs[i].addr && bs[i].used && newSize + HEADER <= bs[i].size
      modifies next, prev, used, this`bs, this`usedMem
      ensures Tied() && LFreeOk() && i + 1 < |bs| && bs[i + 1] == Halves(old(bs)[i], newSize, true)[1]
      ensures ApartBut(bs, i + 1, true, true)
      ensures usedMem == old(usedMem) - (old(bs)[i].size - newSize) == UsedExtent(bs, HEADER)
      ensures Live(bs) == old(Live(bs)) - {old(bs)[i]} + {Block(mem, newSize, true)}
      ensures old(Lowest()) ==>
        (PluggedLFree(bs, i + 1, lfree) == FirstFree(bs, Top()) <==>
          lfree < mem || FreeAt(old(bs), End(old(bs)[i], HEADER)))
    {
      assert HeaderAt(Mem(), bs, i);
      ShrunkOk(bs, Top(), i, newSize);
      ShrunkLFree(bs, Top(), i, newSize, lfree);
      if Lowest() {
        ShrunkLowest(bs, Top(), i, newSize, lfree);
      }
      usedMem := usedMem - (next[mem] - mem - HEADER - newSize);
      Split(mem, newSize, i);
    }

    /** rt_realloc, the contents aside: the block shrinks in place if enough is left over, and
        moves otherwise; on failure it stays. */
    method Realloc(rmem: nat, bytes: Size, ghost b: Block) returns (r: nat, ghost nb: Block)
      requires Valid() && (rmem != NULL && rmem < Top() ==> b in Live(bs) && rmem == b.addr + HEADER)
      modifies next, prev, used, this`bs, this`usedMem, this`maxMem, this`lfree
      ensures Valid()
      ensures Aligned(bytes) > size ==> r == NULL && bs == old(bs)
      ensures Aligned(bytes) == 0 && rmem != NULL && rmem < Top() ==> r == NULL && Live(bs) == old(Live(bs)) - {b}
      ensures 0 < Aligned(bytes) <= size && rmem >= Top() ==> r == rmem && bs == old(bs)
      ensures 0 < Aligned(bytes) <= size && rmem == NULL ==>
        (r == NULL <==> NoFit(old(bs), old(lfree), size, Want(bytes)))
      ensures 0 < Aligned(bytes) <= size && rmem == NULL && r != NULL ==>
        && r == nb.addr + HEADER && Live(bs) == old(Live(bs)) + {nb}
        && Given(old(bs), old(lfree), Want(bytes), nb)
      ensures 0 < Aligned(bytes) <= size && Held(rmem) ==> (r == NULL <==> Stuck(old(bs), old(lfree), b, bytes))
      ensures 0 < Aligned(bytes) <= size && Held(rmem) ==>
        if r == NULL then bs == old(bs) && lfree == old(lfree) && usedMem == old(usedMem) else
          && r == nb.addr + HEADER && Live(bs) == old(Live(bs)) - {b} + {nb}
          && usedMem == old(usedMem) - b.size + nb.size
      ensures 0 < Aligned(bytes) <= size && Held(rmem) && r != NULL ==>
        (r == rmem <==> Aligned(bytes) == b.size || Shrinks(b, Aligned(bytes)))
      ensures 0 < Aligned(bytes) <= size && Held(rmem) && r != NULL ==>
        if r == rmem then nb == Block(b.addr, Aligned(bytes), true) && maxMem == old(maxMem) else
          && nb !in old(Live(bs)) && Given(old(bs), old(lfree), Want(bytes), nb)
          && maxMem == Most(old(maxMem), old(usedMem) + HEADER + nb.size)
      ensures old(Lowest()) && !(0 < Aligned(bytes) <= size && Held(rmem) && Shrinks(b, Aligned(bytes))) ==> Lowest()
      ensures old(Lowest()) && 0 < Aligned(bytes) <= size && Held(rmem) && Shrinks(b, Aligned(bytes)) ==>
        (Lowest() <==> old(lfree) < b.addr || FreeAt(old(bs), End(b, HEADER)))
    {
      var newSize := Aligned(bytes);
      r, nb := NULL, b;
      if newSize > size {
        return;
      }
      if newSize == 0 {
        if rmem < size + HEADER {
          Free(rmem, b);
        }
        return;
      }
      if rmem == NULL {
        r, nb := Malloc(newSize);
        return;
      }
      if rmem >= size + HEADER {
        r := rmem;
        return;
      }
      r, nb := Change(rmem, newSize, b);
    }

    lemma GivenElsewhere(bs: seq<Block>, lfree: nat, want: nat, b: Block, nb: Block)
      requires Tiled(bs, HEADER, 0, Top()) && b in Live(bs) && Given(bs, lfree, want, nb)
      ensures nb.addr != b.addr
    {
      OrderedAll(bs, HEADER, 0, Top());
      var i: nat :| FirstFit(bs, lfree, size, want, i) && nb.addr == bs[i].addr;
      var k :| 0 <= k < |bs| && bs[k] == b;
      assert bs[k].used && !bs[i].used;
    }

    /** rt_realloc can neither keep the block where it is nor move it. */
    ghost predicate Stuck(bs: seq<Block>, lfree: nat, b: Block, bytes: Size) {
      && Aligned(bytes) != b.size && !Shrinks(b, Aligned(bytes))
      && NoFit(bs, lfree, size, Want(bytes))
    }

    ghost predicate Held(rmem: nat) {
      rmem != NULL && rmem < Top()
    }

    /** rt_realloc of a block that is in use. */
    method Change(rmem: nat, newSize: Size, ghost b: Block) returns (r: nat, ghost nb: Block)
      requires Valid() && b in Live(bs) && rmem == b.addr + HEADER && 0 < newSize <= size && Aligned(newSize) == newSize
      modifies next, prev, used, this`bs, this`usedMem, this`maxMem, this`lfree
      ensures Valid()
      ensures r == NULL <==>
        newSize != b.size && !Shrinks(b, newSize) && NoFit(old(bs), old(lfree), size, Want(newSize))
      ensures r == NULL ==> bs == old(bs) && lfree == old(lfree) && usedMem == old(usedMem)
      ensures r != NULL ==>
        && r == nb.addr + HEADER && Live(bs) == old(Live(bs)) - {b} + {nb}
        && usedMem == old(usedMem) - b.size + nb.size
      ensures r != NULL ==> (r == rmem <==> newSize == b.size || Shrinks(b, newSize))
      ensures r != NULL ==>
        if r == rmem then nb == Block(b.addr, newSize, true) && maxMem == old(maxMem) else
          && nb !in old(Live(bs)) && Given(old(bs), old(lfree), Want(newSize), nb)
          && maxMem == Most(old(maxMem), old(usedMem) + HEADER + nb.size)
      ensures old(Lowest()) && !Shrinks(b, newSize) ==> Lowest()
      ensures old(Lowest()) && Shrinks(b, newSize) ==>
        (Lowest() <==> old(lfree) < b.addr || FreeAt(old(bs), End(b, HEADER)))
    {
      var ptr := rmem - HEADER;
      ghost var i :| 0 <= i < |bs| && bs[i] == b;
      assert HeaderAt(Mem(), bs, i);
      var oldSize := next[ptr] - ptr - HEADER;
      if oldSize == newSize {
        return rmem, b;
      }
      if newSize + HEADER + MIN_SIZE < oldSize {
        Shrink(rmem, newSize, b);
        return rmem, Block(b.addr, newSize, true);
      }
      ghost var was, from := bs, lfree;
      r, nb := Malloc(newSize);
      if r != NULL {
        GivenElsewhere(was, from, Want(newSize), b, nb);
        Free(rmem, b);
      }
    }
  }

  /** An input on which shrinking does not keep lfree the lowest free block: one block of 100
      bytes fills the heap, lfree is heap_end at 112, and the block shrinks to 20 bytes. */
  lemma LowestLost()
    ensures var bs := [Block(0, 100, true)]; var r := Splice(bs, 0, 1, Halves(bs[0], 20, true));
      && Tiled(bs, HEADER, 0, 112) && FirstFree(bs, 112) == 112 && Shrinks(bs[0], 20)
      && r == [Block(0, 20, true), Block(32, 68, false)]
      && PluggedLFree(r, 1, 112) == 112 && FirstFree(r, 112) == 32
  {
    var bs := [Block(0, 100, true)];
    var r := [Block(0, 20, true), Block(32, 68, false)];
    assert bs[1..] == [] && Splice(bs, 0, 1, Halves(bs[0], 20, true)) == r && r[1..] == [Block(32, 68, false)];
  }
}
