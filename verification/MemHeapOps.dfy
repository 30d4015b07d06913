/** The operations of memheap.c as chains of list steps: for every chain, that the heap is
    in order again at its end, which blocks are in use then, and that nobody's data moved. */
module MemHeapOps {
  import opened Tiling
  import opened MemHeapWords
  import opened MemHeapSteps

  /** The free list holds exactly the unused blocks, each once. */
  ghost predicate FreeExactly(bs: seq<Block>, fl: seq<nat>) {
    multiset(fl) == FreeBag(bs)
  }

  /** Every block but the tailer has room for MIN_ALLOC; the tailer is in use and empty. */
  ghost predicate Shaped(bs: seq<Block>) {
    && |bs| >= 2
    && bs[|bs| - 1].used && bs[|bs| - 1].size == 0
    && (forall i :: 0 <= i < |bs| - 1 ==> bs[i].size >= MIN_ALLOC)
    && NoAdjacentFree(bs)
  }

  /** A heap between two operations: the lists are in order, the blocks tile the pool and
      have their sizes, no two free blocks are neighbours, the free list is complete. */
  ghost predicate HeapOk(m: seq<int>, s: Shape) {
    Woven(m, s) && Shaped(s.bs) && FreeExactly(s.bs, s.fl)
  }

  /** The block a free list node describes. */
  lemma BlockOf(bs: seq<Block>, fl: seq<nat>, k: nat) returns (i: nat)
    requires FreeExactly(bs, fl) && k < |fl|
    ensures i < |bs| && bs[i].addr == fl[k] && !bs[i].used
  {
    assert fl[k] in multiset(fl);
    i := FreeBagWitness(bs, fl[k]);
  }

  /** Blocks `i..j` replaced by `mid`: the shape of the pool. */
  lemma ShapedSplice(bs: seq<Block>, i: nat, j: nat, mid: seq<Block>)
    requires Shaped(bs) && i < j < |bs| && |mid| > 0 && NoAdjacentFree(mid)
    requires forall k :: 0 <= k < |mid| ==> mid[k].size >= MIN_ALLOC
    requires i > 0 ==> bs[i - 1].used || mid[0].used
    requires mid[|mid| - 1].used || bs[j].used
    ensures Shaped(Splice(bs, i, j, mid))
  {
    var r := Splice(bs, i, j, mid);
    NoAdjacentFreeSplice(bs, i, j, mid);
    assert r[|r| - 1] == bs[|bs| - 1];
    forall k | 0 <= k < |r| - 1
      ensures r[k].size >= MIN_ALLOC
    {
      if k < i {
        assert r[k] == bs[k];
      } else if k < i + |mid| {
        assert r[k] == mid[k - i];
      } else {
        assert r[k] == bs[k - |mid| + j - i];
      }
    }
  }

  /** Taking `size` words of free block `i` (node `k`) and leaving the rest of it free. */
  lemma TakeSplitShape(bs: seq<Block>, fl: seq<nat>, lo: nat, hi: nat, i: nat, k: nat, a: Block, z: Block)
    requires Tiled(bs, HEADER, lo, hi) && Shaped(bs) && FreeExactly(bs, fl)
    requires i < |bs| && k < |fl| && fl[k] == bs[i].addr && !bs[i].used
    requires a.addr == bs[i].addr && a.used && a.size >= MIN_ALLOC
    requires z.addr == End(a, HEADER) && !z.used && z.size >= MIN_ALLOC && End(z, HEADER) == End(bs[i], HEADER)
    ensures i + 1 < |bs|
    ensures Tiled(Splice(bs, i, i + 1, [a, z]), HEADER, lo, hi)
    ensures Shaped(Splice(bs, i, i + 1, [a, z]))
    ensures FreeSum(Splice(bs, i, i + 1, [a, z])) == FreeSum(bs) - a.size - HEADER
    ensures FreeExactly(Splice(bs, i, i + 1, [a, z]), [z.addr] + Without(fl, k))
    ensures Live(Splice(bs, i, i + 1, [a, z])) == Live(bs) + {a}
  {
    TakeSplitSplice(bs, lo, hi, i, a, z);
    WithoutBag(fl, k);
    SumsOfPair(a, z);
    SumsOfOne(a);
    SumsOfOne(z);
    SumsOfOne(bs[i]);
  }

  lemma TakeSplitSplice(bs: seq<Block>, lo: nat, hi: nat, i: nat, a: Block, z: Block)
    requires Tiled(bs, HEADER, lo, hi) && Shaped(bs)
    requires i < |bs| && !bs[i].used
    requires a.addr == bs[i].addr && a.used && a.size >= MIN_ALLOC
    requires z.addr == End(a, HEADER) && !z.used && z.size >= MIN_ALLOC && End(z, HEADER) == End(bs[i], HEADER)
    ensures i + 1 < |bs|
    ensures Tiled(Splice(bs, i, i + 1, [a, z]), HEADER, lo, hi)
    ensures Shaped(Splice(bs, i, i + 1, [a, z]))
    ensures FreeSum(Splice(bs, i, i + 1, [a, z])) == FreeSum(bs) - FreeSum([bs[i]]) + FreeSum([a, z])
    ensures FreeBag([bs[i]]) <= FreeBag(bs)
    ensures FreeBag(Splice(bs, i, i + 1, [a, z])) == FreeBag(bs) - FreeBag([bs[i]]) + FreeBag([a, z])
    ensures Live(Splice(bs, i, i + 1, [a, z])) == Live(bs) - Live([bs[i]]) + Live([a, z])
  {
    TakeSplitTiled(bs, lo, hi, i, a, z);
    SumsSpliceAt(bs, HEADER, i, [a, z]);
    LiveSpliceAt(bs, HEADER, lo, hi, i, [a, z]);
  }

  lemma TakeSplitTiled(bs: seq<Block>, lo: nat, hi: nat, i: nat, a: Block, z: Block)
    requires Tiled(bs, HEADER, lo, hi) && Shaped(bs)
    requires i < |bs| && !bs[i].used
    requires a.addr == bs[i].addr && a.used && a.size >= MIN_ALLOC
    requires z.addr == End(a, HEADER) && !z.used && z.size >= MIN_ALLOC && End(z, HEADER) == End(bs[i], HEADER)
    ensures i + 1 < |bs|
    ensures Tiled(Splice(bs, i, i + 1, [a, z]), HEADER, lo, hi)
    ensures Shaped(Splice(bs, i, i + 1, [a, z]))
  {
    assert bs[i + 1].used && End(bs[i], HEADER) == bs[i + 1].addr;
    PairTiles(a, z);
    TiledSplice(bs, HEADER, lo, hi, i, i + 1, [a, z]);
    ShapedSplice(bs, i, i + 1, [a, z]);
  }

  lemma PairTiles(a: Block, z: Block)
    requires z.addr == End(a, HEADER)
    ensures Tiled([a, z], HEADER, a.addr, End(z, HEADER))
    ensures a.used || z.used ==> NoAdjacentFree([a, z])
  {
  }

  /** Taking all of free block `i` (node `k`). */
  lemma TakeWholeShape(bs: seq<Block>, fl: seq<nat>, lo: nat, hi: nat, i: nat, k: nat)
    requires Tiled(bs, HEADER, lo, hi) && Shaped(bs) && FreeExactly(bs, fl)
    requires i < |bs| && k < |fl| && fl[k] == bs[i].addr && !bs[i].used
    ensures i + 1 < |bs|
    ensures Tiled(Splice(bs, i, i + 1, [bs[i].(used := true)]), HEADER, lo, hi)
    ensures Shaped(Splice(bs, i, i + 1, [bs[i].(used := true)]))
    ensures FreeSum(Splice(bs, i, i + 1, [bs[i].(used := true)])) == FreeSum(bs) - bs[i].size
    ensures FreeExactly(Splice(bs, i, i + 1, [bs[i].(used := true)]), Without(fl, k))
    ensures Live(Splice(bs, i, i + 1, [bs[i].(used := true)])) == Live(bs) + {bs[i].(used := true)}
  {
    var b := bs[i].(used := true);
    TakeWholeSplice(bs, lo, hi, i, b);
    WithoutBag(fl, k);
    SumsOfOne(b);
    SumsOfOne(bs[i]);
  }

  lemma TakeWholeSplice(bs: seq<Block>, lo: nat, hi: nat, i: nat, b: Block)
    requires Tiled(bs, HEADER, lo, hi) && Shaped(bs)
    requires i < |bs| && !bs[i].used && b == bs[i].(used := true)
    ensures i + 1 < |bs|
    ensures Tiled(Splice(bs, i, i + 1, [b]), HEADER, lo, hi)
    ensures Shaped(Splice(bs, i, i + 1, [b]))
    ensures FreeSum(Splice(bs, i, i + 1, [b])) == FreeSum(bs) - FreeSum([bs[i]]) + FreeSum([b])
    ensures FreeBag([bs[i]]) <= FreeBag(bs)
    ensures FreeBag(Splice(bs, i, i + 1, [b])) == FreeBag(bs) - FreeBag([bs[i]]) + FreeBag([b])
    ensures Live(Splice(bs, i, i + 1, [b])) == Live(bs) - Live([bs[i]]) + Live([b])
  {
    TakeWholeTiled(bs, lo, hi, i, b);
    SumsSpliceAt(bs, HEADER, i, [b]);
    LiveSpliceAt(bs, HEADER, lo, hi, i, [b]);
  }

  lemma TakeWholeTiled(bs: seq<Block>, lo: nat, hi: nat, i: nat, b: Block)
    requires Tiled(bs, HEADER, lo, hi) && Shaped(bs)
    requires i < |bs| && !bs[i].used && b == bs[i].(used := true)
    ensures i + 1 < |bs|
    ensures Tiled(Splice(bs, i, i + 1, [b]), HEADER, lo, hi)
    ensures Shaped(Splice(bs, i, i + 1, [b]))
  {
    assert bs[i + 1].used && End(bs[i], HEADER) == bs[i + 1].addr;
    TiledSplice(bs, HEADER, lo, hi, i, i + 1, [b]);
    ShapedSplice(bs, i, i + 1, [b]);
  }

  lemma SumsOfOne(b: Block)
    ensures FreeSum([b]) == if b.used then 0 else b.size
    ensures FreeBag([b]) == if b.used then multiset{} else multiset{b.addr}
    ensures Live([b]) == if b.used then {b} else {}
  {
    assert [b][1..] == [];
  }

  lemma SumsOfPair(a: Block, b: Block)
    ensures FreeSum([a, b]) == FreeSum([a]) + FreeSum([b])
    ensures FreeBag([a, b]) == FreeBag([a]) + FreeBag([b])
    ensures Live([a, b]) == Live([a]) + Live([b])
  {
    assert [a, b] == [a] + [b];
    FreeSumConcat([a], [b]);
    FreeBagConcat([a], [b]);
    LiveConcat([a], [b]);
  }

  /** The room of the block that starts at `a`, found from the blocks. */
  ghost function SizeAt(bs: seq<Block>, a: nat): nat {
    if bs == [] then 0 else if bs[0].addr == a then bs[0].size else SizeAt(bs[1..], a)
  }

  /** The first node of the free list whose block has room for `want` (or |fl|). */
  ghost function FirstFit(bs: seq<Block>, fl: seq<nat>, want: nat): nat {
    if fl == [] then 0 else if SizeAt(bs, fl[0]) >= want then 0 else 1 + FirstFit(bs, fl[1..], want)
  }

  lemma {:induction false} SizeAtIs(bs: seq<Block>, lo: nat, hi: nat, i: nat)
    requires Tiled(bs, HEADER, lo, hi) && i < |bs|
    ensures SizeAt(bs, bs[i].addr) == bs[i].size
  {
    if i > 0 {
      Ordered(bs, HEADER, lo, hi, 0, i);
      SizeAtIs(bs[1..], bs[1].addr, hi, i - 1);
    }
  }

  lemma {:induction false} FirstFitIs(bs: seq<Block>, fl: seq<nat>, want: nat, k: nat)
    requires k <= |fl|
    requires forall q :: 0 <= q < k ==> SizeAt(bs, fl[q]) < want
    requires k < |fl| ==> SizeAt(bs, fl[k]) >= want
    ensures FirstFit(bs, fl, want) == k
  {
    if k > 0 {
      assert SizeAt(bs, fl[0]) < want;
      FirstFitIs(bs, fl[1..], want, k - 1);
    }
  }

  /** The words that 32-bit addresses reach, and the sizes that rt_size_t holds. */
  const SPACE: nat := 0x4000_0000

  type Size = n: nat | n < 0x1_0000_0000

  /** A sum of sizes, in words: the byte counts are taken modulo 2^32. */
  function Wrapped(words: nat): (w: nat)
    ensures w < SPACE && (words < SPACE ==> w == words)
    ensures SPACE <= words < 2 * SPACE ==> w == words - SPACE
  {
    words % SPACE
  }

  /** A request of `bytes` in words: aligned, and at least the smallest block.  RT_ALIGN wraps for
      the last three sizes, and only then is the aligned size too small. */
  function Want(bytes: Size): (w: nat)
    ensures MIN_ALLOC <= w < SPACE
    ensures 4 * w >= bytes <==> bytes <= 0xffff_fffc
    ensures bytes <= 0xffff_fffc && w > MIN_ALLOC ==> 4 * (w - 1) < bytes
  {
    var aligned := (bytes + 3) % 0x1_0000_0000 / 4;
    if aligned < MIN_ALLOC then MIN_ALLOC else aligned
  }

  /** A multiple of four is aligned already. */
  lemma WantAligned(words: nat)
    requires MIN_ALLOC <= words < SPACE
    ensures Want(4 * words) == words
  {
  }

  /** The requests at which the size test of rt_memheap_realloc wraps. */
  lemma TestWraps(bytes: Size)
    ensures Want(bytes) + MIN_ALLOC >= SPACE <==> 0xffff_fff0 < bytes <= 0xffff_fffc
  {
  }

  /** The inputs at which the sizes wrap: the largest request is served with 12 bytes, and behind
      the aligned size 0xfffffff4 there seems to be no room needed at all. */
  lemma SizesWrap()
    ensures Want(0xffff_ffff) == MIN_ALLOC
    ensures Want(0xffff_fff4) == SPACE - MIN_ALLOC && Wrapped(Want(0xffff_fff4) + MIN_ALLOC) == 0
  {
  }

  lemma QuietThen(m: seq<int>, n: seq<int>, o: seq<int>, live: set<Block>, s: Shape)
    requires RoomsKept(m, n, live) && RoomsKept(n, o, live)
    requires OthersKept(m, n, s) && OthersKept(n, o, s)
    ensures RoomsKept(m, o, live) && OthersKept(m, o, s)
  {
    forall b | b in live
      ensures SameRoom(m, o, b)
    {
      assert SameRoom(m, n, b) && SameRoom(n, o, b);
    }
  }

  // ---- allocation ----

  /** A free list node taken out is a node no more. */
  lemma TakenOut(m: seq<int>, s: Shape, k: nat)
    requires Woven(m, s) && k < |s.fl|
    ensures NotANode(s.fh, Without(s.fl, k), s.fl[k])
  {
    NodesDistinct(|m|, s.fh, s.fl, k);
    var r := Without(s.fl, k);
    forall x: nat | x <= |r| + 1
      ensures Node(s.fh, r, x) != s.fl[k]
    {
      assert Node(s.fh, r, x) == Node(s.fh, s.fl, if x <= k then x else x + 1);
    }
  }

  /** Taking free block `i` (node `k`) out of the free list and clearing its links. */
  lemma TakeOutPath(m: seq<int>, s: Shape, i: nat, k: nat)
    requires Woven(m, s) && i < |s.bs| && k < |s.fl| && s.fl[k] == s.bs[i].addr
    ensures UnlinkSafe(m, s.fl[k])
    ensures In(UnlinkMem(m, s.fl[k]), s.fl[k] + 5)
    ensures Woven(ClearMem(UnlinkMem(m, s.fl[k]), s.fl[k]), s.(fl := Without(s.fl, k)))
    ensures RoomsKept(m, ClearMem(UnlinkMem(m, s.fl[k]), s.fl[k]), Live(s.bs))
    ensures OthersKept(m, ClearMem(UnlinkMem(m, s.fl[k]), s.fl[k]), s)
  {
    var m1, s1 := UnlinkMem(m, s.fl[k]), s.(fl := Without(s.fl, k));
    UnlinkStep(m, s, k);
    TakenOut(m, s, k);
    ClearStep(m1, s1, i);
    QuietThen(m, m1, ClearMem(m1, s.fl[k]), Live(s.bs), s);
  }

  /** A free block large enough is taken whole. */
  lemma AllocWholePath(m: seq<int>, m2: seq<int>, s: Shape, i: nat, k: nat)
    requires HeapOk(m, s) && i < |s.bs| && k < |s.fl| && s.fl[k] == s.bs[i].addr && !s.bs[i].used
    requires m2 == ClearMem(UnlinkMem(m, s.fl[k]), s.fl[k])
    ensures i + 1 < |s.bs| && In(m2, s.fl[k])
    ensures HeapOk(MarkMem(m2, s.fl[k], true), Marked(s.(fl := Without(s.fl, k)), i, true))
    ensures Live(Marked(s, i, true).bs) == Live(s.bs) + {s.bs[i].(used := true)}
    ensures FreeSum(Marked(s, i, true).bs) == FreeSum(s.bs) - s.bs[i].size
    ensures RoomsKept(m, MarkMem(m2, s.fl[k], true), Live(s.bs)) && OthersKept(m, MarkMem(m2, s.fl[k], true), s)
  {
    TakeOutPath(m, s, i, k);
    TakeWholeShape(s.bs, s.fl, s.lo, s.hi, i, k);
    MarkStep(m2, s.(fl := Without(s.fl, k)), i, true);
    QuietThen(m, m2, MarkMem(m2, s.fl[k], true), Live(s.bs), s);
  }

  /** First half of an allocation that splits: a header is made at `q` behind the request,
      and the block leaves the free list. */
  lemma CarvePath(m: seq<int>, m1: seq<int>, s: Shape, i: nat, k: nat, q: nat)
    requires HeapOk(m, s) && i + 1 < |s.bs| && k < |s.fl| && s.fl[k] == s.bs[i].addr && !s.bs[i].used
    requires s.bs[i].addr + HEADER <= q && q + HEADER <= End(s.bs[i], HEADER)
    requires m1 == SplitMem(m, s.id, s.fl[k], q)
    ensures SplitSafe(m, s.fl[k], q)
    ensures UnlinkSafe(m1, s.fl[k])
    ensures In(UnlinkMem(m1, s.fl[k]), s.fl[k] + 5)
    ensures Woven(ClearMem(UnlinkMem(m1, s.fl[k]), s.fl[k]), Halved(s, i, q).(fl := Without(s.fl, k)))
    ensures NotANode(s.fh, Without(s.fl, k), q)
    ensures Live(Halved(s, i, q).bs) == Live(s.bs)
    ensures RoomsKept(m, ClearMem(UnlinkMem(m1, s.fl[k]), s.fl[k]), Live(s.bs))
    ensures OthersKept(m, ClearMem(UnlinkMem(m1, s.fl[k]), s.fl[k]), s)
  {
    SplitStep(m, s, i, q);
    var s1 := Halved(s, i, q);
    assert s1.bs[i].addr == s.fl[k];
    TakeOutPath(m1, s1, i, k);
    WithoutKeepsClear(s.bs, s.fh, s.fl, k);
    HalvedLive(s, i, q);
    QuietThen(m, m1, ClearMem(UnlinkMem(m1, s.fl[k]), s.fl[k]), Live(s.bs), s);
  }

  lemma HalvedLive(s: Shape, i: nat, q: nat)
    requires Tiled(s.bs, HEADER, s.lo, s.hi) && i < |s.bs| && !s.bs[i].used
    requires s.bs[i].addr + HEADER <= q && q + HEADER <= End(s.bs[i], HEADER)
    ensures Live(Halved(s, i, q).bs) == Live(s.bs)
  {
    var h := Halves(s.bs[i], q);
    LiveSplice(s.bs, HEADER, s.lo, s.hi, i, i + 1, h);
    assert s.bs[i..i + 1] == [s.bs[i]];
    SumsOfOne(s.bs[i]);
    SumsOfPair(h[0], h[1]);
    SumsOfOne(h[0]);
    SumsOfOne(h[1]);
  }

  /** The shape after an allocation that splits. */
  ghost function Carved(s: Shape, i: nat, k: nat, q: nat): Shape
    requires i < |s.bs| && k < |s.fl| && s.bs[i].addr + HEADER <= q && q + HEADER <= End(s.bs[i], HEADER)
  {
    s.(bs := Splice(s.bs, i, i + 1, [Front(s.bs[i], q), Rest(s.bs[i], q)]), fl := [q] + Without(s.fl, k))
  }

  ghost function Front(b: Block, q: nat): Block
    requires b.addr + HEADER <= q
  {
    Block(b.addr, q - b.addr - HEADER, true)
  }

  ghost function Rest(b: Block, q: nat): Block
    requires q + HEADER <= End(b, HEADER)
  {
    Block(q, End(b, HEADER) - q - HEADER, false)
  }

  lemma CarvedIs(s: Shape, i: nat, k: nat, q: nat)
    requires i < |s.bs| && k < |s.fl| && s.bs[i].addr + HEADER <= q && q + HEADER <= End(s.bs[i], HEADER)
    ensures i < |Halved(s, i, q).bs|
    ensures Marked(Halved(s, i, q).(fl := [q] + Without(s.fl, k)), i, true) == Carved(s, i, k, q)
  {
    var h := Halves(s.bs[i], q);
    var r := Halved(s, i, q).bs;
    assert r[..i] == s.bs[..i] && r[i + 1..] == [h[1]] + s.bs[i + 1..];
    assert [r[i].(used := true)] + ([h[1]] + s.bs[i + 1..])
        == [Front(s.bs[i], q), Rest(s.bs[i], q)] + s.bs[i + 1..];
  }

  lemma CarvedShape(s: Shape, i: nat, k: nat, q: nat)
    requires Tiled(s.bs, HEADER, s.lo, s.hi) && Shaped(s.bs) && FreeExactly(s.bs, s.fl)
    requires i + 1 < |s.bs| && k < |s.fl| && s.fl[k] == s.bs[i].addr && !s.bs[i].used
    requires s.bs[i].addr + HEADER + MIN_ALLOC <= q && q + HEADER + MIN_ALLOC <= End(s.bs[i], HEADER)
    ensures Shaped(Carved(s, i, k, q).bs)
    ensures FreeExactly(Carved(s, i, k, q).bs, Carved(s, i, k, q).fl)
    ensures FreeSum(Carved(s, i, k, q).bs) == FreeSum(s.bs) - (q - s.fl[k])
    ensures Live(Carved(s, i, k, q).bs) == Live(s.bs) + {Front(s.bs[i], q)}
  {
    TakeSplitShape(s.bs, s.fl, s.lo, s.hi, i, k, Front(s.bs[i], q), Rest(s.bs[i], q));
  }

  /** Second half: the rest goes to the free list and the block is marked. */
  lemma CarveDonePath(m: seq<int>, m3: seq<int>, s: Shape, i: nat, k: nat, q: nat)
    requires i + 1 < |s.bs| && k < |s.fl| && s.fl[k] == s.bs[i].addr && !s.bs[i].used
    requires s.bs[i].addr + HEADER <= q && q + HEADER <= End(s.bs[i], HEADER)
    requires Woven(m3, Halved(s, i, q).(fl := Without(s.fl, k))) && NotANode(s.fh, Without(s.fl, k), q)
    requires Live(Halved(s, i, q).bs) == Live(s.bs)
    requires Live(Carved(s, i, k, q).bs) == Live(s.bs) + {Front(s.bs[i], q)}
    requires RoomsKept(m, m3, Live(s.bs)) && OthersKept(m, m3, s)
    ensures PushSafe(m3, s.fh, q)
    ensures In(PushMem(m3, s.fh, q), s.fl[k])
    ensures Woven(MarkMem(PushMem(m3, s.fh, q), s.fl[k], true), Carved(s, i, k, q))
    ensures RoomsKept(m, MarkMem(PushMem(m3, s.fh, q), s.fl[k], true), Live(s.bs))
    ensures OthersKept(m, MarkMem(PushMem(m3, s.fh, q), s.fl[k], true), s)
  {
    var s3 := Halved(s, i, q).(fl := Without(s.fl, k));
    assert s3.bs[i].addr == s.fl[k] && s3.bs[i + 1].addr == q;
    PushStep(m3, s3, i + 1);
    var m4, s4 := PushMem(m3, s.fh, q), s3.(fl := [q] + s3.fl);
    QuietThen(m, m3, m4, Live(s.bs), s);
    CarveMarked(m, m4, s, s4, i, k, q);
  }

  lemma CarveMarked(m: seq<int>, m4: seq<int>, s: Shape, s4: Shape, i: nat, k: nat, q: nat)
    requires i + 1 < |s.bs| && k < |s.fl| && s.fl[k] == s.bs[i].addr && !s.bs[i].used
    requires s.bs[i].addr + HEADER <= q && q + HEADER <= End(s.bs[i], HEADER)
    requires s4 == Halved(s, i, q).(fl := [q] + Without(s.fl, k)) && Woven(m4, s4)
    requires Live(s4.bs) == Live(s.bs)
    requires RoomsKept(m, m4, Live(s.bs)) && OthersKept(m, m4, s)
    ensures In(m4, s.fl[k]) && Woven(MarkMem(m4, s.fl[k], true), Carved(s, i, k, q))
    ensures RoomsKept(m, MarkMem(m4, s.fl[k], true), Live(s.bs)) && OthersKept(m, MarkMem(m4, s.fl[k], true), s)
  {
    MarkStep(m4, s4, i, true);
    CarvedIs(s, i, k, q);
    QuietThen(m, m4, MarkMem(m4, s.fl[k], true), Live(s.bs), s);
  }
}
