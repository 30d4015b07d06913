/** Coalescing in memheap.c: rt_memheap_free marks a block and merges it with free
    neighbours, rt_memheap_realloc splits or grows a block in place.  In between, one free
    block (the pivot) may still have free neighbours and may still be missing from the
    free list. */
module MemHeapMerge {
  import opened Tiling
  import opened MemHeapWords
  import opened MemHeapSteps
  import opened MemHeapOps

  /** Free block `h` may have free neighbours, and the free blocks with addresses in
      `missing` are not in the free list yet; all else is as between operations. */
  ghost predicate Pending(s: Shape, h: nat, missing: multiset<nat>) {
    && Tiled(s.bs, HEADER, s.lo, s.hi)
    && h + 1 < |s.bs| && !s.bs[h].used
    && s.bs[|s.bs| - 1].used && s.bs[|s.bs| - 1].size == 0
    && (forall i :: 0 <= i < |s.bs| - 1 ==> s.bs[i].size >= MIN_ALLOC)
    && (forall i, j :: 0 <= i && j == i + 1 && j < |s.bs| ==> s.bs[i].used || s.bs[j].used || i == h || j == h)
    && multiset(s.fl) + missing == FreeBag(s.bs)
  }

  lemma PendingDone(s: Shape, h: nat)
    requires Pending(s, h, multiset{})
    requires h == 0 || s.bs[h - 1].used
    requires s.bs[h + 1].used
    ensures Shaped(s.bs) && FreeExactly(s.bs, s.fl)
  {
  }

  lemma PendingPush(s: Shape, h: nat)
    requires h < |s.bs| && Pending(s, h, multiset{s.bs[h].addr})
    ensures Pending(s.(fl := [s.bs[h].addr] + s.fl), h, multiset{})
  {
  }

  /** An address that is missing from the free list is no node of it. */
  lemma MissingIsNoNode(s: Shape, h: nat)
    requires h < |s.bs| && Pending(s, h, multiset{s.bs[h].addr})
    requires s.fh + HEADER <= s.lo || s.hi <= s.fh
    ensures NotANode(s.fh, s.fl, s.bs[h].addr)
  {
    FreeBagOnce(s.bs, HEADER, s.lo, s.hi, s.bs[h].addr);
    OrderedAll(s.bs, HEADER, s.lo, s.hi);
    assert s.bs[h].addr !in multiset(s.fl);
    forall x: nat | x <= |s.fl| + 1
      ensures Node(s.fh, s.fl, x) != s.bs[h].addr
    {
      if 1 <= x <= |s.fl| { assert s.fl[x - 1] in multiset(s.fl); }
    }
  }

  /** Marking block `i` free makes it the pivot. */
  lemma FreedPending(s: Shape, i: nat)
    requires Tiled(s.bs, HEADER, s.lo, s.hi) && Shaped(s.bs) && FreeExactly(s.bs, s.fl)
    requires i + 1 < |s.bs| && s.bs[i].used
    ensures Pending(Marked(s, i, false), i, multiset{s.bs[i].addr})
    ensures FreeSum(Marked(s, i, false).bs) == FreeSum(s.bs) + s.bs[i].size
    ensures Live(Marked(s, i, false).bs) == Live(s.bs) - {s.bs[i]}
  {
    var b := s.bs[i].(used := false);
    assert End(s.bs[i], HEADER) == s.bs[i + 1].addr;
    TiledSpliceOne(s.bs, s.lo, s.hi, i, i + 1, b);
    FreedSums(s, i, b);
    FreedRest(s.bs, i, Marked(s, i, false).bs);
  }

  lemma FreedRest(bs: seq<Block>, i: nat, r: seq<Block>)
    requires Shaped(bs) && i + 1 < |bs| && r == Splice(bs, i, i + 1, [bs[i].(used := false)])
    ensures |r| == |bs| && !r[i].used && r[|r| - 1].used && r[|r| - 1].size == 0
    ensures forall k :: 0 <= k < |r| - 1 ==> r[k].size >= MIN_ALLOC
    ensures forall k, l :: 0 <= k && l == k + 1 && l < |r| ==> r[k].used || r[l].used || k == i || l == i
  {
    assert forall k {:trigger r[k]} :: 0 <= k < |r| ==> r[k] == if k == i then bs[i].(used := false) else bs[k];
  }

  lemma FreedSums(s: Shape, i: nat, b: Block)
    requires Tiled(s.bs, HEADER, s.lo, s.hi) && i < |s.bs| && s.bs[i].used && b == s.bs[i].(used := false)
    ensures FreeSum(Splice(s.bs, i, i + 1, [b])) == FreeSum(s.bs) + b.size
    ensures FreeBag(Splice(s.bs, i, i + 1, [b])) == FreeBag(s.bs) + multiset{b.addr}
    ensures Live(Splice(s.bs, i, i + 1, [b])) == Live(s.bs) - {s.bs[i]}
  {
    assert s.bs[i..i + 1] == [s.bs[i]];
    SumsSplice(s.bs, HEADER, i, i + 1, [b]);
    LiveSplice(s.bs, HEADER, s.lo, s.hi, i, i + 1, [b]);
    SumsOfOne(b);
    SumsOfOne(s.bs[i]);
  }

  /** Joining the two free blocks `a` and `a + 1`, one of which is the pivot. */
  lemma JoinShape(s: Shape, h: nat, missing: multiset<nat>, a: nat)
    requires Pending(s, h, missing) && a + 2 < |s.bs| && (h == a || h == a + 1)
    requires !s.bs[a].used && !s.bs[a + 1].used
    ensures Tiled(Joined(s, a).bs, HEADER, s.lo, s.hi)
    ensures FreeBag(Joined(s, a).bs) == FreeBag(s.bs) - multiset{s.bs[a + 1].addr}
    ensures s.bs[a + 1].addr in FreeBag(s.bs)
    ensures FreeSum(Joined(s, a).bs) == FreeSum(s.bs) + HEADER
    ensures Live(Joined(s, a).bs) == Live(s.bs)
  {
    JoinedEnd(s, a);
    TiledSpliceOne(s.bs, s.lo, s.hi, a, a + 2, JoinedBlock(s.bs[a], s.bs[a + 1]));
    JoinSums(s, a);
    FreeBagHas(s.bs, a + 1);
  }

  lemma JoinSums(s: Shape, a: nat)
    requires Tiled(s.bs, HEADER, s.lo, s.hi) && a + 2 < |s.bs| && !s.bs[a].used && !s.bs[a + 1].used
    ensures FreeBag(Joined(s, a).bs) == FreeBag(s.bs) - multiset{s.bs[a + 1].addr}
    ensures FreeSum(Joined(s, a).bs) == FreeSum(s.bs) + HEADER
    ensures Live(Joined(s, a).bs) == Live(s.bs)
  {
    var b := JoinedBlock(s.bs[a], s.bs[a + 1]);
    JoinSplice(s, a);
    SumsOfPair(s.bs[a], s.bs[a + 1]);
    SumsOfOne(s.bs[a]);
    SumsOfOne(s.bs[a + 1]);
    SumsOfOne(b);
  }

  lemma JoinSplice(s: Shape, a: nat)
    requires Tiled(s.bs, HEADER, s.lo, s.hi) && a + 2 < |s.bs|
    ensures var (x, y) := (s.bs[a], s.bs[a + 1]); var b := JoinedBlock(x, y);
      && FreeBag([x, y]) <= FreeBag(s.bs)
      && FreeBag(Joined(s, a).bs) == FreeBag(s.bs) - FreeBag([x, y]) + FreeBag([b])
      && FreeSum(Joined(s, a).bs) == FreeSum(s.bs) - FreeSum([x, y]) + FreeSum([b])
      && Live(Joined(s, a).bs) == Live(s.bs) - Live([x, y]) + Live([b])
  {
    var b := JoinedBlock(s.bs[a], s.bs[a + 1]);
    assert s.bs[a..a + 2] == [s.bs[a], s.bs[a + 1]];
    SumsSplice(s.bs, HEADER, a, a + 2, [b]);
    LiveSplice(s.bs, HEADER, s.lo, s.hi, a, a + 2, [b]);
  }

  lemma JoinedAt(bs: seq<Block>, a: nat, b: Block)
    requires a + 2 < |bs|
    ensures var r := Splice(bs, a, a + 2, [b]);
      |r| == |bs| - 1 && forall k {:trigger r[k]} :: 0 <= k < |r| ==>
        r[k] == if k < a then bs[k] else if k == a then b else bs[k + 1]
  {
  }

  lemma JoinRest(s: Shape, h: nat, missing: multiset<nat>, a: nat, r: seq<Block>)
    requires Pending(s, h, missing) && a + 2 < |s.bs| && (h == a || h == a + 1)
    requires !s.bs[a].used && !s.bs[a + 1].used
    requires |r| == |s.bs| - 1 && forall k {:trigger r[k]} :: 0 <= k < |r| ==>
      r[k] == if k < a then s.bs[k] else if k == a then JoinedBlock(s.bs[a], s.bs[a + 1]) else s.bs[k + 1]
    ensures r[|r| - 1].used && r[|r| - 1].size == 0 && !r[a].used
    ensures forall i :: 0 <= i < |r| - 1 ==> r[i].size >= MIN_ALLOC
    ensures forall i, j :: 0 <= i && j == i + 1 && j < |r| ==> r[i].used || r[j].used || i == a || j == a
  {
    forall i | 0 <= i < |r| - 1
      ensures r[i].size >= MIN_ALLOC
    {
      var o := if i <= a then i else i + 1;
      assert s.bs[o].size >= MIN_ALLOC;
    }
    forall i, j | 0 <= i && j == i + 1 && j < |r|
      ensures r[i].used || r[j].used || i == a || j == a
    {
      assert r[i] == if i < a then s.bs[i] else if i == a then JoinedBlock(s.bs[a], s.bs[a + 1]) else s.bs[i + 1];
      assert r[j] == if j < a then s.bs[j] else if j == a then JoinedBlock(s.bs[a], s.bs[a + 1]) else s.bs[j + 1];
      if j < a {
        assert s.bs[i].used || s.bs[j].used;
      } else if i > a {
        assert s.bs[i + 1].used || s.bs[j + 1].used;
      }
    }
  }

  lemma JoinAround(s: Shape, h: nat, missing: multiset<nat>, a: nat)
    requires Pending(s, h, missing) && a + 2 < |s.bs| && (h == a || h == a + 1)
    requires !s.bs[a].used && !s.bs[a + 1].used
    ensures var r := Joined(s, a).bs;
      && a + 1 < |r| && r[|r| - 1].used && r[|r| - 1].size == 0 && !r[a].used
      && (forall i :: 0 <= i < |r| - 1 ==> r[i].size >= MIN_ALLOC)
      && (forall i, j :: 0 <= i && j == i + 1 && j < |r| ==> r[i].used || r[j].used || i == a || j == a)
  {
    JoinedAt(s.bs, a, JoinedBlock(s.bs[a], s.bs[a + 1]));
    JoinRest(s, h, missing, a, Joined(s, a).bs);
  }

  lemma JoinPending(s: Shape, h: nat, missing: multiset<nat>, fl: seq<nat>, missing': multiset<nat>, a: nat)
    requires Pending(s, h, missing) && a + 2 < |s.bs| && (h == a || h == a + 1)
    requires !s.bs[a].used && !s.bs[a + 1].used
    requires multiset(fl) + missing' + multiset{s.bs[a + 1].addr} == multiset(s.fl) + missing
    ensures Pending(Joined(s, a).(fl := fl), a, missing')
  {
    JoinShape(s, h, missing, a);
    JoinAround(s, h, missing, a);
    var t := Joined(s, a).(fl := fl);
    assert multiset(t.fl) + missing' == FreeBag(t.bs) by {
      BagMoves(multiset(fl), missing', s.bs[a + 1].addr, FreeBag(s.bs), FreeBag(t.bs));
    }
    PendingIs(t, a, missing');
  }

  lemma PendingIs(t: Shape, h: nat, missing: multiset<nat>)
    requires Tiled(t.bs, HEADER, t.lo, t.hi) && multiset(t.fl) + missing == FreeBag(t.bs)
    requires var r := t.bs;
      && h + 1 < |r| && r[|r| - 1].used && r[|r| - 1].size == 0 && !r[h].used
      && (forall i :: 0 <= i < |r| - 1 ==> r[i].size >= MIN_ALLOC)
      && (forall i, j :: 0 <= i && j == i + 1 && j < |r| ==> r[i].used || r[j].used || i == h || j == h)
    ensures Pending(t, h, missing)
  {
  }

  lemma BagMoves(fl: multiset<nat>, missing: multiset<nat>, p: nat, was: multiset<nat>, bag: multiset<nat>)
    requires fl + missing + multiset{p} == was && bag == was - multiset{p}
    ensures fl + missing == bag
  {
  }

  // ---- the chains of steps ----

  /** The pivot goes to the free block before it: the shape. */
  lemma MergeLeftShape(s: Shape, h: nat)
    requires 0 < h < |s.bs| && Pending(s, h, multiset{s.bs[h].addr}) && !s.bs[h - 1].used
    ensures Pending(Joined(s, h - 1), h - 1, multiset{})
    ensures h == 1 || Joined(s, h - 1).bs[h - 2].used
    ensures Joined(s, h - 1).bs[h - 1].addr == s.bs[h - 1].addr
    ensures Live(Joined(s, h - 1).bs) == Live(s.bs)
    ensures FreeSum(Joined(s, h - 1).bs) == FreeSum(s.bs) + HEADER
  {
    JoinShape(s, h, multiset{s.bs[h].addr}, h - 1);
    JoinPending(s, h, multiset{s.bs[h].addr}, s.fl, multiset{}, h - 1);
    JoinedAt(s.bs, h - 1, JoinedBlock(s.bs[h - 1], s.bs[h]));
  }

  /** The same: the words. */
  lemma MergeLeftPath(m: seq<int>, s: Shape, h: nat)
    requires Woven(m, s) && 0 < h < |s.bs| && Pending(s, h, multiset{s.bs[h].addr}) && !s.bs[h - 1].used
    ensures JoinSafe(m, s.bs[h].addr)
    ensures Woven(JoinMem(m, s.bs[h].addr), Joined(s, h - 1))
    ensures Quiet(m, JoinMem(m, s.bs[h].addr), s)
  {
    MissingIsNoNode(s, h);
    JoinStep(m, s, h - 1);
    JoinShape(s, h, multiset{s.bs[h].addr}, h - 1);
  }

  /** The free block behind the pivot (node `k`) goes to the pivot: the shape. */
  lemma MergeRightShape(s: Shape, h: nat, missing: multiset<nat>, k: nat)
    requires h + 1 < |s.bs| && Pending(s, h, missing) && !s.bs[h + 1].used
    requires k < |s.fl| && s.fl[k] == s.bs[h + 1].addr
    ensures h + 2 < |s.bs|
    ensures Pending(Joined(s, h).(fl := Without(s.fl, k)), h, missing)
    ensures Joined(s, h).bs[h + 1].used && Joined(s, h).bs[h].addr == s.bs[h].addr
    ensures h > 0 ==> Joined(s, h).bs[h - 1] == s.bs[h - 1]
    ensures Live(Joined(s, h).bs) == Live(s.bs)
    ensures FreeSum(Joined(s, h).bs) == FreeSum(s.bs) + HEADER
  {
    assert s.bs[h + 2].used;
    JoinShape(s, h, missing, h);
    WithoutBag(s.fl, k);
    assert s.fl[k] in multiset(s.fl);
    JoinPending(s, h, missing, Without(s.fl, k), missing, h);
    JoinedAt(s.bs, h, JoinedBlock(s.bs[h], s.bs[h + 1]));
  }

  /** The same: the words. */
  lemma MergeRightPath(m: seq<int>, s: Shape, h: nat, k: nat)
    requires Woven(m, s) && h + 2 < |s.bs|
    requires k < |s.fl| && s.fl[k] == s.bs[h + 1].addr
    requires Live(Joined(s, h).bs) == Live(s.bs)
    ensures UnlinkSafe(m, s.fl[k])
    ensures JoinSafe(UnlinkMem(m, s.fl[k]), s.fl[k])
    ensures Woven(JoinMem(UnlinkMem(m, s.fl[k]), s.fl[k]), Joined(s, h).(fl := Without(s.fl, k)))
    ensures RoomsKept(m, JoinMem(UnlinkMem(m, s.fl[k]), s.fl[k]), Live(s.bs))
    ensures OthersKept(m, JoinMem(UnlinkMem(m, s.fl[k]), s.fl[k]), s)
  {
    UnlinkStep(m, s, k);
    TakenOut(m, s, k);
    var m1, s1 := UnlinkMem(m, s.fl[k]), s.(fl := Without(s.fl, k));
    JoinStep(m1, s1, h);
    QuietThen(m, m1, JoinMem(m1, s.fl[k]), Live(s.bs), s);
  }

  // ---- changing a block in place ----

  lemma HalvedAt(s: Shape, i: nat, q: nat)
    requires i < |s.bs| && s.bs[i].addr + HEADER <= q && q + HEADER <= End(s.bs[i], HEADER)
    ensures var r := Halved(s, i, q).bs;
      |r| == |s.bs| + 1 && forall k {:trigger r[k]} :: 0 <= k < |r| ==>
        r[k] == if k < i then s.bs[k] else if k <= i + 1 then Halves(s.bs[i], q)[k - i] else s.bs[k - 1]
  {
  }

  lemma HalvedSums(s: Shape, i: nat, q: nat)
    requires Tiled(s.bs, HEADER, s.lo, s.hi) && i + 1 < |s.bs| && s.bs[i].used
    requires s.bs[i].addr + HEADER <= q && q + HEADER <= End(s.bs[i], HEADER)
    ensures Tiled(Halved(s, i, q).bs, HEADER, s.lo, s.hi)
    ensures FreeBag(Halved(s, i, q).bs) == FreeBag(s.bs) + multiset{q}
    ensures FreeSum(Halved(s, i, q).bs) == FreeSum(s.bs) + Rest(s.bs[i], q).size
    ensures Live(Halved(s, i, q).bs) == Live(s.bs) - {s.bs[i]} + {Front(s.bs[i], q)}
  {
    HalvedTiled(s, i, q);
    SumsSpliceAt(s.bs, HEADER, i, Halves(s.bs[i], q));
    LiveSpliceAt(s.bs, HEADER, s.lo, s.hi, i, Halves(s.bs[i], q));
    HalvesSums(s.bs[i], q);
  }

  lemma HalvedTiled(s: Shape, i: nat, q: nat)
    requires Tiled(s.bs, HEADER, s.lo, s.hi) && i + 1 < |s.bs|
    requires s.bs[i].addr + HEADER <= q && q + HEADER <= End(s.bs[i], HEADER)
    ensures Tiled(Halved(s, i, q).bs, HEADER, s.lo, s.hi)
  {
    var h := Halves(s.bs[i], q);
    assert End(s.bs[i], HEADER) == s.bs[i + 1].addr;
    TiledSpliceTwo(s.bs, s.lo, s.hi, i, i + 1, h[0], h[1]);
  }

  lemma HalvesSums(b: Block, q: nat)
    requires b.used && b.addr + HEADER <= q && q + HEADER <= End(b, HEADER)
    ensures FreeBag([b]) == multiset{} && FreeBag(Halves(b, q)) == multiset{q}
    ensures FreeSum([b]) == 0 && FreeSum(Halves(b, q)) == Rest(b, q).size
    ensures Live([b]) == {b} && Live(Halves(b, q)) == {Front(b, q)}
  {
    var h := Halves(b, q);
    SumsOfPair(h[0], h[1]);
    SumsOfOne(h[0]);
    SumsOfOne(h[1]);
    SumsOfOne(b);
  }

  /** Cutting a used block in two leaves its rest as the pivot. */
  lemma HalvedPending(s: Shape, i: nat, q: nat)
    requires Tiled(s.bs, HEADER, s.lo, s.hi) && Shaped(s.bs) && FreeExactly(s.bs, s.fl)
    requires i + 1 < |s.bs| && s.bs[i].used
    requires s.bs[i].addr + HEADER + MIN_ALLOC <= q && q + HEADER + MIN_ALLOC <= End(s.bs[i], HEADER)
    ensures Pending(Halved(s, i, q), i + 1, multiset{q})
    ensures Halved(s, i, q).bs[i].used && Halved(s, i, q).bs[i + 1].addr == q
    ensures Halved(s, i, q).bs[i + 2] == s.bs[i + 1]
  {
    HalvedSums(s, i, q);
    HalvedAt(s, i, q);
    HalvedRest(s, i, q, Halved(s, i, q).bs);
  }

  lemma HalvedRest(s: Shape, i: nat, q: nat, r: seq<Block>)
    requires Shaped(s.bs) && i + 1 < |s.bs| && s.bs[i].used
    requires s.bs[i].addr + HEADER + MIN_ALLOC <= q && q + HEADER + MIN_ALLOC <= End(s.bs[i], HEADER)
    requires |r| == |s.bs| + 1 && forall k {:trigger r[k]} :: 0 <= k < |r| ==>
      r[k] == if k < i then s.bs[k] else if k <= i + 1 then Halves(s.bs[i], q)[k - i] else s.bs[k - 1]
    ensures r[i].used && r[i + 1].addr == q && !r[i + 1].used && r[i + 2] == s.bs[i + 1]
    ensures r[|r| - 1].used && r[|r| - 1].size == 0
    ensures forall k :: 0 <= k < |r| - 1 ==> r[k].size >= MIN_ALLOC
    ensures forall k, l :: 0 <= k && l == k + 1 && l < |r| ==> r[k].used || r[l].used || k == i + 1 || l == i + 1
  {
    forall k | 0 <= k < |r| - 1
      ensures r[k].size >= MIN_ALLOC
    {
      assert k < i ==> s.bs[k].size >= MIN_ALLOC;
      assert k > i + 1 ==> s.bs[k - 1].size >= MIN_ALLOC;
    }
    forall k, l | 0 <= k && l == k + 1 && l < |r|
      ensures r[k].used || r[l].used || k == i + 1 || l == i + 1
    {
      if l < i {
        assert s.bs[k].used || s.bs[l].used;
      } else if k > i + 1 {
        assert s.bs[k - 1].used || s.bs[l - 1].used;
      }
    }
  }

  /** A used block takes over the free block behind it (node `k`). */
  lemma AbsorbShape(s: Shape, i: nat, k: nat)
    requires Tiled(s.bs, HEADER, s.lo, s.hi) && Shaped(s.bs) && FreeExactly(s.bs, s.fl)
    requires i + 1 < |s.bs| && s.bs[i].used && !s.bs[i + 1].used && k < |s.fl| && s.fl[k] == s.bs[i + 1].addr
    ensures i + 2 < |s.bs| && s.bs[i + 2].used
    ensures Tiled(Joined(s, i).bs, HEADER, s.lo, s.hi)
    ensures Shaped(Joined(s, i).bs) && FreeExactly(Joined(s, i).bs, Without(s.fl, k))
    ensures FreeSum(Joined(s, i).bs) == FreeSum(s.bs) - s.bs[i + 1].size
    ensures Live(Joined(s, i).bs) == Live(s.bs) - {s.bs[i]} + {JoinedBlock(s.bs[i], s.bs[i + 1])}
  {
    assert s.bs[i + 2].used;
    AbsorbTiled(s, i);
    AbsorbSums(s, i);
    WithoutBag(s.fl, k);
  }

  lemma AbsorbTiled(s: Shape, i: nat)
    requires Tiled(s.bs, HEADER, s.lo, s.hi) && Shaped(s.bs)
    requires i + 2 < |s.bs| && s.bs[i].used && !s.bs[i + 1].used && s.bs[i + 2].used
    ensures Tiled(Joined(s, i).bs, HEADER, s.lo, s.hi) && Shaped(Joined(s, i).bs)
  {
    var b := JoinedBlock(s.bs[i], s.bs[i + 1]);
    JoinedEnd(s, i);
    TiledSpliceOne(s.bs, s.lo, s.hi, i, i + 2, b);
    ShapedSplice(s.bs, i, i + 2, [b]);
  }

  lemma AbsorbSums(s: Shape, i: nat)
    requires Tiled(s.bs, HEADER, s.lo, s.hi) && i + 2 < |s.bs| && s.bs[i].used && !s.bs[i + 1].used
    ensures FreeSum(Joined(s, i).bs) == FreeSum(s.bs) - s.bs[i + 1].size
    ensures FreeBag(Joined(s, i).bs) == FreeBag(s.bs) - multiset{s.bs[i + 1].addr}
    ensures Live(Joined(s, i).bs) == Live(s.bs) - {s.bs[i]} + {JoinedBlock(s.bs[i], s.bs[i + 1])}
  {
    var b := JoinedBlock(s.bs[i], s.bs[i + 1]);
    JoinSplice(s, i);
    SumsOfPair(s.bs[i], s.bs[i + 1]);
    SumsOfOne(s.bs[i]);
    SumsOfOne(s.bs[i + 1]);
    SumsOfOne(b);
  }

  /** Rooms inside rooms that were kept are kept. */
  lemma RoomsInside(m: seq<int>, n: seq<int>, live: set<Block>, inner: set<Block>)
    requires RoomsKept(m, n, live)
    requires forall b :: b in inner ==> exists c :: c in live && c.addr <= b.addr && End(b, HEADER) <= End(c, HEADER)
    ensures RoomsKept(m, n, inner)
  {
    forall b | b in inner
      ensures SameRoom(m, n, b)
    {
      var c :| c in live && c.addr <= b.addr && End(b, HEADER) <= End(c, HEADER);
      assert SameRoom(m, n, c);
    }
  }

  /** A used block takes over the free block behind it: the words. */
  lemma AbsorbPath(m: seq<int>, s: Shape, i: nat, k: nat)
    requires Woven(m, s) && i + 2 < |s.bs| && k < |s.fl| && s.fl[k] == s.bs[i + 1].addr
    requires Live(Joined(s, i).bs) == Live(s.bs) - {s.bs[i]} + {JoinedBlock(s.bs[i], s.bs[i + 1])}
    ensures UnlinkSafe(m, s.fl[k])
    ensures JoinSafe(UnlinkMem(m, s.fl[k]), s.fl[k])
    ensures Woven(JoinMem(UnlinkMem(m, s.fl[k]), s.fl[k]), Joined(s, i).(fl := Without(s.fl, k)))
    ensures RoomsKept(m, JoinMem(UnlinkMem(m, s.fl[k]), s.fl[k]), Live(s.bs))
    ensures OthersKept(m, JoinMem(UnlinkMem(m, s.fl[k]), s.fl[k]), s)
  {
    UnlinkStep(m, s, k);
    TakenOut(m, s, k);
    var m1, s1 := UnlinkMem(m, s.fl[k]), s.(fl := Without(s.fl, k));
    JoinStep(m1, s1, i);
    AbsorbQuiet(m, m1, JoinMem(m1, s.fl[k]), s, i);
  }

  lemma AbsorbQuiet(m: seq<int>, m1: seq<int>, n: seq<int>, s: Shape, i: nat)
    requires i + 2 < |s.bs|
    requires Live(Joined(s, i).bs) == Live(s.bs) - {s.bs[i]} + {JoinedBlock(s.bs[i], s.bs[i + 1])}
    requires RoomsKept(m, m1, Live(s.bs)) && RoomsKept(m1, n, Live(Joined(s, i).bs))
    requires OthersKept(m, m1, s) && OthersKept(m1, n, s)
    ensures RoomsKept(m, n, Live(s.bs)) && OthersKept(m, n, s)
  {
    JoinedCovers(s, i);
    RoomsInside(m1, n, Live(Joined(s, i).bs), Live(s.bs));
    QuietThen(m, m1, n, Live(s.bs), s);
  }

  lemma JoinedCovers(s: Shape, i: nat)
    requires i + 1 < |s.bs|
    requires Live(Joined(s, i).bs) == Live(s.bs) - {s.bs[i]} + {JoinedBlock(s.bs[i], s.bs[i + 1])}
    ensures forall b :: b in Live(s.bs) ==>
      exists c :: c in Live(Joined(s, i).bs) && c.addr <= b.addr && End(b, HEADER) <= End(c, HEADER)
  {
    forall b | b in Live(s.bs)
      ensures exists c :: c in Live(Joined(s, i).bs) && c.addr <= b.addr && End(b, HEADER) <= End(c, HEADER)
    {
      var c := if b == s.bs[i] then JoinedBlock(s.bs[i], s.bs[i + 1]) else b;
      assert c in Live(Joined(s, i).bs);
    }
  }

  // ---- writing into a room ----

  /** Memory changed only inside the room of `b`. */
  ghost predicate RoomWritten(m: seq<int>, n: seq<int>, b: Block) {
    |m| == |n| && forall a :: 0 <= a < |m| ==> b.addr + HEADER <= a < End(b, HEADER) || n[a] == m[a]
  }

  /** Whoever holds a block may write to its room: the lists do not see it, nor do the
      holders of other blocks. */
  lemma RoomWriteKeeps(m: seq<int>, n: seq<int>, s: Shape, i: nat)
    requires Woven(m, s) && i < |s.bs| && s.bs[i].used && RoomWritten(m, n, s.bs[i])
    ensures Woven(n, s)
    ensures RoomsKept(m, n, Live(s.bs) - {s.bs[i]}) && OthersKept(m, n, s)
  {
    OrderedAll(s.bs, HEADER, s.lo, s.hi);
    forall k | 0 <= k < |s.bs|
      ensures InRing(n, s.bs, s.id, k)
    {
      assert InRing(m, s.bs, s.id, k);
      assert k == i || End(s.bs[k], HEADER) <= s.bs[i].addr || End(s.bs[i], HEADER) <= s.bs[k].addr;
    }
    forall x: nat | x <= |s.fl| + 1
      ensures n[Node(s.fh, s.fl, x) + 4] == m[Node(s.fh, s.fl, x) + 4]
      ensures n[Node(s.fh, s.fl, x) + 5] == m[Node(s.fh, s.fl, x) + 5]
    {
      assert NodeClear(s.bs[i], Node(s.fh, s.fl, x));
    }
    FreeRingSame(m, n, s.fh, s.fl);
    forall b | b in Live(s.bs) - {s.bs[i]}
      ensures SameRoom(m, n, b)
    {
      var k :| 0 <= k < |s.bs| && s.bs[k] == b;
      assert End(s.bs[k], HEADER) <= s.bs[i].addr || End(s.bs[i], HEADER) <= s.bs[k].addr;
    }
  }
}
