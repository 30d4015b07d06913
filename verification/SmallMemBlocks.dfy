/** What the steps of the small-memory allocator (mem.c) do to its blocks. */
module SmallMemBlocks {
  import opened Tiling
  import opened SmallMemWords

  /** Free blocks are apart, except perhaps block i from the one before or the one behind it. */
  ghost predicate ApartBut(bs: seq<Block>, i: nat, before: bool, behind: bool) {
    forall k, l :: 0 <= k && l == k + 1 && l < |bs| && !(before && l == i) && !(behind && k == i) ==>
      bs[k].used || bs[l].used
  }

  /** There is a free block at address a. */
  ghost predicate FreeAt(bs: seq<Block>, a: nat) {
    exists k :: 0 <= k < |bs| && bs[k].addr == a && !bs[k].used
  }

  lemma FreeAtJoined(bs: seq<Block>, i: nat, a: nat)
    requires i + 1 < |bs| && !bs[i].used && FreeAt(bs, a)
    ensures a != bs[i + 1].addr ==> FreeAt(Splice(bs, i, i + 2, [Both(bs[i], bs[i + 1])]), a)
    ensures FreeAt(Splice(bs, i, i + 2, [Both(bs[i], bs[i + 1])]), bs[i].addr)
  {
    var r := Splice(bs, i, i + 2, [Both(bs[i], bs[i + 1])]);
    assert r[i] == Both(bs[i], bs[i + 1]);
    var k :| 0 <= k < |bs| && bs[k].addr == a && !bs[k].used;
    if k < i {
      assert r[k] == bs[k];
    } else if k > i + 1 {
      assert r[k - 1] == bs[k];
    }
  }

  /** A join settles one of the two sides. */
  lemma ApartJoined(bs: seq<Block>, i: nat, before: bool)
    requires i + 1 < |bs| && !bs[i].used && !bs[i + 1].used
    requires ApartBut(bs, i, before, true) || (!before && ApartBut(bs, i + 1, true, false))
    ensures ApartBut(Splice(bs, i, i + 2, [Both(bs[i], bs[i + 1])]), i, before, false)
  {
    var r := Splice(bs, i, i + 2, [Both(bs[i], bs[i + 1])]);
    forall k, l | 0 <= k && l == k + 1 && l < |r| && !(before && l == i)
      ensures r[k].used || r[l].used
    {
      assert r[k] == if k < i then bs[k] else if k == i then Both(bs[i], bs[i + 1]) else bs[k + 1];
      assert r[l] == if l < i then bs[l] else if l == i then Both(bs[i], bs[i + 1]) else bs[l + 1];
      var j, m := l + 1, k + 1;
      assert k >= i ==> j < |bs| && (bs[m].used || bs[j].used);
      assert l <= i ==> bs[k].used || bs[l].used;
    }
  }

  /** Joining two free neighbours does not change what is in use or where the first free block is. */
  lemma JoinedFree(bs: seq<Block>, lo: nat, top: nat, i: nat)
    requires Tiled(bs, HEADER, lo, top) && i + 1 < |bs| && !bs[i].used && !bs[i + 1].used
    ensures var r := Splice(bs, i, i + 2, [Both(bs[i], bs[i + 1])]);
      UsedExtent(r, HEADER) == UsedExtent(bs, HEADER) && Live(r) == Live(bs) && FirstFree(r, top) == FirstFree(bs, top)
  {
    var mid := [Both(bs[i], bs[i + 1])];
    assert bs[i..i + 2] == [bs[i], bs[i + 1]];
    ExtentOne(bs[i]);
    ExtentOne(bs[i + 1]);
    ExtentTwo(bs[i], bs[i + 1]);
    ExtentOne(mid[0]);
    SumsSplice(bs, HEADER, i, i + 2, mid);
    LiveSplice(bs, HEADER, lo, top, i, i + 2, mid);
    FirstFreeSplice(bs, top, i, i + 2, mid);
  }

  /** The first free block is not moved by changes that begin with a free block at the same address. */
  lemma {:induction false} FirstFreeSplice(bs: seq<Block>, top: nat, i: nat, j: nat, mid: seq<Block>)
    requires i < j <= |bs| && mid != [] && !bs[i].used && !mid[0].used && mid[0].addr == bs[i].addr
    ensures FirstFree(Splice(bs, i, j, mid), top) == FirstFree(bs, top)
  {
    if i > 0 && bs[0].used {
      FirstFreeSplice(bs[1..], top, i - 1, j - 1, mid);
      assert Splice(bs, i, j, mid)[1..] == Splice(bs[1..], i - 1, j - 1, mid);
    }
  }

  /** Freeing a block makes it the first free one if it is below the first free one. */
  lemma {:induction false} FirstFreeFreed(bs: seq<Block>, lo: nat, top: nat, i: nat)
    requires Tiled(bs, HEADER, lo, top) && i < |bs| && bs[i].used
    ensures FirstFree(bs, top) != bs[i].addr
    ensures FirstFree(bs[i := bs[i].(used := false)], top) ==
      if bs[i].addr < FirstFree(bs, top) then bs[i].addr else FirstFree(bs, top)
    decreases |bs|
  {
    var r := bs[i := bs[i].(used := false)];
    OrderedAll(bs, HEADER, lo, top);
    if i == 0 {
      FirstFreeFrom(bs[1..], End(bs[0], HEADER), top);
    } else if bs[0].used {
      FirstFreeFreed(bs[1..], bs[1].addr, top, i - 1);
      assert r[1..] == bs[1..][i - 1 := bs[i].(used := false)];
    }
  }

  lemma {:induction false} FirstFreeFrom(bs: seq<Block>, lo: nat, top: nat)
    requires bs == [] || Tiled(bs, HEADER, lo, top)
    requires lo <= top
    ensures lo <= FirstFree(bs, top) <= top
    decreases |bs|
  {
    if bs != [] {
      OrderedAll(bs, HEADER, lo, top);
      if bs[0].used {
        if |bs| == 1 {
          assert bs[1..] == [];
        } else {
          FirstFreeFrom(bs[1..], bs[1].addr, top);
        }
      }
    }
  }

  /** The block handed out for `want` bytes, and what is split off. */
  function Granted(b: Block, want: nat): seq<Block> {
    if b.size >= want + HEADER + MIN_SIZE then
      [Block(b.addr, want, true), Block(b.addr + HEADER + want, b.size - want - HEADER, false)]
    else [b.(used := true)]
  }

  lemma ExtentOne(b: Block)
    ensures UsedExtent([b], HEADER) == if b.used then HEADER + b.size else 0
  {
    assert [b][1..] == [];
  }

  lemma ExtentTwo(b: Block, c: Block)
    ensures UsedExtent([b, c], HEADER) == UsedExtent([b], HEADER) + UsedExtent([c], HEADER)
  {
    UsedExtentConcat([b], [c], HEADER);
    assert [b] + [c] == [b, c];
  }

  lemma GrantedApart(bs: seq<Block>, i: nat, want: nat)
    requires NoAdjacentFree(bs) && i < |bs| && !bs[i].used && bs[i].size >= want
    ensures NoAdjacentFree(Splice(bs, i, i + 1, Granted(bs[i], want)))
  {
    var j := i + 1;
    NoAdjacentFreeSplice(bs, i, j, Granted(bs[i], want));
  }

  lemma GrantedSums(bs: seq<Block>, i: nat, want: nat)
    requires i < |bs| && !bs[i].used && bs[i].size >= want
    ensures UsedExtent(Splice(bs, i, i + 1, Granted(bs[i], want)), HEADER) ==
      UsedExtent(bs, HEADER) + HEADER + Granted(bs[i], want)[0].size
  {
    var mid := Granted(bs[i], want);
    SumsSplice(bs, HEADER, i, i + 1, mid);
    assert bs[i..i + 1] == [bs[i]];
    ExtentOne(bs[i]);
    ExtentOne(mid[0]);
    if |mid| == 2 {
      ExtentOne(mid[1]);
      ExtentTwo(mid[0], mid[1]);
    }
  }

  lemma GrantedLive(bs: seq<Block>, lo: nat, top: nat, i: nat, want: nat)
    requires Tiled(bs, HEADER, lo, top) && i < |bs| && !bs[i].used && bs[i].size >= want
    ensures Live(Splice(bs, i, i + 1, Granted(bs[i], want))) == Live(bs) + {Granted(bs[i], want)[0]}
    ensures Granted(bs[i], want)[0] !in Live(bs)
  {
    var mid := Granted(bs[i], want);
    LiveSplice(bs, HEADER, lo, top, i, i + 1, mid);
    DistinctBlocks(bs, HEADER, lo, top);
    assert forall k :: 0 <= k < |bs| && bs[k].addr == bs[i].addr ==> k == i;
    assert bs[i..i + 1] == [bs[i]];
  }

  /** A block is freed; its neighbours may be free. */
  lemma FreedSums(bs: seq<Block>, lo: nat, top: nat, i: nat)
    requires Tiled(bs, HEADER, lo, top) && NoAdjacentFree(bs) && i < |bs| && bs[i].used
    ensures ApartBut(Splice(bs, i, i + 1, [bs[i].(used := false)]), i, true, true)
    ensures UsedExtent(Splice(bs, i, i + 1, [bs[i].(used := false)]), HEADER) ==
      UsedExtent(bs, HEADER) - HEADER - bs[i].size
    ensures Live(Splice(bs, i, i + 1, [bs[i].(used := false)])) == Live(bs) - {bs[i]}
  {
    var mid := [bs[i].(used := false)];
    assert Splice(bs, i, i + 1, mid) == bs[i := mid[0]];
    SumsSplice(bs, HEADER, i, i + 1, mid);
    LiveSplice(bs, HEADER, lo, top, i, i + 1, mid);
    assert bs[i..i + 1] == [bs[i]];
    ExtentOne(bs[i]);
    ExtentOne(mid[0]);
  }

  /** What is first free after the first free block has been handed out. */
  lemma FirstFreeGranted(bs: seq<Block>, top: nat, i: nat, want: nat)
    requires i < |bs| && !bs[i].used && bs[i].size >= want && forall j :: 0 <= j < i ==> bs[j].used
    ensures FirstFree(Splice(bs, i, i + 1, Granted(bs[i], want)), top) ==
      FirstFree(Splice(bs, i, i + 1, Granted(bs[i], want))[i..], top)
  {
    var r := Splice(bs, i, i + 1, Granted(bs[i], want));
    FirstFreeIs(r, top, i);
  }

  /** It does not change when a later one is. */
  lemma {:induction false} FirstFreeLater(bs: seq<Block>, top: nat, i: nat, mid: seq<Block>)
    requires i < |bs| && (exists j :: 0 <= j < i && !bs[j].used)
    ensures FirstFree(Splice(bs, i, i + 1, mid), top) == FirstFree(bs, top)
    decreases i
  {
    if bs[0].used {
      var j :| 0 <= j < i && !bs[j].used;
      assert !bs[1..][j - 1].used;
      FirstFreeLater(bs[1..], top, i - 1, mid);
      assert Splice(bs, i, i + 1, mid)[1..] == Splice(bs[1..], i - 1, i, mid);
    }
  }

  /** A used block keeps `first` bytes and the rest is split off as a free block. */
  lemma ShrunkOk(bs: seq<Block>, top: nat, i: nat, first: nat)
    requires Tiled(bs, HEADER, 0, top) && NoAdjacentFree(bs) && i < |bs| && bs[i].used && first + HEADER <= bs[i].size
    ensures var r := Splice(bs, i, i + 1, Halves(bs[i], first, true));
      && i + 1 < |r| && r[i + 1] == Halves(bs[i], first, true)[1] && r[i] == Halves(bs[i], first, true)[0]
      && ApartBut(r, i + 1, true, true)
      && UsedExtent(r, HEADER) == UsedExtent(bs, HEADER) - (bs[i].size - first)
      && Live(r) == Live(bs) - {bs[i]} + {Block(bs[i].addr, first, true)}
  {
    var mid := Halves(bs[i], first, true);
    var r := Splice(bs, i, i + 1, mid);
    SumsSplice(bs, HEADER, i, i + 1, mid);
    LiveSplice(bs, HEADER, 0, top, i, i + 1, mid);
    assert bs[i..i + 1] == [bs[i]];
    ExtentOne(bs[i]);
    ExtentOne(mid[0]);
    ExtentOne(mid[1]);
    ExtentTwo(mid[0], mid[1]);
    forall k, l | 0 <= k && l == k + 1 && l < |r| && l != i + 1 && k != i + 1
      ensures r[k].used || r[l].used
    {
      assert r[k] == if k < i then bs[k] else bs[k - 1];
      assert r[l] == if l < i then bs[l] else if l == i then mid[0] else bs[l - 1];
      var m := l - 1;
      assert k > i ==> bs[k - 1].used || bs[m].used;
    }
  }

  /** Where plug_holes on block i leaves lfree. */
  ghost function PluggedLFree(bs: seq<Block>, i: nat, lfree: nat): nat
    requires i < |bs|
  {
    var f := if i + 1 < |bs| && !bs[i + 1].used && lfree == bs[i + 1].addr then bs[i].addr else lfree;
    if i > 0 && !bs[i - 1].used && f == bs[i].addr then bs[i - 1].addr else f
  }

  lemma ShrunkLFree(bs: seq<Block>, top: nat, i: nat, first: nat, lfree: nat)
    requires i < |bs| && bs[i].used && first + HEADER <= bs[i].size && (lfree == top || FreeAt(bs, lfree))
    ensures lfree == top || FreeAt(Splice(bs, i, i + 1, Halves(bs[i], first, true)), lfree)
  {
    var r := Splice(bs, i, i + 1, Halves(bs[i], first, true));
    if lfree != top {
      var k :| 0 <= k < |bs| && bs[k].addr == lfree && !bs[k].used;
      assert k != i;
      assert r[if k < i then k else k + 1] == bs[k];
    }
  }

  /** Shrinking in place leaves lfree the lowest free block exactly if there was a free block
      below, or right behind, to take the rest in. */
  lemma ShrunkLowest(bs: seq<Block>, top: nat, i: nat, first: nat, lfree: nat)
    requires Tiled(bs, HEADER, 0, top) && i < |bs| && bs[i].used && first + HEADER <= bs[i].size
    requires lfree == FirstFree(bs, top)
    ensures var r := Splice(bs, i, i + 1, Halves(bs[i], first, true));
      i + 1 < |r| && (PluggedLFree(r, i + 1, lfree) == FirstFree(r, top) <==>
        lfree < bs[i].addr || FreeAt(bs, End(bs[i], HEADER)))
  {
    var mid := Halves(bs[i], first, true);
    var r := Splice(bs, i, i + 1, mid);
    assert r[i] == mid[0] && r[i + 1] == mid[1];
    assert i + 1 < |bs| ==> r[i + 2] == bs[i + 1];
    OrderedAll(bs, HEADER, 0, top);
    if j :| 0 <= j < i && !bs[j].used {
      FirstFreeLowest(bs, 0, top, j);
      FirstFreeLater(bs, top, i, mid);
    } else {
      FirstFreeIs(bs, top, i + 1);
      ShrunkAlone(bs, top, i, first);
    }
  }

  lemma ShrunkAlone(bs: seq<Block>, top: nat, i: nat, first: nat)
    requires Tiled(bs, HEADER, 0, top) && i < |bs| && first + HEADER <= bs[i].size
    requires forall j :: 0 <= j <= i ==> bs[j].used
    ensures FirstFree(Splice(bs, i, i + 1, Halves(bs[i], first, true)), top) == bs[i].addr + HEADER + first
    ensures FirstFree(bs, top) >= End(bs[i], HEADER)
    ensures FreeAt(bs, End(bs[i], HEADER)) <==> i + 1 < |bs| && !bs[i + 1].used
    ensures i + 1 < |bs| && !bs[i + 1].used ==> FirstFree(bs, top) == bs[i + 1].addr
    ensures i + 1 < |bs| && bs[i + 1].used ==> FirstFree(bs, top) != bs[i + 1].addr
  {
    var r := Splice(bs, i, i + 1, Halves(bs[i], first, true));
    assert r[i + 1] == Halves(bs[i], first, true)[1];
    forall j | 0 <= j < i + 1
      ensures r[j].used
    {
      assert r[j] == if j < i then bs[j] else Halves(bs[i], first, true)[0];
    }
    FirstFreeIs(r, top, i + 1);
    assert r[i + 1..][0] == r[i + 1];
    FirstFreeIs(bs, top, i + 1);
    OrderedAll(bs, HEADER, 0, top);
    FirstFreeFrom(bs[i + 1..], End(bs[i], HEADER), top);
    if i + 1 < |bs| {
      assert bs[i + 1..][0] == bs[i + 1];
      if bs[i + 1].used {
        FirstFreeFreed(bs, 0, top, i + 1);
      }
    }
  }
}
