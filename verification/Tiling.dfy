/** Address-ordered blocks that cover a region of memory without holes.

    Both boundary-tag allocators (memheap.c and mem.c) keep their pool as such a
    sequence.  This module holds the abstract side: what it means to tile a region, and
    what happens when a run of neighbouring blocks is replaced by other blocks that
    cover the same addresses. */
module Tiling {

  /** One block: its header starts at `addr`, `size` is the room behind the header. */
  datatype Block = Block(addr: nat, size: nat, used: bool)

  function End(b: Block, h: nat): nat {
    b.addr + h + b.size
  }

  /** The blocks cover `lo..hi` exactly, in address order, each with a header of `h`. */
  ghost predicate Tiled(bs: seq<Block>, h: nat, lo: nat, hi: nat) {
    && |bs| > 0
    && bs[0].addr == lo
    && End(bs[|bs| - 1], h) == hi
    && forall i, j :: 0 <= i && j == i + 1 && j < |bs| ==> End(bs[i], h) == bs[j].addr
  }

  ghost predicate NoAdjacentFree(bs: seq<Block>) {
    forall i, j :: 0 <= i && j == i + 1 && j < |bs| ==> bs[i].used || bs[j].used
  }

  /** The blocks `i..j` replaced by `mid`. */
  ghost function Splice(bs: seq<Block>, i: nat, j: nat, mid: seq<Block>): seq<Block>
    requires i <= j <= |bs|
  {
    bs[..i] + mid + bs[j..]
  }

  ghost function FreeSum(bs: seq<Block>): nat {
    if bs == [] then 0 else (if bs[0].used then 0 else bs[0].size) + FreeSum(bs[1..])
  }

  /** The total extent, headers included, of the blocks in use. */
  ghost function UsedExtent(bs: seq<Block>, h: nat): nat {
    if bs == [] then 0 else (if bs[0].used then h + bs[0].size else 0) + UsedExtent(bs[1..], h)
  }

  /** The addresses of the free blocks, as a bag. */
  ghost function FreeBag(bs: seq<Block>): multiset<nat> {
    if bs == [] then multiset{} else
      (if bs[0].used then multiset{} else multiset{bs[0].addr}) + FreeBag(bs[1..])
  }

  /** The blocks in use. */
  ghost function Live(bs: seq<Block>): set<Block> {
    set b | b in bs && b.used
  }

  /** Blocks of a tiling do not overlap: two of them are either the same or ordered. */
  lemma {:induction false} Ordered(bs: seq<Block>, h: nat, lo: nat, hi: nat, i: nat, j: nat)
    requires Tiled(bs, h, lo, hi)
    requires i < j < |bs|
    ensures End(bs[i], h) <= bs[j].addr
    decreases j - i
  {
    if i + 1 < j {
      Ordered(bs, h, lo, hi, i, j - 1);
    }
  }

  lemma OrderedAll(bs: seq<Block>, h: nat, lo: nat, hi: nat)
    requires Tiled(bs, h, lo, hi)
    ensures forall i, j :: 0 <= i < j < |bs| ==> End(bs[i], h) <= bs[j].addr
    ensures forall i :: 0 <= i < |bs| ==> lo <= bs[i].addr && End(bs[i], h) <= hi
  {
    forall i, j | 0 <= i < j < |bs|
      ensures End(bs[i], h) <= bs[j].addr
    {
      Ordered(bs, h, lo, hi, i, j);
    }
  }

  /** Replacing blocks by others that cover the same addresses keeps the tiling. */
  lemma TiledSplice(bs: seq<Block>, h: nat, lo: nat, hi: nat, i: nat, j: nat, mid: seq<Block>)
    requires Tiled(bs, h, lo, hi)
    requires i < j <= |bs|
    requires Tiled(mid, h, bs[i].addr, End(bs[j - 1], h))
    ensures Tiled(Splice(bs, i, j, mid), h, lo, hi)
  {
    var r := Splice(bs, i, j, mid);
    forall k | 0 < k < |r|
      ensures End(r[k - 1], h) == r[k].addr
    {
      if k < i {
      } else if k == i {
        assert r[k] == mid[0];
      } else if k < i + |mid| {
        assert r[k] == mid[k - i] && r[k - 1] == mid[k - 1 - i];
      } else {
        assert r[k] == bs[k - |mid| + j - i];
      }
    }
  }

  lemma {:induction false} FreeSumConcat(a: seq<Block>, b: seq<Block>)
    ensures FreeSum(a + b) == FreeSum(a) + FreeSum(b)
  {
    if a == [] {
      assert a + b == b;
    } else {
      assert (a + b)[1..] == a[1..] + b;
      FreeSumConcat(a[1..], b);
    }
  }

  lemma {:induction false} UsedExtentConcat(a: seq<Block>, b: seq<Block>, h: nat)
    ensures UsedExtent(a + b, h) == UsedExtent(a, h) + UsedExtent(b, h)
  {
    if a == [] {
      assert a + b == b;
    } else {
      assert (a + b)[1..] == a[1..] + b;
      UsedExtentConcat(a[1..], b, h);
    }
  }

  lemma {:induction false} FreeBagConcat(a: seq<Block>, b: seq<Block>)
    ensures FreeBag(a + b) == FreeBag(a) + FreeBag(b)
  {
    if a == [] {
      assert a + b == b;
    } else {
      assert (a + b)[1..] == a[1..] + b;
      FreeBagConcat(a[1..], b);
    }
  }

  /** A splice changes the sums and the bag only by what it takes out and puts in. */
  lemma SumsSplice(bs: seq<Block>, h: nat, i: nat, j: nat, mid: seq<Block>)
    requires i <= j <= |bs|
    ensures FreeSum(Splice(bs, i, j, mid)) == FreeSum(bs) - FreeSum(bs[i..j]) + FreeSum(mid)
    ensures UsedExtent(Splice(bs, i, j, mid), h)
         == UsedExtent(bs, h) - UsedExtent(bs[i..j], h) + UsedExtent(mid, h)
    ensures FreeBag(bs[i..j]) <= FreeBag(bs)
    ensures FreeBag(Splice(bs, i, j, mid)) == FreeBag(bs) - FreeBag(bs[i..j]) + FreeBag(mid)
  {
    var a, c, z := bs[..i], bs[i..j], bs[j..];
    assert bs == a + c + z;
    FreeSumConcat(a + c, z);
    FreeSumConcat(a, c);
    FreeSumConcat(a + mid, z);
    FreeSumConcat(a, mid);
    UsedExtentConcat(a + c, z, h);
    UsedExtentConcat(a, c, h);
    UsedExtentConcat(a + mid, z, h);
    UsedExtentConcat(a, mid, h);
    FreeBagConcat(a + c, z);
    FreeBagConcat(a, c);
    FreeBagConcat(a + mid, z);
    FreeBagConcat(a, mid);
  }

  /** The same where one block is taken out. */
  lemma SumsSpliceAt(bs: seq<Block>, h: nat, i: nat, mid: seq<Block>)
    requires i < |bs|
    ensures FreeSum(Splice(bs, i, i + 1, mid)) == FreeSum(bs) - FreeSum([bs[i]]) + FreeSum(mid)
    ensures FreeBag([bs[i]]) <= FreeBag(bs)
    ensures FreeBag(Splice(bs, i, i + 1, mid)) == FreeBag(bs) - FreeBag([bs[i]]) + FreeBag(mid)
  {
    assert bs[i..i + 1] == [bs[i]];
    SumsSplice(bs, h, i, i + 1, mid);
  }

  lemma LiveSpliceAt(bs: seq<Block>, h: nat, lo: nat, hi: nat, i: nat, mid: seq<Block>)
    requires Tiled(bs, h, lo, hi) && h > 0 && i < |bs|
    ensures Live(Splice(bs, i, i + 1, mid)) == Live(bs) - Live([bs[i]]) + Live(mid)
  {
    assert bs[i..i + 1] == [bs[i]];
    LiveSplice(bs, h, lo, hi, i, i + 1, mid);
  }

  /** A free block is in the bag, and the bag holds nothing else. */
  lemma {:induction false} FreeBagHas(bs: seq<Block>, i: nat)
    requires i < |bs| && !bs[i].used
    ensures bs[i].addr in FreeBag(bs)
  {
    if i > 0 {
      FreeBagHas(bs[1..], i - 1);
    }
  }

  lemma {:induction false} FreeBagWitness(bs: seq<Block>, a: nat) returns (i: nat)
    requires a in FreeBag(bs)
    ensures i < |bs| && bs[i].addr == a && !bs[i].used
  {
    if !bs[0].used && bs[0].addr == a {
      i := 0;
    } else {
      i := FreeBagWitness(bs[1..], a);
      i := i + 1;
    }
  }

  /** In a tiling the bag is a set: every free block is in it once. */
  lemma {:induction false} FreeBagOnce(bs: seq<Block>, h: nat, lo: nat, hi: nat, a: nat)
    requires Tiled(bs, h, lo, hi) && h > 0
    ensures FreeBag(bs)[a] <= 1
  {
    if |bs| > 1 {
      FreeBagOnce(bs[1..], h, bs[1].addr, hi, a);
      if a == bs[0].addr && a in FreeBag(bs[1..]) {
        var i := FreeBagWitness(bs[1..], a);
        Ordered(bs, h, lo, hi, 0, i + 1);
        assert false;
      }
    } else {
      assert bs[1..] == [];
    }
  }

  /** No block of a tiling occurs twice. */
  lemma DistinctBlocks(bs: seq<Block>, h: nat, lo: nat, hi: nat)
    requires Tiled(bs, h, lo, hi) && h > 0
    ensures forall i, j :: 0 <= i < j < |bs| ==> bs[i] != bs[j]
    ensures forall i, j :: 0 <= i < |bs| && 0 <= j < |bs| && bs[i].addr == bs[j].addr ==> i == j
  {
    OrderedAll(bs, h, lo, hi);
    forall i, j | 0 <= i < j < |bs|
      ensures bs[i].addr != bs[j].addr
    {
      assert End(bs[i], h) <= bs[j].addr;
    }
  }

  /** A splice changes the set of blocks in use only by what it takes out and puts in. */
  lemma LiveSplice(bs: seq<Block>, h: nat, lo: nat, hi: nat, i: nat, j: nat, mid: seq<Block>)
    requires Tiled(bs, h, lo, hi) && h > 0
    requires i <= j <= |bs|
    ensures Live(Splice(bs, i, j, mid)) == Live(bs) - Live(bs[i..j]) + Live(mid)
  {
    DistinctBlocks(bs, h, lo, hi);
    var a, c, z := bs[..i], bs[i..j], bs[j..];
    assert bs == a + c + z;
    LiveConcat(a + c, z);
    LiveConcat(a, c);
    LiveConcat(a + mid, z);
    LiveConcat(a, mid);
    forall b | b in Live(c)
      ensures b !in Live(a) && b !in Live(z)
    {
      var k :| 0 <= k < |c| && c[k] == b;
      assert bs[i + k] == b;
    }
  }

  lemma LiveConcat(a: seq<Block>, b: seq<Block>)
    ensures Live(a + b) == Live(a) + Live(b)
  {
    forall x
      ensures x in a + b <==> x in a || x in b
    {
    }
  }

  /** Free blocks that are apart stay apart when the spliced-in run meets no free neighbour. */
  lemma NoAdjacentFreeSplice(bs: seq<Block>, i: nat, j: nat, mid: seq<Block>)
    requires NoAdjacentFree(bs) && NoAdjacentFree(mid)
    requires i <= j <= |bs| && |mid| > 0
    requires i > 0 ==> bs[i - 1].used || mid[0].used
    requires j < |bs| ==> mid[|mid| - 1].used || bs[j].used
    ensures NoAdjacentFree(Splice(bs, i, j, mid))
  {
    var r := Splice(bs, i, j, mid);
    forall k | 0 < k < |r|
      ensures r[k - 1].used || r[k].used
    {
      if k < i {
      } else if k == i {
        assert r[k] == mid[0];
      } else if k < i + |mid| {
        assert r[k] == mid[k - i] && r[k - 1] == mid[k - 1 - i];
      } else if k == i + |mid| {
        assert r[k] == bs[j] && r[k - 1] == mid[|mid| - 1];
      } else {
        assert r[k] == bs[k - |mid| + j - i] && r[k - 1] == bs[k - 1 - |mid| + j - i];
      }
    }
  }

  /** A free block that is among the blocks contributes to the free sum. */
  lemma {:induction false} FreeSumAtLeast(bs: seq<Block>, i: nat)
    requires i < |bs| && !bs[i].used
    ensures FreeSum(bs) >= bs[i].size
  {
    if i > 0 {
      FreeSumAtLeast(bs[1..], i - 1);
    }
  }

  /** Where the first block of a tiling without neighbouring free blocks ends, seen from
      another tiling of the same region with the same blocks in use. */
  lemma FirstEnd(a: seq<Block>, b: seq<Block>, h: nat, lo: nat, hi: nat)
    requires Tiled(a, h, lo, hi) && Tiled(b, h, lo, hi) && h > 0
    requires NoAdjacentFree(a) && Live(a) <= Live(b) && !b[0].used
    ensures !a[0].used && End(b[0], h) <= End(a[0], h)
  {
    DistinctBlocks(b, h, lo, hi);
    OrderedAll(b, h, lo, hi);
    var first := a[0];
    assert first.used ==> first in Live(a);
    if |a| > 1 {
      assert a[1].used && a[1].addr == End(a[0], h);
      assert a[1] in Live(b);
      var k :| 0 <= k < |b| && b[k] == a[1];
      assert k != 0;
    }
  }

  lemma LiveTail(a: seq<Block>, h: nat, lo: nat, hi: nat)
    requires Tiled(a, h, lo, hi) && h > 0
    ensures Live(a[1..]) == Live(a) - {a[0]}
  {
    DistinctBlocks(a, h, lo, hi);
    assert a == [a[0]] + a[1..];
    LiveConcat([a[0]], a[1..]);
    forall k | 0 <= k < |a[1..]|
      ensures a[1..][k] != a[0]
    {
      assert a[1..][k] == a[k + 1];
    }
  }

  lemma SameFirst(a: seq<Block>, b: seq<Block>, h: nat, lo: nat, hi: nat)
    requires Tiled(a, h, lo, hi) && Tiled(b, h, lo, hi) && h > 0
    requires NoAdjacentFree(a) && NoAdjacentFree(b) && Live(a) == Live(b)
    ensures a[0] == b[0]
  {
    if a[0].used || b[0].used {
      DistinctBlocks(a, h, lo, hi);
      DistinctBlocks(b, h, lo, hi);
      var x, y := a[0], b[0];
      assert (x.used ==> x in Live(a)) && (y.used ==> y in Live(b));
    } else {
      FirstEnd(a, b, h, lo, hi);
      FirstEnd(b, a, h, lo, hi);
    }
  }

  /** Coalescing is complete: the blocks in use determine the free ones.  Two tilings of a
      region without neighbouring free blocks and with the same blocks in use are equal. */
  lemma {:induction false} Canonical(a: seq<Block>, b: seq<Block>, h: nat, lo: nat, hi: nat)
    requires Tiled(a, h, lo, hi) && Tiled(b, h, lo, hi) && h > 0
    requires NoAdjacentFree(a) && NoAdjacentFree(b) && Live(a) == Live(b)
    ensures a == b
    decreases |a|
  {
    SameFirst(a, b, h, lo, hi);
    LiveTail(a, h, lo, hi);
    LiveTail(b, h, lo, hi);
    if |a| > 1 && |b| > 1 {
      Canonical(a[1..], b[1..], h, End(a[0], h), hi);
      assert a == [a[0]] + a[1..] && b == [b[0]] + b[1..];
    } else {
      OneIsAll(a, h, lo, hi);
      OneIsAll(b, h, lo, hi);
    }
  }

  /** A tiling whose first block reaches the end has no other block. */
  lemma OneIsAll(a: seq<Block>, h: nat, lo: nat, hi: nat)
    requires Tiled(a, h, lo, hi) && h > 0
    ensures |a| == 1 <==> End(a[0], h) == hi
  {
    OrderedAll(a, h, lo, hi);
    if |a| > 1 { Ordered(a, h, lo, hi, 0, |a| - 1); }
  }
}
