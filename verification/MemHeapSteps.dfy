/** The single list steps of memheap.c, each as the words it writes, and the proof that the
    step keeps both lists in order and touches nobody's data.  The source repeats these
    few statements in rt_memheap_alloc, rt_memheap_realloc and rt_memheap_free. */
module MemHeapSteps {
  import opened Tiling
  import opened MemHeapWords

  function At(m: seq<int>, a: int): int {
    if 0 <= a < |m| then m[a] else NULL
  }

  function Put(m: seq<int>, a: int, v: int): seq<int> {
    if 0 <= a < |m| then m[a := v] else m
  }

  predicate In(m: seq<int>, a: int) {
    0 <= a < |m|
  }

  // ---- the free ring ----

  lemma WithoutBag(fl: seq<nat>, k: nat)
    requires k < |fl|
    ensures multiset(Without(fl, k)) == multiset(fl) - multiset{fl[k]}
  {
    assert fl == fl[..k] + [fl[k]] + fl[k + 1..];
  }

  /** Two nodes of the free ring are the same word address only if they are the same node. */
  lemma NodesDiffer(limit: nat, fh: nat, fl: seq<nat>, i: nat, j: nat)
    requires NodesApart(limit, fh, fl)
    requires i < j <= |fl| + 1 && !(i == 0 && j == |fl| + 1)
    ensures Apart(Node(fh, fl, i), Node(fh, fl, j))
  {
  }

  /** A node of the free list is no other node. */
  lemma NodesDistinct(limit: nat, fh: nat, fl: seq<nat>, k: nat)
    requires NodesApart(limit, fh, fl) && k < |fl|
    ensures forall x: nat :: x <= |fl| + 1 && x != k + 1 ==> Node(fh, fl, x) != fl[k]
  {
    forall x: nat | x <= |fl| + 1 && x != k + 1
      ensures Node(fh, fl, x) != fl[k]
    {
      if x < k + 1 { NodesDiffer(limit, fh, fl, x, k + 1); } else { NodesDiffer(limit, fh, fl, k + 1, x); }
    }
  }

  lemma WithoutKeepsApart(limit: nat, fh: nat, fl: seq<nat>, k: nat)
    requires NodesApart(limit, fh, fl) && k < |fl|
    ensures NodesApart(limit, fh, Without(fl, k))
    ensures forall i :: 0 <= i <= k ==> Node(fh, Without(fl, k), i) == Node(fh, fl, i)
    ensures forall i :: k < i <= |fl| ==> Node(fh, Without(fl, k), i) == Node(fh, fl, i + 1)
  {
    var r := Without(fl, k);
    forall i, j | 0 <= i < j < |r|
      ensures Apart(r[i], r[j])
    {
      assert r[i] == fl[if i < k then i else i + 1];
      assert r[j] == fl[if j < k then j else j + 1];
    }
  }

  lemma FreeRingSame(m: seq<int>, n: seq<int>, fh: nat, fl: seq<nat>)
    requires NodesApart(|m|, fh, fl) && FreeRing(m, fh, fl) && |n| == |m|
    requires forall x :: 0 <= x <= |fl| + 1 ==>
      n[Node(fh, fl, x) + 4] == m[Node(fh, fl, x) + 4] && n[Node(fh, fl, x) + 5] == m[Node(fh, fl, x) + 5]
    ensures FreeRing(n, fh, fl)
  {
    forall i | 0 <= i <= |fl|
      ensures LinkedAt(n, fh, fl, i)
    {
      assert LinkedAt(m, fh, fl, i);
    }
  }

  // ---- taking a node out of the free list ----

  function UnlinkMem(m: seq<int>, p: int): seq<int> {
    var next, prev := At(m, p + 4), At(m, p + 5);
    Put(Put(m, next + 5, prev), prev + 4, next)
  }

  predicate UnlinkSafe(m: seq<int>, p: int) {
    In(m, p + 4) && In(m, p + 5) && In(m, m[p + 4] + 5) && In(m, m[p + 5] + 4)
  }

  lemma UnlinkLink(m: seq<int>, n: seq<int>, fh: nat, fl: seq<nat>, k: nat, i: nat)
    requires NodesApart(|m|, fh, fl) && FreeRing(m, fh, fl) && k < |fl| && i < |fl|
    requires n == m[Node(fh, fl, k + 2) + 5 := Node(fh, fl, k)][Node(fh, fl, k) + 4 := Node(fh, fl, k + 2)]
    ensures NodesApart(|n|, fh, Without(fl, k)) && LinkedAt(n, fh, Without(fl, k), i)
  {
    WithoutKeepsApart(|m|, fh, fl, k);
    if i != k {
      UnlinkOther(m, n, fh, fl, k, if i < k then i else i + 1);
    }
  }

  lemma UnlinkOther(m: seq<int>, n: seq<int>, fh: nat, fl: seq<nat>, k: nat, i: nat)
    requires NodesApart(|m|, fh, fl) && FreeRing(m, fh, fl) && k < |fl| && i <= |fl| && i != k && i != k + 1
    requires n == m[Node(fh, fl, k + 2) + 5 := Node(fh, fl, k)][Node(fh, fl, k) + 4 := Node(fh, fl, k + 2)]
    ensures LinkedAt(n, fh, fl, i)
  {
    assert LinkedAt(m, fh, fl, i);
    if i < k {
      NodesDiffer(|m|, fh, fl, i, k);
      NodesDiffer(|m|, fh, fl, i + 1, k + 2);
    } else {
      NodesDiffer(|m|, fh, fl, k, i);
      NodesDiffer(|m|, fh, fl, k + 2, i + 1);
    }
  }

  /** Writing only link words leaves the ring of blocks as it is. */
  lemma RingUnderLinks(m: seq<int>, n: seq<int>, s: Shape, x: nat, y: nat)
    requires Woven(m, s) && x <= |s.fl| + 1 && y <= |s.fl| + 1
    requires Changed(m, n,
      {Node(s.fh, s.fl, x) + 4, Node(s.fh, s.fl, x) + 5, Node(s.fh, s.fl, y) + 4, Node(s.fh, s.fl, y) + 5})
    ensures Ring(n, s.bs, s.id)
    ensures Quiet(m, n, s)
  {
    HeadsUnderLinks(m, n, s, Node(s.fh, s.fl, x), Node(s.fh, s.fl, y));
    LinksHarmless(s, x);
    LinksHarmless(s, y);
    QuietCells(m, n, s, {Node(s.fh, s.fl, x) + 4, Node(s.fh, s.fl, x) + 5, Node(s.fh, s.fl, y) + 4,
      Node(s.fh, s.fl, y) + 5});
  }

  /** Where two nodes are clear of every block, writing their link words changes no header. */
  lemma HeadsUnderLinks(m: seq<int>, n: seq<int>, s: Shape, v: nat, w: nat)
    requires Ring(m, s.bs, s.id) && Changed(m, n, {v + 4, v + 5, w + 4, w + 5})
    requires forall i :: 0 <= i < |s.bs| ==> NodeClear(s.bs[i], v) && NodeClear(s.bs[i], w)
    ensures Ring(n, s.bs, s.id)
  {
    forall i | 0 <= i < |s.bs|
      ensures InRing(n, s.bs, s.id, i)
    {
      assert InRing(m, s.bs, s.id, i);
    }
  }

  lemma LinksHarmless(s: Shape, x: nat)
    requires AllClear(s.bs, s.fh, s.fl) && NodesInside(s.fl, s.lo, s.hi) && x <= |s.fl| + 1
    ensures Harmless(s, Node(s.fh, s.fl, x) + 4) && Harmless(s, Node(s.fh, s.fl, x) + 5)
  {
    NodeHarmless(s, x, 4);
    NodeHarmless(s, x, 5);
  }

  lemma UnlinkStep(m: seq<int>, s: Shape, k: nat)
    requires Woven(m, s) && k < |s.fl|
    ensures UnlinkSafe(m, s.fl[k])
    ensures Woven(UnlinkMem(m, s.fl[k]), s.(fl := Without(s.fl, k)))
    ensures Quiet(m, UnlinkMem(m, s.fl[k]), s)
  {
    var fh, fl := s.fh, s.fl;
    var n := UnlinkLinks(m, fh, fl, k);
    RingUnderLinks(m, n, s, k, k + 2);
    WithoutKeepsClear(s.bs, fh, fl, k);
  }

  /** The free ring without node k, and the words that were written. */
  lemma UnlinkLinks(m: seq<int>, fh: nat, fl: seq<nat>, k: nat) returns (n: seq<int>)
    requires NodesApart(|m|, fh, fl) && FreeRing(m, fh, fl) && k < |fl|
    ensures UnlinkSafe(m, fl[k]) && n == UnlinkMem(m, fl[k])
    ensures |n| == |m| && NodesApart(|n|, fh, Without(fl, k)) && FreeRing(n, fh, Without(fl, k))
    ensures Changed(m, n, {Node(fh, fl, k) + 4, Node(fh, fl, k) + 5, Node(fh, fl, k + 2) + 4, Node(fh, fl, k + 2) + 5})
  {
    assert LinkedAt(m, fh, fl, k) && LinkedAt(m, fh, fl, k + 1);
    n := m[Node(fh, fl, k + 2) + 5 := Node(fh, fl, k)][Node(fh, fl, k) + 4 := Node(fh, fl, k + 2)];
    assert UnlinkMem(m, fl[k]) == n;
    WithoutKeepsApart(|m|, fh, fl, k);
    forall i | 0 <= i <= |Without(fl, k)|
      ensures LinkedAt(n, fh, Without(fl, k), i)
    {
      UnlinkLink(m, n, fh, fl, k, i);
    }
  }

  lemma WithoutKeepsClear(bs: seq<Block>, fh: nat, fl: seq<nat>, k: nat)
    requires k < |fl|
    ensures AllClear(bs, fh, fl) ==> AllClear(bs, fh, Without(fl, k))
    ensures forall p :: NotANode(fh, fl, p) ==> NotANode(fh, Without(fl, k), p)
    ensures forall lo, hi :: NodesInside(fl, lo, hi) ==> NodesInside(Without(fl, k), lo, hi)
  {
    var r := Without(fl, k);
    forall x: nat | x <= |r| + 1
      ensures Node(fh, r, x) == Node(fh, fl, if x <= k then x else x + 1)
    {
    }
  }

  // ---- clearing the link words of a block that is not in the free list ----

  function ClearMem(m: seq<int>, p: int): seq<int> {
    Put(Put(m, p + 4, NULL), p + 5, NULL)
  }

  lemma ClearStep(m: seq<int>, s: Shape, i: nat)
    requires Woven(m, s) && i < |s.bs| && NotANode(s.fh, s.fl, s.bs[i].addr)
    ensures In(m, s.bs[i].addr + 5)
    ensures Woven(ClearMem(m, s.bs[i].addr), s)
    ensures Quiet(m, ClearMem(m, s.bs[i].addr), s)
  {
    var p := s.bs[i].addr;
    var n := ClearMem(m, p);
    assert InRing(m, s.bs, s.id, i);
    ClearedHeads(m, n, s, i);
    ClearedNodes(m, n, s, i);
    HeaderHarmless(s, i, 4);
    HeaderHarmless(s, i, 5);
    QuietCells(m, n, s, {p + 4, p + 5});
  }

  lemma ClearedHeads(m: seq<int>, n: seq<int>, s: Shape, i: nat)
    requires Tiled(s.bs, HEADER, s.lo, s.hi) && Ring(m, s.bs, s.id) && i < |s.bs|
    requires Changed(m, n, {s.bs[i].addr + 4, s.bs[i].addr + 5})
    ensures Ring(n, s.bs, s.id)
  {
    OrderedAll(s.bs, HEADER, s.lo, s.hi);
    forall k | 0 <= k < |s.bs|
      ensures InRing(n, s.bs, s.id, k)
    {
      assert InRing(m, s.bs, s.id, k);
      assert k == i || End(s.bs[k], HEADER) <= s.bs[i].addr || End(s.bs[i], HEADER) <= s.bs[k].addr;
    }
  }

  lemma ClearedNodes(m: seq<int>, n: seq<int>, s: Shape, i: nat)
    requires NodesApart(|m|, s.fh, s.fl) && AllClear(s.bs, s.fh, s.fl) && FreeRing(m, s.fh, s.fl)
    requires i < |s.bs| && NotANode(s.fh, s.fl, s.bs[i].addr)
    requires Changed(m, n, {s.bs[i].addr + 4, s.bs[i].addr + 5})
    ensures FreeRing(n, s.fh, s.fl)
  {
    forall x: nat | x <= |s.fl| + 1
      ensures n[Node(s.fh, s.fl, x) + 4] == m[Node(s.fh, s.fl, x) + 4]
      ensures n[Node(s.fh, s.fl, x) + 5] == m[Node(s.fh, s.fl, x) + 5]
    {
      assert NodeClear(s.bs[i], Node(s.fh, s.fl, x));
    }
    FreeRingSame(m, n, s.fh, s.fl);
  }

  // ---- putting a block at the front of the free list ----

  function PushMem(m: seq<int>, fh: int, p: int): seq<int> {
    var first := At(m, fh + 4);
    Put(Put(Put(Put(m, p + 4, first), p + 5, fh), first + 5, p), fh + 4, p)
  }

  predicate PushSafe(m: seq<int>, fh: int, p: int) {
    In(m, fh + 4) && In(m, p + 4) && In(m, p + 5) && In(m, m[fh + 4] + 5)
  }

  lemma PushLink(m: seq<int>, n: seq<int>, fh: nat, fl: seq<nat>, p: nat, i: nat)
    requires NodesApart(|m|, fh, fl) && FreeRing(m, fh, fl) && NodesApart(|m|, fh, [p] + fl) && p + HEADER <= |m|
    requires i <= |fl| + 1
    requires n == m[p + 4 := Node(fh, fl, 1)][p + 5 := fh][Node(fh, fl, 1) + 5 := p][fh + 4 := p]
    ensures LinkedAt(n, fh, [p] + fl, i)
  {
    var r := [p] + fl;
    assert Node(fh, r, 0) == fh && Node(fh, r, 1) == p && Node(fh, r, 2) == Node(fh, fl, 1);
    NodesDiffer(|m|, fh, r, 0, 1);
    if i == 1 {
      if |fl| > 0 { NodesDiffer(|m|, fh, r, 1, 2); }
    } else if i > 1 {
      PushOther(m, n, fh, fl, p, i);
    }
  }

  /** The links behind the first node are the old ones. */
  lemma PushOther(m: seq<int>, n: seq<int>, fh: nat, fl: seq<nat>, p: nat, i: nat)
    requires NodesApart(|m|, fh, fl) && FreeRing(m, fh, fl) && NodesApart(|m|, fh, [p] + fl) && p + HEADER <= |m|
    requires 1 < i <= |fl| + 1
    requires n == m[p + 4 := Node(fh, fl, 1)][p + 5 := fh][Node(fh, fl, 1) + 5 := p][fh + 4 := p]
    ensures LinkedAt(n, fh, [p] + fl, i)
  {
    var r := [p] + fl;
    assert Node(fh, r, 1) == p && Node(fh, r, 2) == Node(fh, fl, 1);
    assert Node(fh, r, i) == Node(fh, fl, i - 1) && Node(fh, r, i + 1) == Node(fh, fl, i);
    assert LinkedAt(m, fh, fl, i - 1);
    NodesDiffer(|m|, fh, r, 1, i);
    NodesDiffer(|m|, fh, r, 0, i);
    NodesDiffer(|m|, fh, r, 2, i + 1);
  }

  lemma PushKeepsApart(limit: nat, bs: seq<Block>, fh: nat, fl: seq<nat>, lo: nat, hi: nat, i: nat)
    requires NodesApart(limit, fh, fl) && AllClear(bs, fh, fl) && i < |bs|
    requires Tiled(bs, HEADER, lo, hi) && hi <= limit
    requires NotANode(fh, fl, bs[i].addr)
    ensures NodesApart(limit, fh, [bs[i].addr] + fl)
  {
    OrderedAll(bs, HEADER, lo, hi);
    var r := [bs[i].addr] + fl;
    forall x: nat | x <= |fl| + 1
      ensures Apart(Node(fh, fl, x), bs[i].addr)
    {
      assert NodeClear(bs[i], Node(fh, fl, x));
    }
    assert Node(fh, fl, 0) == fh;
    forall k | 0 <= k < |fl|
      ensures Apart(fl[k], bs[i].addr)
    {
      assert Node(fh, fl, k + 1) == fl[k];
    }
  }

  lemma PushKeepsNodes(m: seq<int>, s: Shape, i: nat)
    requires Woven(m, s) && i < |s.bs| && NotANode(s.fh, s.fl, s.bs[i].addr)
    ensures s.bs[i].addr + HEADER <= |m|
    ensures NodesApart(|m|, s.fh, [s.bs[i].addr] + s.fl)
    ensures NodesInside([s.bs[i].addr] + s.fl, s.lo, s.hi)
    ensures AllClear(s.bs, s.fh, [s.bs[i].addr] + s.fl)
  {
    OrderedAll(s.bs, HEADER, s.lo, s.hi);
    PushKeepsApart(|m|, s.bs, s.fh, s.fl, s.lo, s.hi, i);
    var r := [s.bs[i].addr] + s.fl;
    forall x: nat, q | x <= |r| + 1 && 0 <= q < |s.bs|
      ensures NodeClear(s.bs[q], Node(s.fh, r, x))
    {
      if x == 1 {
        assert End(s.bs[q], HEADER) <= s.bs[i].addr || q == i || End(s.bs[i], HEADER) <= s.bs[q].addr;
      } else {
        assert Node(s.fh, r, x) == Node(s.fh, s.fl, if x == 0 then 0 else x - 1);
      }
    }
  }

  lemma PushStep(m: seq<int>, s: Shape, i: nat)
    requires Woven(m, s) && i < |s.bs| && NotANode(s.fh, s.fl, s.bs[i].addr)
    ensures PushSafe(m, s.fh, s.bs[i].addr)
    ensures Woven(PushMem(m, s.fh, s.bs[i].addr), s.(fl := [s.bs[i].addr] + s.fl))
    ensures Quiet(m, PushMem(m, s.fh, s.bs[i].addr), s)
  {
    var p, fh, fl := s.bs[i].addr, s.fh, s.fl;
    PushKeepsNodes(m, s, i);
    assert LinkedAt(m, fh, fl, 0);
    var n := m[p + 4 := Node(fh, fl, 1)][p + 5 := fh][Node(fh, fl, 1) + 5 := p][fh + 4 := p];
    assert PushMem(m, fh, p) == n;
    forall k | 0 <= k <= |fl| + 1
      ensures LinkedAt(n, fh, [p] + fl, k)
    {
      PushLink(m, n, fh, fl, p, k);
    }
    PushKeepsRing(m, n, s, i);
  }

  lemma PushKeepsRing(m: seq<int>, n: seq<int>, s: Shape, i: nat)
    requires Woven(m, s) && i < |s.bs| && s.bs[i].addr + HEADER <= |m|
    requires var (p, first) := (s.bs[i].addr, Node(s.fh, s.fl, 1));
      n == m[p + 4 := first][p + 5 := s.fh][first + 5 := p][s.fh + 4 := p]
    ensures Ring(n, s.bs, s.id)
    ensures Quiet(m, n, s)
  {
    var p, y := s.bs[i].addr, Node(s.fh, s.fl, 1);
    assert Node(s.fh, s.fl, 0) == s.fh;
    assert Changed(m, n, {p + 4, p + 5, y + 5, s.fh + 4});
    forall k | 0 <= k < |s.bs|
      ensures InRing(n, s.bs, s.id, k)
    {
      PushKeepsHead(m, n, s, i, k);
    }
    HeaderHarmless(s, i, 4);
    HeaderHarmless(s, i, 5);
    NodeHarmless(s, 0, 4);
    NodeHarmless(s, 1, 5);
    QuietCells(m, n, s, {p + 4, p + 5, y + 5, s.fh + 4});
  }

  lemma PushKeepsHead(m: seq<int>, n: seq<int>, s: Shape, i: nat, k: nat)
    requires Woven(m, s) && i < |s.bs| && k < |s.bs|
    requires Changed(m, n, {s.bs[i].addr + 4, s.bs[i].addr + 5, Node(s.fh, s.fl, 1) + 5, s.fh + 4})
    ensures InRing(n, s.bs, s.id, k)
  {
    assert InRing(m, s.bs, s.id, k);
    assert NodeClear(s.bs[k], Node(s.fh, s.fl, 0)) && NodeClear(s.bs[k], Node(s.fh, s.fl, 1));
    if k < i { Ordered(s.bs, HEADER, s.lo, s.hi, k, i); } else if i < k { Ordered(s.bs, HEADER, s.lo, s.hi, i, k); }
  }

  // ---- marking a block ----

  function MarkMem(m: seq<int>, p: int, u: bool): seq<int> {
    Put(m, p, if u then SetUsedBit(At(m, p)) else ClearUsedBit(At(m, p)))
  }

  ghost function Marked(s: Shape, i: nat, u: bool): Shape
    requires i < |s.bs|
  {
    s.(bs := Splice(s.bs, i, i + 1, [s.bs[i].(used := u)]))
  }

  lemma MarkStep(m: seq<int>, s: Shape, i: nat, u: bool)
    requires Woven(m, s) && i + 1 < |s.bs|
    ensures In(m, s.bs[i].addr)
    ensures Woven(MarkMem(m, s.bs[i].addr, u), Marked(s, i, u))
    ensures Quiet(m, MarkMem(m, s.bs[i].addr, u), Marked(s, i, u))
  {
    var p, r := s.bs[i].addr, Marked(s, i, u);
    assert InRing(m, s.bs, s.id, i);
    var n := MarkMem(m, p, u);
    assert n == m[p := MagicOf(u)];
    MarkKeepsRing(m, n, s, i, u);
    MarkKeepsNodes(m, n, s, i, u);
    assert r.bs[i].addr == p;
    HeaderHarmless(r, i, 0);
    QuietCells(m, n, r, {p});
  }

  lemma MarkKeepsNodes(m: seq<int>, n: seq<int>, s: Shape, i: nat, u: bool)
    requires Woven(m, s) && i + 1 < |s.bs| && Changed(m, n, {s.bs[i].addr})
    ensures FreeRing(n, s.fh, s.fl)
    ensures AllClear(Marked(s, i, u).bs, s.fh, s.fl)
  {
    forall x: nat | x <= |s.fl| + 1
      ensures n[Node(s.fh, s.fl, x) + 4] == m[Node(s.fh, s.fl, x) + 4]
      ensures n[Node(s.fh, s.fl, x) + 5] == m[Node(s.fh, s.fl, x) + 5]
    {
      assert NodeClear(s.bs[i], Node(s.fh, s.fl, x));
    }
    FreeRingSame(m, n, s.fh, s.fl);
    var r := Marked(s, i, u);
    forall x: nat, q | x <= |s.fl| + 1 && 0 <= q < |r.bs|
      ensures NodeClear(r.bs[q], Node(s.fh, s.fl, x))
    {
      assert NodeClear(s.bs[q], Node(s.fh, s.fl, x));
    }
  }

  lemma MarkKeepsRing(m: seq<int>, n: seq<int>, s: Shape, i: nat, u: bool)
    requires Woven(m, s) && i + 1 < |s.bs| && s.bs[i].addr < |m|
    requires n == m[s.bs[i].addr := MagicOf(u)]
    ensures Tiled(Marked(s, i, u).bs, HEADER, s.lo, s.hi)
    ensures Ring(n, Marked(s, i, u).bs, s.id)
  {
    var b := s.bs[i].(used := u);
    forall k | 0 <= k < i || i + 1 <= k < |s.bs|
      ensures SameHead(m, n, s.bs[k]) && SamePrev(m, n, s.bs[k])
    {
      assert InRing(m, s.bs, s.id, k);
      if k < i { Ordered(s.bs, HEADER, s.lo, s.hi, k, i); } else { Ordered(s.bs, HEADER, s.lo, s.hi, i, k); }
    }
    assert InRing(m, s.bs, s.id, i) && InRing(m, s.bs, s.id, i + 1);
    assert End(s.bs[i], HEADER) == s.bs[i + 1].addr;
    RingSpliceOne(m, n, s.bs, i, i + 1, b, s.id);
    TiledSpliceOne(s.bs, s.lo, s.hi, i, i + 1, b);
  }

  // ---- making a header inside a block ----

  function SplitMem(m: seq<int>, id: int, p: int, q: int): seq<int> {
    var next := At(m, p + 2);
    Put(Put(Put(Put(Put(Put(m, q, MAGIC), q + 1, id), q + 3, p), q + 2, next), next + 3, q), p + 2, q)
  }

  predicate SplitSafe(m: seq<int>, p: int, q: int) {
    In(m, p + 2) && In(m, q) && In(m, q + 3) && In(m, m[p + 2] + 3)
  }

  ghost function Halves(b: Block, q: nat): seq<Block>
    requires b.addr + HEADER <= q && q + HEADER <= End(b, HEADER)
  {
    [Block(b.addr, q - b.addr - HEADER, b.used), Block(q, End(b, HEADER) - q - HEADER, false)]
  }

  ghost function Halved(s: Shape, i: nat, q: nat): Shape
    requires i < |s.bs| && s.bs[i].addr + HEADER <= q && q + HEADER <= End(s.bs[i], HEADER)
  {
    s.(bs := Splice(s.bs, i, i + 1, Halves(s.bs[i], q)))
  }

  lemma SplitStep(m: seq<int>, s: Shape, i: nat, q: nat)
    requires Woven(m, s) && i + 1 < |s.bs|
    requires s.bs[i].addr + HEADER <= q && q + HEADER <= End(s.bs[i], HEADER)
    ensures SplitSafe(m, s.bs[i].addr, q)
    ensures Woven(SplitMem(m, s.id, s.bs[i].addr, q), Halved(s, i, q))
    ensures Quiet(m, SplitMem(m, s.id, s.bs[i].addr, q), Halved(s, i, q))
    ensures NotANode(s.fh, s.fl, q)
  {
    var p, e := s.bs[i].addr, s.bs[i + 1].addr;
    SplitWords(m, s, i, q);
    var n := m[q := MAGIC][q + 1 := s.id][q + 3 := p][q + 2 := e][e + 3 := q][p + 2 := q];
    SplitKeepsRing(m, n, s, i, q);
    SplitKeepsNodes(m, n, s, i, q);
    SplitQuiet(m, n, s, i, q);
  }

  /** The words that a split writes. */
  lemma SplitWords(m: seq<int>, s: Shape, i: nat, q: nat)
    requires Tiled(s.bs, HEADER, s.lo, s.hi) && Ring(m, s.bs, s.id) && i + 1 < |s.bs|
    requires s.bs[i].addr + HEADER <= q && q + HEADER <= End(s.bs[i], HEADER)
    ensures var (p, e) := (s.bs[i].addr, s.bs[i + 1].addr);
      && SplitSafe(m, p, q) && End(s.bs[i], HEADER) == e && e + HEADER <= |m|
      && SplitMem(m, s.id, p, q) == m[q := MAGIC][q + 1 := s.id][q + 3 := p][q + 2 := e][e + 3 := q][p + 2 := q]
  {
    assert InRing(m, s.bs, s.id, i) && InRing(m, s.bs, s.id, i + 1);
  }

  lemma HeadHarmless(s: Shape, k: nat)
    requires Tiled(s.bs, HEADER, s.lo, s.hi) && k < |s.bs|
    ensures Harmless(s, s.bs[k].addr) && Harmless(s, s.bs[k].addr + 1)
    ensures Harmless(s, s.bs[k].addr + 2) && Harmless(s, s.bs[k].addr + 3)
  {
    HeaderHarmless(s, k, 0);
    HeaderHarmless(s, k, 1);
    HeaderHarmless(s, k, 2);
    HeaderHarmless(s, k, 3);
  }

  lemma SplitQuiet(m: seq<int>, n: seq<int>, s: Shape, i: nat, q: nat)
    requires Tiled(s.bs, HEADER, s.lo, s.hi) && i + 1 < |s.bs|
    requires s.bs[i].addr + HEADER <= q && q + HEADER <= End(s.bs[i], HEADER)
    requires Tiled(Halved(s, i, q).bs, HEADER, s.lo, s.hi)
    requires Changed(m, n, {q, q + 1, q + 2, q + 3, s.bs[i].addr + 2, s.bs[i + 1].addr + 3})
    ensures Quiet(m, n, Halved(s, i, q))
  {
    var p, e := s.bs[i].addr, s.bs[i + 1].addr;
    var r := Halved(s, i, q);
    assert r.bs[i].addr == p && r.bs[i + 1].addr == q && r.bs[i + 2].addr == e;
    HeadHarmless(r, i);
    HeadHarmless(r, i + 1);
    HeadHarmless(r, i + 2);
    QuietCells(m, n, r, {q, q + 1, q + 2, q + 3, p + 2, e + 3});
  }

  lemma SplitKeepsHead(m: seq<int>, n: seq<int>, s: Shape, i: nat, q: nat, k: nat)
    requires Woven(m, s) && i + 1 < |s.bs| && (k < i || i + 1 <= k < |s.bs|)
    requires s.bs[i].addr + HEADER <= q && q + HEADER <= End(s.bs[i], HEADER)
    requires Changed(m, n, {q, q + 1, q + 2, q + 3, s.bs[i].addr + 2, s.bs[i + 1].addr + 3})
    ensures SameHead(m, n, s.bs[k]) && (k != i + 1 ==> SamePrev(m, n, s.bs[k]))
  {
    assert InRing(m, s.bs, s.id, k);
    Ordered(s.bs, HEADER, s.lo, s.hi, i, i + 1);
    if k < i {
      Ordered(s.bs, HEADER, s.lo, s.hi, k, i);
    } else if k > i + 1 {
      Ordered(s.bs, HEADER, s.lo, s.hi, i + 1, k);
    }
  }

  lemma SplitHeaders(m: seq<int>, n: seq<int>, s: Shape, i: nat, q: nat)
    requires Woven(m, s) && i + 1 < |s.bs|
    requires s.bs[i].addr + HEADER <= q && q + HEADER <= End(s.bs[i], HEADER)
    requires q + 3 < |m| && s.bs[i + 1].addr + 3 < |m|
    requires n == m[q := MAGIC][q + 1 := s.id][q + 3 := s.bs[i].addr][q + 2 := s.bs[i + 1].addr]
                   [s.bs[i + 1].addr + 3 := q][s.bs[i].addr + 2 := q]
    ensures HeaderAt(n, Halves(s.bs[i], q)[0], s.id, q, PrevAddr(s.bs, i))
    ensures HeaderAt(n, Halves(s.bs[i], q)[1], s.id, s.bs[i + 1].addr, s.bs[i].addr)
    ensures n[s.bs[i + 1].addr + 3] == q
    ensures End(s.bs[i], HEADER) == s.bs[i + 1].addr
  {
    assert InRing(m, s.bs, s.id, i) && InRing(m, s.bs, s.id, i + 1);
  }

  lemma SplitKeepsRing(m: seq<int>, n: seq<int>, s: Shape, i: nat, q: nat)
    requires Woven(m, s) && i + 1 < |s.bs|
    requires s.bs[i].addr + HEADER <= q && q + HEADER <= End(s.bs[i], HEADER)
    requires q + 3 < |m| && s.bs[i + 1].addr + 3 < |m|
    requires n == m[q := MAGIC][q + 1 := s.id][q + 3 := s.bs[i].addr][q + 2 := s.bs[i + 1].addr]
                   [s.bs[i + 1].addr + 3 := q][s.bs[i].addr + 2 := q]
    ensures Tiled(Halved(s, i, q).bs, HEADER, s.lo, s.hi)
    ensures Ring(n, Halved(s, i, q).bs, s.id)
  {
    var mid := Halves(s.bs[i], q);
    forall k | 0 <= k < i || i + 1 <= k < |s.bs|
      ensures SameHead(m, n, s.bs[k]) && (k != i + 1 ==> SamePrev(m, n, s.bs[k]))
    {
      SplitKeepsHead(m, n, s, i, q, k);
    }
    SplitHeaders(m, n, s, i, q);
    RingSpliceTwo(m, n, s.bs, i, i + 1, mid[0], mid[1], s.id);
    TiledSpliceTwo(s.bs, s.lo, s.hi, i, i + 1, mid[0], mid[1]);
  }

  lemma SplitKeepsNodes(m: seq<int>, n: seq<int>, s: Shape, i: nat, q: nat)
    requires Woven(m, s) && i + 1 < |s.bs|
    requires s.bs[i].addr + HEADER <= q && q + HEADER <= End(s.bs[i], HEADER)
    requires Changed(m, n, {q, q + 1, q + 2, q + 3, s.bs[i].addr + 2, s.bs[i + 1].addr + 3})
    ensures FreeRing(n, s.fh, s.fl)
    ensures AllClear(Halved(s, i, q).bs, s.fh, s.fl)
    ensures NotANode(s.fh, s.fl, q)
  {
    forall x: nat | x <= |s.fl| + 1
      ensures n[Node(s.fh, s.fl, x) + 4] == m[Node(s.fh, s.fl, x) + 4]
      ensures n[Node(s.fh, s.fl, x) + 5] == m[Node(s.fh, s.fl, x) + 5]
      ensures Node(s.fh, s.fl, x) != q
    {
      assert NodeClear(s.bs[i], Node(s.fh, s.fl, x)) && NodeClear(s.bs[i + 1], Node(s.fh, s.fl, x));
    }
    FreeRingSame(m, n, s.fh, s.fl);
    var r := Halved(s, i, q);
    forall x: nat, k | x <= |s.fl| + 1 && 0 <= k < |r.bs|
      ensures NodeClear(r.bs[k], Node(s.fh, s.fl, x))
    {
      assert NodeClear(s.bs[i], Node(s.fh, s.fl, x));
      if k < i || k > i + 1 {
        var o := if k < i then k else k - 1;
        assert r.bs[k] == s.bs[o] && NodeClear(s.bs[o], Node(s.fh, s.fl, x));
      } else {
        assert r.bs[k] == Halves(s.bs[i], q)[k - i];
      }
    }
  }

  // ---- giving a block to the block before it ----

  function JoinMem(m: seq<int>, q: int): seq<int> {
    var next, prev := At(m, q + 2), At(m, q + 3);
    Put(Put(m, next + 3, prev), prev + 2, next)
  }

  predicate JoinSafe(m: seq<int>, q: int) {
    In(m, q + 2) && In(m, q + 3) && In(m, m[q + 2] + 3) && In(m, m[q + 3] + 2)
  }

  ghost function Joined(s: Shape, i: nat): Shape
    requires i + 1 < |s.bs|
  {
    s.(bs := Splice(s.bs, i, i + 2, [JoinedBlock(s.bs[i], s.bs[i + 1])]))
  }

  ghost function JoinedBlock(a: Block, b: Block): Block {
    Block(a.addr, a.size + HEADER + b.size, a.used)
  }

  lemma JoinedEnd(s: Shape, i: nat)
    requires Tiled(s.bs, HEADER, s.lo, s.hi) && i + 2 < |s.bs|
    ensures End(JoinedBlock(s.bs[i], s.bs[i + 1]), HEADER) == s.bs[i + 2].addr
  {
    assert End(s.bs[i], HEADER) == s.bs[i + 1].addr;
    assert End(s.bs[i + 1], HEADER) == s.bs[i + 2].addr;
  }

  lemma JoinStep(m: seq<int>, s: Shape, i: nat)
    requires Woven(m, s) && i + 2 < |s.bs| && NotANode(s.fh, s.fl, s.bs[i + 1].addr)
    ensures JoinSafe(m, s.bs[i + 1].addr)
    ensures Woven(JoinMem(m, s.bs[i + 1].addr), Joined(s, i))
    ensures Quiet(m, JoinMem(m, s.bs[i + 1].addr), Joined(s, i))
  {
    var p, q, e := s.bs[i].addr, s.bs[i + 1].addr, s.bs[i + 2].addr;
    assert InRing(m, s.bs, s.id, i) && InRing(m, s.bs, s.id, i + 1) && InRing(m, s.bs, s.id, i + 2);
    var n := m[e + 3 := p][p + 2 := e];
    assert JoinMem(m, q) == n;
    JoinKeepsRing(m, n, s, i);
    JoinKeepsNodes(m, n, s, i);
    JoinQuiet(m, n, s, i);
  }

  lemma JoinQuiet(m: seq<int>, n: seq<int>, s: Shape, i: nat)
    requires i + 2 < |s.bs| && Tiled(Joined(s, i).bs, HEADER, s.lo, s.hi)
    requires Changed(m, n, {s.bs[i].addr + 2, s.bs[i + 2].addr + 3})
    ensures Quiet(m, n, Joined(s, i))
  {
    var p, e := s.bs[i].addr, s.bs[i + 2].addr;
    var r := Joined(s, i);
    assert r.bs[i].addr == p && r.bs[i + 1].addr == e;
    HeaderHarmless(r, i, 2);
    HeaderHarmless(r, i + 1, 3);
    QuietCells(m, n, r, {p + 2, e + 3});
  }

  lemma JoinKeepsHead(m: seq<int>, n: seq<int>, s: Shape, i: nat, k: nat)
    requires Woven(m, s) && i + 2 < |s.bs| && (k < i || i + 2 <= k < |s.bs|)
    requires Changed(m, n, {s.bs[i].addr + 2, s.bs[i + 2].addr + 3})
    ensures SameHead(m, n, s.bs[k]) && (k != i + 2 ==> SamePrev(m, n, s.bs[k]))
  {
    assert InRing(m, s.bs, s.id, k);
    Ordered(s.bs, HEADER, s.lo, s.hi, i, i + 2);
    if k < i {
      Ordered(s.bs, HEADER, s.lo, s.hi, k, i);
    } else if k > i + 2 {
      Ordered(s.bs, HEADER, s.lo, s.hi, i + 2, k);
    }
  }

  lemma JoinKeepsRing(m: seq<int>, n: seq<int>, s: Shape, i: nat)
    requires Woven(m, s) && i + 2 < |s.bs| && s.bs[i + 2].addr + 3 < |m| && s.bs[i].addr + 2 < |m|
    requires n == m[s.bs[i + 2].addr + 3 := s.bs[i].addr][s.bs[i].addr + 2 := s.bs[i + 2].addr]
    ensures Tiled(Joined(s, i).bs, HEADER, s.lo, s.hi)
    ensures Ring(n, Joined(s, i).bs, s.id)
  {
    var b := JoinedBlock(s.bs[i], s.bs[i + 1]);
    forall k | 0 <= k < i || i + 2 <= k < |s.bs|
      ensures SameHead(m, n, s.bs[k]) && (k != i + 2 ==> SamePrev(m, n, s.bs[k]))
    {
      JoinKeepsHead(m, n, s, i, k);
    }
    Ordered(s.bs, HEADER, s.lo, s.hi, i, i + 2);
    assert InRing(m, s.bs, s.id, i);
    JoinedEnd(s, i);
    RingSpliceOne(m, n, s.bs, i, i + 2, b, s.id);
    TiledSpliceOne(s.bs, s.lo, s.hi, i, i + 2, b);
  }

  lemma JoinKeepsNodes(m: seq<int>, n: seq<int>, s: Shape, i: nat)
    requires Woven(m, s) && i + 2 < |s.bs| && NotANode(s.fh, s.fl, s.bs[i + 1].addr)
    requires Changed(m, n, {s.bs[i].addr + 2, s.bs[i + 2].addr + 3})
    ensures FreeRing(n, s.fh, s.fl)
    ensures AllClear(Joined(s, i).bs, s.fh, s.fl)
  {
    forall x: nat | x <= |s.fl| + 1
      ensures n[Node(s.fh, s.fl, x) + 4] == m[Node(s.fh, s.fl, x) + 4]
      ensures n[Node(s.fh, s.fl, x) + 5] == m[Node(s.fh, s.fl, x) + 5]
    {
      assert NodeClear(s.bs[i], Node(s.fh, s.fl, x)) && NodeClear(s.bs[i + 2], Node(s.fh, s.fl, x));
    }
    FreeRingSame(m, n, s.fh, s.fl);
    var r := Joined(s, i);
    assert End(s.bs[i], HEADER) == s.bs[i + 1].addr;
    forall x: nat, k | x <= |s.fl| + 1 && 0 <= k < |r.bs|
      ensures NodeClear(r.bs[k], Node(s.fh, s.fl, x))
    {
      if k == i {
        assert NodeClear(s.bs[i], Node(s.fh, s.fl, x)) && NodeClear(s.bs[i + 1], Node(s.fh, s.fl, x));
      } else {
        assert NodeClear(s.bs[if k < i then k else k + 1], Node(s.fh, s.fl, x));
      }
    }
  }
}
