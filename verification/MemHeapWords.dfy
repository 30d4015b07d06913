/** Header words and free list of memheap.c: what the words of a memory say, and what the
    single list steps of an operation do to them.

    Memory is a sequence of 4-byte words (RT_ALIGN_SIZE is 4): an address is an index and
    every size is counted in words.  A header is the six words of struct rt_memheap_item:
    magic, pool_ptr, next, prev, next_free, prev_free.  The free list header of a heap is
    such an item too; it lies outside the pool. */
module MemHeapWords {
  import opened Tiling

  const MAGIC := 0x1ea01ea0
  const USED := 1
  const HEADER := 6
  const MIN_ALLOC := 3
  const NULL := 0

  /** What a memory describes: the blocks of the pool `lo..hi` and the free list. */
  datatype Shape = Shape(id: int, lo: nat, hi: nat, fh: nat, bs: seq<Block>, fl: seq<nat>)

  function MagicOf(used: bool): int {
    if used then MAGIC + USED else MAGIC
  }

  function SetUsedBit(magic: int): int {
    if magic % 2 == USED then magic else magic + USED
  }

  function ClearUsedBit(magic: int): int {
    if magic % 2 == USED then magic - USED else magic
  }

  // ---- what the words of memory say ----

  ghost predicate HeaderAt(m: seq<int>, b: Block, id: int, next: int, prev: int)
  {
    && b.addr + HEADER <= |m|
    && m[b.addr] == MagicOf(b.used)
    && m[b.addr + 1] == id
    && m[b.addr + 2] == next
    && m[b.addr + 3] == prev
  }

  ghost function NextAddr(bs: seq<Block>, i: nat): nat
    requires i < |bs|
  {
    if i + 1 < |bs| then bs[i + 1].addr else bs[0].addr
  }

  ghost function PrevAddr(bs: seq<Block>, i: nat): nat
    requires i < |bs|
  {
    if i > 0 then bs[i - 1].addr else bs[|bs| - 1].addr
  }

  /** The block list: a ring in address order, next and prev inverse to each other. */
  ghost predicate Ring(m: seq<int>, bs: seq<Block>, id: int) {
    forall i :: 0 <= i < |bs| ==> InRing(m, bs, id, i)
  }

  ghost predicate InRing(m: seq<int>, bs: seq<Block>, id: int, i: nat)
    requires i < |bs|
  {
    HeaderAt(m, bs[i], id, NextAddr(bs, i), PrevAddr(bs, i))
  }

  /** Node `i` of the free ring: the list header is node 0 and again node |fl| + 1. */
  ghost function Node(fh: nat, fl: seq<nat>, i: nat): nat {
    if 1 <= i <= |fl| then fl[i - 1] else fh
  }

  ghost predicate Apart(a: nat, b: nat) {
    a + HEADER <= b || b + HEADER <= a
  }

  ghost predicate NodesApart(limit: nat, fh: nat, fl: seq<nat>) {
    && fh + HEADER <= limit
    && (forall i :: 0 <= i < |fl| ==> fl[i] + HEADER <= limit && Apart(fh, fl[i]))
    && (forall i, j :: 0 <= i < j < |fl| ==> Apart(fl[i], fl[j]))
  }

  /** The free list: a ring through next_free and prev_free, inverse to each other. */
  ghost predicate FreeRing(m: seq<int>, fh: nat, fl: seq<nat>)
    requires NodesApart(|m|, fh, fl)
  {
    forall i :: 0 <= i <= |fl| ==> LinkedAt(m, fh, fl, i)
  }

  ghost predicate LinkedAt(m: seq<int>, fh: nat, fl: seq<nat>, i: nat)
    requires NodesApart(|m|, fh, fl)
  {
    && m[Node(fh, fl, i) + 4] == Node(fh, fl, i + 1)
    && m[Node(fh, fl, i + 1) + 5] == Node(fh, fl, i)
  }

  ghost function Without(fl: seq<nat>, k: nat): seq<nat>
    requires k < |fl|
  {
    fl[..k] + fl[k + 1..]
  }

  /** The header of `node` lies outside the room of block `b`. */
  ghost predicate NodeClear(b: Block, node: nat) {
    (node == b.addr || Apart(node, b.addr)) && (node <= b.addr || End(b, HEADER) <= node)
  }

  ghost predicate AllClear(bs: seq<Block>, fh: nat, fl: seq<nat>) {
    forall x: nat, q :: x <= |fl| + 1 && 0 <= q < |bs| ==> NodeClear(bs[q], Node(fh, fl, x))
  }

  ghost predicate NodesInside(fl: seq<nat>, lo: nat, hi: nat) {
    forall k :: 0 <= k < |fl| ==> lo <= fl[k] && fl[k] + HEADER <= hi
  }

  ghost predicate NotANode(fh: nat, fl: seq<nat>, p: nat) {
    forall x: nat :: x <= |fl| + 1 ==> Node(fh, fl, x) != p
  }

  /** Both lists of `s` are in order in memory `m`, whatever blocks are marked free: what
      holds between the single steps of an operation. */
  ghost predicate Woven(m: seq<int>, s: Shape) {
    && 0 < s.lo && s.hi <= |m|
    && 0 < s.fh && s.fh + HEADER <= |m| && (s.fh + HEADER <= s.lo || s.hi <= s.fh)
    && Tiled(s.bs, HEADER, s.lo, s.hi)
    && Ring(m, s.bs, s.id)
    && NodesApart(|m|, s.fh, s.fl)
    && NodesInside(s.fl, s.lo, s.hi)
    && AllClear(s.bs, s.fh, s.fl)
    && FreeRing(m, s.fh, s.fl)
  }

  // ---- what a step leaves alone ----

  /** Only the words in `cells` may differ. */
  ghost predicate Changed(m: seq<int>, n: seq<int>, cells: set<int>) {
    |m| == |n| && forall a :: 0 <= a < |m| ==> a in cells || n[a] == m[a]
  }

  /** The words of the room of `b` are the same in both memories. */
  ghost predicate SameRoom(m: seq<int>, n: seq<int>, b: Block) {
    |m| == |n| && forall a :: b.addr + HEADER <= a < End(b, HEADER) && 0 <= a < |m| ==> n[a] == m[a]
  }

  ghost predicate RoomsKept(m: seq<int>, n: seq<int>, live: set<Block>) {
    forall b :: b in live ==> SameRoom(m, n, b)
  }

  /** The heap owns a word: it lies in the pool or in the free list header. */
  ghost predicate Owned(s: Shape, a: int) {
    s.lo <= a < s.hi || s.fh <= a < s.fh + HEADER
  }

  ghost predicate OthersKept(m: seq<int>, n: seq<int>, s: Shape) {
    |m| == |n| && forall a :: 0 <= a < |m| ==> Owned(s, a) || n[a] == m[a]
  }

  /** Going from `m` to `n`, where `n` has the shape `s`, touched nobody's data. */
  ghost predicate Quiet(m: seq<int>, n: seq<int>, s: Shape) {
    RoomsKept(m, n, Live(s.bs)) && OthersKept(m, n, s)
  }

  ghost predicate Harmless(s: Shape, c: int) {
    && Owned(s, c)
    && forall k :: 0 <= k < |s.bs| ==> RoomClear(s.bs[k], c)
  }

  ghost predicate RoomClear(b: Block, c: int) {
    !(b.addr + HEADER <= c < End(b, HEADER))
  }

  lemma QuietCells(m: seq<int>, n: seq<int>, s: Shape, cells: set<int>)
    requires Changed(m, n, cells)
    requires forall c :: c in cells ==> Harmless(s, c)
    ensures Quiet(m, n, s)
  {
    forall b | b in Live(s.bs)
      ensures SameRoom(m, n, b)
    {
      var k :| 0 <= k < |s.bs| && s.bs[k] == b;
      assert forall c :: c in cells ==> RoomClear(s.bs[k], c);
    }
  }

  /** The words of a block header belong to no room. */
  lemma HeaderHarmless(s: Shape, k: nat, o: nat)
    requires Tiled(s.bs, HEADER, s.lo, s.hi) && k < |s.bs| && o < HEADER
    ensures Harmless(s, s.bs[k].addr + o)
  {
    OrderedAll(s.bs, HEADER, s.lo, s.hi);
    forall q | 0 <= q < |s.bs|
      ensures RoomClear(s.bs[q], s.bs[k].addr + o)
    {
      assert q == k || End(s.bs[q], HEADER) <= s.bs[k].addr || End(s.bs[k], HEADER) <= s.bs[q].addr;
    }
  }

  /** The link words of a free list node belong to no room. */
  lemma NodeHarmless(s: Shape, x: nat, o: nat)
    requires AllClear(s.bs, s.fh, s.fl) && x <= |s.fl| + 1 && o < HEADER
    requires Owned(s, Node(s.fh, s.fl, x) + o)
    ensures Harmless(s, Node(s.fh, s.fl, x) + o)
  {
    forall q | 0 <= q < |s.bs|
      ensures RoomClear(s.bs[q], Node(s.fh, s.fl, x) + o)
    {
      assert NodeClear(s.bs[q], Node(s.fh, s.fl, x));
    }
  }

  // ---- the block ring ----

  /** Magic, pool and next words of a header are the same in both memories. */
  ghost predicate SameHead(m: seq<int>, n: seq<int>, b: Block) {
    && b.addr + HEADER <= |m| == |n|
    && n[b.addr] == m[b.addr]
    && n[b.addr + 1] == m[b.addr + 1]
    && n[b.addr + 2] == m[b.addr + 2]
  }

  ghost predicate SamePrev(m: seq<int>, n: seq<int>, b: Block) {
    && b.addr + HEADER <= |m| == |n|
    && n[b.addr + 3] == m[b.addr + 3]
  }

  /** The header of the `k`-th block spliced in links it to its neighbours. */
  ghost predicate InSplice(n: seq<int>, bs: seq<Block>, i: nat, j: nat, mid: seq<Block>, id: int, k: nat)
    requires i < j < |bs| && k < |mid|
  {
    HeaderAt(n, mid[k], id,
             if k + 1 < |mid| then mid[k + 1].addr else bs[j].addr,
             if k > 0 then mid[k - 1].addr else PrevAddr(bs, i))
  }

  /** Replacing blocks `i..j` in the ring: the headers written for `mid`, plus the prev
      word of the block behind them, are all that has to change. */
  lemma RingSplice(m: seq<int>, n: seq<int>, bs: seq<Block>, i: nat, j: nat, mid: seq<Block>, id: int)
    requires Ring(m, bs, id)
    requires i < j < |bs| && |mid| > 0 && mid[0].addr == bs[i].addr
    requires forall k :: 0 <= k < i || j <= k < |bs| ==> SameHead(m, n, bs[k])
    requires forall k :: 0 <= k < i || j < k < |bs| ==> SamePrev(m, n, bs[k])
    requires bs[j].addr + 3 < |n| && n[bs[j].addr + 3] == mid[|mid| - 1].addr
    requires forall k :: 0 <= k < |mid| ==> InSplice(n, bs, i, j, mid, id, k)
    ensures Ring(n, Splice(bs, i, j, mid), id)
  {
    var r := Splice(bs, i, j, mid);
    forall k | 0 <= k < |r|
      ensures InRing(n, r, id, k)
    {
      if k < i {
        assert r[k] == bs[k] && InRing(m, bs, id, k);
        assert NextAddr(r, k) == NextAddr(bs, k) && PrevAddr(r, k) == PrevAddr(bs, k);
      } else if k < i + |mid| {
        assert r[k] == mid[k - i] && InSplice(n, bs, i, j, mid, id, k - i);
        assert PrevAddr(r, k) == if k > i then mid[k - i - 1].addr else PrevAddr(bs, i);
      } else {
        var q := k - |mid| + j - i;
        assert r[k] == bs[q] && InRing(m, bs, id, q);
        assert NextAddr(r, k) == NextAddr(bs, q);
        assert PrevAddr(r, k) == if q == j then mid[|mid| - 1].addr else PrevAddr(bs, q);
      }
    }
  }


  /** The same with one block put in. */
  lemma RingSpliceOne(m: seq<int>, n: seq<int>, bs: seq<Block>, i: nat, j: nat, b: Block, id: int)
    requires Ring(m, bs, id)
    requires i < j < |bs| && b.addr == bs[i].addr
    requires forall k :: 0 <= k < i || j <= k < |bs| ==> SameHead(m, n, bs[k])
    requires forall k :: 0 <= k < i || j < k < |bs| ==> SamePrev(m, n, bs[k])
    requires bs[j].addr + 3 < |n| && n[bs[j].addr + 3] == b.addr
    requires HeaderAt(n, b, id, bs[j].addr, PrevAddr(bs, i))
    ensures Ring(n, Splice(bs, i, j, [b]), id)
  {
    assert InSplice(n, bs, i, j, [b], id, 0);
    RingSplice(m, n, bs, i, j, [b], id);
  }

  /** The same with two blocks put in. */
  lemma RingSpliceTwo(m: seq<int>, n: seq<int>, bs: seq<Block>, i: nat, j: nat, b: Block, c: Block, id: int)
    requires Ring(m, bs, id)
    requires i < j < |bs| && b.addr == bs[i].addr
    requires forall k :: 0 <= k < i || j <= k < |bs| ==> SameHead(m, n, bs[k])
    requires forall k :: 0 <= k < i || j < k < |bs| ==> SamePrev(m, n, bs[k])
    requires bs[j].addr + 3 < |n| && n[bs[j].addr + 3] == c.addr
    requires HeaderAt(n, b, id, c.addr, PrevAddr(bs, i))
    requires HeaderAt(n, c, id, bs[j].addr, b.addr)
    ensures Ring(n, Splice(bs, i, j, [b, c]), id)
  {
    assert InSplice(n, bs, i, j, [b, c], id, 0);
    assert InSplice(n, bs, i, j, [b, c], id, 1);
    RingSplice(m, n, bs, i, j, [b, c], id);
  }

  lemma TiledSpliceOne(bs: seq<Block>, lo: nat, hi: nat, i: nat, j: nat, b: Block)
    requires Tiled(bs, HEADER, lo, hi) && i < j < |bs|
    requires b.addr == bs[i].addr && End(b, HEADER) == bs[j].addr
    ensures Tiled(Splice(bs, i, j, [b]), HEADER, lo, hi)
  {
    assert End(bs[j - 1], HEADER) == bs[j].addr;
    TiledSplice(bs, HEADER, lo, hi, i, j, [b]);
  }

  lemma TiledSpliceTwo(bs: seq<Block>, lo: nat, hi: nat, i: nat, j: nat, b: Block, c: Block)
    requires Tiled(bs, HEADER, lo, hi) && i < j < |bs|
    requires b.addr == bs[i].addr && End(b, HEADER) == c.addr && End(c, HEADER) == bs[j].addr
    ensures Tiled(Splice(bs, i, j, [b, c]), HEADER, lo, hi)
  {
    assert End(bs[j - 1], HEADER) == bs[j].addr;
    TiledSplice(bs, HEADER, lo, hi, i, j, [b, c]);
  }
}
