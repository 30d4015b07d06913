/** The block headers of the small-memory allocator (mem.c).  Offsets and sizes are in bytes from
    heap_ptr; the fields of the header at offset a are next[a], prev[a] and used[a]. */
module SmallMemWords {
  import opened Tiling

  /** SIZEOF_STRUCT_MEM and MIN_SIZE_ALIGNED. */
  const HEADER: nat := 12
  const MIN_SIZE: nat := 12

  datatype Headers = Headers(next: seq<nat>, prev: seq<nat>, used: seq<bool>)

  /** The header of block i: next and prev lead to its neighbours. */
  ghost predicate HeaderAt(m: Headers, bs: seq<Block>, i: nat)
    requires i < |bs|
  {
    var a := bs[i].addr;
    && a < |m.next| == |m.prev| == |m.used|
    && m.next[a] == End(bs[i], HEADER) && m.used[a] == bs[i].used
    && m.prev[a] == if i == 0 then 0 else bs[i - 1].addr
  }

  /** The blocks tile the heap up to heap_end at `top`, which is marked used and its own next. */
  ghost predicate HeadersOk(m: Headers, bs: seq<Block>, top: nat) {
    && |m.next| == |m.prev| == |m.used| == top + HEADER
    && Tiled(bs, HEADER, 0, top)
    && (forall i {:trigger HeaderAt(m, bs, i)} :: 0 <= i < |bs| ==> HeaderAt(m, bs, i))
    && m.used[top] && m.next[top] == top
  }

  /** One block with its room split: `first` bytes of room, a new header, and the rest. */
  function Halves(b: Block, first: nat, used: bool): seq<Block>
    requires first + HEADER <= b.size
  {
    [Block(b.addr, first, used), Block(b.addr + HEADER + first, b.size - first - HEADER, false)]
  }

  /** mem->used = used */
  function Marked(m: Headers, a: nat, used: bool): Headers
    requires a < |m.used|
  {
    m.(used := m.used[a := used])
  }

  /** Blocks i and k of a tiling, and their place below the end. */
  lemma InOrder(bs: seq<Block>, top: nat, i: nat, k: nat)
    requires Tiled(bs, HEADER, 0, top) && i < |bs| && k < |bs|
    ensures i < k ==> End(bs[i], HEADER) <= bs[k].addr
    ensures k < i ==> End(bs[k], HEADER) <= bs[i].addr
    ensures End(bs[i], HEADER) <= top && End(bs[k], HEADER) <= top
  {
    OrderedAll(bs, HEADER, 0, top);
  }

  lemma MarkedOk(m: Headers, bs: seq<Block>, top: nat, i: nat, used: bool)
    requires HeadersOk(m, bs, top) && i < |bs|
    ensures bs[i].addr < |m.used|
    ensures HeadersOk(Marked(m, bs[i].addr, used), Splice(bs, i, i + 1, [bs[i].(used := used)]), top)
  {
    var b := bs[i].(used := used);
    var r := bs[i := b];
    InOrder(bs, top, i, i);
    TiledSplice(bs, HEADER, 0, top, i, i + 1, [b]);
    assert Splice(bs, i, i + 1, [b]) == r;
    forall k | 0 <= k < |r|
      ensures HeaderAt(Marked(m, bs[i].addr, used), r, k)
    {
      assert HeaderAt(m, bs, k);
      InOrder(bs, top, i, k);
    }
  }

  /** A new free block behind the first `first` bytes of the room at `a`. */
  function SplitOff(m: Headers, a: nat, first: nat, top: nat): Headers
    requires |m.next| == |m.prev| == |m.used| && a < |m.next| && a + HEADER + first < |m.next| && m.next[a] < |m.next|
  {
    var b := a + HEADER + first;
    Headers(m.next[b := m.next[a]][a := b], if m.next[a] != top then m.prev[b := a][m.next[a] := b] else
      m.prev[b := a], m.used[b := false])
  }

  lemma SplitOffOk(m: Headers, bs: seq<Block>, top: nat, i: nat, first: nat)
    requires HeadersOk(m, bs, top) && i < |bs| && first + HEADER <= bs[i].size
    ensures bs[i].addr + HEADER + first < |m.next| && bs[i].addr < |m.next| && m.next[bs[i].addr] < |m.next|
    ensures HeadersOk(SplitOff(m, bs[i].addr, first, top), Splice(bs, i, i + 1, Halves(bs[i], first, bs[i].used)), top)
  {
    assert HeaderAt(m, bs, i);
    InOrder(bs, top, i, i);
    TiledSplice(bs, HEADER, 0, top, i, i + 1, Halves(bs[i], first, bs[i].used));
    var r, n := Splice(bs, i, i + 1, Halves(bs[i], first, bs[i].used)), SplitOff(m, bs[i].addr, first, top);
    forall k | 0 <= k < |r|
      ensures HeaderAt(n, r, k)
    {
      SplitHeader(m, bs, top, i, first, k);
    }
  }

  lemma SplitHeader(m: Headers, bs: seq<Block>, top: nat, i: nat, first: nat, k: nat)
    requires HeadersOk(m, bs, top) && i < |bs| && first + HEADER <= bs[i].size && k <= |bs|
    requires HeaderAt(m, bs, i) && End(bs[i], HEADER) <= top
    ensures HeaderAt(SplitOff(m, bs[i].addr, first, top), Splice(bs, i, i + 1, Halves(bs[i], first, bs[i].used)), k)
  {
    if k < i {
      assert HeaderAt(m, bs, k);
      InOrder(bs, top, k, i);
      SplitBefore(m, bs, top, i, first, k);
    } else if k <= i + 1 {
      SplitHere(m, bs, top, i, first);
    } else {
      assert HeaderAt(m, bs, k - 1);
      InOrder(bs, top, i, k - 1);
      SplitBehind(m, bs, top, i, first, k - 1);
    }
  }

  lemma SplitBefore(m: Headers, bs: seq<Block>, top: nat, i: nat, first: nat, k: nat)
    requires k < i < |bs| && first + HEADER <= bs[i].size && HeaderAt(m, bs, i) && HeaderAt(m, bs, k)
    requires End(bs[i], HEADER) <= top < |m.next| && End(bs[k], HEADER) <= bs[i].addr
    ensures HeaderAt(SplitOff(m, bs[i].addr, first, top), Splice(bs, i, i + 1, Halves(bs[i], first, bs[i].used)), k)
  {
    var r := Splice(bs, i, i + 1, Halves(bs[i], first, bs[i].used));
    assert r[k] == bs[k] && (k > 0 ==> r[k - 1] == bs[k - 1]);
  }

  lemma SplitHere(m: Headers, bs: seq<Block>, top: nat, i: nat, first: nat)
    requires i < |bs| && first + HEADER <= bs[i].size && HeaderAt(m, bs, i) && End(bs[i], HEADER) <= top < |m.next|
    ensures HeaderAt(SplitOff(m, bs[i].addr, first, top), Splice(bs, i, i + 1, Halves(bs[i], first, bs[i].used)), i)
    ensures HeaderAt(SplitOff(m, bs[i].addr, first, top), Splice(bs, i, i + 1, Halves(bs[i], first, bs[i].used)), i + 1)
  {
    var r := Splice(bs, i, i + 1, Halves(bs[i], first, bs[i].used));
    assert r[i] == Halves(bs[i], first, bs[i].used)[0] && r[i + 1] == Halves(bs[i], first, bs[i].used)[1];
    assert i > 0 ==> r[i - 1] == bs[i - 1];
  }

  lemma SplitBehind(m: Headers, bs: seq<Block>, top: nat, i: nat, first: nat, k: nat)
    requires i < k < |bs| && first + HEADER <= bs[i].size && HeaderAt(m, bs, i) && HeaderAt(m, bs, k)
    requires End(bs[i], HEADER) <= bs[k].addr && End(bs[k], HEADER) <= top < |m.next|
    requires Tiled(bs, HEADER, 0, top)
    ensures HeaderAt(SplitOff(m, bs[i].addr, first, top), Splice(bs, i, i + 1, Halves(bs[i], first, bs[i].used)), k + 1)
  {
    var r := Splice(bs, i, i + 1, Halves(bs[i], first, bs[i].used));
    assert r[k + 1] == bs[k];
    if k == i + 1 {
      assert r[k] == Halves(bs[i], first, bs[i].used)[1] && End(bs[i], HEADER) == bs[k].addr;
    } else {
      assert r[k] == bs[k - 1];
      InOrder(bs, top, i + 1, k);
      var j := i + 1;
      assert End(bs[i], HEADER) == bs[j].addr;
    }
  }

  /** mem->next = nmem->next, and the header there leads back to mem. */
  function Joined(m: Headers, a: nat, b: nat): Headers
    requires a < |m.next| && b < |m.next| && m.next[b] < |m.prev|
  {
    m.(next := m.next[a := m.next[b]], prev := m.prev[m.next[b] := a])
  }

  /** Two neighbours as one. */
  function Both(b: Block, c: Block): Block {
    Block(b.addr, b.size + HEADER + c.size, b.used)
  }

  lemma JoinedOk(m: Headers, bs: seq<Block>, top: nat, i: nat)
    requires HeadersOk(m, bs, top) && i + 1 < |bs|
    ensures bs[i].addr < |m.next| && bs[i + 1].addr < |m.next| && m.next[bs[i + 1].addr] < |m.prev|
    ensures HeadersOk(Joined(m, bs[i].addr, bs[i + 1].addr), Splice(bs, i, i + 2, [Both(bs[i], bs[i + 1])]), top)
  {
    var j := i + 1;
    assert HeaderAt(m, bs, i) && HeaderAt(m, bs, j) && End(bs[i], HEADER) == bs[j].addr;
    TiledSplice(bs, HEADER, 0, top, i, i + 2, [Both(bs[i], bs[j])]);
    InOrder(bs, top, i, j);
    var r := Splice(bs, i, i + 2, [Both(bs[i], bs[j])]);
    forall k | 0 <= k < |r|
      ensures HeaderAt(Joined(m, bs[i].addr, bs[j].addr), r, k)
    {
      if k <= i {
        assert HeaderAt(m, bs, k);
        InOrder(bs, top, k, i);
        JoinedBefore(m, bs, top, i, k);
      } else {
        assert HeaderAt(m, bs, k + 1);
        InOrder(bs, top, j, k + 1);
        JoinedBehind(m, bs, top, i, k + 1);
      }
    }
  }

  lemma JoinedBefore(m: Headers, bs: seq<Block>, top: nat, i: nat, k: nat)
    requires k <= i && i + 1 < |bs| && HeaderAt(m, bs, i) && HeaderAt(m, bs, i + 1) && HeaderAt(m, bs, k)
    requires End(bs[i], HEADER) == bs[i + 1].addr && End(bs[i + 1], HEADER) <= top < |m.next|
    requires k < i ==> End(bs[k], HEADER) <= bs[i].addr
    ensures HeaderAt(Joined(m, bs[i].addr, bs[i + 1].addr), Splice(bs, i, i + 2, [Both(bs[i], bs[i + 1])]), k)
  {
    var r := Splice(bs, i, i + 2, [Both(bs[i], bs[i + 1])]);
    assert r[k] == (if k == i then Both(bs[i], bs[i + 1]) else bs[k]) && (k > 0 ==> r[k - 1] == bs[k - 1]);
  }

  lemma JoinedBehind(m: Headers, bs: seq<Block>, top: nat, i: nat, k: nat)
    requires i + 1 < k < |bs| && HeaderAt(m, bs, i) && HeaderAt(m, bs, i + 1) && HeaderAt(m, bs, k)
    requires End(bs[i], HEADER) == bs[i + 1].addr && End(bs[i + 1], HEADER) <= bs[k].addr
    requires Tiled(bs, HEADER, 0, top) && End(bs[k], HEADER) <= top < |m.next|
    ensures HeaderAt(Joined(m, bs[i].addr, bs[i + 1].addr), Splice(bs, i, i + 2, [Both(bs[i], bs[i + 1])]), k - 1)
  {
    var r := Splice(bs, i, i + 2, [Both(bs[i], bs[i + 1])]);
    var j := i + 1;
    assert r[k - 1] == bs[k];
    if k == i + 2 {
      assert r[i] == Both(bs[i], bs[j]) && End(bs[j], HEADER) == bs[k].addr;
    } else {
      assert r[k - 2] == bs[k - 1];
      InOrder(bs, top, i + 2, k);
      var l := j + 1;
      assert End(bs[j], HEADER) == bs[l].addr;
    }
  }

  /** The address of the first free block, or heap_end. */
  function FirstFree(bs: seq<Block>, top: nat): nat {
    if bs == [] then top else if !bs[0].used then bs[0].addr else FirstFree(bs[1..], top)
  }

  lemma {:induction false} FirstFreeIs(bs: seq<Block>, top: nat, i: nat)
    requires i <= |bs| && forall j :: 0 <= j < i ==> bs[j].used
    ensures FirstFree(bs, top) == FirstFree(bs[i..], top)
  {
    if i == 0 {
      assert bs[0..] == bs;
    } else {
      FirstFreeIs(bs[1..], top, i - 1);
      assert bs[1..][i - 1..] == bs[i..];
    }
  }

  /** It is the lowest. */
  lemma {:induction false} FirstFreeLowest(bs: seq<Block>, lo: nat, top: nat, i: nat)
    requires Tiled(bs, HEADER, lo, top) && i < |bs| && !bs[i].used
    ensures lo <= FirstFree(bs, top) <= bs[i].addr
  {
    if i > 0 && bs[0].used {
      FirstFreeLowest(bs[1..], bs[1].addr, top, i - 1);
    } else {
      OrderedAll(bs, HEADER, lo, top);
    }
  }
}
