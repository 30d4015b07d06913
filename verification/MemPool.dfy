/** The memory pool of mempool.c: equal blocks threaded into a free list through their header
    words, and threads suspended until a block is freed.  Regions with interrupts disabled are
    single steps. */
module MemPool {
  import opened Lists
  import opened WaitLists
  import opened MessageNodes

  datatype Outcome = Done | TimedOut | Blocked

  /** What the header word of an allocated block holds: the pool it belongs to. */
  const POOL: int := -2

  /** Blocks k, k + 1, ... up to n. */
  function From(k: nat, n: nat): (r: seq<nat>)
    requires k <= n
    ensures |r| == n - k
    decreases n - k
  {
    if k == n then [] else [k] + From(k + 1, n)
  }

  /** The thread that rt_mp_init lays through the pool. */
  lemma {:induction false} ThreadedFrom(link: seq<int>, k: nat)
    requires k <= |link| && forall i :: k <= i < |link| ==> link[i] == if i + 1 < |link| then i + 1 else NULL
    ensures Chain(link, if k < |link| then k else NULL, From(k, |link|))
    ensures Once(From(k, |link|)) && forall x :: x in Ids(From(k, |link|)) <==> k <= x < |link|
    decreases |link| - k
  {
    if k < |link| {
      ThreadedFrom(link, k + 1);
      Prepended(From(k + 1, |link|), k);
      assert From(k, |link|)[1..] == From(k + 1, |link|);
    } else {
      assert Ids(From(k, |link|)) == {};
    }
  }

  class MemPool {
    const link: array<int>
    var blockList: int
    var freeCount: nat
    var waiting: seq<nat>
    ghost var freeList: seq<nat>
    ghost var live: set<nat>
    ghost var woken: set<nat>

    ghost predicate Threaded()
      reads this, link
    {
      && Chain(link[..], blockList, freeList) && Once(freeList)
      && Ids(freeList) !! live && Ids(freeList) + live == Nodes(link.Length)
      && (forall x :: x in live && x < link.Length ==> link[x] == POOL)
    }

    ghost predicate Valid()
      reads this, link
    {
      Threaded() && freeCount == |freeList| && NoneLost(Channel(waiting, woken), freeCount)
    }

    /** rt_mp_init.  With no room for a block the source would write before the pool, so there
        has to be one. */
    constructor (blocks: nat)
      requires blocks > 0
      ensures Valid() && live == {} && |freeList| == blocks == link.Length && fresh(link) && waiting == []
    {
      link := new int[blocks];
      blockList, freeCount, waiting := 0, blocks, [];
      freeList, live, woken := From(0, blocks), {}, {};
      new;
      var offset := 0;
      while offset < blocks
        invariant offset <= blocks == link.Length && blockList == 0 && freeCount == blocks && waiting == []
        invariant freeList == From(0, blocks) && live == {} && woken == {}
        invariant forall i :: 0 <= i < offset ==> link[i] == i + 1
      {
        link[offset] := offset + 1;
        offset := offset + 1;
      }
      link[offset - 1] := NULL;
      ThreadedFrom(link[..], 0);
      assert Ids(freeList) == Nodes(blocks);
    }

    /** rt_mp_alloc by thread t, entered first or again after having been resumed: a block nobody
        has, unless there is none. */
    method Alloc(t: nat, time: int) returns (r: Outcome, block: int)
      requires Valid() && t !in Ids(waiting)
      modifies link, this`blockList, this`freeCount, this`waiting, this`freeList, this`live, this`woken
      ensures Valid()
      ensures r == Done <==> old(freeCount) > 0
      ensures r == Done ==> 0 <= block < link.Length && block !in old(live) && block == old(freeList)[0]
      ensures r == Done ==>
        live == old(live) + {old(freeList)[0]} && freeCount == old(freeCount) - 1 && freeList == old(freeList)[1..]
      ensures r != Blocked ==> waiting == old(waiting)
      ensures r == TimedOut <==> old(freeCount) == 0 && time == 0
      ensures r != Done ==> live == old(live) && freeCount == 0 && freeList == old(freeList)
      ensures r == Blocked ==> waiting == [t] + old(waiting)
      ensures woken == old(woken) - {t}
    {
      block := NULL;
      if freeCount > 0 {
        block := Grant(t);
        r := Done;
      } else {
        r := Refuse(t, time);
      }
    }

    /** There is no block: the thread gives up or is suspended in front of the list. */
    method Refuse(t: nat, time: int) returns (r: Outcome)
      requires NoneLost(Channel(waiting, woken), 0) && t !in Ids(waiting)
      modifies this`waiting, this`woken
      ensures NoneLost(Channel(waiting, woken), 0) && woken == old(woken) - {t}
      ensures r == if time == 0 then TimedOut else Blocked
      ensures waiting == if time == 0 then old(waiting) else [t] + old(waiting)
    {
      GaveUpOk(Channel(waiting, woken), t);
      SleptOk(Channel(waiting, woken), t, 0);
      assert Inserted(waiting, 0, t) == [t] + waiting;
      woken := woken - {t};
      if time == 0 {
        r := TimedOut;
      } else {
        waiting := [t] + waiting;
        r := Blocked;
      }
    }

    method Grant(t: nat) returns (block: int)
      requires Valid() && freeCount > 0
      modifies link, this`blockList, this`freeCount, this`freeList, this`live, this`woken
      ensures Valid() && block == old(freeList)[0] && 0 <= block < link.Length && block !in old(live)
      ensures live == old(live) + {old(freeList)[0]} && freeCount == old(freeCount) - 1 && woken == old(woken) - {t}
      ensures freeList == old(freeList)[1..]
    {
      TookOk(Channel(waiting, woken), freeCount, t);
      freeCount := freeCount - 1;
      block := Take();
      woken := woken - {t};
    }

    /** The first free block leaves the list. */
    method Take() returns (block: int)
      requires Threaded() && freeList != []
      modifies link, this`blockList, this`freeList, this`live
      ensures Threaded() && block == old(freeList)[0] && 0 <= block < link.Length && block !in old(live)
      ensures live == old(live) + {old(freeList)[0]} && freeList == old(freeList)[1..]
    {
      assert freeList[0] in Ids(freeList);
      OnceTail(freeList);
      ChainElsewhere(link[..], link[freeList[0]], freeList[1..], freeList[0], POOL);
      block := blockList;
      blockList := link[block];
      link[block] := POOL;
      live, freeList := live + {freeList[0]}, freeList[1..];
    }

    /** A block is put in front of the list. */
    method Put(block: nat)
      requires Threaded() && block in live
      modifies link, this`blockList, this`freeList, this`live
      ensures Threaded() && live == old(live) - {block} && freeList == [block] + old(freeList)
    {
      assert block in Nodes(link.Length);
      ChainPushed(link[..], blockList, freeList, block);
      Prepended(freeList, block);
      assert ([block] + freeList)[1..] == freeList;
      link[block] := blockList;
      blockList := block;
      freeList, live := [block] + freeList, live - {block};
    }

    /** rt_mp_free: an allocated block goes back, and a suspended thread is resumed. */
    method Free(block: int)
      requires Valid() && (block != NULL ==> block >= 0 && block in live)
      modifies link, this`blockList, this`freeCount, this`waiting, this`freeList, this`live, this`woken
      ensures Valid()
      ensures block == NULL ==>
        live == old(live) && freeList == old(freeList) && waiting == old(waiting) && woken == old(woken)
      ensures block != NULL ==> live == old(live) - {block as nat} && freeList == [block as nat] + old(freeList)
      ensures block != NULL ==> FirstWakes(old(waiting), old(woken), waiting, woken)
    {
      if block != NULL {
        GiveBack(block);
      }
    }

    method GiveBack(block: nat)
      requires Valid() && block in live
      modifies link, this`blockList, this`freeCount, this`waiting, this`freeList, this`live, this`woken
      ensures Valid() && live == old(live) - {block} && freeList == [block] + old(freeList)
      ensures FirstWakes(old(waiting), old(woken), waiting, woken)
    {
      freeCount := freeCount + 1;
      Put(block);
      ResumeOne(freeCount - 1);
    }

    method ResumeOne(ghost before: nat)
      requires NoneLost(Channel(waiting, woken), before)
      modifies this`waiting, this`woken
      ensures NoneLost(Channel(waiting, woken), before + 1)
      ensures FirstWakes(old(waiting), old(woken), waiting, woken)
    {
      waiting, woken := ResumeFirst(waiting, woken, before);
    }

    /** The timer of a suspended thread runs out. */
    method Expire(t: nat)
      requires Valid()
      modifies this`waiting
      ensures Valid() && waiting == Unlinked(old(waiting), t)
    {
      LeftOk(Channel(waiting, woken), freeCount, t);
      waiting := Unlinked(waiting, t);
    }

    /** Every block is free or handed out, once; and once all resumed threads have looked again,
        nobody waits beside a free block. */
    lemma Accounted()
      requires Valid()
      ensures freeCount + |live| == link.Length
      ensures woken == {} && waiting != [] ==> |live| == link.Length
    {
      OnceCount(freeList);
      NodesCount(link.Length);
      assert |Ids(freeList) + live| == |Ids(freeList)| + |live|;
      if woken == {} && freeCount > 0 {
        Quiescent(Channel(waiting, woken), freeCount);
      }
    }
  }
}
