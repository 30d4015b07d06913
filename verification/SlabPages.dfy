/** The page allocator under the slab allocator (slab.c): a list of runs of free pages in
    address order.  Pages are numbered from the start of the heap. */
module SlabPages {
  /** rt_page_head: a run of `page` free pages beginning at page `start`. */
  datatype Run = Run(start: nat, page: nat) {
    function End(): nat {
      start + page
    }
  }

  /** The pages first, first + 1, ... up to end. */
  ghost function Range(first: nat, end: nat): (r: set<nat>)
    ensures forall p: nat :: p in r <==> first <= p < end
  {
    if end <= first then {} else Range(first, end - 1) + {end - 1}
  }

  /** No run starts before `lo`, runs are in order and not empty, and between two runs there is at
      least one page that is not free. */
  ghost predicate Canonical(lo: nat, runs: seq<Run>)
    decreases |runs|
  {
    runs == [] || (lo <= runs[0].start && runs[0].page > 0 && Canonical(runs[0].End() + 1, runs[1..]))
  }

  ghost function Pages(runs: seq<Run>): set<nat>
    decreases |runs|
  {
    if runs == [] then {} else Range(runs[0].start, runs[0].End()) + Pages(runs[1..])
  }

  lemma {:induction false} PagesFrom(lo: nat, runs: seq<Run>)
    requires Canonical(lo, runs)
    ensures forall p :: p in Pages(runs) ==> p >= lo
    decreases |runs|
  {
    if runs != [] {
      PagesFrom(runs[0].End() + 1, runs[1..]);
    }
  }

  lemma {:induction false} CanonicalLower(lo: nat, lower: nat, runs: seq<Run>)
    requires Canonical(lo, runs) && lower <= lo
    ensures Canonical(lower, runs)
  {
  }

  lemma {:induction false} RunPages(lo: nat, runs: seq<Run>, i: nat)
    requires Canonical(lo, runs) && i < |runs|
    ensures runs[i].page > 0 && Range(runs[i].start, runs[i].End()) <= Pages(runs)
    decreases |runs|
  {
    if i > 0 {
      RunPages(runs[0].End() + 1, runs[1..], i - 1);
    }
  }

  /** The set of free pages determines the list. */
  lemma {:induction false} PagesDetermine(lo: nat, a: seq<Run>, b: seq<Run>)
    requires Canonical(lo, a) && Canonical(lo, b) && Pages(a) == Pages(b)
    ensures a == b
    decreases |a|
  {
    PagesFrom(lo, a);
    PagesFrom(lo, b);
    assert a != [] ==> a[0].start in Pages(a);
    assert b != [] ==> b[0].start in Pages(b);
    if a != [] {
      SameFirst(lo, a, b);
      SameFirst(lo, b, a);
      var end := a[0].End();
      PagesFrom(end + 1, a[1..]);
      PagesFrom(end + 1, b[1..]);
      assert Pages(a[1..]) == Pages(a) - Range(a[0].start, end);
      assert Pages(b[1..]) == Pages(b) - Range(b[0].start, end);
      PagesDetermine(end + 1, a[1..], b[1..]);
      assert a == [a[0]] + a[1..] && b == [b[0]] + b[1..];
    }
  }

  /** The first run of one list is not before and not longer than that of the other. */
  lemma SameFirst(lo: nat, a: seq<Run>, b: seq<Run>)
    requires Canonical(lo, a) && Canonical(lo, b) && Pages(a) == Pages(b) && a != [] && b != []
    ensures a[0].start >= b[0].start
    ensures a[0].start == b[0].start ==> a[0].End() <= b[0].End()
  {
    PagesFrom(b[0].End() + 1, b[1..]);
    assert a[0].start in Pages(a);
    var e := b[0].End();
    assert a[0].start <= e < a[0].End() ==> e in Pages(a);
    assert e !in Pages(b);
  }

  /** rt_page_alloc of `npages` > 0 pages: the first run that is long enough gives its first
      pages. */
  function Taken(runs: seq<Run>, npages: nat): seq<Run>
    decreases |runs|
  {
    if runs == [] then []
    else if runs[0].page > npages then [Run(runs[0].start + npages, runs[0].page - npages)] + runs[1..]
    else if runs[0].page == npages then runs[1..]
    else [runs[0]] + Taken(runs[1..], npages)
  }

  /** Where it takes them from. */
  ghost predicate FirstFit(runs: seq<Run>, npages: nat, i: nat) {
    && i <= |runs| && (forall j :: 0 <= j < i ==> runs[j].page < npages)
    && (i < |runs| ==> runs[i].page >= npages)
  }

  lemma {:induction false} TakenIs(lo: nat, runs: seq<Run>, npages: nat, i: nat)
    requires Canonical(lo, runs) && npages > 0 && FirstFit(runs, npages, i)
    ensures Canonical(lo, Taken(runs, npages))
    ensures i == |runs| ==> Taken(runs, npages) == runs
    ensures i < |runs| ==> Range(runs[i].start, runs[i].start + npages) <= Pages(runs)
    ensures i < |runs| ==> Pages(Taken(runs, npages)) == Pages(runs) - Range(runs[i].start, runs[i].start + npages)
    decreases |runs|
  {
    if runs != [] {
      PagesFrom(runs[0].End() + 1, runs[1..]);
      if i > 0 {
        TakenIs(runs[0].End() + 1, runs[1..], npages, i - 1);
      } else if runs[0].page == npages {
        CanonicalLower(runs[0].End() + 1, lo, runs[1..]);
      }
    }
  }

  /** rt_page_free of `npages` > 0 pages from page n on: they are merged with the run that ends
      there, with the run that begins behind them, with both, or make a run of their own. */
  function Freed(runs: seq<Run>, n: nat, npages: nat): seq<Run>
    decreases |runs|
  {
    if runs == [] then [Run(n, npages)]
    else if runs[0].End() == n then
      if |runs| > 1 && n + npages == runs[1].start then
        [Run(runs[0].start, runs[0].page + npages + runs[1].page)] + runs[2..]
      else [Run(runs[0].start, runs[0].page + npages)] + runs[1..]
    else if runs[0].start == n + npages then [Run(n, runs[0].page + npages)] + runs[1..]
    else if runs[0].start > n + npages then [Run(n, npages)] + runs
    else [runs[0]] + Freed(runs[1..], n, npages)
  }

  /** The pages are merged with the first run, and perhaps with the second. */
  lemma FreedBehind(lo: nat, runs: seq<Run>, n: nat, npages: nat)
    requires Canonical(lo, runs) && npages > 0 && runs != [] && runs[0].End() == n
    requires Range(n, n + npages) !! Pages(runs)
    ensures Canonical(lo, Freed(runs, n, npages))
    ensures Pages(Freed(runs, n, npages)) == Pages(runs) + Range(n, n + npages)
  {
    var rest := runs[1..];
    if rest != [] {
      PagesFrom(n + 1, rest);
      assert rest[0].start in Pages(runs);
      assert runs[2..] == rest[1..];
    }
  }

  /** They come before the first run, and perhaps right before it. */
  lemma FreedBefore(lo: nat, runs: seq<Run>, n: nat, npages: nat)
    requires Canonical(lo, runs) && npages > 0 && lo <= n && (runs == [] || n + npages <= runs[0].start)
    ensures Canonical(lo, Freed(runs, n, npages))
    ensures Pages(Freed(runs, n, npages)) == Pages(runs) + Range(n, n + npages)
  {
    var r := Freed(runs, n, npages);
    if runs != [] && runs[0].start == n + npages {
      assert r == [Run(n, runs[0].page + npages)] + runs[1..] && r[1..] == runs[1..];
      assert Range(n, r[0].End()) == Range(n, n + npages) + Range(runs[0].start, runs[0].End());
    } else {
      assert r == [Run(n, npages)] + runs && r[1..] == runs;
      if runs != [] {
        CanonicalLower(runs[0].start, n + npages + 1, runs);
      }
    }
  }

  lemma {:induction false} FreedIs(lo: nat, runs: seq<Run>, n: nat, npages: nat)
    requires Canonical(lo, runs) && npages > 0 && lo <= n && Range(n, n + npages) !! Pages(runs)
    ensures Canonical(lo, Freed(runs, n, npages))
    ensures Pages(Freed(runs, n, npages)) == Pages(runs) + Range(n, n + npages)
    decreases |runs|
  {
    if runs == [] || n + npages <= runs[0].start {
      FreedBefore(lo, runs, n, npages);
    } else {
      var b := runs[0];
      assert n in Range(n, n + npages) && b.start in Pages(runs);
      assert b.End() <= n;
      if b.End() == n {
        FreedBehind(lo, runs, n, npages);
      } else {
        FreedIs(b.End() + 1, runs[1..], n, npages);
      }
    }
  }

  /** The list after the first run that is long enough, at position i, has given its pages. */
  function TakenAt(runs: seq<Run>, npages: nat, i: nat): seq<Run>
    requires i < |runs| && runs[i].page >= npages
  {
    if runs[i].page > npages then runs[..i] + [Run(runs[i].start + npages, runs[i].page - npages)] + runs[i + 1..]
    else runs[..i] + runs[i + 1..]
  }

  lemma {:induction false} TakenSkips(runs: seq<Run>, npages: nat, i: nat)
    requires i <= |runs| && forall j :: 0 <= j < i ==> runs[j].page < npages
    ensures Taken(runs, npages) == runs[..i] + Taken(runs[i..], npages)
    decreases i
  {
    if i == 0 {
      assert runs[0..] == runs;
    } else {
      var rest := runs[1..];
      TakenSkips(rest, npages, i - 1);
      assert runs[i..] == rest[i - 1..] && runs[..i] == [runs[0]] + rest[..i - 1];
    }
  }

  lemma TakenThere(runs: seq<Run>, npages: nat, i: nat)
    requires FirstFit(runs, npages, i) && i < |runs|
    ensures Taken(runs, npages) == TakenAt(runs, npages, i)
  {
    TakenSkips(runs, npages, i);
    assert runs[i..][0] == runs[i] && runs[i..][1..] == runs[i + 1..];
  }

  /** Freeing what was just allocated restores the very same list. */
  lemma FreedRestores(runs: seq<Run>, npages: nat, i: nat)
    requires Canonical(0, runs) && npages > 0 && FirstFit(runs, npages, i) && i < |runs|
    ensures Freed(Taken(runs, npages), runs[i].start, npages) == runs
  {
    var (n, left) := (runs[i].start, Taken(runs, npages));
    TakenIs(0, runs, npages, i);
    FreedIs(0, left, n, npages);
    PagesDetermine(0, Freed(left, n, npages), runs);
  }

  /** Where the search of rt_page_free stops for the pages n to n + npages. */
  ghost predicate StopsAt(runs: seq<Run>, n: nat, npages: nat, i: nat) {
    && i <= |runs| && (forall j :: 0 <= j < i ==> runs[j].End() != n && runs[j].start < n + npages)
    && (i < |runs| ==> runs[i].End() == n || runs[i].start >= n + npages)
  }

  /** What it does there. */
  function FreedHead(runs: seq<Run>, n: nat, npages: nat): seq<Run> {
    if runs != [] && runs[0].End() == n then
      if |runs| > 1 && n + npages == runs[1].start then
        [Run(runs[0].start, runs[0].page + npages + runs[1].page)] + runs[2..]
      else [Run(runs[0].start, runs[0].page + npages)] + runs[1..]
    else if runs != [] && runs[0].start == n + npages then [Run(n, runs[0].page + npages)] + runs[1..]
    else [Run(n, npages)] + runs
  }

  lemma FreedSkipsOne(runs: seq<Run>, n: nat, npages: nat)
    requires runs != [] && runs[0].End() != n && runs[0].start < n + npages
    ensures Freed(runs, n, npages) == [runs[0]] + Freed(runs[1..], n, npages)
  {
  }

  lemma {:induction false} FreedSkips(runs: seq<Run>, n: nat, npages: nat, i: nat)
    requires i <= |runs| && forall j :: 0 <= j < i ==> runs[j].End() != n && runs[j].start < n + npages
    ensures Freed(runs, n, npages) == runs[..i] + Freed(runs[i..], n, npages)
    decreases i
  {
    if i == 0 {
      assert runs[0..] == runs;
    } else {
      var rest := runs[1..];
      FreedSkipsOne(runs, n, npages);
      FreedSkips(rest, n, npages, i - 1);
      assert runs[i..] == rest[i - 1..] && runs[..i] == [runs[0]] + rest[..i - 1];
    }
  }

  lemma FreedThere(runs: seq<Run>, n: nat, npages: nat, i: nat)
    requires StopsAt(runs, n, npages, i)
    ensures Freed(runs, n, npages) == runs[..i] + FreedHead(runs[i..], n, npages)
  {
    FreedSkips(runs, n, npages, i);
    assert i < |runs| ==> runs[i..][0] == runs[i];
  }

  const NULL: int := -1

  class PageHeap {
    var list: seq<Run>

    ghost predicate Valid()
      reads this
    {
      Canonical(0, list)
    }

    ghost function FreePages(): set<nat>
      reads this
    {
      Pages(list)
    }

    /** rt_page_init */
    constructor (first: nat, npages: nat)
      requires npages > 0
      ensures Valid() && FreePages() == Range(first, first + npages)
      ensures list == [Run(first, npages)]
    {
      list := [];
      new;
      PageFree(first, npages);
      ghost var whole := [Run(first, npages)];
      assert whole[1..] == [] && Pages(whole[1..]) == {};
      PagesDetermine(0, list, whole);
    }

    /** rt_page_alloc: the first run that is long enough, or nothing if there is none. */
    method PageAlloc(npages: nat) returns (b: int)
      requires Valid()
      modifies this
      ensures Valid()
      ensures b == NULL <==> npages == 0 || forall i :: 0 <= i < |old(list)| ==> old(list)[i].page < npages
      ensures b == NULL ==> list == old(list)
      ensures b != NULL ==>
        b >= 0 && Range(b, b + npages) <= old(FreePages()) && FreePages() == old(FreePages()) - Range(b, b + npages)
      ensures b != NULL ==>
        exists i: nat :: i < |old(list)| && b == old(list)[i].start && FirstFit(old(list), npages, i)
      ensures b != NULL ==> list == Taken(old(list), npages)
    {
      b := NULL;
      if npages == 0 {
        return;
      }
      var prev := 0;
      while prev < |list| && list[prev].page < npages
        invariant prev <= |list| && forall j :: 0 <= j < prev ==> list[j].page < npages
      {
        prev := prev + 1;
      }
      if prev < |list| {
        TakenIs(0, list, npages, prev);
        TakenThere(list, npages, prev);
        b := Split(prev, npages);
      }
    }

    /** A run gives its first pages; with none left it leaves the list. */
    method Split(prev: nat, npages: nat) returns (b: nat)
      requires prev < |list| && list[prev].page >= npages
      modifies this
      ensures b == old(list)[prev].start && list == TakenAt(old(list), npages, prev)
    {
      var head := list[prev];
      b := head.start;
      if head.page > npages {
        list := list[..prev] + [Run(head.start + npages, head.page - npages)] + list[prev + 1..];
      } else {
        list := list[..prev] + list[prev + 1..];
      }
    }

    /** rt_page_free: exactly these pages become free, and no two runs touch. */
    method PageFree(n: nat, npages: nat)
      requires Valid() && npages > 0 && Range(n, n + npages) !! FreePages()
      modifies this
      ensures Valid() && FreePages() == old(FreePages()) + Range(n, n + npages)
      ensures list == Freed(old(list), n, npages)
    {
      FreedIs(0, list, n, npages);
      var prev := 0;
      while prev < |list| && list[prev].End() != n && list[prev].start < n + npages
        invariant prev <= |list| && forall j :: 0 <= j < prev ==> list[j].End() != n && list[j].start < n + npages
      {
        prev := prev + 1;
      }
      FreedThere(list, n, npages, prev);
      Splice(n, npages, prev);
    }

    /** What rt_page_free does where its search has stopped. */
    method Splice(n: nat, npages: nat, prev: nat)
      requires prev <= |list|
      modifies this
      ensures list == old(list)[..prev] + FreedHead(old(list)[prev..], n, npages)
    {
      var before, here := list[..prev], list[prev..];
      if here != [] && here[0].End() == n {
        if |here| > 1 && n + npages == here[1].start {
          here := [Run(here[0].start, here[0].page + npages + here[1].page)] + here[2..];
        } else {
          here := [Run(here[0].start, here[0].page + npages)] + here[1..];
        }
      } else if here != [] && here[0].start == n + npages {
        here := [Run(n, here[0].page + npages)] + here[1..];
      } else {
        here := [Run(n, npages)] + here;
      }
      list := before + here;
    }
  }
}
