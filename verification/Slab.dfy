/** rt_malloc, rt_free and rt_realloc of the slab allocator (slab.c).  heap_sem is not modelled:
    each operation is taken as one step. */
module Slab {
  import opened Lists
  import opened SlabSizes
  import opened SlabChunks
  import opened SlabPages
  import opened SlabState

  /** zone_free keeps at most so many zones. */
  const RELEASE_THRESHOLD: nat := 2

  /** No run of free pages is long enough for n. */
  ghost predicate NoRun(list: seq<Run>, n: nat) {
    forall i :: 0 <= i < |list| ==> list[i].page < n
  }

  ghost function Repaint(was: seq<Owner>, first: nat, count: nat, o: Owner): (now: seq<Owner>)
    requires first + count <= |was|
    ensures Reowned(was, now, first, count, o)
  {
    seq(|was|, p requires 0 <= p < |was| => if first <= p < first + count then o else was[p])
  }

  /** At the beginning the first pages hold the page descriptors, and nobody owns the others. */
  lemma NothingYet(s: State, table: nat)
    requires s.pages > 0 && |s.usage| == |s.owner| && s.zones == map[] && s.runs == map[] && s.live == map[]
    requires forall p :: 0 <= p < |s.owner| ==> s.owner[p] == if p < table then Table else Unowned
    ensures StateOk(s, Range(table, |s.owner|))
  {
    forall p | 0 <= p < |s.owner|
      ensures PageOk(s, Range(table, |s.owner|), p)
    {
    }
  }

  lemma NoLists(rows: seq<seq<nat>>)
    requires |rows| == NZONES && forall i :: 0 <= i < NZONES ==> rows[i] == []
    ensures ListsOk(map[], rows, [])
  {
    forall i | 0 <= i < NZONES
      ensures RowOk(map[], rows, i)
    {
    }
  }

  lemma FirstSpareGone(zones: map<nat, Zone>, rows: seq<seq<nat>>, spare: seq<nat>)
    requires ListsOk(zones, rows, spare) && spare != []
    ensures spare[0] in zones && !zones[spare[0]].active
    ensures ListsOk(zones - {spare[0]}, rows, spare[1..])
  {
    assert spare[0] in Ids(spare) && RowOk(zones, rows, 0);
    OnceTail(spare);
    ListsStep(zones, zones - {spare[0]}, rows, spare, spare[0], 0, rows[0], spare[1..]);
    assert rows == rows[0 := rows[0]];
  }

  /** The room a request is given. */
  function RoomFor(zoneSize: nat, size: nat): nat {
    if size >= Limit(zoneSize) then RoundUp(size, PAGE) else ZoneIndex(size).size
  }

  class Slab {
    const pages: PageHeap
    const zoneSize: nat
    var memusage: seq<Usage>
    var zones: map<nat, Zone>
    var zoneArray: seq<seq<nat>>
    var zoneFree: seq<nat>
    ghost var owner: seq<Owner>
    ghost var runs: map<nat, nat>
    /** The pointers that are held, with their room. */
    ghost var live: map<nat, nat>

    ghost function Now(): State
      reads this
    {
      State(zoneSize / PAGE, memusage, zones, owner, runs, live)
    }

    ghost predicate Valid()
      reads this, pages
    {
      && pages.Valid() && IsZoneSize(zoneSize)
      && StateOk(Now(), pages.FreePages())
      && ListsOk(zones, zoneArray, zoneFree) && |zoneFree| <= RELEASE_THRESHOLD
    }

    /** rt_system_heap_init: the page descriptors, of unknown contents, take the first pages. */
    constructor (npages: nat, contents: seq<Usage>)
      requires |contents| == npages > 0
      ensures Valid() && live == map[] && zones == map[] && fresh(pages)
      ensures pages.FreePages() == Range(RoundUp(4 * npages, PAGE) / PAGE, npages)
      ensures zoneSize == MIN_ZONE || zoneSize < npages * PAGE / 1024
      ensures pages.list == Taken([Run(0, npages)], RoundUp(4 * npages, PAGE) / PAGE)
      ensures forall p :: 0 <= p < |owner| ==>
        owner[p] == if p < RoundUp(4 * npages, PAGE) / PAGE then Table else Unowned
    {
      var bytes := npages * PAGE;
      var chosen := ZoneSizeFor(bytes);
      zoneSize := chosen;
      pages := new PageHeap(0, npages);
      memusage, zones, zoneFree := contents, map[], [];
      zoneArray := seq(NZONES, i => []);
      var table := RoundUp(4 * npages, PAGE) / PAGE;
      owner, runs, live := seq(npages, p => if p < table then Table else Unowned), map[], map[];
      new;
      TableFits(npages);
      var first := pages.PageAlloc(table);
      assert pages.FreePages() == Range(table, npages);
      NothingYet(Now(), table);
      NoLists(zoneArray);
    }

    /** The large case of rt_malloc. */
    method MallocLarge(size: nat) returns (chunk: int)
      requires Valid() && size > 0
      modifies this, pages
      ensures Valid() && zones == old(zones) && zoneArray == old(zoneArray) && zoneFree == old(zoneFree)
      ensures chunk == NULL <==> NoRun(old(pages.list), RoundUp(size, PAGE) / PAGE)
      ensures chunk == NULL ==> Now() == old(Now()) && pages.list == old(pages.list)
      ensures chunk != NULL ==> chunk >= 0 && chunk !in old(live) && live == old(live)[chunk := RoundUp(size, PAGE)]
      ensures chunk != NULL ==> exists i: nat :: i < |old(pages.list)| && chunk == old(pages.list)[i].start * PAGE
      ensures chunk != NULL ==> pages.list == Taken(old(pages.list), RoundUp(size, PAGE) / PAGE)
    {
      var rounded := RoundUp(size, PAGE);
      var count := rounded / PAGE;
      assert count > 0 && count * PAGE == rounded;
      ghost var s, free := Now(), pages.FreePages();
      var q := pages.PageAlloc(count);
      if q == NULL {
        return NULL;
      }
      PagesInside(s, free, q, count);
      memusage := memusage[q := Usage(LARGE, count)];
      owner := Repaint(owner, q, count, InRun(q));
      runs := runs[q := count];
      live := live[q * PAGE := rounded];
      ClaimRun(s, Now(), free, q, count);
      chunk := q * PAGE;
    }

    lemma PagesInside(s: State, free: set<nat>, first: nat, count: nat)
      requires StateOk(s, free) && count > 0 && Range(first, first + count) <= free
      ensures first + count <= |s.owner|
      ensures forall p :: first <= p < first + count ==> s.owner[p] == Unowned
    {
      assert first + count - 1 in Range(first, first + count);
      forall p | first <= p < first + count
        ensures s.owner[p] == Unowned
      {
        assert p in Range(first, first + count) && PageOk(s, free, p);
      }
    }

    /** The case of rt_malloc in which a zone of the right index has a chunk. */
    method TakeChunk(zi: nat, size: nat) returns (chunk: nat)
      requires Valid() && zi < NZONES && zoneArray[zi] != [] && size == SizeOf(zi)
      modifies this`zones, this`zoneArray, this`live
      ensures Valid()
      ensures chunk !in old(live) && live == old(live)[chunk := size]
      ensures ServedFrom(old(zones), zones, old(zoneArray)[zi][0], chunk)
    {
      var a := zoneArray[zi][0];
      assert RowOk(zones, zoneArray, zi) && a in Ids(zoneArray[zi]);
      ghost var s, free, row := Now(), pages.FreePages(), zoneArray[zi];
      assert ZoneAt(s, a);
      HandOut(zones[a]);
      OnceTail(row);
      if zones[a].nfree - 1 == 0 {
        zoneArray := zoneArray[zi := zoneArray[zi][1..]];
      }
      var z;
      chunk, z := HandOutOf(zones[a], size);
      ChunkTaken(s, free, a, z, chunk);
      ListsStep(zones, zones[a := z], old(zoneArray), zoneFree, a, zi, zoneArray[zi], zoneFree);
      assert zoneArray == old(zoneArray)[zi := zoneArray[zi]];
      zones := zones[a := z];
      live := live[chunk := size];
    }

    /** The case of rt_malloc in which a zone has to be opened for the index: a spare one, or one
        made of new pages. */
    method OpenZone(zi: nat, n: nat) returns (chunk: int)
      requires Valid() && 0 < n < Limit(zoneSize) && zi == ZoneIndex(n).index && zoneArray[zi] == []
      modifies this, pages
      ensures Valid()
      ensures chunk == NULL <==> old(zoneFree) == [] && NoRun(old(pages.list), zoneSize / PAGE)
      ensures chunk == NULL ==>
        && Now() == old(Now())
        && zoneArray == old(zoneArray)
        && zoneFree == old(zoneFree)
        && pages.list == old(pages.list)
      ensures chunk != NULL ==> chunk >= 0 && chunk !in old(live) && live == old(live)[chunk := SizeOf(zi)]
      ensures old(zoneFree) != [] ==>
        && chunk != NULL && ServedFrom(old(zones), zones, old(zoneFree)[0], chunk)
        && zoneFree == old(zoneFree)[1..] && pages.list == old(pages.list)
      ensures old(zoneFree) == [] && chunk != NULL ==>
        && zoneFree == [] && pages.list == Taken(old(pages.list), zoneSize / PAGE)
        && exists a: nat :: a !in old(zones) && ServedFrom(old(zones), zones, a, chunk)
    {
      var a := FetchZone();
      if a == NULL {
        return NULL;
      }
      chunk := SetUp(a, zi, n, old(zones), old(zoneFree));
    }

    /** A zone to set up: the first spare one, or new pages. */
    method FetchZone() returns (a: int)
      requires Valid()
      modifies this, pages
      ensures pages.Valid() && StateOk(Now(), pages.FreePages())
      ensures zoneArray == old(zoneArray) && live == old(live)
      ensures a == NULL <==> old(zoneFree) == [] && NoRun(old(pages.list), zoneSize / PAGE)
      ensures a == NULL ==> Now() == old(Now()) && zoneFree == old(zoneFree) && pages.list == old(pages.list)
      ensures a != NULL ==> a >= 0 && Unlisted(old(zones), old(zoneFree), zones, zoneFree, a)
      ensures old(zoneFree) != [] ==>
        a == old(zoneFree)[0] && zoneFree == old(zoneFree)[1..] && zones == old(zones) && pages.list == old(pages.list)
      ensures old(zoneFree) == [] && a != NULL ==>
        && a !in old(zones) && zones == old(zones)[a as nat := RAW] && zoneFree == []
        && pages.list == Taken(old(pages.list), zoneSize / PAGE)
    {
      if zoneFree != [] {
        a := zoneFree[0];
        OnceTail(zoneFree);
        assert zoneFree[0] in Ids(zoneFree);
        zoneFree := zoneFree[1..];
      } else {
        a := NewPages();
      }
    }

    /** Pages for a new zone, each with a descriptor that tells where it is in the zone. */
    method NewPages() returns (a: int)
      requires Valid()
      modifies this`memusage, this`zones, this`owner, pages
      ensures pages.Valid() && StateOk(Now(), pages.FreePages())
      ensures a == NULL <==> NoRun(old(pages.list), zoneSize / PAGE)
      ensures a == NULL ==> Now() == old(Now()) && pages.list == old(pages.list)
      ensures a != NULL ==> a >= 0 && a !in old(zones) && zones == old(zones)[a := RAW]
      ensures a != NULL ==> pages.list == Taken(old(pages.list), zoneSize / PAGE)
    {
      ghost var s, free := Now(), pages.FreePages();
      var count := zoneSize / PAGE;
      a := pages.PageAlloc(count);
      if a == NULL {
        return;
      }
      PagesInside(s, free, a, count);
      Describe(a, count);
      owner := Repaint(owner, a, count, InZone(a));
      zones := zones[a := RAW];
      ClaimZone(s, Now(), free, a);
    }

    method Describe(a: nat, count: nat)
      requires a + count <= |memusage|
      modifies this`memusage
      ensures Redescribed(old(memusage), memusage, a, count)
      ensures forall p :: a <= p < a + count ==> memusage[p] == Usage(SMALL, p - a)
    {
      var off := 0;
      while off < count
        invariant off <= count && Redescribed(old(memusage), memusage, a, count)
        invariant forall p :: a <= p < a + off ==> memusage[p] == Usage(SMALL, p - a)
      {
        memusage := memusage[a + off := Usage(SMALL, off)];
        off := off + 1;
      }
    }

    /** The zone's header is written, its first chunk goes out, and it is linked for its index. */
    method SetUp(a: nat, zi: nat, n: nat, ghost was: map<nat, Zone>, ghost spare: seq<nat>) returns (chunk: nat)
      requires pages.Valid() && IsZoneSize(zoneSize) && StateOk(Now(), pages.FreePages())
      requires 0 < n < Limit(zoneSize) && zi == ZoneIndex(n).index && zi < NZONES
      requires ListsOk(was, zoneArray, spare) && |spare| <= RELEASE_THRESHOLD && zoneArray[zi] == []
      requires Unlisted(was, spare, zones, zoneFree, a)
      modifies this`zones, this`zoneArray, this`live
      ensures Valid()
      ensures chunk !in old(live) && live == old(live)[chunk := SizeOf(zi)]
      ensures ServedFrom(old(zones), zones, a, chunk)
    {
      ZoneHolds(zoneSize, zi, n);
      NewZoneOk(a, zi, zoneSize);
      ghost var s, free := Now(), pages.FreePages();
      var size := SizeOf(zi);
      var nmax := (zoneSize - Offset(size)) / size;
      var z := Zone(true, zi, size, a * PAGE + Offset(size), 0, nmax, nmax - 1, []);
      chunk := z.base + z.uindex * size;
      assert z == NewZone(a, zi, zoneSize) && chunk == z.base;
      ChunkTaken(s, free, a, z, chunk);
      Prepended(zoneArray[zi], a);
      ListsStep(was, zones[a := z], zoneArray, spare, a, zi, [a] + zoneArray[zi], zoneFree);
      zones := zones[a := z];
      live := live[chunk := size];
      zoneArray := zoneArray[zi := [a] + zoneArray[zi]];
    }

    /** rt_malloc */
    method Malloc(size: nat) returns (chunk: int)
      requires Valid()
      modifies this, pages
      ensures Valid()
      ensures chunk == NULL <==> old(Exhausted(size))
      ensures chunk == NULL ==>
        && Now() == old(Now())
        && zoneArray == old(zoneArray)
        && zoneFree == old(zoneFree)
        && pages.list == old(pages.list)
      ensures chunk != NULL ==> chunk >= 0 && chunk !in old(live) && live == old(live)[chunk := RoomFor(zoneSize, size)]
      ensures chunk != NULL && size >= Limit(zoneSize) ==>
        && (exists i: nat :: i < |old(pages.list)| && chunk == old(pages.list)[i].start * PAGE)
        && pages.list == Taken(old(pages.list), RoundUp(size, PAGE) / PAGE)
        && zones == old(zones) && zoneArray == old(zoneArray) && zoneFree == old(zoneFree)
      ensures chunk != NULL && size < Limit(zoneSize) && old(Row(size)) != [] ==>
        && ServedFrom(old(zones), zones, old(Row(size))[0], chunk)
        && zoneFree == old(zoneFree) && pages.list == old(pages.list)
      ensures chunk != NULL && size < Limit(zoneSize) && old(Row(size)) == [] && old(zoneFree) != [] ==>
        && ServedFrom(old(zones), zones, old(zoneFree)[0], chunk)
        && zoneFree == old(zoneFree)[1..] && pages.list == old(pages.list)
      ensures chunk != NULL && size < Limit(zoneSize) && old(Row(size)) == [] && old(zoneFree) == [] ==>
        && (exists a: nat :: a !in old(zones) && ServedFrom(old(zones), zones, a, chunk))
        && zoneFree == [] && pages.list == Taken(old(pages.list), zoneSize / PAGE)
    {
      if size == 0 {
        return NULL;
      }
      if size >= Limit(zoneSize) {
        chunk := MallocLarge(size);
        return;
      }
      ZoneIndexIs(size);
      var zi := ZoneIndex(size).index;
      if zoneArray[zi] != [] {
        chunk := TakeChunk(zi, ZoneIndex(size).size);
      } else {
        chunk := OpenZone(zi, size);
      }
    }

    /** What the header of the source promises of rt_malloc: the pointer given for a power of two is
        aligned to it.  It is exactly if the zone or the run it lies in is, and always for a page
        or less. */
    lemma Alignment(size: nat, chunk: nat)
      requires Valid() && Power2(size) && chunk in live && live[chunk] == RoomFor(zoneSize, size)
      ensures chunk / PAGE < |owner| && (chunk % size == 0 <==> Home(Now(), chunk) % size == 0)
      ensures size <= PAGE ==> chunk % size == 0
    {
      PowerRoom(zoneSize, size);
      AlignedIffHome(Now(), pages.FreePages(), chunk, size);
    }

    /** There is nothing to give for the request. */
    ghost predicate Exhausted(size: nat)
      requires |zoneArray| == NZONES && IsZoneSize(zoneSize)
      reads this, pages
    {
      if size >= Limit(zoneSize) then NoRun(pages.list, RoundUp(size, PAGE) / PAGE)
      else size == 0 || (Row(size) == [] && zoneFree == [] && NoRun(pages.list, zoneSize / PAGE))
    }

    /** A request whose size wraps when it is rounded up is refused like any other that is too large:
        rt_page_alloc is then asked for no pages at all. */
    lemma WrappedIsRefused(size: nat)
      requires Valid() && |owner| < 0x10_0000 && 0xffff_f000 < size < 0x1_0000_0000
      ensures RoundUp(size, PAGE) % 0x1_0000_0000 == 0 && Exhausted(size)
    {
      RoundUpIs(size, PAGE, 0x10_0000);
      forall i | 0 <= i < |pages.list|
        ensures pages.list[i].page < 0x10_0000
      {
        RunInside(i);
      }
    }

    lemma RunInside(i: nat)
      requires Valid() && i < |pages.list|
      ensures pages.list[i].start + pages.list[i].page <= |owner|
    {
      var r := pages.list[i];
      RunPages(0, pages.list, i);
      assert r.End() - 1 in Range(r.start, r.End());
    }

    /** The list of the zones that may serve a small request. */
    ghost function Row(size: nat): seq<nat>
      requires |zoneArray| == NZONES
      reads this
    {
      if 0 < size < ZONE_LIMIT then
        ZoneIndexIs(size);
        zoneArray[ZoneIndex(size).index]
      else []
    }

    /** rt_realloc: the block stays when its zone serves the new size as well; otherwise a new
        one is made, the first bytes (`copied` of them) go there, and the old one is freed.  When
        there is nothing to give, everything stays as it is. */
    method Realloc(ptr: int, size: nat) returns (r: int, copied: nat)
      requires Valid() && (ptr != NULL ==> ptr in live)
      modifies this, pages
      ensures Valid()
      ensures r == NULL <==> size == 0 || (!old(StaysPut(ptr, size)) && old(Exhausted(Asked(ptr, size))))
      ensures r == NULL && size == 0 ==> live == old(live) - {ptr}
      ensures r == NULL && size > 0 ==> Now() == old(Now()) && pages.list == old(pages.list)
      ensures r != NULL ==> r in live && live[r] >= size && live == (old(live) - {ptr})[r := live[r]]
      ensures r != NULL && ptr == NULL ==> live[r] == RoomFor(zoneSize, size)
      ensures r != NULL && ptr != NULL ==> (r == ptr <==> old(StaysPut(ptr, size)))
      ensures r != NULL && r == ptr ==> Now() == old(Now()) && pages.list == old(pages.list)
      ensures r != NULL && r != ptr && ptr != NULL ==>
        && r !in old(live) && live[r] == RoomFor(zoneSize, old(Asked(ptr, size)))
        && copied <= live[r] && copied <= old(live)[ptr]
        && copied == (if old(Asked(ptr, size)) > old(live)[ptr] then old(live)[ptr] else old(Asked(ptr, size)))
    {
      copied := 0;
      if ptr == NULL {
        r := Malloc(size);
        RoomEnough(zoneSize, size);
        return;
      }
      if size == 0 {
        Free(ptr);
        return NULL, 0;
      }
      ghost var s, free := Now(), pages.FreePages();
      LeadsHome(s, free, ptr);
      var kup := memusage[ptr / PAGE];
      var want, osize := size, kup.size * PAGE;
      if kup.kind == SMALL {
        want, osize := ZoneIndex(size).size, zones[ptr / PAGE - kup.size].size;
        RoundedUp(size);
        if osize == want {
          return ptr, 0;
        }
      }
      r, copied := MoveTo(ptr, want, osize);
    }

    /** The part of rt_realloc that makes a new block for an old one of `osize` bytes. */
    method MoveTo(ptr: int, want: nat, osize: nat) returns (r: int, copied: nat)
      requires Valid() && ptr != NULL && ptr in live && want > 0 && osize == live[ptr]
      modifies this, pages
      ensures Valid() && (r == NULL <==> old(Exhausted(want)))
      ensures r == NULL ==> Now() == old(Now()) && pages.list == old(pages.list)
      ensures r != NULL ==>
        && r != ptr && r !in old(live) && r in live && live[r] == RoomFor(zoneSize, want) >= want
        && live == (old(live) - {ptr})[r := live[r]]
      ensures r != NULL ==> copied <= live[r] && (if want > osize then copied == osize else copied == want)
    {
      copied := 0;
      r := Malloc(want);
      RoomEnough(zoneSize, want);
      if r != NULL {
        copied := if want > osize then osize else want;
        Free(ptr);
      }
    }

    /** The request that rt_realloc passes on: for a chunk it is rounded first. */
    ghost function Asked(ptr: int, size: nat): nat
      reads this
    {
      if ptr >= 0 && ptr / PAGE < |memusage| && memusage[ptr / PAGE].kind == SMALL then ZoneIndex(size).size else size
    }

    ghost predicate StaysPut(ptr: int, size: nat)
      reads this
    {
      ptr in live && ptr / PAGE < |memusage| && memusage[ptr / PAGE].kind == SMALL && live[ptr] == Asked(ptr, size)
    }

    /** rt_free */
    method Free(ptr: int)
      requires Valid() && (ptr != NULL ==> ptr in live)
      modifies this, pages
      ensures Valid()
      ensures live == old(live) - {ptr}
      ensures ptr == NULL ==> Now() == old(Now()) && pages.list == old(pages.list)
      ensures ptr != NULL ==> ptr / PAGE < |old(owner)|
      ensures ptr != NULL && old(owner)[ptr / PAGE].InRun? ==>
        && LargeFreed(old(Now()), Now(), old(pages.FreePages()), pages.FreePages(), old(owner)[ptr / PAGE].first)
        && ptr == old(owner)[ptr / PAGE].first * PAGE && zoneArray == old(zoneArray) && zoneFree == old(zoneFree)
      ensures ptr != NULL && !old(owner)[ptr / PAGE].InRun? ==>
        && old(owner)[ptr / PAGE].InZone?
        && GoesBack(old(Now()), Now(), old(zoneArray), zoneArray, old(zoneFree), zoneFree,
             old(pages.FreePages()), pages.FreePages(), old(owner)[ptr / PAGE].at, ptr)
    {
      if ptr == NULL {
        assert live - {ptr} == live;
        return;
      }
      ghost var s, free := Now(), pages.FreePages();
      LeadsHome(s, free, ptr);
      var kup := memusage[ptr / PAGE];
      if kup.kind == LARGE {
        FreeLarge(ptr / PAGE, kup.size);
      } else {
        FreeChunk(ptr / PAGE - kup.size, ptr);
      }
    }

    /** The large case of rt_free. */
    method FreeLarge(q: nat, size: nat)
      requires Valid() && q in runs && size == runs[q]
      modifies this, pages
      ensures Valid() && live == old(live) - {q * PAGE}
      ensures LargeFreed(old(Now()), Now(), old(pages.FreePages()), pages.FreePages(), q)
      ensures zoneArray == old(zoneArray) && zoneFree == old(zoneFree)
    {
      ghost var s, free := Now(), pages.FreePages();
      assert RunAt(s, q);
      memusage := memusage[q := memusage[q].(size := 0)];
      owner := Repaint(owner, q, size, Unowned);
      runs, live := runs - {q}, live - {q * PAGE};
      ReleaseRun(s, Now(), free, q);
      pages.PageFree(q, size);
    }

    /** The zone case of rt_free. */
    method FreeChunk(a: nat, ptr: nat)
      requires Valid() && a in zones && zones[a].active && ptr in Held(zones[a])
      modifies this, pages
      ensures Valid() && live == old(live) - {ptr}
      ensures GoesBack(old(Now()), Now(), old(zoneArray), zoneArray, old(zoneFree), zoneFree,
        old(pages.FreePages()), pages.FreePages(), a, ptr)
    {
      ghost var s, free, spare := Now(), pages.FreePages(), zoneFree;
      TakeIn(a, ptr);
      ghost var s1 := Now();
      // the zone is not alone in its list
      if zones[a].nfree == zones[a].nmax && |zoneArray[zones[a].index]| > 1 {
        Retire(a);
        RetiredSince(s, s1, Now(), spare, zoneFree, free, pages.FreePages(), a);
      }
    }

    /** A wholly free zone becomes a spare one, and gives its pages back when there are enough. */
    method Retire(a: nat)
      requires Valid() && a in zones && zones[a].active && zones[a].nfree == zones[a].nmax && zones[a].index < NZONES
      modifies this, pages
      ensures Valid() && live == old(live) && Retired(old(Now()), Now(), old(zoneFree), zoneFree,
        old(pages.FreePages()), pages.FreePages(), a)
      ensures zoneArray == old(zoneArray)[old(zones)[a].index := Unlinked(old(zoneArray)[old(zones)[a].index], a)]
    {
      Shut(a);
      if |zoneFree| > RELEASE_THRESHOLD {
        ReleasePages();
      }
    }

    /** The chunk goes to the zone's free list, and a zone that had none is linked again. */
    method TakeIn(a: nat, ptr: nat)
      requires Valid() && a in zones && zones[a].active && ptr in Held(zones[a])
      modifies this`zones, this`zoneArray, this`live
      ensures Valid() && live == old(live) - {ptr}
      ensures Returned(old(Now()), Now(), a, ptr) && zones[a].index == old(zones)[a].index < NZONES
      ensures zones[a].nfree == zones[a].nmax <==> Held(old(zones)[a]) == {ptr}
      ensures zoneArray == old(zoneArray)[zones[a].index := RowWith(old(zoneArray), old(zones)[a], a)]
    {
      ghost var s, free := Now(), pages.FreePages();
      assert ZoneAt(s, a) && RowOk(zones, zoneArray, zones[a].index);
      LastBack(zones[a], ptr);
      var z := zones[a].(freed := [ptr] + zones[a].freed, nfree := zones[a].nfree + 1);
      var i := z.index;
      if zones[a].nfree == 0 {
        Prepended(zoneArray[i], a);
        zoneArray := zoneArray[i := [a] + zoneArray[i]];
      }
      ChunkReturned(s, free, a, z, ptr);
      ListsStep(zones, zones[a := z], old(zoneArray), zoneFree, a, i, zoneArray[i], zoneFree);
      assert zoneArray == old(zoneArray)[i := zoneArray[i]];
      zones := zones[a := z];
      live := live - {ptr};
    }

    /** A wholly free zone leaves its list and becomes a spare one. */
    method Shut(a: nat)
      requires Valid() && a in zones && zones[a].active && zones[a].nfree == zones[a].nmax && zones[a].index < NZONES
      modifies this`zones, this`zoneArray, this`zoneFree
      ensures pages.Valid() && StateOk(Now(), pages.FreePages()) && ListsOk(zones, zoneArray, zoneFree)
      ensures zones == old(zones)[a := old(zones)[a].(active := false)] && zoneFree == [a] + old(zoneFree)
      ensures zoneArray == old(zoneArray)[zones[a].index := Unlinked(old(zoneArray)[zones[a].index], a)]
    {
      ghost var s, free := Now(), pages.FreePages();
      assert ZoneAt(s, a) && RowOk(zones, zoneArray, zones[a].index);
      HeldCount(zones[a]);
      ZoneShut(s, free, a);
      var z := zones[a].(active := false);
      var row := Unlinked(zoneArray[z.index], a);
      OnceUnlinked(zoneArray[z.index], a);
      Prepended(zoneFree, a);
      ListsStep(zones, zones[a := z], zoneArray, zoneFree, a, z.index, row, [a] + zoneFree);
      zoneArray := zoneArray[z.index := row];
      zoneFree := [a] + zoneFree;
      zones := zones[a := z];
    }

    /** The first spare zone gives its pages back. */
    method ReleasePages()
      requires pages.Valid() && IsZoneSize(zoneSize)
      requires StateOk(Now(), pages.FreePages())
      requires ListsOk(zones, zoneArray, zoneFree) && |zoneFree| == RELEASE_THRESHOLD + 1
      modifies this, pages
      ensures Valid() && live == old(live)
      ensures zones == old(zones) - {old(zoneFree)[0]}
      ensures zoneArray == old(zoneArray) && zoneFree == old(zoneFree)[1..]
      ensures var a := old(zoneFree)[0];
        && pages.FreePages() == old(pages.FreePages()) + Range(a, a + zoneSize / PAGE)
        && AllFree(memusage, a, zoneSize / PAGE)
    {
      ghost var s, free := Now(), pages.FreePages();
      var a := zoneFree[0];
      FirstSpareGone(zones, zoneArray, zoneFree);
      zoneFree := zoneFree[1..];
      GiveUp(a);
      pages.PageFree(a, zoneSize / PAGE);
    }

    /** The zone's pages are described as free and belong to nobody. */
    method GiveUp(a: nat)
      requires IsZoneSize(zoneSize) && StateOk(Now(), pages.FreePages()) && a in zones && !zones[a].active
      modifies this`memusage, this`owner, this`zones
      ensures zones == old(zones) - {a}
      ensures Range(a, a + zoneSize / PAGE) !! pages.FreePages()
      ensures StateOk(Now(), pages.FreePages() + Range(a, a + zoneSize / PAGE))
      ensures AllFree(memusage, a, zoneSize / PAGE)
    {
      ghost var s, free := Now(), pages.FreePages();
      assert ZoneAt(s, a);
      Clear(a, zoneSize / PAGE);
      owner := Repaint(owner, a, zoneSize / PAGE, Unowned);
      zones := zones - {a};
      AllLead(s, a);
      ReleaseZone(s, Now(), free, a);
    }

    lemma AllLead(s: State, a: nat)
      requires |s.owner| == |s.usage| && a in s.zones && ZoneAt(s, a)
      ensures forall p :: a <= p < a + s.pages ==> s.owner[p] == InZone(a)
    {
      forall p | a <= p < a + s.pages
        ensures s.owner[p] == InZone(a)
      {
        assert Leads(s, p, a);
      }
    }

    method Clear(a: nat, count: nat)
      requires a + count <= |memusage|
      modifies this`memusage
      ensures Redescribed(old(memusage), memusage, a, count) && AllFree(memusage, a, count)
    {
      var i := 0;
      while i < count
        invariant i <= count && Redescribed(old(memusage), memusage, a, count) && AllFree(memusage, a, i)
      {
        memusage := memusage[a + i := Usage(FREE, 0)];
        i := i + 1;
      }
    }
  }

  lemma RoundedUp(size: nat)
    requires size > 0
    ensures ZoneIndex(size).size >= size
  {
    if size < ZONE_LIMIT {
      ZoneIndexIs(size);
    }
  }

  lemma RoomEnough(zoneSize: nat, size: nat)
    requires IsZoneSize(zoneSize)
    ensures size > 0 ==> RoomFor(zoneSize, size) >= size
  {
    if size > 0 {
      RoundedUp(size);
    }
  }

  lemma PowerRoom(zoneSize: nat, size: nat)
    requires IsZoneSize(zoneSize) && Power2(size)
    ensures RoomFor(zoneSize, size) == if size < 8 then 8 else size
  {
    if size >= Limit(zoneSize) {
      WholePages(size);
      RoundUpIs(size, PAGE, size / PAGE);
    } else {
      PowerFits(size);
    }
  }

  /** An input at which the promise fails: on a new heap of 64 pages a request of 8192 bytes is
      given the second page. */
  method UnalignedPower(contents: seq<Usage>) returns (slab: Slab, p: int)
    requires |contents| == 64
    ensures Power2(8192) && p == 4096 && p % 8192 != 0
    ensures fresh(slab) && slab.Valid() && slab.live == map[4096 := 8192]
  {
    slab := new Slab(64, contents);
    OnePageGone(slab.pages.list);
    assert slab.zoneSize == MIN_ZONE && !slab.Exhausted(8192);
    p := slab.Malloc(8192);
    assert Power2(8192) by {
      WholePower(8192);
    }
  }

  lemma OnePageGone(list: seq<Run>)
    requires list == Taken([Run(0, 64)], RoundUp(4 * 64, PAGE) / PAGE)
    ensures list == [Run(1, 63)] && !NoRun(list, RoundUp(8192, PAGE) / PAGE) && Limit(MIN_ZONE) == 8192
  {
    RoundUpIs(4 * 64, PAGE, 1);
    RoundUpIs(8192, PAGE, 2);
    assert list[0].page == 63;
  }

  lemma WholePower(n: nat)
    requires n == 8192
    ensures Power2(n)
  {
    assert Power2(2) && Power2(32) && Power2(512);
  }

  /** A zone whose header was not written yet. */
  const RAW: Zone := Zone(false, 0, 0, 0, 0, 0, 0, [])

  /** The pages from a on are described as free. */
  ghost predicate AllFree(usage: seq<Usage>, a: nat, count: nat) {
    a + count <= |usage| && forall p :: a <= p < a + count ==> usage[p] == Usage(FREE, 0)
  }

  /** The chunk is one of zone a, and no other zone has changed. */
  ghost predicate ServedFrom(was: map<nat, Zone>, zones: map<nat, Zone>, a: nat, chunk: nat) {
    a in zones && zones == was[a := zones[a]] && zones[a].active && chunk in Held(zones[a])
  }

  /** The pages of run q are free again, and its descriptor says so. */
  ghost predicate LargeFreed(s: State, t: State, free: set<nat>, after: set<nat>, q: nat) {
    && q in s.runs && q < |s.usage| && after == free + Range(q, q + s.runs[q])
    && t == s.(runs := s.runs - {q}, live := s.live - {q * PAGE}, owner := t.owner,
               usage := s.usage[q := Usage(LARGE, 0)])
  }

  /** The list of zone z, which is at the front when it had no chunk to give. */
  ghost function RowWith(rows: seq<seq<nat>>, z: Zone, a: nat): seq<nat>
    requires z.index < |rows|
  {
    if z.nfree == 0 then [a] + rows[z.index] else rows[z.index]
  }

  /** Zone a is a spare one; with too many of these it has given its pages back. */
  ghost predicate Retired(s: State, t: State, spare: seq<nat>, left: seq<nat>, free: set<nat>, more: set<nat>, a: nat) {
    if |spare| < RELEASE_THRESHOLD then
      && a in t.zones && !t.zones[a].active && t.zones == s.zones[a := t.zones[a]]
      && left == [a] + spare && more == free && t.usage == s.usage
    else
      && t.zones == s.zones - {a} && left == spare
      && more == free + Range(a, a + s.pages) && AllFree(t.usage, a, s.pages)
  }

  lemma RetiredSince(s: State, s1: State, t: State, spare: seq<nat>, left: seq<nat>, free: set<nat>, more: set<nat>,
                     a: nat)
    requires a in s.zones && a in s1.zones && s1 == s.(zones := s.zones[a := s1.zones[a]], live := s1.live)
    requires Retired(s1, t, spare, left, free, more, a)
    ensures Retired(s, t, spare, left, free, more, a)
  {
  }

  /** Zone a gets its chunk c back.  If nobody holds another chunk of it and it is not alone in its
      list, it becomes a spare zone, or gives its pages back when there are enough of them. */
  ghost predicate GoesBack(s: State, t: State, rows: seq<seq<nat>>, after: seq<seq<nat>>, spare: seq<nat>,
                           left: seq<nat>, free: set<nat>, more: set<nat>, a: nat, c: nat) {
    && a in s.zones && s.zones[a].index < |rows| && c in Held(s.zones[a])
    && var (i, row) := (s.zones[a].index, RowWith(rows, s.zones[a], a));
       if Held(s.zones[a]) == {c} && |row| > 1 then
         after == rows[i := Unlinked(row, a)] && Retired(s, t, spare, left, free, more, a)
       else
         after == rows[i := row] && left == spare && more == free && Returned(s, t, a, c)
  }

  /** Zone a has chunk c back, and nothing else has changed. */
  ghost predicate Returned(s: State, t: State, a: nat, c: nat) {
    && a in s.zones && a in t.zones && t.zones[a].active
    && t == s.(zones := s.zones[a := t.zones[a]], live := s.live - {c})
    && Held(t.zones[a]) == Held(s.zones[a]) - {c}
  }

  /** Zone a is in no list: it is a new one, or it was the first of the spare ones. */
  ghost predicate Unlisted(was: map<nat, Zone>, spare: seq<nat>, zones: map<nat, Zone>, left: seq<nat>, a: nat) {
    && a in zones && !zones[a].active && (a in was ==> !was[a].active)
    && zones == was[a := zones[a]]
    && Once(left) && a !in Ids(left) && Ids(left) == Ids(spare) - {a} && |left| <= |spare|
  }

  /** There is room for the page descriptors. */
  lemma TableFits(npages: nat)
    requires npages > 0
    ensures 0 < RoundUp(4 * npages, PAGE) / PAGE <= npages
  {
  }

  /** The loop of rt_system_heap_init that picks the zone size. */
  method ZoneSizeFor(bytes: nat) returns (size: nat)
    ensures IsZoneSize(size)
    ensures size == MAX_ZONE || 2 * size >= bytes / 1024
    ensures size == MIN_ZONE || size < bytes / 1024
  {
    size := MIN_ZONE;
    while size < MAX_ZONE && 2 * size < bytes / 1024
      invariant IsZoneSize(size) && (size == MIN_ZONE || size < bytes / 1024)
      decreases MAX_ZONE - size
    {
      size := 2 * size;
    }
  }

  /** A chunk of a zone that has one. */
  method HandOutOf(zone: Zone, size: nat) returns (chunk: nat, z: Zone)
    requires ZoneOk(zone) && zone.nfree > 0 && size == zone.size
    ensures zone.uindex + 1 != zone.nmax || zone.freed != []
    ensures chunk == ChunkOf(zone) && z == Without(zone)
  {
    z := zone.(nfree := zone.nfree - 1);
    if z.uindex + 1 != z.nmax {
      z := z.(uindex := z.uindex + 1);
      chunk := z.base + z.uindex * size;
    } else {
      chunk := z.freed[0];
      z := z.(freed := z.freed[1..]);
    }
  }
}
