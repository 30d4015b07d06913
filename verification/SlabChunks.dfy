/** One zone of the slab allocator (slab.c): the chunks that were ever handed out, the list of
    those that came back, and the chunks that are held now. */
module SlabChunks {
  import opened Lists
  import opened SlabSizes

  /** slab_zone; `active` stands for z_magic == ZALLOC_SLAB_MAGIC and `freed` for the list that
      begins at z_freechunk.  Addresses count from the start of the heap. */
  datatype Zone = Zone(active: bool, index: nat, size: nat, base: nat, uindex: nat, nmax: nat, nfree: nat,
      freed: seq<nat>)

  /** The first m chunks behind `base`. */
  ghost function Chunks(base: nat, size: nat, m: nat): (r: set<nat>) {
    if m == 0 then {} else Chunks(base, size, m - 1) + {base + (m - 1) * size}
  }

  lemma {:induction false} ChunkBounds(base: nat, size: nat, m: nat, c: nat)
    requires c in Chunks(base, size, m)
    ensures base <= c && c + size <= base + m * size
  {
    if c != base + (m - 1) * size {
      ChunkBounds(base, size, m - 1, c);
    }
    assert (m - 1) * size + size == m * size;
  }

  lemma {:induction false} ChunkNumber(base: nat, size: nat, m: nat, c: nat) returns (k: nat)
    requires c in Chunks(base, size, m)
    ensures k < m && c == base + k * size
  {
    if c == base + (m - 1) * size {
      k := m - 1;
    } else {
      k := ChunkNumber(base, size, m - 1, c);
    }
  }

  lemma {:induction false} ChunksApart(base: nat, size: nat, m: nat, c: nat, d: nat)
    requires c in Chunks(base, size, m) && d in Chunks(base, size, m) && c != d
    ensures c + size <= d || d + size <= c
  {
    var last := base + (m - 1) * size;
    if c == last {
      ChunkBounds(base, size, m - 1, d);
    } else if d == last {
      ChunkBounds(base, size, m - 1, c);
    } else {
      ChunksApart(base, size, m - 1, c, d);
    }
  }

  lemma {:induction false} ChunkCount(base: nat, size: nat, m: nat)
    requires size > 0
    ensures |Chunks(base, size, m)| == m
    ensures base + m * size !in Chunks(base, size, m)
  {
    if m > 0 {
      ChunkCount(base, size, m - 1);
    }
    if base + m * size in Chunks(base, size, m) {
      ChunkBounds(base, size, m, base + m * size);
    }
  }

  lemma {:induction false} OnceCount(list: seq<nat>)
    requires Once(list)
    ensures |Ids(list)| == |list|
  {
    if list != [] {
      OnceTail(list);
      OnceCount(list[1..]);
      assert list[0] in Ids(list) && list[0] !in Ids(list[1..]);
      assert Ids(list) == Ids(list[1..]) + {list[0]};
    }
  }

  /** The chunks handed out so far, whether or not they came back. */
  ghost function Used(z: Zone): set<nat> {
    Chunks(z.base, z.size, z.uindex + 1)
  }

  /** The chunks that are held now. */
  ghost function Held(z: Zone): set<nat> {
    Used(z) - Ids(z.freed)
  }

  /** z_nfree counts the chunks never used and those on the free chunk list. */
  ghost predicate ZoneOk(z: Zone) {
    && z.size > 0 && z.uindex < z.nmax
    && z.nfree == z.nmax - 1 - z.uindex + |z.freed|
    && Once(z.freed) && Ids(z.freed) <= Used(z)
  }

  /** So it is how many chunks may still be handed out, and the zone is wholly free exactly when
      nobody holds a chunk of it. */
  lemma HeldCount(z: Zone)
    requires ZoneOk(z)
    ensures |Held(z)| == z.nmax - z.nfree
    ensures z.nfree == z.nmax <==> Held(z) == {}
  {
    ChunkCount(z.base, z.size, z.uindex + 1);
    OnceCount(z.freed);
    assert |Used(z) - Ids(z.freed)| + |Ids(z.freed)| == |Used(z)| by {
      assert Used(z) == (Used(z) - Ids(z.freed)) + Ids(z.freed);
    }
  }

  /** Handing out a chunk: a new one as long as there is one, or the last that came back. */
  function ChunkOf(z: Zone): nat
    requires z.uindex + 1 != z.nmax || z.freed != []
  {
    if z.uindex + 1 != z.nmax then z.base + (z.uindex + 1) * z.size else z.freed[0]
  }

  function Without(z: Zone): Zone
    requires z.nfree > 0 && (z.uindex + 1 != z.nmax || z.freed != [])
  {
    if z.uindex + 1 != z.nmax then z.(uindex := z.uindex + 1, nfree := z.nfree - 1)
    else z.(freed := z.freed[1..], nfree := z.nfree - 1)
  }

  lemma HandOut(z: Zone)
    requires ZoneOk(z) && z.nfree > 0
    ensures z.uindex + 1 != z.nmax || z.freed != []
    ensures ZoneOk(Without(z)) && ChunkOf(z) !in Held(z) && Held(Without(z)) == Held(z) + {ChunkOf(z)}
  {
    if z.uindex + 1 != z.nmax {
      HandOutNew(z);
    } else {
      HandOutAgain(z);
    }
  }

  lemma HandOutNew(z: Zone)
    requires ZoneOk(z) && z.nfree > 0 && z.uindex + 1 != z.nmax
    ensures ZoneOk(Without(z)) && ChunkOf(z) !in Held(z) && Held(Without(z)) == Held(z) + {ChunkOf(z)}
  {
    var m := z.uindex + 1;
    ChunkCount(z.base, z.size, m);
    OneMore(z.base, z.size, m);
    OneMoreHeld(Used(z), Ids(z.freed), ChunkOf(z));
  }

  lemma OneMoreHeld(used: set<nat>, freed: set<nat>, c: nat)
    requires c !in used && freed <= used
    ensures used + {c} - freed == used - freed + {c} && c !in used - freed
  {
  }

  lemma OneMore(base: nat, size: nat, m: nat)
    ensures Chunks(base, size, m + 1) == Chunks(base, size, m) + {base + m * size}
  {
  }

  lemma HandOutAgain(z: Zone)
    requires ZoneOk(z) && z.nfree > 0 && z.uindex + 1 == z.nmax
    ensures z.freed != []
    ensures ZoneOk(Without(z)) && ChunkOf(z) !in Held(z) && Held(Without(z)) == Held(z) + {ChunkOf(z)}
  {
    OnceTail(z.freed);
    assert z.freed[0] in Ids(z.freed);
    assert Used(Without(z)) == Used(z);
  }

  function With(z: Zone, c: nat): Zone {
    z.(freed := [c] + z.freed, nfree := z.nfree + 1)
  }

  lemma TakeBack(z: Zone, c: nat)
    requires ZoneOk(z) && c in Held(z)
    ensures ZoneOk(With(z, c)) && Held(With(z, c)) == Held(z) - {c}
  {
    Prepended(z.freed, c);
  }

  /** The zone is wholly free then if it was the last. */
  lemma LastBack(z: Zone, c: nat)
    requires ZoneOk(z) && c in Held(z)
    ensures ZoneOk(With(z, c)) && Held(With(z, c)) == Held(z) - {c}
    ensures With(z, c).nfree == With(z, c).nmax <==> Held(z) == {c}
  {
    TakeBack(z, c);
    HeldCount(With(z, c));
  }

  /** A zone that was just set up at page `at`: its first chunk goes out at once. */
  function NewZone(at: nat, index: nat, zoneSize: nat): Zone
    requires index < NZONES && Offset(SizeOf(index)) <= zoneSize && Count(zoneSize, SizeOf(index)) > 0
  {
    var size := SizeOf(index);
    var count := Count(zoneSize, size);
    Zone(true, index, size, at * PAGE + Offset(size), 0, count, count - 1, [])
  }

  lemma NewZoneOk(at: nat, index: nat, zoneSize: nat)
    requires index < NZONES && Offset(SizeOf(index)) <= zoneSize && Count(zoneSize, SizeOf(index)) > 0
    ensures var z := NewZone(at, index, zoneSize);
      ZoneOk(z) && Held(z) == {z.base}
  {
    SizePositive(index);
    var z := NewZone(at, index, zoneSize);
    assert Chunks(z.base, z.size, 0) == {};
    assert Used(z) == {z.base};
  }

  lemma SizePositive(index: nat)
    requires index < NZONES
    ensures SizeOf(index) > 0
  {
  }

  /** The zone's chunks lie in its pages, behind its header. */
  ghost predicate Inside(z: Zone, at: nat, pages: nat) {
    at * PAGE + ZONE_HEADER <= z.base && z.base + z.nmax * z.size <= (at + pages) * PAGE
  }

  lemma ChunkInside(z: Zone, at: nat, pages: nat, c: nat)
    requires ZoneOk(z) && Inside(z, at, pages) && c in Used(z)
    ensures at * PAGE + ZONE_HEADER <= c && c + z.size <= (at + pages) * PAGE
    ensures at <= c / PAGE < at + pages
  {
    ChunkBounds(z.base, z.size, z.uindex + 1, c);
    Times(z.uindex + 1, z.nmax, z.size);
  }

  lemma Times(m: nat, n: nat, size: nat)
    requires m <= n
    ensures m * size <= n * size
  {
    assert n * size == m * size + (n - m) * size;
  }
}
