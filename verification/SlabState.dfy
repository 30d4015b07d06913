/** The whole slab allocator (slab.c) as a value: who owns which page, what the page descriptors
    say, the zones, the large runs and the pointers that were handed out.  Each lemma is one step
    of rt_malloc or rt_free. */
module SlabState {
  import opened Lists
  import opened SlabSizes
  import opened SlabChunks
  import opened SlabPages

  datatype Kind = FREE | SMALL | LARGE

  /** struct memusage */
  datatype Usage = Usage(kind: Kind, size: nat)

  datatype Owner = Unowned | Table | InZone(at: nat) | InRun(first: nat)

  /** `pages` is zone_page_cnt; `runs` and `live` say how many pages a large allocation has and
      how much room a pointer that is held has. */
  datatype State = State(pages: nat, usage: seq<Usage>, zones: map<nat, Zone>, owner: seq<Owner>, runs: map<nat, nat>,
      live: map<nat, nat>)

  ghost predicate PageOk(s: State, free: set<nat>, p: nat)
    requires p < |s.owner|
  {
    && (p in free <==> s.owner[p].Unowned?)
    && match s.owner[p]
       case Unowned => true
       case Table => true
       case InZone(a) => a in s.zones && a <= p < a + s.pages
       case InRun(q) => q in s.runs && q <= p < q + s.runs[q]
  }

  /** Every page of a zone tells the way to the zone. */
  ghost predicate Leads(s: State, p: nat, a: nat)
    requires a <= p < |s.owner| == |s.usage|
  {
    s.owner[p] == InZone(a) && s.usage[p] == Usage(SMALL, p - a)
  }

  /** A zone in use: its chunks have the size of its index, begin behind its header, and are as
      many as fit. */
  ghost predicate Active(z: Zone, a: nat, pages: nat) {
    && ZoneOk(z) && Inside(z, a, pages) && z.index < NZONES && z.size == SizeOf(z.index)
    && Offset(z.size) <= pages * PAGE
    && z.base == a * PAGE + Offset(z.size) && z.nmax == Count(pages * PAGE, z.size)
  }

  /** The chunks of a zone that are held. */
  ghost function HeldIn(z: Zone): set<nat> {
    if z.active then Held(z) else {}
  }

  ghost predicate ZoneAt(s: State, a: nat)
    requires a in s.zones && |s.owner| == |s.usage|
  {
    && a + s.pages <= |s.owner|
    && (forall p :: a <= p < a + s.pages ==> Leads(s, p, a))
    && (s.zones[a].active ==> Active(s.zones[a], a, s.pages))
    && HeldIn(s.zones[a]) <= s.live.Keys
  }

  ghost predicate RunAt(s: State, q: nat)
    requires q in s.runs && |s.owner| == |s.usage|
  {
    && s.runs[q] > 0 && q + s.runs[q] <= |s.owner|
    && (forall p :: q <= p < q + s.runs[q] ==> s.owner[p] == InRun(q))
    && s.usage[q] == Usage(LARGE, s.runs[q])
    && q * PAGE in s.live
  }

  ghost predicate LiveAt(s: State, c: nat)
    requires c in s.live
  {
    && c / PAGE < |s.owner|
    && match s.owner[c / PAGE]
       case Unowned => false
       case Table => false
       case InZone(a) => a in s.zones && c in HeldIn(s.zones[a]) && s.live[c] == s.zones[a].size
       case InRun(q) => q in s.runs && c == q * PAGE && s.live[c] == s.runs[q] * PAGE
  }

  ghost predicate StateOk(s: State, free: set<nat>) {
    && |s.usage| == |s.owner| && s.pages > 0
    && (forall p :: p in free ==> p < |s.owner|)
    && (forall p {:trigger PageOk(s, free, p)} :: 0 <= p < |s.owner| ==> PageOk(s, free, p))
    && (forall a {:trigger ZoneAt(s, a)} :: a in s.zones ==> ZoneAt(s, a))
    && (forall q {:trigger RunAt(s, q)} :: q in s.runs ==> RunAt(s, q))
    && (forall c {:trigger LiveAt(s, c)} :: c in s.live ==> LiveAt(s, c))
  }

  /** What rt_free reads in the descriptor of a pointer's page leads to the pointer's own zone, of
      which it is a chunk, or tells the pages of its own run. */
  lemma LeadsHome(s: State, free: set<nat>, c: nat)
    requires StateOk(s, free) && c in s.live
    ensures c / PAGE < |s.usage| == |s.owner|
    ensures var u := s.usage[c / PAGE];
      if u.kind == LARGE then
        && s.owner[c / PAGE] == InRun(c / PAGE)
        && c % PAGE == 0 && c / PAGE in s.runs && u.size == s.runs[c / PAGE] > 0 && s.live[c] == u.size * PAGE
      else
        && u.kind == SMALL && u.size <= c / PAGE && c / PAGE - u.size in s.zones
        && s.owner[c / PAGE] == InZone(c / PAGE - u.size)
        && (var z := s.zones[c / PAGE - u.size]; z.active && c in Held(z) && s.live[c] == z.size)
  {
    assert LiveAt(s, c) && PageOk(s, free, c / PAGE);
    match s.owner[c / PAGE]
    case InZone(a) =>
      assert ZoneAt(s, a) && Leads(s, c / PAGE, a);
    case InRun(q) =>
      assert RunAt(s, q);
  }

  /** The room behind a pointer lies in pages of one owner. */
  lemma OwnRoom(s: State, free: set<nat>, c: nat, x: nat)
    requires StateOk(s, free) && c in s.live && c <= x < c + s.live[c]
    ensures c / PAGE < |s.owner| && x / PAGE < |s.owner| && s.owner[x / PAGE] == s.owner[c / PAGE]
  {
    assert LiveAt(s, c) && PageOk(s, free, c / PAGE);
    match s.owner[c / PAGE]
    case InZone(a) =>
      assert ZoneAt(s, a);
      ChunkInside(s.zones[a], a, s.pages, c);
      assert a <= x / PAGE < a + s.pages;
      assert Leads(s, x / PAGE, a);
    case InRun(q) =>
      assert RunAt(s, q);
      assert q <= x / PAGE < q + s.runs[q];
  }

  /** No byte belongs to two pointers that are held. */
  lemma NoOverlap(s: State, free: set<nat>, c: nat, d: nat)
    requires StateOk(s, free) && c in s.live && d in s.live && c < d
    ensures c + s.live[c] <= d
  {
    if d < c + s.live[c] {
      OwnRoom(s, free, c, d);
      assert LiveAt(s, c) && LiveAt(s, d);
      match s.owner[c / PAGE]
      case InZone(a) =>
        var z := s.zones[a];
        ChunksApart(z.base, z.size, z.uindex + 1, c, d);
      case InRun(q) =>
    }
  }

  /** Where the zone or the run that a live pointer belongs to begins. */
  ghost function Home(s: State, c: nat): nat
    requires c / PAGE < |s.owner|
  {
    match s.owner[c / PAGE]
    case InZone(a) => a * PAGE
    case InRun(q) => q * PAGE
    case _ => 0
  }

  /** The pointer given for a request of a power of two is aligned to it exactly if its zone or its
      run is, which is always so up to the size of a page. */
  lemma AlignedIffHome(s: State, free: set<nat>, c: nat, n: nat)
    requires StateOk(s, free) && c in s.live && Power2(n) && s.live[c] == (if n < 8 then 8 else n)
    ensures c / PAGE < |s.owner| && (c % n == 0 <==> Home(s, c) % n == 0)
    ensures n <= PAGE ==> c % n == 0
  {
    assert LiveAt(s, c);
    match s.owner[c / PAGE]
    case InZone(a) =>
      assert ZoneAt(s, a);
      ChunkAligned(s.zones[a], a, s.pages, c, n);
    case InRun(q) =>
      if n <= PAGE {
        PageMultiple(q, n);
      }
  }

  lemma ChunkAligned(z: Zone, a: nat, pages: nat, c: nat, n: nat)
    requires Active(z, a, pages) && c in Used(z) && Power2(n) && z.size == (if n < 8 then 8 else n)
    ensures c % n == 0 <==> a * PAGE % n == 0
    ensures n <= PAGE ==> c % n == 0
  {
    var k := ChunkNumber(z.base, z.size, z.uindex + 1, c);
    SizeBounds(z.index);
    PowersAre(z.size);
    AlignedIff(a * PAGE, z.size, k);
    if n < 8 {
      PowersAre(n);
      Divides8(c, n);
      Divides8(a * PAGE, n);
    }
  }

  // ---- steps ----

  /** Only zone a changes, and with it the pointers that are its chunks. */
  ghost predicate Rezoned(s: State, t: State, a: nat) {
    && a in s.zones && a in t.zones
    && t == s.(zones := s.zones[a := t.zones[a]], live := t.live)
    && t.live.Keys == s.live.Keys - HeldIn(s.zones[a]) + HeldIn(t.zones[a])
    && (forall c :: c in t.live ==>
        t.live[c] == if c in HeldIn(t.zones[a]) then t.zones[a].size else if c in s.live then s.live[c] else 0)
  }

  /** A chunk that a zone newly hands out was not held by anybody. */
  lemma NewChunk(s: State, free: set<nat>, a: nat, z: Zone, c: nat)
    requires StateOk(s, free) && a in s.zones && ZoneOk(z) && Inside(z, a, s.pages) && c in Held(z)
    requires c !in HeldIn(s.zones[a])
    ensures c / PAGE < |s.owner| && s.owner[c / PAGE] == InZone(a) && c !in s.live
  {
    ChunkInside(z, a, s.pages, c);
    assert ZoneAt(s, a) && Leads(s, c / PAGE, a);
    assert c in s.live ==> LiveAt(s, c);
  }

  lemma RezonedLive(s: State, t: State, free: set<nat>, a: nat, c: nat)
    requires StateOk(s, free) && Rezoned(s, t, a)
    requires t.zones[a].active ==> Active(t.zones[a], a, s.pages)
    requires c in t.live
    ensures LiveAt(t, c)
  {
    if c in HeldIn(t.zones[a]) {
      ChunkInside(t.zones[a], a, s.pages, c);
      assert ZoneAt(s, a) && Leads(s, c / PAGE, a);
    } else {
      assert LiveAt(s, c);
    }
  }

  lemma ZoneStep(s: State, t: State, free: set<nat>, a: nat)
    requires StateOk(s, free) && Rezoned(s, t, a)
    requires t.zones[a].active ==> Active(t.zones[a], a, s.pages)
    ensures StateOk(t, free)
  {
    forall p | 0 <= p < |t.owner|
      ensures PageOk(t, free, p)
    {
      assert PageOk(s, free, p);
    }
    forall b | b in t.zones
      ensures ZoneAt(t, b)
    {
      OtherZone(s, t, free, a, b);
    }
    forall q | q in t.runs
      ensures RunAt(t, q)
    {
      RunNotInZone(s, free, a, q);
    }
    forall c | c in t.live
      ensures LiveAt(t, c)
    {
      RezonedLive(s, t, free, a, c);
    }
  }

  lemma OtherZone(s: State, t: State, free: set<nat>, a: nat, b: nat)
    requires StateOk(s, free) && Rezoned(s, t, a) && b in t.zones
    requires t.zones[a].active ==> Active(t.zones[a], a, s.pages)
    ensures ZoneAt(t, b)
  {
    assert ZoneAt(s, b);
    forall p | b <= p < b + t.pages
      ensures Leads(t, p, b)
    {
      assert Leads(s, p, b);
    }
    if b != a {
      forall c | c in HeldIn(s.zones[b])
        ensures c !in HeldIn(s.zones[a])
      {
        ChunkInside(s.zones[b], b, s.pages, c);
        assert Leads(s, c / PAGE, b);
        assert LiveAt(s, c);
        if c in HeldIn(s.zones[a]) {
          ChunkOwner(s, free, a, c);
        }
      }
    }
  }

  lemma ChunkOwner(s: State, free: set<nat>, a: nat, c: nat)
    requires StateOk(s, free) && a in s.zones && c in HeldIn(s.zones[a])
    ensures c / PAGE < |s.owner| && s.owner[c / PAGE] == InZone(a)
  {
    assert ZoneAt(s, a);
    ChunkInside(s.zones[a], a, s.pages, c);
    assert Leads(s, c / PAGE, a);
  }

  lemma RunNotInZone(s: State, free: set<nat>, a: nat, q: nat)
    requires StateOk(s, free) && a in s.zones && q in s.runs
    ensures RunAt(s, q) && q * PAGE !in HeldIn(s.zones[a])
  {
    assert RunAt(s, q);
    if q * PAGE in HeldIn(s.zones[a]) {
      ChunkOwner(s, free, a, q * PAGE);
    }
  }

  lemma HeldRoom(s: State, free: set<nat>, a: nat, c: nat)
    requires StateOk(s, free) && a in s.zones && c in HeldIn(s.zones[a])
    ensures c in s.live && s.live[c] == s.zones[a].size
  {
    assert ZoneAt(s, a);
    ChunkOwner(s, free, a, c);
    assert LiveAt(s, c);
  }

  /** Zone a, which may have been a spare one, hands out chunk c. */
  lemma ChunkTaken(s: State, free: set<nat>, a: nat, z: Zone, c: nat)
    requires StateOk(s, free) && a in s.zones && z.active && Active(z, a, s.pages)
    requires Held(z) == HeldIn(s.zones[a]) + {c} && c !in HeldIn(s.zones[a])
    requires s.zones[a].active ==> z.size == s.zones[a].size
    ensures c !in s.live && StateOk(s.(zones := s.zones[a := z], live := s.live[c := z.size]), free)
  {
    NewChunk(s, free, a, z, c);
    var t := s.(zones := s.zones[a := z], live := s.live[c := z.size]);
    forall d | d in t.live
      ensures t.live[d] == if d in HeldIn(z) then z.size else if d in s.live then s.live[d] else 0
    {
      if d in HeldIn(s.zones[a]) {
        HeldRoom(s, free, a, d);
      }
    }
    assert ZoneAt(s, a);
    ZoneStep(s, t, free, a);
  }

  /** A zone of which nobody holds a chunk becomes a spare one. */
  lemma ZoneShut(s: State, free: set<nat>, a: nat)
    requires StateOk(s, free) && a in s.zones && HeldIn(s.zones[a]) == {}
    ensures StateOk(s.(zones := s.zones[a := s.zones[a].(active := false)]), free)
  {
    var t := s.(zones := s.zones[a := s.zones[a].(active := false)]);
    assert t.live.Keys == s.live.Keys - {} + {};
    ZoneStep(s, t, free, a);
  }

  /** Zone a takes back chunk c. */
  lemma ChunkReturned(s: State, free: set<nat>, a: nat, z: Zone, c: nat)
    requires StateOk(s, free) && a in s.zones && s.zones[a].active && Active(z, a, s.pages)
    requires HeldIn(z) == Held(s.zones[a]) - {c} && c in Held(s.zones[a])
    requires z.size == s.zones[a].size
    ensures StateOk(s.(zones := s.zones[a := z], live := s.live - {c}), free)
  {
    var t := s.(zones := s.zones[a := z], live := s.live - {c});
    assert ZoneAt(s, a);
    forall d | d in t.live
      ensures t.live[d] == if d in HeldIn(z) then z.size else if d in s.live then s.live[d] else 0
    {
      if d in HeldIn(s.zones[a]) {
        HeldRoom(s, free, a, d);
      }
    }
    ZoneStep(s, t, free, a);
  }

  /** The pages first, first + 1, ... get a new owner. */
  ghost predicate Reowned(was: seq<Owner>, now: seq<Owner>, first: nat, count: nat, o: Owner) {
    && |now| == |was| && first + count <= |was|
    && forall p :: 0 <= p < |was| ==> now[p] == if first <= p < first + count then o else was[p]
  }

  /** The descriptors of all other pages are as before. */
  ghost predicate Redescribed(was: seq<Usage>, now: seq<Usage>, first: nat, count: nat) {
    && |now| == |was|
    && forall p :: 0 <= p < |was| && !(first <= p < first + count) ==> now[p] == was[p]
  }

  /** Pages that were all `gone`'s go to another owner. */
  ghost predicate Passed(s: State, t: State, first: nat, count: nat, gone: Owner, o: Owner) {
    && |s.usage| == |s.owner| && s.pages == t.pages
    && Reowned(s.owner, t.owner, first, count, o) && Redescribed(s.usage, t.usage, first, count)
    && forall p :: first <= p < first + count ==> s.owner[p] == gone
  }

  lemma ZoneStays(s: State, t: State, free: set<nat>, first: nat, count: nat, gone: Owner, o: Owner, a: nat)
    requires StateOk(s, free) && Passed(s, t, first, count, gone, o) && gone != InZone(a)
    requires a in s.zones && a in t.zones && s.zones[a] == t.zones[a] && HeldIn(s.zones[a]) <= t.live.Keys
    ensures ZoneAt(t, a)
  {
    assert ZoneAt(s, a);
    forall p | a <= p < a + t.pages
      ensures Leads(t, p, a)
    {
      assert Leads(s, p, a);
    }
  }

  lemma RunStays(s: State, t: State, free: set<nat>, first: nat, count: nat, gone: Owner, o: Owner, q: nat)
    requires StateOk(s, free) && Passed(s, t, first, count, gone, o) && gone != InRun(q)
    requires q in s.runs && q in t.runs && s.runs[q] == t.runs[q] && q * PAGE in t.live
    ensures RunAt(t, q)
  {
    assert RunAt(s, q);
    forall p | q <= p < q + s.runs[q]
      ensures t.owner[p] == InRun(q) && !(first <= p < first + count)
    {
      assert s.owner[p] == InRun(q);
    }
    assert s.owner[q] == InRun(q);
    assert t.usage[q] == s.usage[q];
  }

  /** The owner of a live pointer's page. */
  lemma LiveOwner(s: State, free: set<nat>, c: nat)
    requires StateOk(s, free) && c in s.live
    ensures LiveAt(s, c) && (s.owner[c / PAGE].InZone? || s.owner[c / PAGE].InRun?)
  {
    assert LiveAt(s, c);
  }

  /** A new zone gets its pages and their descriptors; nobody holds a chunk of it yet. */
  lemma ClaimZone(s: State, t: State, free: set<nat>, a: nat)
    requires StateOk(s, free) && Range(a, a + s.pages) <= free
    requires t == s.(zones := t.zones, owner := t.owner, usage := t.usage)
    requires Passed(s, t, a, s.pages, Unowned, InZone(a))
    requires forall p :: a <= p < a + s.pages ==> t.usage[p] == Usage(SMALL, p - a)
    requires a in t.zones && !t.zones[a].active && t.zones == s.zones[a := t.zones[a]]
    ensures a !in s.zones && StateOk(t, free - Range(a, a + s.pages))
  {
    var left := free - Range(a, a + s.pages);
    assert a in s.zones ==> ZoneAt(s, a) && Leads(s, a, a);
    assert ZoneAt(t, a) by {
      assert forall p :: a <= p < a + t.pages ==> Leads(t, p, a);
    }
    forall b | b in s.zones
      ensures ZoneAt(t, b)
    {
      assert ZoneAt(s, b);
      ZoneStays(s, t, free, a, s.pages, Unowned, InZone(a), b);
    }
    forall q | q in s.runs
      ensures RunAt(t, q)
    {
      assert RunAt(s, q);
      RunStays(s, t, free, a, s.pages, Unowned, InZone(a), q);
    }
    forall p | 0 <= p < |t.owner|
      ensures PageOk(t, left, p)
    {
      assert PageOk(s, free, p);
    }
    forall c | c in t.live
      ensures LiveAt(t, c)
    {
      LiveOwner(s, free, c);
    }
  }

  /** A zone of which nobody holds a chunk gives its pages back. */
  lemma ReleaseZone(s: State, t: State, free: set<nat>, a: nat)
    requires StateOk(s, free) && a in s.zones && !s.zones[a].active
    requires t == s.(zones := s.zones - {a}, owner := t.owner, usage := t.usage)
    requires a + s.pages <= |s.owner| && Passed(s, t, a, s.pages, InZone(a), Unowned)
    ensures StateOk(t, free + Range(a, a + s.pages)) && Range(a, a + s.pages) !! free
  {
    var more := free + Range(a, a + s.pages);
    assert ZoneAt(s, a);
    forall p | p in Range(a, a + s.pages)
      ensures p !in free
    {
      assert Leads(s, p, a) && PageOk(s, free, p);
    }
    forall b | b in t.zones
      ensures ZoneAt(t, b)
    {
      assert ZoneAt(s, b);
      ZoneStays(s, t, free, a, s.pages, InZone(a), Unowned, b);
    }
    forall q | q in s.runs
      ensures RunAt(t, q)
    {
      assert RunAt(s, q);
      RunStays(s, t, free, a, s.pages, InZone(a), Unowned, q);
    }
    forall p | 0 <= p < |t.owner|
      ensures PageOk(t, more, p)
    {
      assert PageOk(s, free, p);
      assert s.owner[p] == InZone(a) ==> p in Range(a, a + s.pages);
    }
    forall c | c in t.live
      ensures LiveAt(t, c)
    {
      LiveOwner(s, free, c);
    }
  }

  /** A large allocation gets its pages; only the first is described. */
  lemma ClaimRun(s: State, t: State, free: set<nat>, q: nat, count: nat)
    requires StateOk(s, free) && count > 0 && Range(q, q + count) <= free
    requires t == s.(runs := s.runs[q := count], live := s.live[q * PAGE := count * PAGE], owner := t.owner,
      usage := t.usage)
    requires Passed(s, t, q, count, Unowned, InRun(q)) && t.usage[q] == Usage(LARGE, count)
    ensures q * PAGE !in s.live && StateOk(t, free - Range(q, q + count))
  {
    var left := free - Range(q, q + count);
    NewRun(s, free, q);
    assert RunAt(t, q);
    OthersStay(s, t, free, q, count);
    forall p | 0 <= p < |t.owner|
      ensures PageOk(t, left, p)
    {
      assert PageOk(s, free, p);
    }
    forall c | c in t.live
      ensures LiveAt(t, c)
    {
      assert q * PAGE / PAGE == q;
      if c != q * PAGE {
        LiveOwner(s, free, c);
      }
    }
  }

  lemma NewRun(s: State, free: set<nat>, q: nat)
    requires StateOk(s, free) && q < |s.owner| && s.owner[q].Unowned?
    ensures q !in s.runs && q * PAGE !in s.live
  {
    assert q in s.runs ==> RunAt(s, q);
    assert q * PAGE / PAGE == q;
    assert q * PAGE in s.live ==> LiveAt(s, q * PAGE);
  }

  lemma OthersStay(s: State, t: State, free: set<nat>, q: nat, count: nat)
    requires StateOk(s, free) && Passed(s, t, q, count, Unowned, InRun(q))
    requires t.zones == s.zones && q !in s.runs && t.runs == s.runs[q := count] && s.live.Keys <= t.live.Keys
    ensures forall b :: b in s.zones ==> ZoneAt(t, b)
    ensures forall r :: r in s.runs ==> RunAt(t, r)
  {
    forall b | b in s.zones
      ensures ZoneAt(t, b)
    {
      assert ZoneAt(s, b);
      ZoneStays(s, t, free, q, count, Unowned, InRun(q), b);
    }
    forall r | r in s.runs
      ensures RunAt(t, r)
    {
      assert RunAt(s, r);
      RunStays(s, t, free, q, count, Unowned, InRun(q), r);
    }
  }

  /** A large allocation gives its pages back. */
  lemma ReleaseRun(s: State, t: State, free: set<nat>, q: nat)
    requires StateOk(s, free) && q in s.runs
    requires t == s.(runs := s.runs - {q}, live := s.live - {q * PAGE}, owner := t.owner, usage := t.usage)
    requires q + s.runs[q] <= |s.owner| && Passed(s, t, q, s.runs[q], InRun(q), Unowned)
    ensures StateOk(t, free + Range(q, q + s.runs[q])) && Range(q, q + s.runs[q]) !! free
  {
    var more := free + Range(q, q + s.runs[q]);
    assert RunAt(s, q);
    forall p | p in Range(q, q + s.runs[q])
      ensures p !in free
    {
      assert PageOk(s, free, p);
    }
    forall b | b in s.zones
      ensures ZoneAt(t, b)
    {
      RunNotInZone(s, free, b, q);
      assert ZoneAt(s, b);
      ZoneStays(s, t, free, q, s.runs[q], InRun(q), Unowned, b);
    }
    forall r | r in t.runs
      ensures RunAt(t, r)
    {
      assert RunAt(s, r);
      RunStays(s, t, free, q, s.runs[q], InRun(q), Unowned, r);
    }
    forall p | 0 <= p < |t.owner|
      ensures PageOk(t, more, p)
    {
      assert PageOk(s, free, p);
      assert s.owner[p] == InRun(q) ==> p in Range(q, q + s.runs[q]);
    }
    forall c | c in t.live
      ensures LiveAt(t, c)
    {
      LiveOwner(s, free, c);
    }
  }

  // ---- the zone lists ----

  /** zone_array[i] links the zones of index i that have a chunk to hand out, each once. */
  ghost predicate RowOk(zones: map<nat, Zone>, rows: seq<seq<nat>>, i: nat)
    requires i < |rows|
  {
    && Once(rows[i])
    && (forall a :: a in Ids(rows[i]) <==> a in zones && zones[a].active && zones[a].index == i && zones[a].nfree > 0)
  }

  /** zone_free links the zones that are wholly free and wait for another use. */
  ghost predicate SpareOk(zones: map<nat, Zone>, spare: seq<nat>) {
    Once(spare) && (forall a :: a in Ids(spare) <==> a in zones && !zones[a].active)
  }

  ghost predicate ListsOk(zones: map<nat, Zone>, rows: seq<seq<nat>>, spare: seq<nat>) {
    && |rows| == NZONES && SpareOk(zones, spare)
    && (forall i {:trigger RowOk(zones, rows, i)} :: 0 <= i < NZONES ==> RowOk(zones, rows, i))
  }

  /** Zone a changes, and with it its own row and the spare list. */
  lemma ListsStep(zones: map<nat, Zone>, now: map<nat, Zone>, rows: seq<seq<nat>>, spare: seq<nat>, a: nat, i: nat,
                  row: seq<nat>, left: seq<nat>)
    requires ListsOk(zones, rows, spare) && i < NZONES
    requires forall b :: b != a ==> (b in now <==> b in zones) && (b in now ==> now[b] == zones[b])
    requires a in zones && zones[a].active ==> zones[a].index == i
    requires a in now && now[a].active ==> now[a].index == i
    requires Once(row) && Ids(row) - {a} == Ids(rows[i]) - {a}
    requires a in Ids(row) <==> a in now && now[a].active && now[a].nfree > 0
    requires Once(left) && Ids(left) - {a} == Ids(spare) - {a}
    requires a in Ids(left) <==> a in now && !now[a].active
    ensures ListsOk(now, rows[i := row], left)
  {
    var after := rows[i := row];
    forall k | 0 <= k < NZONES
      ensures RowOk(now, after, k)
    {
      assert RowOk(zones, rows, k);
      var list := after[k];
      forall b
        ensures b in Ids(list) <==> b in now && now[b].active && now[b].index == k && now[b].nfree > 0
      {
        if k == i && b != a {
          assert b in Ids(row) - {a} <==> b in Ids(rows[i]) - {a};
        }
      }
    }
    forall b
      ensures b in Ids(left) <==> b in now && !now[b].active
    {
      assert b in Ids(left) - {a} <==> b in Ids(spare) - {a};
    }
  }
}
