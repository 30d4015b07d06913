/** The sizes of the slab allocator (slab.c): which zone serves a request, how large its chunks
    are, how many a zone holds and where they lie. */
module SlabSizes {
  import opened Arithmetic

  const PAGE: nat := 4096
  const MIN_ZONE: nat := 32 * 1024
  const MAX_ZONE: nat := 128 * 1024
  const ZONE_LIMIT: nat := 16 * 1024
  const NZONES: nat := 72
  /** sizeof(slab_zone) */
  const ZONE_HEADER: nat := 36

  /** RT_ALIGN */
  function RoundUp(n: nat, step: nat): (r: nat)
    requires step > 0
  {
    (n + step - 1) / step * step
  }

  /** What zoneindex makes of a request: the zone index and the rounded size.  Beyond its table
      it complains and answers 0. */
  datatype Fit = Fit(index: int, size: nat)

  function ZoneIndex(n: nat): Fit {
    if n < 128 then
      var r := RoundUp(n, 8);
      Fit(r / 8 - 1, r)
    else if n < 256 then
      var r := RoundUp(n, 16);
      Fit(r / 16 + 7, r)
    else if n < 8192 then
      if n < 512 then
        var r := RoundUp(n, 32);
        Fit(r / 32 + 15, r)
      else if n < 1024 then
        var r := RoundUp(n, 64);
        Fit(r / 64 + 23, r)
      else if n < 2048 then
        var r := RoundUp(n, 128);
        Fit(r / 128 + 31, r)
      else if n < 4096 then
        var r := RoundUp(n, 256);
        Fit(r / 256 + 39, r)
      else
        var r := RoundUp(n, 512);
        Fit(r / 512 + 47, r)
    else if n < 16384 then
      var r := RoundUp(n, 1024);
      Fit(r / 1024 + 55, r)
    else Fit(0, n)
  }

  /** The chunk size of a zone, by its index: each eight indices take steps of twice the width. */
  function SizeOf(index: nat): nat {
    if index < 16 then 8 * (index + 1)
    else if index < 24 then 16 * (index - 7)
    else if index < 32 then 32 * (index - 15)
    else if index < 40 then 64 * (index - 23)
    else if index < 48 then 128 * (index - 31)
    else if index < 56 then 256 * (index - 39)
    else if index < 64 then 512 * (index - 47)
    else 1024 * (index - 55)
  }

  lemma RoundUpIs(n: nat, step: nat, q: nat)
    requires step > 0 && q * step < n + step <= (q + 1) * step
    ensures RoundUp(n, step) == q * step && RoundUp(n, step) / step == q
  {
    Divided(n + step - 1, step, q, n + step - 1 - q * step);
    Divided(q * step, step, q, 0);
  }

  /** The band of sizes that a width of steps serves, up to the size 16 * step. */
  function Shift(step: nat): int {
    if step == 8 then -1 else if step == 16 then 7 else if step == 32 then 15 else if step == 64 then 23
    else if step == 128 then 31 else if step == 256 then 39 else if step == 512 then 47 else 55
  }

  predicate Width(step: nat) {
    step in {8, 16, 32, 64, 128, 256, 512, 1024}
  }

  lemma InBand(n: nat, step: nat)
    requires Width(step) && n < 16 * step && (if step == 8 then n > 0 else n >= 8 * step)
    ensures ZoneIndex(n) == Fit(RoundUp(n, step) / step + Shift(step), RoundUp(n, step))
  {
  }

  lemma SizeInBand(q: nat, step: nat)
    requires Width(step) && q <= 16 && (if step == 8 then q > 0 else q >= 8)
    ensures 0 <= q + Shift(step) < NZONES && SizeOf(q + Shift(step)) == q * step
    ensures q + Shift(step) > 0 ==>
      SizeOf(q + Shift(step) - 1) == if q == 8 && step > 8 then 15 * (step / 2) else (q - 1) * step
  {
  }

  function StepFor(n: nat): nat {
    if n < 128 then 8 else if n < 256 then 16 else if n < 512 then 32 else if n < 1024 then 64
    else if n < 2048 then 128 else if n < 4096 then 256 else if n < 8192 then 512 else 1024
  }

  lemma RoundUpTo(n: nat, step: nat) returns (q: nat)
    requires Width(step) && n < 16 * step && (if step == 8 then n > 0 else n >= 8 * step)
    ensures RoundUp(n, step) == q * step && RoundUp(n, step) / step == q
    ensures n <= q * step < n + step && q <= 16 && (if step == 8 then q > 0 else q >= 8)
  {
    q := (n + step - 1) / step;
    assert q * step < n + step <= (q + 1) * step by {
      assert n + step - 1 == q * step + (n + step - 1) % step;
    }
    RoundUpIs(n, step, q);
  }

  /** zoneindex picks the smallest chunk size that fits, and wastes at most seven bytes or an
      eighth of the request. */
  lemma ZoneIndexIs(n: nat)
    requires 0 < n < ZONE_LIMIT
    ensures var fit := ZoneIndex(n);
      && 0 <= fit.index < NZONES && fit.size == SizeOf(fit.index) >= n
      && (fit.index > 0 ==> SizeOf(fit.index - 1) < n)
      && (fit.size - n < 8 || 8 * (fit.size - n) < n)
  {
    var step := StepFor(n);
    InBand(n, step);
    var q := RoundUpTo(n, step);
    SizeInBand(q, step);
  }

  lemma {:induction false} SizesGrow(i: nat, j: nat)
    requires i < j < NZONES
    ensures 0 < SizeOf(i) < SizeOf(j) <= ZONE_LIMIT && SizeOf(i) % 8 == 0 == SizeOf(j) % 8
    decreases j - i
  {
    SizeStep(i);
    SizeBounds(i);
    SizeBounds(j);
    if i + 1 < j {
      SizesGrow(i + 1, j);
    }
  }

  lemma SizeStep(i: nat)
    requires i + 1 < NZONES
    ensures SizeOf(i) < SizeOf(i + 1)
  {
  }

  /** Rounding a size that was rounded changes neither the size nor the zone. */
  lemma ZoneIndexTwice(index: nat)
    requires index < NZONES && SizeOf(index) < ZONE_LIMIT
    ensures ZoneIndex(SizeOf(index)) == Fit(index, SizeOf(index))
  {
    var n := SizeOf(index);
    ZoneIndexIs(n);
    var other := ZoneIndex(n).index;
    if other < index {
      SizesGrow(other, index);
    } else if index < other - 1 {
      SizesGrow(index, other - 1);
    }
  }

  /** A power of two has a chunk size of its own, from 8 on. */
  lemma PowerFits(n: nat)
    requires Power2(n) && n < ZONE_LIMIT
    ensures ZoneIndex(n).size == if n < 8 then 8 else n
  {
    PowersAre(n);
  }

  predicate PowerOfTwo(size: nat) {
    size in {8, 16, 32, 64, 128, 256, 512, 1024, 2048, 4096, 8192, 16384}
  }

  /** Where the chunks of a zone begin. */
  function Offset(size: nat): (r: nat)
    requires size > 0
  {
    if PowerOfTwo(size) then RoundUp(ZONE_HEADER, size) else RoundUp(ZONE_HEADER, 8)
  }

  function Count(zoneSize: nat, size: nat): nat
    requires size > 0 && Offset(size) <= zoneSize
  {
    (zoneSize - Offset(size)) / size
  }

  predicate IsZoneSize(zoneSize: nat) {
    zoneSize in {MIN_ZONE, 2 * MIN_ZONE, MAX_ZONE}
  }

  /** zone_limit */
  function Limit(zoneSize: nat): nat {
    if zoneSize / 4 > ZONE_LIMIT then ZONE_LIMIT else zoneSize / 4
  }

  lemma OffsetIs(size: nat)
    requires 0 < size
    ensures PowerOfTwo(size) ==>
      Offset(size) == if size < 64 then (if size == 8 then 40 else if size == 16 then 48 else 64) else size
    ensures !PowerOfTwo(size) ==> Offset(size) == 40
  {
    if PowerOfTwo(size) && size >= 64 {
      RoundUpIs(ZONE_HEADER, size, 1);
    }
  }

  /** Every zone has room for three chunks at least, none of them on the header, all inside. */
  lemma ZoneHolds(zoneSize: nat, index: nat, n: nat)
    requires IsZoneSize(zoneSize) && 0 < n < Limit(zoneSize) && ZoneIndex(n).index == index
    ensures ZONE_HEADER <= Offset(SizeOf(index)) <= zoneSize
    ensures Count(zoneSize, SizeOf(index)) >= 3
    ensures Offset(SizeOf(index)) + Count(zoneSize, SizeOf(index)) * SizeOf(index) <= zoneSize
  {
    ZoneIndexIs(n);
    var size := SizeOf(index);
    ChunkWithin(zoneSize, n, size);
    OffsetIs(size);
    ThreeFit(zoneSize, size, Offset(size));
  }

  /** The chunk size is at most a quarter of the zone. */
  lemma ChunkWithin(zoneSize: nat, n: nat, size: nat)
    requires IsZoneSize(zoneSize) && 0 < n < Limit(zoneSize) && ZoneIndex(n).size == size
    ensures 0 < size && 4 * size <= zoneSize
  {
    var step := StepFor(n);
    InBand(n, step);
    var q := RoundUpTo(n, step);
  }

  lemma ThreeFit(zoneSize: nat, size: nat, offset: nat)
    requires size > 0 && 4 * size <= zoneSize && zoneSize >= MIN_ZONE && ZONE_HEADER <= offset
    requires (offset <= 64 || offset <= size)
    ensures offset <= zoneSize && (zoneSize - offset) / size >= 3
    ensures offset + (zoneSize - offset) / size * size <= zoneSize
  {
    AtLeast(zoneSize - offset, size, 3);
  }

  lemma AtLeast(v: nat, d: nat, q: nat)
    requires d > 0 && v >= q * d
    ensures v / d >= q && v / d * d <= v
  {
    assert v == v / d * d + v % d;
    NoMultiple(q - v / d, d);
    assert (q - v / d) * d == q * d - v / d * d;
  }

  /** A power-of-two chunk is aligned to its size exactly if its zone is, which a page-aligned
      zone always is up to the size of a page. */
  lemma AlignedIff(zone: nat, size: nat, k: nat)
    requires zone % PAGE == 0 && PowerOfTwo(size)
    ensures (zone + Offset(size) + k * size) % size == 0 <==> zone % size == 0
    ensures size <= PAGE ==> zone % size == 0
  {
    var o := OffsetSteps(size);
    assert zone + Offset(size) + k * size == zone + (o + k) * size;
    StepsAside(zone, size, o + k);
    if size <= PAGE {
      PageAligned(zone / PAGE, size);
    }
  }

  /** n is a power of two. */
  predicate Power2(n: nat) {
    n == 1 || (n > 0 && n % 2 == 0 && Power2(n / 2))
  }

  lemma {:induction false} PowersAre(n: nat)
    requires Power2(n) && n <= ZONE_LIMIT
    ensures n in {1, 2, 4} || PowerOfTwo(n)
  {
    if n > 1 {
      PowersAre(n / 2);
    }
  }

  /** Beyond a page a power of two is a number of whole pages, and up to a page it divides one. */
  lemma {:induction false} WholePages(n: nat)
    requires Power2(n) && n >= PAGE
    ensures n % PAGE == 0
  {
    if n < 2 * PAGE {
      PowersAre(n);
    } else {
      WholePages(n / 2);
    }
  }

  lemma PageMultiple(page: nat, n: nat)
    requires Power2(n) && n <= PAGE
    ensures page * PAGE % n == 0
  {
    PowersAre(n);
    if n >= 8 {
      PageAligned(page, n);
    } else {
      PageAligned(page, 8);
      Divides8(page * PAGE, n);
    }
  }

  lemma Divides8(v: nat, n: nat)
    requires n in {1, 2, 4} && v % 8 == 0
    ensures v % n == 0
  {
    match n
    case 1 =>
    case 2 => assert v == 2 * (4 * (v / 8));
    case _ => assert v == 4 * (2 * (v / 8));
  }

  lemma SizeBounds(index: nat)
    requires index < NZONES
    ensures 8 <= SizeOf(index) <= ZONE_LIMIT && SizeOf(index) % 8 == 0
  {
  }

  lemma OffsetSteps(size: nat) returns (o: nat)
    requires PowerOfTwo(size)
    ensures Offset(size) == o * size
  {
    OffsetIs(size);
    o := if size <= 16 then (if size == 8 then 5 else 3) else if size == 32 then 2 else 1;
  }

  lemma StepsAside(v: nat, size: nat, steps: nat)
    requires size > 0
    ensures (v + steps * size) % size == v % size
  {
    assert v == v / size * size + v % size;
    assert (v / size + steps) * size == v / size * size + steps * size;
    Divided(v + steps * size, size, v / size + steps, v % size);
  }

  lemma PageAligned(page: nat, size: nat)
    requires PowerOfTwo(size) && size <= PAGE
    ensures page * PAGE % size == 0
  {
    var k := PAGE / size;
    assert k * size == PAGE;
    assert page * PAGE == page * (k * size) == (page * k) * size;
    Divided(page * PAGE, size, page * k, 0);
  }
}
