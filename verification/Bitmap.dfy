/** Find-first-set (kservice.c) and the ready bitmap of the scheduler (scheduler.c): one word of
    32 levels, or a group word over 32 bytes for up to 256 levels.  Words and bytes are natural
    numbers, and the bit operations on them are defined digit by digit. */
module Bitmap {
  predicate Bit(v: nat, n: nat) {
    if n == 0 then v % 2 == 1 else Bit(v / 2, n - 1)
  }

  /** 1 << n */
  function One(n: nat): (r: nat)
    ensures r > 0
  {
    if n == 0 then 1 else 2 * One(n - 1)
  }

  /** v | w */
  function Or(v: nat, w: nat): nat {
    if v == 0 then w else 2 * Or(v / 2, w / 2) + (if v % 2 == 1 || w % 2 == 1 then 1 else 0)
  }

  /** v & ~w */
  function AndNot(v: nat, w: nat): nat {
    if v == 0 then 0 else 2 * AndNot(v / 2, w / 2) + (if v % 2 == 1 && w % 2 == 0 then 1 else 0)
  }

  lemma {:induction false} ZeroBit(n: nat)
    ensures !Bit(0, n)
  {
    if n > 0 {
      ZeroBit(n - 1);
    }
  }

  lemma {:induction false} OneBit(k: nat, n: nat)
    ensures Bit(One(k), n) <==> n == k
  {
    if k == 0 {
      if n > 0 {
        ZeroBit(n - 1);
      }
    } else if n > 0 {
      OneBit(k - 1, n - 1);
    }
  }

  lemma {:induction false} OrBit(v: nat, w: nat, n: nat)
    ensures Bit(Or(v, w), n) <==> Bit(v, n) || Bit(w, n)
  {
    if v == 0 {
      ZeroBit(n);
    } else if n > 0 {
      OrBit(v / 2, w / 2, n - 1);
    }
  }

  lemma {:induction false} AndNotBit(v: nat, w: nat, n: nat)
    ensures Bit(AndNot(v, w), n) <==> Bit(v, n) && !Bit(w, n)
  {
    if v == 0 {
      ZeroBit(n);
    } else if n > 0 {
      AndNotBit(v / 2, w / 2, n - 1);
    }
  }

  /** A number of `width` digits has no bit beyond them. */
  lemma {:induction false} Fits(v: nat, width: nat, n: nat)
    requires v < One(width) && n >= width
    ensures !Bit(v, n)
  {
    if width == 0 {
      ZeroBit(n);
    } else {
      Fits(v / 2, width - 1, n - 1);
    }
  }

  lemma {:induction false} OrFits(v: nat, w: nat, width: nat)
    requires v < One(width) && w < One(width)
    ensures Or(v, w) < One(width)
  {
    if v != 0 {
      OrFits(v / 2, w / 2, width - 1);
    }
  }

  lemma {:induction false} AndNotFits(v: nat, w: nat)
    ensures AndNot(v, w) <= v
  {
    if v != 0 {
      AndNotFits(v / 2, w / 2);
    }
  }

  lemma {:induction false} OneGrows(k: nat, n: nat)
    requires k < n
    ensures One(k) < One(n)
  {
    if k > 0 {
      OneGrows(k - 1, n - 1);
    }
  }

  /** The digits of p + r, where p is q shifted left. */
  lemma {:induction false} Joined(p: nat, r: nat, q: nat, width: nat, n: nat)
    requires p == One(width) * q
    ensures n < width ==> (Bit(p + r, n) <==> Bit(r, n))
    ensures r < One(width) ==> (Bit(p + r, n + width) <==> Bit(q, n))
  {
    if width > 0 {
      var h := One(width - 1) * q;
      assert p == 2 * h;
      assert (p + r) / 2 == h + r / 2;
      if 0 < n < width {
        Joined(h, r / 2, q, width - 1, n - 1);
      }
      Joined(h, r / 2, q, width - 1, n);
    }
  }

  /** The low and the high half of a byte, and the lowest byte of a word and the rest. */
  lemma Digits4(v: nat, n: nat)
    ensures n < 4 ==> (Bit(v % 16, n) <==> Bit(v, n))
    ensures Bit(v / 16, n) <==> Bit(v, n + 4)
  {
    assert One(4) == 16;
    Joined(16 * (v / 16), v % 16, v / 16, 4, n);
  }

  lemma Digits8(v: nat, n: nat)
    ensures n < 8 ==> (Bit(v % 256, n) <==> Bit(v, n))
    ensures Bit(v / 256, n) <==> Bit(v, n + 8)
  {
    assert One(8) == 256;
    Joined(256 * (v / 256), v % 256, v / 256, 8, n);
  }

  const HEADS: seq<nat> := [0, 4, 5, 4, 6, 4, 5, 4, 7, 4, 5, 4, 6, 4, 5, 4]
  const TAIL: seq<nat> := [0, 1, 0, 2, 0, 1, 0, 3, 0, 1, 0, 2, 0, 1, 0]

  /** __lowest_bit_bitmap[b]: the table has sixteen rows of sixteen entries, which differ only in
      the first. */
  function Lowest(b: nat): nat
    requires b < 256
  {
    if b % 16 == 0 then HEADS[b / 16] else TAIL[b % 16 - 1]
  }

  /** Bit t is the lowest set bit of v. */
  ghost predicate LowestSet(v: nat, t: nat) {
    Bit(v, t) && forall n :: 0 <= n < t ==> !Bit(v, n)
  }

  lemma NibbleIs(c: nat)
    requires 0 < c < 16
    ensures TAIL[c - 1] < 4 && LowestSet(c, TAIL[c - 1]) && HEADS[c] == TAIL[c - 1] + 4
  {
    match c
    case 1 | 3 | 5 | 7 | 9 | 11 | 13 | 15 =>
    case 2 | 6 | 10 | 14 => assert !Bit(c, 0) && Bit(c, 1);
    case 4 | 12 => assert !Bit(c, 0) && !Bit(c, 1) && Bit(c, 2);
    case _ => assert !Bit(8, 0) && !Bit(8, 1) && !Bit(8, 2) && Bit(8, 3);
  }

  lemma LowNibble(b: nat)
    requires b < 256 && b % 16 != 0
    ensures LowestSet(b, TAIL[b % 16 - 1])
  {
    NibbleIs(b % 16);
    Digits4(b, TAIL[b % 16 - 1]);
    forall n | 0 <= n < TAIL[b % 16 - 1]
      ensures !Bit(b, n)
    {
      Digits4(b, n);
    }
  }

  lemma HighNibble(b: nat)
    requires 0 < b < 256 && b % 16 == 0
    ensures LowestSet(b, HEADS[b / 16])
  {
    NibbleIs(b / 16);
    Digits4(b, HEADS[b / 16] - 4);
    forall n | 0 <= n < HEADS[b / 16]
      ensures !Bit(b, n)
    {
      Digits4(b, if n < 4 then n else n - 4);
      ZeroBit(n);
    }
  }

  /** The table gives the lowest bit of a byte. */
  lemma LowestIs(b: nat)
    requires 0 < b < 256
    ensures Lowest(b) < 8 && LowestSet(b, Lowest(b))
  {
    if b % 16 == 0 {
      NibbleIs(b / 16);
      HighNibble(b);
    } else {
      NibbleIs(b % 16);
      LowNibble(b);
    }
  }

  /** `(v & 0xff << 8 * i) >> 8 * i` */
  function Byte(v: nat, i: nat): nat
    requires i < 4
  {
    match i
    case 0 => v % 256
    case 1 => v / 0x100 % 256
    case 2 => v / 0x10000 % 256
    case _ => v / 0x1000000 % 256
  }

  /** __rt_ffs on a word: the number of the lowest set bit, counted from 1. */
  function Ffs(value: nat): nat {
    if value == 0 then 0
    else if Byte(value, 0) != 0 then Lowest(Byte(value, 0)) + 1
    else if Byte(value, 1) != 0 then Lowest(Byte(value, 1)) + 9
    else if Byte(value, 2) != 0 then Lowest(Byte(value, 2)) + 17
    else Lowest(Byte(value, 3)) + 25
  }

  lemma {:induction false} BitInByte(v: nat, i: nat, n: nat)
    requires i < 4 && n < 8
    ensures Bit(Byte(v, i), n) <==> Bit(v, 8 * i + n)
  {
    if i == 0 {
      Digits8(v, n);
    } else {
      ByteAbove(v, i);
      BitInByte(v / 256, i - 1, n);
      Digits8(v, 8 * (i - 1) + n);
    }
  }

  lemma ByteAbove(v: nat, i: nat)
    requires 0 < i < 4
    ensures Byte(v, i) == Byte(v / 256, i - 1)
  {
  }

  /** The first byte that is not zero. */
  function FirstByte(v: nat): (i: nat)
    requires 0 < v < 0x1_0000_0000
    ensures i < 4 && Byte(v, i) != 0 && Ffs(v) == Lowest(Byte(v, i)) + 8 * i + 1
    ensures forall j :: 0 <= j < i ==> Byte(v, j) == 0
  {
    if Byte(v, 0) != 0 then 0 else if Byte(v, 1) != 0 then 1 else if Byte(v, 2) != 0 then 2 else 3
  }

  /** The table-driven search finds what a search bit by bit would. */
  lemma FfsIs(v: nat)
    requires v < 0x1_0000_0000
    ensures if v == 0 then Ffs(v) == 0 else 1 <= Ffs(v) <= 32 && LowestSet(v, Ffs(v) - 1)
  {
    if v != 0 {
      var i := FirstByte(v);
      var t := Lowest(Byte(v, i));
      LowestIs(Byte(v, i));
      BitInByte(v, i, t);
      forall n | 0 <= n < 8 * i + t
        ensures !Bit(v, n)
      {
        BitInByte(v, n / 8, n % 8);
        ZeroBit(n % 8);
      }
    }
  }

  /** What a thread of priority p stores: the byte its bit is in, the mask for the group word
      and the mask for the byte.  With one word only the first mask is used. */
  function Number(p: nat): nat {
    p / 8
  }

  function NumberMask(wide: bool, p: nat): nat {
    One(if wide then Number(p) else p)
  }

  function HighMask(p: nat): nat {
    One(p % 8)
  }

  /** The ready bitmap.  `wide` is RT_THREAD_PRIORITY_MAX > 32; then `table` has 32 bytes. */
  datatype Marks = Marks(wide: bool, group: nat, table: seq<nat>) {
    ghost predicate Valid() {
      && group < One(32)
      && (wide ==> |table| == 32 && forall n {:trigger Summed(n)} :: 0 <= n < 32 ==> Summed(n))
    }

    /** Byte n is a byte, and group bit n tells whether it has a bit. */
    ghost predicate Summed(n: nat)
      requires n < |table|
    {
      table[n] < One(8) && (Bit(group, n) <==> table[n] != 0)
    }

    /** Whether priority p is marked. */
    ghost predicate Has(p: nat)
      requires Valid() && p < 256
    {
      if wide then Bit(table[Number(p)], p % 8) else Bit(group, p)
    }

    /** rt_thread_ready_table[number] |= high_mask; rt_thread_ready_priority_group |= number_mask */
    function Mark(number: nat, numberMask: nat, highMask: nat): Marks
      requires wide ==> number < |table|
    {
      if wide then Marks(wide, Or(group, numberMask), table[number := Or(table[number], highMask)])
      else Marks(wide, Or(group, numberMask), table)
    }

    /** The clearing in rt_schedule_remove_thread: the group bit goes when the byte is empty. */
    function Clear(number: nat, numberMask: nat, highMask: nat): Marks
      requires wide ==> number < |table|
    {
      if wide then
        var byte := AndNot(table[number], highMask);
        Marks(wide, if byte == 0 then AndNot(group, numberMask) else group, table[number := byte])
      else Marks(wide, AndNot(group, numberMask), table)
    }

    /** The priority that _get_highest_priority_thread computes. */
    function Highest(): nat
      requires Valid() && group != 0
    {
      Sizes();
      FfsIs(group);
      var number := Ffs(group) - 1;
      if wide then
        assert Summed(number);
        FfsIs(table[number]);
        8 * number + Ffs(table[number]) - 1
      else number
    }
  }

  lemma Sizes()
    ensures One(8) == 256 && One(32) == 0x1_0000_0000
  {
    assert One(8) == 256;
    Product(8, 8);
    Product(16, 16);
  }

  lemma {:induction false} Product(k: nat, n: nat)
    ensures One(k + n) == One(k) * One(n)
  {
    if k > 0 {
      Product(k - 1, n);
    }
  }

  lemma MarkSums(r: Marks, p: nat)
    requires r.Valid() && p < 256 && (r.wide || p < 32)
    ensures r.Mark(Number(p), NumberMask(r.wide, p), HighMask(p)).Valid()
  {
    var k := if r.wide then Number(p) else p;
    OneGrows(k, 32);
    OneGrows(p % 8, 8);
    OrFits(r.group, One(k), 32);
    if r.wide {
      assert r.Summed(k);
      OrFits(r.table[k], One(p % 8), 8);
      OrBit(r.table[k], One(p % 8), p % 8);
      OneBit(p % 8, p % 8);
      ZeroBit(p % 8);
      var after := r.Mark(k, One(k), One(p % 8));
      forall n | 0 <= n < 32
        ensures after.Summed(n)
      {
        assert r.Summed(n);
        OrBit(r.group, One(k), n);
        OneBit(k, n);
      }
    }
  }

  /** Marking p marks p and nothing else. */
  lemma MarkIs(r: Marks, p: nat, q: nat)
    requires r.Valid() && p < 256 && q < 256 && (r.wide || p < 32)
    ensures r.Mark(Number(p), NumberMask(r.wide, p), HighMask(p)).Valid()
    ensures r.Mark(Number(p), NumberMask(r.wide, p), HighMask(p)).Has(q) <==> r.Has(q) || q == p
  {
    MarkSums(r, p);
    if r.wide {
      OrBit(r.table[Number(p)], HighMask(p), q % 8);
      OneBit(p % 8, q % 8);
    } else {
      OrBit(r.group, One(p), q);
      OneBit(p, q);
    }
  }

  lemma ClearSums(r: Marks, p: nat)
    requires r.Valid() && p < 256 && (r.wide || p < 32)
    ensures r.Clear(Number(p), NumberMask(r.wide, p), HighMask(p)).Valid()
  {
    var k := if r.wide then Number(p) else p;
    AndNotFits(r.group, One(k));
    if r.wide {
      assert r.Summed(k);
      AndNotFits(r.table[k], One(p % 8));
      var after := r.Clear(k, One(k), One(p % 8));
      forall n | 0 <= n < 32
        ensures after.Summed(n)
      {
        assert r.Summed(n);
        AndNotBit(r.group, One(k), n);
        OneBit(k, n);
      }
    }
  }

  /** Clearing p clears p and nothing else. */
  lemma ClearIs(r: Marks, p: nat, q: nat)
    requires r.Valid() && p < 256 && q < 256 && (r.wide || p < 32)
    ensures r.Clear(Number(p), NumberMask(r.wide, p), HighMask(p)).Valid()
    ensures r.Clear(Number(p), NumberMask(r.wide, p), HighMask(p)).Has(q) <==> r.Has(q) && q != p
  {
    ClearSums(r, p);
    if r.wide {
      AndNotBit(r.table[Number(p)], HighMask(p), q % 8);
      OneBit(p % 8, q % 8);
    } else {
      AndNotBit(r.group, One(p), q);
      OneBit(p, q);
    }
  }

  /** The two-step search finds the smallest marked priority. */
  lemma HighestIs(r: Marks, q: nat)
    requires r.Valid() && q < 256
    ensures r.group == 0 ==> !r.Has(q)
    ensures r.group != 0 ==> r.Highest() < 256 && r.Has(r.Highest()) && (q < r.Highest() ==> !r.Has(q))
  {
    if r.wide {
      WideHighest(r, q);
    } else {
      NarrowHighest(r, q);
    }
  }

  lemma NarrowHighest(r: Marks, q: nat)
    requires r.Valid() && !r.wide && q < 256
    ensures r.group == 0 ==> !r.Has(q)
    ensures r.group != 0 ==> r.Highest() < 256 && r.Has(r.Highest()) && (q < r.Highest() ==> !r.Has(q))
  {
    Sizes();
    if r.group == 0 {
      ZeroBit(q);
    } else {
      FfsIs(r.group);
      NarrowLeast(r, r.Highest(), q);
    }
  }

  lemma NarrowLeast(r: Marks, p: nat, q: nat)
    requires r.Valid() && !r.wide && p < 256 && q < 256 && LowestSet(r.group, p)
    ensures r.Has(p) && (q < p ==> !r.Has(q))
  {
  }

  lemma WideHighest(r: Marks, q: nat)
    requires r.Valid() && r.wide && q < 256
    ensures r.group == 0 ==> !r.Has(q)
    ensures r.group != 0 ==> r.Highest() < 256 && r.Has(r.Highest()) && (q < r.Highest() ==> !r.Has(q))
  {
    if r.group == 0 {
      WideEmpty(r, q);
    } else {
      var n, h := HighestParts(r);
      WideLeast(r, n, h, r.Highest(), q);
    }
  }

  lemma HighestParts(r: Marks) returns (n: nat, h: nat)
    requires r.Valid() && r.wide && r.group != 0
    ensures n < 32 && h < 8 && r.Highest() == 8 * n + h
    ensures LowestSet(r.group, n) && LowestSet(r.table[n], h)
  {
    Sizes();
    FfsIs(r.group);
    n := Ffs(r.group) - 1;
    assert r.Summed(n);
    h := HighestInByte(r.table[n]);
  }

  lemma HighestInByte(b: nat) returns (h: nat)
    requires 0 < b < One(8)
    ensures h == Ffs(b) - 1 && h < 8 && LowestSet(b, h)
  {
    Sizes();
    FfsIs(b);
    h := Ffs(b) - 1;
    LowInByte(b, h);
  }

  lemma LowInByte(b: nat, h: nat)
    requires b < One(8) && LowestSet(b, h)
    ensures h < 8
  {
    ByteBits(b, h);
  }

  lemma ByteBits(b: nat, h: nat)
    requires b < One(8) && Bit(b, h)
    ensures h < 8
  {
    if h >= 8 {
      Fits(b, 8, h);
    }
  }

  lemma WideEmpty(r: Marks, q: nat)
    requires r.Valid() && r.wide && r.group == 0 && q < 256
    ensures !r.Has(q)
  {
    ZeroBit(Number(q));
    ZeroBit(q % 8);
    assert r.Summed(Number(q));
  }

  lemma WideLeast(r: Marks, n: nat, h: nat, p: nat, q: nat)
    requires r.Valid() && r.wide && n < 32 && h < 8 && q < 256 && p == 8 * n + h
    requires LowestSet(r.group, n) && LowestSet(r.table[n], h)
    ensures r.Has(p) && (q < p ==> !r.Has(q))
  {
    assert Number(p) == n && p % 8 == h;
    assert q < p ==> Number(q) < n || (Number(q) == n && q % 8 < h);
    assert r.Summed(Number(q));
    ZeroBit(q % 8);
  }
}
