/** The rows of the timer skip list (timer.c): wrapping tick comparison, the order of the
    pending timers, and what unlinking and inserting do to a row. */
module TimerRows {
  import opened Arithmetic
  import opened Lists

  const TICKS: nat := 0x1_0000_0000
  const TICK_MAX: nat := 0xffff_ffff
  const HALF: nat := TICK_MAX / 2

  /** a - b on 32-bit ticks. */
  function Since(a: nat, b: nat): (r: nat)
    ensures r < TICKS
  {
    (a - b) % TICKS
  }

  /** Wrapping comparison agrees with real time while the two are less than half the range apart. */
  lemma SinceIs(a: nat, b: nat)
    requires a < b + HALF && b <= a + HALF
    ensures Since(a % TICKS, b % TICKS) == 0 <==> a == b
    ensures Since(a % TICKS, b % TICKS) < HALF <==> b <= a
  {
    assert (a % TICKS - b % TICKS) % TICKS == (a - b) % TICKS by {
      var q, p := a / TICKS, b / TICKS;
      assert a % TICKS - b % TICKS == a - b + (p - q) * TICKS;
      SameModulo(a - b, p - q);
    }
    if a < b {
      SameModulo(a - b, 1);
    }
  }

  lemma SameModulo(x: int, k: int)
    ensures (x + k * TICKS) % TICKS == x % TICKS
  {
  }

  /** One start of a timer: which timer, at which absolute tick its timeout was computed, for how
      many ticks, and at which tick it was linked. */
  datatype Arming = Arming(id: nat, at: nat, length: nat, linked: nat) {
    function Deadline(): nat {
      at + length
    }

    /** The tick whose check fires it.  A timer that is linked only when its deadline has come, as
        one of length zero always is, has to wait for the next check. */
    function DueAt(): nat {
      if Deadline() <= linked then linked + 1 else Deadline()
    }

    /** The deadline has not passed when the timer is linked. */
    predicate Punctual() {
      linked <= Deadline()
    }
  }

  /** Arming s fires before arming t: earlier deadline, or the same and started earlier. */
  ghost predicate Earlier(starts: seq<Arming>, s: nat, t: nat) {
    && s < |starts| && t < |starts|
    && (starts[s].Deadline() < starts[t].Deadline() || (starts[s].Deadline() == starts[t].Deadline() && s < t))
  }

  /** `serial[x]` is the number of the arming that timer x waits on. */
  ghost predicate Armed(starts: seq<Arming>, serial: map<nat, nat>, x: nat) {
    x in serial && serial[x] < |starts| && starts[serial[x]].id == x
  }

  ghost function DeadlineOf(starts: seq<Arming>, serial: map<nat, nat>, x: nat): nat
    requires Armed(starts, serial, x)
  {
    starts[serial[x]].Deadline()
  }

  ghost predicate Ordered(starts: seq<Arming>, serial: map<nat, nat>, row: seq<nat>, i: nat, j: nat)
    requires i < |row| && j < |row| && row[i] in serial && row[j] in serial
  {
    Earlier(starts, serial[row[i]], serial[row[j]])
  }

  ghost predicate Sorted(starts: seq<Arming>, serial: map<nat, nat>, row: seq<nat>) {
    && (forall i :: 0 <= i < |row| ==> Armed(starts, serial, row[i]))
    && (forall i, j {:trigger Ordered(starts, serial, row, i, j)} :: 0 <= i < j < |row| ==>
        Ordered(starts, serial, row, i, j))
  }

  ghost predicate Below(row: seq<nat>, next: seq<nat>) {
    Ids(row) <= Ids(next)
  }

  /** A sorted row holds a timer only once. */
  lemma UnlinkedIds(starts: seq<Arming>, serial: map<nat, nat>, row: seq<nat>, x: nat)
    requires Sorted(starts, serial, row)
    ensures Ids(Unlinked(row, x)) == Ids(row) - {x}
  {
    if x in row {
      var i := IndexOf(row, x);
      forall k | i < k < |row|
        ensures row[k] != x
      {
        assert Ordered(starts, serial, row, i, k);
      }
      OnceIds(row, x);
    }
  }

  lemma UnlinkedSorted(starts: seq<Arming>, serial: map<nat, nat>, row: seq<nat>, x: nat)
    requires Sorted(starts, serial, row)
    ensures Sorted(starts, serial, Unlinked(row, x))
  {
    if x in row {
      var i, r := IndexOf(row, x), Unlinked(row, x);
      forall k | 0 <= k < |r|
        ensures r[k] == row[Skip(i, k)] && Armed(starts, serial, r[k])
      {
        UnlinkedAt(row, x, k);
      }
      forall k, l | 0 <= k < l < |r|
        ensures Ordered(starts, serial, r, k, l)
      {
        assert Ordered(starts, serial, row, Skip(i, k), Skip(i, l));
      }
    }
  }

  /** The place behind every timer that is due no later than `deadline`. */
  ghost predicate IsPlace(starts: seq<Arming>, serial: map<nat, nat>, row: seq<nat>, p: nat, deadline: nat) {
    && p <= |row|
    && (forall i :: 0 <= i < |row| ==> Armed(starts, serial, row[i]))
    && (forall i :: 0 <= i < p ==> DeadlineOf(starts, serial, row[i]) <= deadline)
    && (forall i :: p <= i < |row| ==> DeadlineOf(starts, serial, row[i]) > deadline)
  }

  /** Deadlines along a sorted row. */
  lemma Around(starts: seq<Arming>, serial: map<nat, nat>, row: seq<nat>, p: nat)
    requires Sorted(starts, serial, row) && p < |row|
    ensures forall i :: 0 <= i < p ==> DeadlineOf(starts, serial, row[i]) <= DeadlineOf(starts, serial, row[p])
    ensures forall i :: p < i < |row| ==> DeadlineOf(starts, serial, row[p]) <= DeadlineOf(starts, serial, row[i])
  {
    forall i | 0 <= i < p
      ensures DeadlineOf(starts, serial, row[i]) <= DeadlineOf(starts, serial, row[p])
    {
      assert Ordered(starts, serial, row, i, p);
    }
    forall i | p < i < |row|
      ensures DeadlineOf(starts, serial, row[p]) <= DeadlineOf(starts, serial, row[i])
    {
      assert Ordered(starts, serial, row, p, i);
    }
  }

  /** There is only one such place, so every search that finds one finds the same. */
  lemma PlaceIsUnique(starts: seq<Arming>, serial: map<nat, nat>, row: seq<nat>, p: nat, q: nat, deadline: nat)
    requires IsPlace(starts, serial, row, p, deadline) && IsPlace(starts, serial, row, q, deadline)
    ensures p == q
  {
    assert p < |row| ==> DeadlineOf(starts, serial, row[p]) > deadline;
    assert q < |row| ==> DeadlineOf(starts, serial, row[q]) > deadline;
  }

  /** A new arming leaves rows without its timer as they are. */
  lemma StillSorted(starts: seq<Arming>, serial: map<nat, nat>, row: seq<nat>, a: Arming)
    requires Sorted(starts, serial, row) && a.id !in Ids(row)
    ensures Sorted(starts + [a], serial[a.id := |starts|], row)
  {
    assert forall i :: 0 <= i < |row| ==> row[i] in Ids(row);
    var all, latest := starts + [a], serial[a.id := |starts|];
    forall i, j | 0 <= i < j < |row|
      ensures Ordered(all, latest, row, i, j)
    {
      assert Ordered(starts, serial, row, i, j);
    }
  }

  lemma InsertedSorted(starts: seq<Arming>, serial: map<nat, nat>, row: seq<nat>, p: nat, a: Arming)
    requires Sorted(starts, serial, row) && a.id !in Ids(row) && IsPlace(starts, serial, row, p, a.Deadline())
    ensures Sorted(starts + [a], serial[a.id := |starts|], Inserted(row, p, a.id))
  {
    StillSorted(starts, serial, row, a);
    var r, all, latest := Inserted(row, p, a.id), starts + [a], serial[a.id := |starts|];
    forall k | 0 <= k < |r|
      ensures Armed(all, latest, r[k])
      ensures r[k] == Shifted(row, p, a.id, k)
    {
      InsertedAt(row, p, a.id, k);
    }
    forall k, l | 0 <= k < l < |r|
      ensures Ordered(all, latest, r, k, l)
    {
      if k != p && l != p {
        assert Ordered(all, latest, row, if k < p then k else k - 1, if l < p then l else l - 1);
      } else {
        var o := if k == p then l - 1 else k;
        assert row[o] in Ids(row);
        assert Armed(starts, serial, row[o]) && latest[row[o]] == serial[row[o]];
      }
    }
  }

  /** `row` can be read off `next` by leaving timers out. */
  ghost predicate Subsequence(row: seq<nat>, next: seq<nat>)
    decreases |next|
  {
    row == [] || (next != [] && (if row[0] == next[0] then Subsequence(row[1..], next[1..]) else
      Subsequence(row, next[1..])))
  }

  lemma SortedTail(starts: seq<Arming>, serial: map<nat, nat>, row: seq<nat>)
    requires Sorted(starts, serial, row) && row != []
    ensures Sorted(starts, serial, row[1..])
    ensures Ids(row[1..]) == Ids(row) - {row[0]}
  {
    forall i, j | 0 <= i < j < |row| - 1
      ensures Ordered(starts, serial, row[1..], i, j)
    {
      assert Ordered(starts, serial, row, i + 1, j + 1);
    }
    UnlinkedIds(starts, serial, row, row[0]);
    assert Unlinked(row, row[0]) == row[1..];
  }

  /** Two sorted rows, one within the other: the upper row is a subsequence of the lower. */
  lemma {:induction false} SortedBelow(starts: seq<Arming>, serial: map<nat, nat>, row: seq<nat>, next: seq<nat>)
    requires Sorted(starts, serial, row) && Sorted(starts, serial, next) && Below(row, next)
    ensures Subsequence(row, next)
    decreases |next|
  {
    if row != [] {
      assert row[0] in Ids(row);
      SortedTail(starts, serial, next);
      SortedTail(starts, serial, row);
      if row[0] == next[0] {
        SortedBelow(starts, serial, row[1..], next[1..]);
      } else {
        forall i | 0 <= i < |row|
          ensures row[i] != next[0]
        {
          assert i == 0 || Ordered(starts, serial, row, 0, i);
          assert Ordered(starts, serial, next, 0, IndexOf(next, row[0]));
        }
        SortedBelow(starts, serial, row, next[1..]);
      }
    }
  }

  /** How many rows the timer with start number n goes into. */
  function Height(n: nat, mask: nat, levels: nat): (h: nat)
    requires levels > 0
    ensures 1 <= h <= levels
    decreases levels
  {
    if levels == 1 || n % (mask + 1) != 0 then 1 else 1 + Height(n / (mask + 1), mask, levels - 1)
  }

  function Pow(b: nat, e: nat): nat {
    if e == 0 then 1 else b * Pow(b, e - 1)
  }

  /** Every (mask+1)^j-th start reaches j rows above the last: row sizes thin out geometrically. */
  lemma {:induction false} HeightIs(n: nat, mask: nat, levels: nat, j: nat)
    requires j < levels
    ensures Pow(mask + 1, j) > 0
    ensures Height(n, mask, levels) > j <==> n % Pow(mask + 1, j) == 0
    decreases j
  {
    if j > 0 {
      var b := mask + 1;
      HeightIs(n / b, mask, levels - 1, j - 1);
      var q := Pow(b, j - 1);
      assert b * q > 0;
      DividesInTwo(n, b, q);
    }
  }

  lemma DividesInTwo(n: nat, b: nat, q: nat)
    requires b > 0 && q > 0 && b * q > 0
    ensures n % (b * q) == 0 <==> n % b == 0 && (n / b) % q == 0
  {
    if n % (b * q) == 0 {
      var k := n / (b * q);
      assert n == (b * q) * k == b * (q * k) by {
        assert n == (b * q) * k + n % (b * q);
      }
      Divided(n, b, q * k, 0);
      Divided(n / b, q, k, 0);
    }
    if n % b == 0 && (n / b) % q == 0 {
      var k := (n / b) / q;
      assert n / b == q * k;
      assert n == b * (n / b) == b * (q * k) == (b * q) * k;
      Divided(n, b * q, k, 0);
    }
  }
}
