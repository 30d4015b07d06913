/** The history of the timer list: every start so far, what became of it, and how that is
    tied to the timers that are pending now.  Each lemma is one step of timer.c. */
module TimerBook {
  import opened Lists
  import opened TimerRows

  datatype Timer = Timer(initTick: nat, periodic: bool, active: bool, timeout: nat)

  /** What became of an arming. */
  datatype Fate = Pending | Cancelled | Fired(tick: nat)

  /** Absolute time, every start so far with its fate, the fired ones in order, and the latest
      start of each timer.  `slack` bounds by how many ticks a start may be late. */
  datatype Book = Book(slack: nat, now: nat, starts: seq<Arming>, fate: seq<Fate>, fired: seq<nat>,
      serial: map<nat, nat>)

  /** A pending timer's deadline is less than half the tick range ahead and has not been missed.
      Only while a check runs can it be due. */
  ghost predicate Timely(now: nat, slack: nat, a: Arming, checking: bool) {
    && a.at <= a.linked <= now && a.Deadline() + slack < now + HALF && a.linked <= a.Deadline() + slack
    && (if checking then now <= a.DueAt() && (a.Deadline() <= a.linked ==> a.linked < now) else now < a.DueAt())
  }

  ghost predicate Waits(b: Book, timers: map<nat, Timer>, x: nat, checking: bool) {
    && Armed(b.starts, b.serial, x) && x in timers
    && timers[x].timeout == b.starts[b.serial[x]].Deadline() % TICKS
    && Timely(b.now, b.slack, b.starts[b.serial[x]], checking)
  }

  /** Arming s is the one its timer waits on. */
  ghost predicate PendingIn(b: Book, bottom: seq<nat>, s: nat)
    requires s < |b.starts|
  {
    b.starts[s].id in Ids(bottom) && b.starts[s].id in b.serial && b.serial[b.starts[s].id] == s
  }

  /** Every start is pending in the last row, cancelled, or has fired when it was due. */
  ghost predicate Booked(b: Book, bottom: seq<nat>, s: nat)
    requires s < |b.starts| == |b.fate|
  {
    && b.starts[s].at <= b.now
    && (b.fate[s].Pending? <==> PendingIn(b, bottom, s))
    && (b.fate[s].Fired? <==> s in b.fired)
    && (b.fate[s].Fired? ==> b.fate[s].tick == b.starts[s].DueAt() <= b.now)
  }

  /** Start t was punctual, and start s comes before it. */
  ghost predicate Leads(starts: seq<Arming>, s: nat, t: nat) {
    s != t && (t < |starts| && starts[t].Punctual() ==> Earlier(starts, s, t))
  }

  /** No start fired twice, and what was linked before its deadline fired after everything with an
      earlier deadline, or the same and started earlier. */
  ghost predicate FiredOk(b: Book, bottom: seq<nat>) {
    && (forall i :: 0 <= i < |b.fired| ==> b.fired[i] < |b.starts|)
    && (forall i, j :: 0 <= i < j < |b.fired| ==> Leads(b.starts, b.fired[i], b.fired[j]))
    && (forall i, x :: 0 <= i < |b.fired| && x in Ids(bottom) && x in b.serial ==>
        Leads(b.starts, b.fired[i], b.serial[x]))
  }

  ghost predicate BookOk(b: Book, bottom: seq<nat>, timers: map<nat, Timer>, checking: bool) {
    && Sorted(b.starts, b.serial, bottom)
    && |b.fate| == |b.starts| && b.slack + 1 < HALF
    && (forall x :: x in Ids(bottom) ==> Waits(b, timers, x, checking))
    && (forall s :: 0 <= s < |b.starts| ==> Booked(b, bottom, s))
    && FiredOk(b, bottom)
  }

  function Removal(b: Book, pending: set<nat>, x: nat): Book {
    if x in pending && x in b.serial && b.serial[x] < |b.fate| then b.(fate := b.fate[b.serial[x] := Cancelled]) else b
  }

  /** Taking a timer out cancels its arming and nobody else's. */
  lemma RemovalOk(b: Book, bottom: seq<nat>, timers: map<nat, Timer>, x: nat, checking: bool)
    requires BookOk(b, bottom, timers, checking)
    ensures BookOk(Removal(b, Ids(bottom), x), Unlinked(bottom, x), timers, checking)
  {
    UnlinkedIds(b.starts, b.serial, bottom, x);
    UnlinkedSorted(b.starts, b.serial, bottom, x);
    var c, row := Removal(b, Ids(bottom), x), Unlinked(bottom, x);
    forall y | y in Ids(row)
      ensures Waits(c, timers, y, checking)
    {
      assert Waits(b, timers, y, checking);
    }
    forall s | 0 <= s < |c.starts|
      ensures Booked(c, row, s)
    {
      assert Booked(b, bottom, s);
      if x in Ids(bottom) && s == b.serial[x] {
        assert Waits(b, timers, x, checking);
        assert PendingIn(b, bottom, s);
      }
    }
  }

  /** The timer at the head of the last row fires. */
  function Firing(b: Book, x: nat): Book
    requires x in b.serial && b.serial[x] < |b.fate|
  {
    b.(fate := b.fate[b.serial[x] := Fired(b.now)], fired := b.fired + [b.serial[x]])
  }

  lemma FiringOk(b: Book, bottom: seq<nat>, timers: map<nat, Timer>)
    requires BookOk(b, bottom, timers, true) && bottom != []
    requires DeadlineOf(b.starts, b.serial, bottom[0]) <= b.now
    ensures Armed(b.starts, b.serial, bottom[0]) && BookOk(Firing(b, bottom[0]), bottom[1..], timers, true)
  {
    var x, row := bottom[0], bottom[1..];
    var c := Firing(b, x);
    assert Waits(b, timers, x, true);
    SortedTail(b.starts, b.serial, bottom);
    forall y | y in Ids(row)
      ensures Waits(c, timers, y, true) && Leads(c.starts, b.serial[x], b.serial[y])
    {
      assert Ordered(b.starts, b.serial, bottom, 0, IndexOf(row, y) + 1);
      assert Waits(b, timers, y, true);
    }
    forall s | 0 <= s < |c.starts|
      ensures Booked(c, row, s)
    {
      assert Booked(b, bottom, s);
      assert s in c.fired <==> s in b.fired || s == b.serial[x];
      assert b.starts[s].id in Ids(bottom) <==> b.starts[s].id in Ids(row) || b.starts[s].id == x;
    }
  }

  /** Timer x was started at tick `at`, and is linked now. */
  function Begun(b: Book, x: nat, at: nat, length: nat): Book {
    var a := Arming(x, at, length, b.now);
    b.(starts := b.starts + [a], fate := b.fate + [Pending], serial := b.serial[x := |b.starts|])
  }

  /** The timer is linked late by no more than the slack.  During a check it is not late at all. */
  ghost predicate InTime(b: Book, at: nat, length: nat, checking: bool) {
    && length + b.slack < HALF && at <= b.now <= at + length + b.slack
    && (checking ==> b.now < at + length)
  }

  /** A start puts the timer behind every timer that is due no later. */
  lemma BegunOk(b: Book, bottom: seq<nat>, timers: map<nat, Timer>, x: nat, t: Timer, at: nat, p: nat, checking: bool)
    requires BookOk(b, bottom, timers, checking) && x !in Ids(bottom)
    requires InTime(b, at, t.initTick, checking) && t.timeout == (at + t.initTick) % TICKS
    requires IsPlace(b.starts, b.serial, bottom, p, at + t.initTick)
    ensures BookOk(Begun(b, x, at, t.initTick), Inserted(bottom, p, x), timers[x := t], checking)
  {
    var a := Arming(x, at, t.initTick, b.now);
    var c, row := Begun(b, x, at, t.initTick), Inserted(bottom, p, x);
    InsertedSorted(b.starts, b.serial, bottom, p, a);
    InsertedIds(bottom, p, x);
    forall y | y in Ids(row)
      ensures Waits(c, timers[x := t], y, checking)
    {
      assert y != x ==> Waits(b, timers, y, checking);
    }
    forall s | 0 <= s < |c.starts|
      ensures Booked(c, row, s)
    {
      if s < |b.starts| {
        assert Booked(b, bottom, s);
      } else {
        assert s !in b.fired;
      }
    }
    forall i, y | 0 <= i < |c.fired| && y in Ids(row) && y in c.serial
      ensures Leads(c.starts, c.fired[i], c.serial[y])
    {
      assert Booked(b, bottom, b.fired[i]);
    }
  }

  /** Another tick: what is due now was not before. */
  lemma TickOk(b: Book, bottom: seq<nat>, timers: map<nat, Timer>)
    requires BookOk(b, bottom, timers, false)
    ensures BookOk(b.(now := b.now + 1), bottom, timers, true)
  {
    var c := b.(now := b.now + 1);
    forall x | x in Ids(bottom)
      ensures Waits(c, timers, x, true)
    {
      assert Waits(b, timers, x, false);
    }
    forall s | 0 <= s < |c.starts|
      ensures Booked(c, bottom, s)
    {
      assert Booked(b, bottom, s);
    }
  }

  /** A check ends when the first timer, and so every timer, lies ahead. */
  lemma CheckedOk(b: Book, bottom: seq<nat>, timers: map<nat, Timer>)
    requires BookOk(b, bottom, timers, true)
    requires bottom == [] || DeadlineOf(b.starts, b.serial, bottom[0]) > b.now
    ensures BookOk(b, bottom, timers, false)
  {
    forall x | x in Ids(bottom)
      ensures Waits(b, timers, x, false)
    {
      var k :| 0 <= k < |bottom| && bottom[k] == x;
      assert Waits(b, timers, x, true);
      assert k == 0 || Ordered(b.starts, b.serial, bottom, 0, k);
    }
  }

  /** Only the timeout words matter to the history. */
  lemma FlagsOnly(b: Book, bottom: seq<nat>, timers: map<nat, Timer>, x: nat, t: Timer, checking: bool)
    requires BookOk(b, bottom, timers, checking) && (x in timers ==> t.timeout == timers[x].timeout)
    ensures BookOk(b, bottom, timers[x := t], checking)
  {
    forall y | y in Ids(bottom)
      ensures Waits(b, timers[x := t], y, checking)
    {
      assert Waits(b, timers, y, checking);
    }
  }

  /** Between checks, a start that was not cancelled has fired exactly if its tick has come,
      and it fired at that tick. */
  lemma OnTime(b: Book, bottom: seq<nat>, timers: map<nat, Timer>, s: nat)
    requires BookOk(b, bottom, timers, false) && s < |b.starts| && !b.fate[s].Cancelled?
    ensures b.fate[s] == if b.starts[s].DueAt() <= b.now then Fired(b.starts[s].DueAt()) else Pending
  {
    assert Booked(b, bottom, s);
    if b.fate[s].Pending? {
      assert Waits(b, timers, b.starts[s].id, false);
    }
  }

  /** Of two timers due at the same tick the one started first fires first; of any two that were
      linked before their deadlines and fired, the one with the earlier deadline did. */
  lemma InOrder(b: Book, bottom: seq<nat>, timers: map<nat, Timer>, i: nat, j: nat, checking: bool)
    requires BookOk(b, bottom, timers, checking) && i < |b.fired| && j < |b.fired|
    requires b.fired[i] < |b.starts| && b.fired[j] < |b.starts|
    ensures b.starts[b.fired[i]].Punctual() && b.starts[b.fired[j]].Punctual() ==>
      (i < j <==> Earlier(b.starts, b.fired[i], b.fired[j]))
    ensures i == j <==> b.fired[i] == b.fired[j]
  {
    assert i == j || Leads(b.starts, b.fired[i], b.fired[j]) || Leads(b.starts, b.fired[j], b.fired[i]);
  }
}
