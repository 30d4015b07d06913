/** The timer list of timer.c: a skip list of pending timers, served once per tick. */
module TimerList {
  import opened Lists
  import opened TimerRows
  import opened TimerBook

  /** What a timeout function may do to the list. */
  datatype Command = Start(id: nat) | Stop(id: nat)

  /** The last row holds every pending timer, and each row a part of the next. */
  ghost predicate RowsOk(starts: seq<Arming>, serial: map<nat, nat>, rows: seq<seq<nat>>) {
    && |rows| > 0
    && (forall l :: 0 <= l < |rows| ==> Sorted(starts, serial, rows[l]))
    && (forall l, n :: 0 <= l < |rows| && n == l + 1 && n < |rows| ==> Below(rows[l], rows[n]))
  }

  function Last(rows: seq<seq<nat>>): seq<nat>
    requires |rows| > 0
  {
    rows[|rows| - 1]
  }

  ghost predicate RowUnlinked(was: seq<seq<nat>>, rows: seq<seq<nat>>, x: nat, l: nat)
    requires l < |was| == |rows|
  {
    rows[l] == Unlinked(was[l], x)
  }

  /** Timer x has left every row. */
  ghost predicate AllUnlinked(was: seq<seq<nat>>, rows: seq<seq<nat>>, x: nat) {
    |rows| == |was| && forall l {:trigger RowUnlinked(was, rows, x, l)} :: 0 <= l < |was| ==>
      RowUnlinked(was, rows, x, l)
  }

  lemma UnlinkedRows(starts: seq<Arming>, serial: map<nat, nat>, was: seq<seq<nat>>, rows: seq<seq<nat>>, x: nat)
    requires RowsOk(starts, serial, was) && AllUnlinked(was, rows, x)
    ensures RowsOk(starts, serial, rows)
    ensures forall l :: 0 <= l < |rows| ==> x !in Ids(rows[l])
    ensures Last(rows) == Unlinked(Last(was), x) && Ids(Last(rows)) == Ids(Last(was)) - {x}
  {
    assert RowUnlinked(was, rows, x, |rows| - 1);
    forall l | 0 <= l < |rows|
      ensures Sorted(starts, serial, rows[l])
      ensures Ids(rows[l]) == Ids(was[l]) - {x}
    {
      assert RowUnlinked(was, rows, x, l);
      UnlinkedIds(starts, serial, was[l], x);
      UnlinkedSorted(starts, serial, was[l], x);
    }
  }

  ghost predicate RowInserted(was: seq<seq<nat>>, rows: seq<seq<nat>>, places: seq<nat>, height: nat, x: nat, l: nat)
    requires l < |was| == |rows| == |places| && places[l] <= |was[l]|
  {
    rows[l] == if l + height >= |rows| then Inserted(was[l], places[l], x) else was[l]
  }

  /** Timer x has gone to its place in the last `height` rows. */
  ghost predicate AllInserted(was: seq<seq<nat>>, rows: seq<seq<nat>>, places: seq<nat>, height: nat, x: nat) {
    && |rows| == |was| == |places| && (forall l :: 0 <= l < |was| ==> places[l] <= |was[l]|)
    && (forall l {:trigger RowInserted(was, rows, places, height, x, l)} :: 0 <= l < |was| ==>
        RowInserted(was, rows, places, height, x, l))
  }

  /** Each place is right behind the timers of its row that are due no later than `deadline`. */
  ghost predicate Places(starts: seq<Arming>, serial: map<nat, nat>, rows: seq<seq<nat>>, places: seq<nat>,
                         deadline: nat) {
    && |places| == |rows|
    && (forall l {:trigger PlaceAt(starts, serial, rows, places, deadline, l)} :: 0 <= l < |rows| ==>
        PlaceAt(starts, serial, rows, places, deadline, l))
  }

  ghost predicate PlaceAt(starts: seq<Arming>, serial: map<nat, nat>, rows: seq<seq<nat>>, places: seq<nat>,
                          deadline: nat, l: nat)
    requires l < |rows| == |places|
  {
    IsPlace(starts, serial, rows[l], places[l], deadline)
  }

  lemma InsertedRow(starts: seq<Arming>, serial: map<nat, nat>, row: seq<nat>, p: nat, a: Arming, here: bool)
    requires Sorted(starts, serial, row) && IsPlace(starts, serial, row, p, a.Deadline()) && a.id !in Ids(row)
    ensures Sorted(starts + [a], serial[a.id := |starts|], if here then Inserted(row, p, a.id) else row)
    ensures here ==> Ids(Inserted(row, p, a.id)) == Ids(row) + {a.id}
  {
    InsertedSorted(starts, serial, row, p, a);
    InsertedIds(row, p, a.id);
    StillSorted(starts, serial, row, a);
  }

  lemma InsertedRows(b: Book, was: seq<seq<nat>>, rows: seq<seq<nat>>, places: seq<nat>, height: nat, x: nat, at: nat,
                     length: nat)
    requires RowsOk(b.starts, b.serial, was) && Places(b.starts, b.serial, was, places, at + length) && height > 0
    requires AllInserted(was, rows, places, height, x)
    requires forall l :: 0 <= l < |was| ==> x !in Ids(was[l])
    ensures RowsOk(Begun(b, x, at, length).starts, Begun(b, x, at, length).serial, rows)
  {
    var a := Arming(x, at, length, b.now);
    forall l | 0 <= l < |rows|
      ensures Sorted(b.starts + [a], b.serial[x := |b.starts|], rows[l])
      ensures Ids(rows[l]) == Ids(was[l]) + (if l + height >= |rows| then {x} else {})
    {
      assert RowInserted(was, rows, places, height, x, l) && PlaceAt(b.starts, b.serial, was, places, a.Deadline(), l);
      InsertedRow(b.starts, b.serial, was[l], places[l], a, l + height >= |rows|);
    }
  }

  lemma StartedOk(b: Book, was: seq<seq<nat>>, rows: seq<seq<nat>>, timers: map<nat, Timer>, places: seq<nat>,
                  height: nat, x: nat, t: Timer, at: nat, checking: bool)
    requires RowsOk(b.starts, b.serial, was) && BookOk(b, Last(was), timers, checking)
    requires Places(b.starts, b.serial, was, places, at + t.initTick) && height > 0
    requires AllInserted(was, rows, places, height, x)
    requires forall l :: 0 <= l < |was| ==> x !in Ids(was[l])
    requires InTime(b, at, t.initTick, checking) && t.timeout == (at + t.initTick) % TICKS
    ensures RowsOk(Begun(b, x, at, t.initTick).starts, Begun(b, x, at, t.initTick).serial, rows)
    ensures BookOk(Begun(b, x, at, t.initTick), Last(rows), timers[x := t], checking)
    ensures Ids(Last(rows)) == Ids(Last(was)) + {x}
  {
    InsertedRows(b, was, rows, places, height, x, at, t.initTick);
    LastInserted(b, was, rows, places, height, x, at + t.initTick);
    var l := |rows| - 1;
    BegunOk(b, Last(was), timers, x, t, at, places[l], checking);
    InsertedIds(Last(was), places[l], x);
  }

  lemma LastInserted(b: Book, was: seq<seq<nat>>, rows: seq<seq<nat>>, places: seq<nat>, height: nat, x: nat,
                     deadline: nat)
    requires |was| > 0 && height > 0 && AllInserted(was, rows, places, height, x)
    requires Places(b.starts, b.serial, was, places, deadline)
    ensures IsPlace(b.starts, b.serial, Last(was), places[|rows| - 1], deadline)
    ensures Last(rows) == Inserted(Last(was), places[|rows| - 1], x)
  {
    var l := |rows| - 1;
    assert RowInserted(was, rows, places, height, x, l) && PlaceAt(b.starts, b.serial, was, places, deadline, l);
  }

  /** One row more, the next one up. */
  lemma OneRowMore(was: seq<seq<nat>>, rows: seq<seq<nat>>, next: seq<seq<nat>>, places: seq<nat>, height: nat,
                   taller: nat, x: nat, l: nat)
    requires AllInserted(was, rows, places, height, x) && l + taller == |rows| && taller == height + 1
    requires next == rows[l := Inserted(was[l], places[l], x)]
    ensures rows[l] == was[l] && AllInserted(was, next, places, taller, x)
  {
    assert RowInserted(was, rows, places, height, x, l);
    forall k | 0 <= k < |was|
      ensures RowInserted(was, next, places, taller, x, k)
    {
      assert RowInserted(was, rows, places, height, x, k);
    }
  }

  class Timers {
    const mask: nat
    var tick: nat
    var rows: seq<seq<nat>>
    var timers: map<nat, Timer>
    var randomNr: nat
    ghost var book: Book

    ghost predicate Valid(checking: bool)
      reads this
    {
      |rows| > 0 && forall part {:trigger Part(part)} :: Part(part) ==> Holds(part, checking)
    }

    /** The two parts of Valid; a proof that needs their inside names them. */
    ghost predicate Part(part: bool) {
      true
    }

    ghost predicate Holds(part: bool, checking: bool)
      requires |rows| > 0
      reads this
    {
      if part then RowsOk(book.starts, book.serial, rows) && tick == book.now % TICKS && mask in {1, 3}
      else BookOk(book, Last(rows), timers, checking)
    }

    constructor (levels: nat, mask: nat, ghost slack: nat)
      requires levels > 0 && mask in {1, 3} && slack + 1 < HALF
      ensures Valid(false) && FlagsOk(Now())
      ensures |rows| == levels && this.mask == mask && timers == map[]
      ensures book == Book(slack, 0, [], [], [], map[])
    {
      this.mask := mask;
      tick, rows, timers, randomNr := 0, seq(levels, i => []), map[], 0;
      book := Book(slack, 0, [], [], [], map[]);
    }

    /** rt_timer_init. */
    method Init(id: nat, time: nat, periodic: bool)
      requires Valid(false) && id !in timers
      modifies this`timers
      ensures Valid(false) && timers == old(timers)[id := Timer(time, periodic, false, 0)]
      ensures old(FlagsOk(Now())) ==> FlagsOk(Now())
    {
      assert Part(true) && Part(false);
      FlagsOnly(book, Last(rows), timers, id, Timer(time, periodic, false, 0), false);
      assert id in Ids(Last(rows)) ==> Waits(book, timers, id, false);
      timers := timers[id := Timer(time, periodic, false, 0)];
    }

    method UnlinkAll(id: nat)
      modifies this`rows
      ensures AllUnlinked(old(rows), rows, id)
    {
      var l := 0;
      while l < |rows|
        invariant l <= |rows| == |old(rows)|
        invariant forall k :: 0 <= k < |rows| ==> rows[k] == if k < l then Unlinked(old(rows)[k], id) else old(rows)[k]
      {
        rows := rows[l := Unlinked(rows[l], id)];
        l := l + 1;
      }
    }

    /** _rt_timer_remove. */
    method Remove(id: nat, ghost checking: bool)
      requires Valid(checking)
      modifies this`rows, this`book
      ensures Valid(checking)
      ensures AllUnlinked(old(rows), rows, id) && book == Removal(old(book), Ids(Last(old(rows))), id)
      ensures forall l :: 0 <= l < |rows| ==> id !in Ids(rows[l])
      ensures Ids(Last(rows)) == Ids(Last(old(rows))) - {id}
    {
      assert Part(true) && Part(false);
      RemovalOk(book, Last(rows), timers, id, checking);
      UnlinkAll(id);
      UnlinkedRows(book.starts, book.serial, old(rows), rows, id);
      book := Removal(book, Ids(Last(old(rows))), id);
    }

    /** One row of the search of rt_timer_start: from the node stepped down on, past every timer
        that is not later. */
    method SearchRow(l: nat, from: nat, timeout: nat, ghost deadline: nat, ghost checking: bool) returns (p: nat)
      requires Valid(checking) && l < |rows| && Reached(rows[l], from, deadline)
      requires timeout == deadline % TICKS && book.now <= deadline + book.slack < book.now + HALF
      ensures IsPlace(book.starts, book.serial, rows[l], p, deadline)
    {
      assert Part(true) && Part(false);
      p := from;
      while p < |rows[l]|
        invariant Reached(rows[l], p, deadline)
      {
        ghost var x := rows[l][p];
        InLast(l, p);
        assert Waits(book, timers, x, checking);
        SinceIs(DeadlineOf(book.starts, book.serial, x), deadline);
        if Since(timers[rows[l][p]].timeout, timeout) == 0 {
          p := p + 1;
        } else if Since(timers[rows[l][p]].timeout, timeout) < HALF {
          Around(book.starts, book.serial, rows[l], p);
          return;
        } else {
          p := p + 1;
        }
      }
    }

    ghost predicate Reached(row: seq<nat>, from: nat, deadline: nat)
      reads this
    {
      from <= |row| && forall i :: 0 <= i < from ==>
        Armed(book.starts, book.serial, row[i]) && DeadlineOf(book.starts, book.serial, row[i]) <= deadline
    }

    /** Everything in a row is in the last row. */
    lemma InLast(l: nat, p: nat)
      requires RowsOk(book.starts, book.serial, rows) && l < |rows| && p < |rows[l]|
      ensures rows[l][p] in Ids(Last(rows))
      decreases |rows| - l
    {
      assert rows[l][p] in Ids(rows[l]);
      if l < |rows| - 1 {
        assert Below(rows[l], rows[l + 1]);
        InLast(l + 1, IndexOf(rows[l + 1], rows[l][p]));
      }
    }

    /** The search of rt_timer_start, row by row; the step down keeps the same timer. */
    method Search(timeout: nat, ghost deadline: nat, ghost checking: bool) returns (places: seq<nat>)
      requires Valid(checking)
      requires timeout == deadline % TICKS && book.now <= deadline + book.slack < book.now + HALF
      ensures Places(book.starts, book.serial, rows, places, deadline)
    {
      assert Part(true) && Part(false);
      places := [];
      var from: nat := 0;
      while |places| < |rows|
        invariant |places| <= |rows|
        invariant forall l :: 0 <= l < |places| ==> IsPlace(book.starts, book.serial, rows[l], places[l], deadline)
        invariant |places| < |rows| ==> Reached(rows[|places|], from, deadline)
      {
        var l := |places|;
        var p := SearchRow(l, from, timeout, deadline, checking);
        places := places + [p];
        if l < |rows| - 1 {
          if p == 0 {
            from := 0;
          } else {
            assert rows[l][p - 1] in Ids(rows[l]) && Below(rows[l], rows[l + 1]);
            from := IndexOf(rows[l + 1], rows[l][p - 1]) + 1;
            Around(book.starts, book.serial, rows[l + 1], from - 1);
          }
        }
      }
    }

    /** The timer goes into the last row, and on upwards while the start number has zero digits. */
    method Insert(id: nat, places: seq<nat>)
      requires |places| == |rows| > 0 && forall l :: 0 <= l < |rows| ==> places[l] <= |rows[l]|
      modifies this`rows, this`randomNr
      ensures randomNr == (old(randomNr) + 1) % TICKS
      ensures |rows| == |old(rows)| && AllInserted(old(rows), rows, places, Height(randomNr, mask, |rows|), id)
    {
      randomNr := (randomNr + 1) % TICKS;
      var n: nat := |rows|;
      var tst: nat, lvl: nat := randomNr, 2;
      ghost var was := rows;
      assert AllInserted(was, rows, places, 0, id);
      OneRowMore(was, rows, rows[n - 1 := Inserted(was[n - 1], places[n - 1], id)], places, 0, 1, id, n - 1);
      rows := rows[n - 1 := Inserted(rows[n - 1], places[n - 1], id)];
      while lvl <= n && tst % (mask + 1) == 0
        invariant 2 <= lvl <= n + 1 && |rows| == n == |places| && randomNr == (old(randomNr) + 1) % TICKS
        invariant Height(randomNr, mask, n) == lvl - 2 + Height(tst, mask, n + 2 - lvl)
        invariant AllInserted(was, rows, places, lvl - 1, id)
      {
        OneRowMore(was, rows, rows[n - lvl := Inserted(was[n - lvl], places[n - lvl], id)], places, lvl - 1, lvl, id,
          n - lvl);
        rows := rows[n - lvl := Inserted(rows[n - lvl], places[n - lvl], id)];
        tst := tst / (mask + 1);
        lvl := lvl + 1;
      }
    }

    lemma TickIs(length: nat, checking: bool)
      requires Valid(checking)
      ensures (tick + length) % TICKS == (book.now + length) % TICKS
    {
      assert Part(true);
      SameModulo(book.now % TICKS + length, book.now / TICKS);
    }

    /** The second half of rt_timer_start: an unlinked timer is put in its place.  Its timeout was
        read off the tick at time `at`. */
    method Link(id: nat, timeout: nat, ghost at: nat, ghost checking: bool) returns (places: seq<nat>)
      requires Valid(checking) && id in timers && InTime(book, at, timers[id].initTick, checking)
      requires timeout == (at + timers[id].initTick) % TICKS
      requires forall l :: 0 <= l < |rows| ==> id !in Ids(rows[l])
      modifies this`rows, this`timers, this`randomNr, this`book
      ensures Valid(checking)
      ensures timers == old(timers)[id := old(timers)[id].(active := true, timeout := timeout)]
      ensures book == Begun(old(book), id, at, old(timers)[id].initTick)
      ensures Places(old(book.starts), old(book.serial), old(rows), places, at + old(timers)[id].initTick)
      ensures randomNr == (old(randomNr) + 1) % TICKS
      ensures AllInserted(old(rows), rows, places, Height(randomNr, mask, |rows|), id)
      ensures Ids(Last(rows)) == Ids(Last(old(rows))) + {id}
    {
      ghost var deadline := at + timers[id].initTick;
      places := Search(timeout, deadline, checking);
      var t := timers[id].(active := true, timeout := timeout);
      assert Part(true) && Part(false);
      forall l | 0 <= l < |rows|
        ensures places[l] <= |rows[l]|
      {
        assert PlaceAt(book.starts, book.serial, rows, places, deadline, l);
      }
      Insert(id, places);
      StartedOk(book, old(rows), rows, timers, places, Height(randomNr, mask, |rows|), id, t, at, checking);
      timers := timers[id := t];
      book := Begun(book, id, at, t.initTick);
    }

    /** rt_timer_start: the timer waits anew.  It stands in the last rows and only there, in each
        of them after exactly the timers that are due no later; the others keep their order. */
    method Start(id: nat, ghost checking: bool) returns (places: seq<nat>, ghost was: seq<seq<nat>>)
      requires Valid(checking) && id in timers
      requires timers[id].initTick + book.slack < HALF && (checking ==> timers[id].initTick > 0)
      modifies this`rows, this`timers, this`randomNr, this`book
      ensures Valid(checking)
      ensures timers ==
        old(timers)[id := old(timers)[id].(active := true, timeout := (old(tick) + old(timers)[id].initTick) % TICKS)]
      ensures book == Begun(Removal(old(book), Ids(Last(old(rows))), id), id, old(book.now), old(timers)[id].initTick)
      ensures AllUnlinked(old(rows), was, id)
      ensures Places(old(book.starts), old(book.serial), was, places, old(book).now + old(timers)[id].initTick)
      ensures randomNr == (old(randomNr) + 1) % TICKS
      ensures AllInserted(was, rows, places, Height(randomNr, mask, |rows|), id)
      ensures Ids(Last(rows)) == Ids(Last(old(rows))) + {id}
    {
      StartBegin(id, checking);
      was := rows;
      TickIs(timers[id].initTick, checking);
      assert book.starts == old(book.starts) && book.serial == old(book.serial) && book.now == old(book.now);
      places := Link(id, (tick + timers[id].initTick) % TICKS, book.now, checking);
    }

    /** The first half of rt_timer_start. */
    method StartBegin(id: nat, ghost checking: bool)
      requires Valid(checking) && id in timers
      modifies this`rows, this`timers, this`book
      ensures Valid(checking) && timers == old(timers)[id := old(timers)[id].(active := false)]
      ensures AllUnlinked(old(rows), rows, id) && book == Removal(old(book), Ids(Last(old(rows))), id)
      ensures forall l :: 0 <= l < |rows| ==> id !in Ids(rows[l])
      ensures Ids(Last(rows)) == Ids(Last(old(rows))) - {id}
    {
      Remove(id, checking);
      assert Part(true) && Part(false);
      FlagsOnly(book, Last(rows), timers, id, timers[id].(active := false), checking);
      timers := timers[id := timers[id].(active := false)];
    }

    /** rt_timer_stop: a timer that is not activated is left alone. */
    method Stop(id: nat, ghost checking: bool) returns (ok: bool)
      requires Valid(checking) && id in timers
      modifies this`rows, this`timers, this`book
      ensures Valid(checking)
      ensures ok == old(timers)[id].active
      ensures !ok ==> rows == old(rows) && timers == old(timers) && book == old(book)
      ensures ok ==> timers == old(timers)[id := old(timers)[id].(active := false)]
      ensures ok ==> AllUnlinked(old(rows), rows, id) && book == Removal(old(book), Ids(Last(old(rows))), id)
      ensures ok ==> Ids(Last(rows)) == Ids(Last(old(rows))) - {id}
    {
      ok := timers[id].active;
      if ok {
        Remove(id, checking);
        assert Part(true) && Part(false);
        FlagsOnly(book, Last(rows), timers, id, timers[id].(active := false), checking);
        timers := timers[id := timers[id].(active := false)];
      }
    }

    /** One timeout: the first timer leaves the list, due now. */
    method Fire(id: nat)
      requires Valid(true) && Last(rows) != [] && id == Last(rows)[0]
      requires Armed(book.starts, book.serial, id) && DeadlineOf(book.starts, book.serial, id) <= book.now
      modifies this`rows, this`book
      ensures Valid(true) && AllUnlinked(old(rows), rows, id)
      ensures id in old(book.serial) && old(book.serial[id] < |book.fate|) && book == Firing(old(book), id)
      ensures Ids(Last(rows)) == Ids(Last(old(rows))) - {id}
    {
      assert Part(true) && Part(false);
      FiringOk(book, Last(rows), timers);
      UnlinkAll(id);
      UnlinkedRows(book.starts, book.serial, old(rows), rows, id);
      assert Unlinked(Last(old(rows)), id) == Last(old(rows))[1..];
      book := Firing(book, id);
    }

    lemma PendingArmed(id: nat, checking: bool)
      requires Valid(checking)
      ensures id in Ids(Last(rows)) ==> Armed(book.starts, book.serial, id)
      ensures |book.fate| == |book.starts|
    {
      assert Part(false);
    }

    ghost function Now(): View
      requires |rows| > 0
      reads this
    {
      View(book, Ids(Last(rows)), timers)
    }

    /** A timeout function at work. */
    method Perform(commands: seq<Command>, ghost t: nat)
      requires Valid(true) && forall c :: c in commands ==> Allowed(timers, c, book.slack)
      modifies this`rows, this`timers, this`randomNr, this`book
      ensures Valid(true) && Progress(old(Now()), Now(), Touched(commands)) && book.fired == old(book.fired)
      ensures old(FlagsBut(Now(), t)) ==> FlagsBut(Now(), t)
      ensures Command.Start(t) !in commands && t !in Ids(Last(old(rows))) ==> t !in Ids(Last(rows))
      ensures AllDone(Now(), commands, old(FlagsBut(Now(), t)))
    {
      var i := 0;
      while i < |commands|
        invariant i <= |commands| && Valid(true) && Progress(old(Now()), Now(), Touched(commands))
        invariant book.fired == old(book.fired)
        invariant old(FlagsBut(Now(), t)) ==> FlagsBut(Now(), t)
        invariant Command.Start(t) !in commands && t !in Ids(Last(old(rows))) ==> t !in Ids(Last(rows))
        invariant AllDone(Now(), commands[..i], old(FlagsBut(Now(), t)))
      {
        var c := commands[i];
        assert c in commands && Allowed(old(timers), c, book.slack);
        ghost var before := Now();
        Obey(c, t);
        ProgressThen(old(Now()), before, Now(), Touched(commands), {c.id});
        DoneThen(before, Now(), commands, i, old(FlagsBut(Now(), t)));
        i := i + 1;
      }
      assert commands[..|commands|] == commands;
    }

    /** One command of a timeout function. */
    method Obey(c: Command, ghost t: nat)
      requires Valid(true) && Allowed(timers, c, book.slack)
      modifies this`rows, this`timers, this`randomNr, this`book
      ensures Valid(true) && Progress(old(Now()), Now(), {c.id}) && book.fired == old(book.fired)
      ensures old(FlagsBut(Now(), t)) ==> FlagsBut(Now(), t)
      ensures c.Start? || old(FlagsBut(Now(), t)) ==> Done(Now(), c)
      ensures c != Command.Start(t) && t !in Ids(Last(old(rows))) ==> t !in Ids(Last(rows))
    {
      ghost var before := Now();
      PendingArmed(c.id, true);
      match c {
        case Start(id) =>
          var _, _ := Start(id, true);
          StartProgress(before, Now(), id, timers[id].timeout);
        case Stop(id) =>
          var ok := Stop(id, true);
          if ok {
            StopProgress(before, Now(), id);
          }
      }
    }

    method Deactivate(id: nat)
      requires Valid(true) && id in timers
      modifies this`timers
      ensures Valid(true) && timers == old(timers)[id := old(timers)[id].(active := false)]
    {
      assert Part(true) && Part(false);
      FlagsOnly(book, Last(rows), timers, id, timers[id].(active := false), true);
      timers := timers[id := timers[id].(active := false)];
    }

    /** One round of rt_timer_check: the first timer fires, its function runs, and a periodic
        timer that is still activated is started again. */
    method Handle(id: nat, commands: seq<Command>)
      requires Valid(true) && Last(rows) != [] && id == Last(rows)[0] && id in Due(Now())
      requires id in timers && timers[id].initTick + book.slack < HALF
      requires timers[id].periodic ==> timers[id].initTick > 0
      requires forall c :: c in commands ==> Allowed(timers, c, book.slack)
      modifies this`rows, this`timers, this`randomNr, this`book
      ensures Valid(true) && Progress(old(Now()), Now(), Touched(commands) + {id})
      ensures Due(Now()) <= old(Due(Now())) - {id}
      ensures FiredBy(old(book), book, [id])
      ensures AllObeyedBy(Now(), commands, id, old(FlagsOk(Now())))
      ensures id !in Touched(commands) ==> Served(old(Now()), Now(), id)
      ensures old(FlagsOk(Now())) && (old(timers)[id].periodic || Command.Start(id) !in commands) ==> FlagsOk(Now())
    {
      Fire(id);
      ghost var fired := Now();
      FireProgress(old(Now()), fired, id);
      Perform(commands, id);
      ghost var performed := Now();
      assert id !in Touched(commands) ==> Same(fired, performed, id);
      Finish(id);
      FiredOnce(old(Now()), performed, Now(), id);
      HandledOk(old(Now()), fired, performed, Now(), id, Touched(commands), Command.Start(id) in commands);
      HandledObeyed(performed, Now(), id, commands, old(FlagsOk(Now())));
    }

    /** What rt_timer_check does with a timer after its function. */
    method Finish(id: nat)
      requires Valid(true) && id in timers && timers[id].initTick + book.slack < HALF
      requires timers[id].periodic ==> timers[id].initTick > 0
      modifies this`rows, this`timers, this`randomNr, this`book
      ensures Valid(true) && book.fired == old(book.fired) && old(book.starts) <= book.starts
      ensures old(timers[id].periodic && timers[id].active) ==>
        && Progress(old(Now()), Now(), {id}) && Ids(Last(rows)) == old(Ids(Last(rows))) + {id}
        && Restarted(old(Now()), Now(), id) && Done(Now(), Command.Start(id))
      ensures !old(timers[id].periodic && timers[id].active) ==>
        Now() == old(Now()).(timers := old(timers)[id := old(timers[id]).(active := false)])
    {
      ghost var performed := Now();
      PendingArmed(id, true);
      if timers[id].periodic && timers[id].active {
        Deactivate(id);
        var _, _ := Start(id, true);
        StartProgress(performed, Now(), id, timers[id].timeout);
      } else {
        Deactivate(id);
      }
    }

    /** rt_timer_check: the loop ends, and `served` are the timers that fired, in order.  A timer that
        none of their functions touched fired if it was due and was left alone otherwise; a timer
        that one of them started or stopped waits, or does not, as the last of them said. */
    method Check(act: (nat, nat) -> seq<Command>) returns (ghost served: seq<nat>)
      requires Valid(true) && Ready(timers, act, book.slack)
      modifies this`rows, this`timers, this`randomNr, this`book
      ensures Valid(false) && Grown(old(Now()), Now()) && Ready(timers, act, book.slack)
      ensures Distinct(served, old(Due(Now()))) && FiredBy(old(book), book, served)
      ensures forall x {:trigger Untouched(act, served, x)} :: Untouched(act, served, x) ==>
        if x in old(Due(Now())) then HasFired(served, x) && Served(old(Now()), Now(), x) else Same(old(Now()), Now(), x)
      ensures AllObeyed(Now(), act, served, old(FlagsOk(Now()) && NoSelfStart(timers, act)))
      ensures forall x {:trigger GivenUp(old(Now()), Now(), served, x)} :: GivenUp(old(Now()), Now(), served, x)
      ensures old(FlagsOk(Now()) && NoSelfStart(timers, act)) ==> FlagsOk(Now())
    {
      ghost var v, flags := Now(), FlagsOk(Now()) && NoSelfStart(timers, act);
      assert Part(false);
      WasPending(v, Last(rows));
      served := [];
      var k := 0;
      while rows[|rows| - 1] != []
        invariant k == |served| && Amid(v, act, served, flags)
        decreases Due(Now())
      {
        var t := rows[|rows| - 1][0];
        FirstWaits();
        if Since(tick, timers[t].timeout) < HALF {
          Round(t, act, k, v, served, flags);
          served := served + [t];
          k := k + 1;
        } else {
          break;
        }
      }
      NothingDue();
      CheckedDone(v, Now(), act, served);
      assert Part(false);
      AllGivenUp(v, Now(), Last(rows), served);
    }

    /** A check that began in v has let the timers `served` fire. */
    ghost predicate Amid(v: View, act: (nat, nat) -> seq<Command>, served: seq<nat>, flags: bool)
      reads this
    {
      && Valid(true) && Grown(v, Now()) && Ready(timers, act, book.slack) && AllChecked(v, Now(), act, served)
      && Distinct(served, Due(v) - Due(Now())) && Due(Now()) <= Due(v) && FiredBy(v.book, book, served)
      && AllObeyed(Now(), act, served, flags) && (flags ==> FlagsOk(Now()) && NoSelfStart(timers, act))
    }

    /** One round of the loop. */
    method Round(t: nat, act: (nat, nat) -> seq<Command>, k: nat, ghost v: View, ghost served: seq<nat>,
                 ghost flags: bool)
      requires k == |served| && Amid(v, act, served, flags)
      requires Last(rows) != [] && t == Last(rows)[0] && t in Due(Now()) && t in timers
      modifies this`rows, this`timers, this`randomNr, this`book
      ensures Amid(v, act, served + [t], flags) && Due(Now()) < old(Due(Now()))
    {
      ghost var before := Now();
      Handle(t, act(t, k));
      ReadyThen(before.timers, timers, act, book.slack);
      RoundThen(v, before, Now(), t, act, served, flags);
    }

    /** What the check reads off the first timer. */
    lemma FirstWaits()
      requires Valid(true) && Last(rows) != []
      ensures Last(rows)[0] in timers && Last(rows)[0] in Ids(Last(rows))
      ensures Since(tick, timers[Last(rows)[0]].timeout) < HALF <==> Last(rows)[0] in Due(Now())
    {
      assert Part(true) && Part(false);
      var x := Last(rows)[0];
      assert x in Ids(Last(rows)) && Waits(book, timers, x, true);
      SinceIs(book.now, DeadlineOf(book.starts, book.serial, x));
    }

    lemma NothingDue()
      requires Valid(true) && (Last(rows) == [] || Last(rows)[0] !in Due(Now()))
      ensures Valid(false) && Due(Now()) == {}
    {
      assert Part(true) && Part(false);
      assert Last(rows) != [] ==> Last(rows)[0] in Ids(Last(rows));
      CheckedOk(book, Last(rows), timers);
      forall x | x in Ids(Last(rows))
        ensures x !in Due(Now())
      {
        assert Waits(book, timers, x, false);
      }
    }

    /** The timer part of rt_tick_increase.  A timer that no timeout function starts or stops is
        left alone unless it is due; then it fires, and if it is periodic it is started again. */
    method TickIncrease(act: (nat, nat) -> seq<Command>) returns (ghost served: seq<nat>)
      requires Valid(false) && Ready(timers, act, book.slack)
      modifies this`tick, this`rows, this`timers, this`randomNr, this`book
      ensures Valid(false) && book.now == old(book.now) + 1 && Grows(old(book), book) && Plans(old(timers), timers)
      ensures Distinct(served, old(Due(NextTick(Now())))) && FiredBy(old(book), book, served)
      ensures forall x {:trigger Onward(old(Now()), Now(), x)} :: Untouched(act, served, x) ==>
        Onward(old(Now()), Now(), x)
      ensures AllObeyed(Now(), act, served, old(FlagsOk(Now()) && NoSelfStart(timers, act)))
      ensures forall x {:trigger GivenUp(old(Now()), Now(), served, x)} :: GivenUp(old(Now()), Now(), served, x)
      ensures old(FlagsOk(Now()) && NoSelfStart(timers, act)) ==> FlagsOk(Now())
    {
      Advance();
      ghost var v := Now();
      served := Check(act);
      assert Part(false);
      forall x | Untouched(act, served, x)
        ensures Onward(old(Now()), Now(), x)
      {
        assert if x in Due(v) then Served(v, Now(), x) else Same(v, Now(), x);
        GoneOn(old(Now()), v, Now(), x);
      }
      forall x
        ensures GivenUp(old(Now()), Now(), served, x)
      {
        assert GivenUp(v, Now(), served, x);
      }
      forall i: nat | i < |served|
        ensures FiredAs(old(book), book, served, i)
      {
        assert FiredAs(v.book, book, served, i);
      }
    }

    /** ++ rt_tick */
    method Advance()
      requires Valid(false)
      modifies this`tick, this`book
      ensures Valid(true) && book == old(book).(now := old(book).now + 1)
    {
      assert Part(true) && Part(false);
      TickOk(book, Last(rows), timers);
      SameModulo(book.now % TICKS + 1, book.now / TICKS);
      tick := (tick + 1) % TICKS;
      book := book.(now := book.now + 1);
    }

    /** A thread starts or stops a timer between two ticks. */
    method Request(c: Command)
      requires Valid(false) && c.id in timers && timers[c.id].initTick + book.slack < HALF
      modifies this`rows, this`timers, this`randomNr, this`book
      ensures Valid(false) && book.now == old(book.now) && Grows(old(book), book) && Plans(old(timers), timers)
      ensures forall x {:trigger Onward(old(Now()), Now(), x)} :: x != c.id ==> Onward(old(Now()), Now(), x)
      ensures c.Start? || old(FlagsOk(Now())) ==> Done(Now(), c)
      ensures old(FlagsOk(Now())) ==> FlagsOk(Now())
    {
      ghost var v := Now();
      PendingArmed(c.id, false);
      RemovalSame(v, c.id);
      match c {
        case Start(id) =>
          var _, _ := Start(id, false);
        case Stop(id) =>
          var _ := Stop(id, false);
      }
      assert Part(false);
      forall x | x != c.id
        ensures Onward(v, Now(), x)
      {
        assert Same(v, Now(), x);
      }
    }

    /** One step of a run. */
    method Happen(step: Step)
      requires Valid(false) && Fine(timers, step, book.slack)
      modifies this`tick, this`rows, this`timers, this`randomNr, this`book
      ensures Valid(false) && Grows(old(book), book) && Plans(old(timers), timers)
      ensures book.now == old(book.now) + if step.Tick? then 1 else 0
      ensures forall x {:trigger Onward(old(Now()), Now(), x)} :: Apart(step, x) ==> Onward(old(Now()), Now(), x)
      ensures forall x {:trigger Kept(old(Now()), Now(), x)} :: Apart(step, x) ==> Kept(old(Now()), Now(), x)
      ensures step.Ask? && (step.command.Start? || old(FlagsOk(Now()))) ==> Done(Now(), step.command)
      ensures old(FlagsOk(Now()) && Orderly(timers, step)) ==> FlagsOk(Now())
    {
      ghost var v, bottom := Now(), Last(rows);
      assert Part(false);
      match step {
        case Tick(act) =>
          ghost var served := TickIncrease(act);
          assert forall x :: Apart(step, x) ==> Untouched(act, served, x);
        case Ask(c) => Request(c);
      }
      assert Part(false);
      forall x | Apart(step, x)
        ensures Kept(v, Now(), x)
      {
        KeptOnward(v, bottom, Now(), Last(rows), x);
      }
    }

    /** A run: ticks with their checks, in which the timeout functions may do something else every
        time, and between them any starts and stops.  Every start there was at the beginning, of a
        timer that nobody starts or stops during the run, fires exactly when it is due, and a
        periodic timer goes on firing at every multiple of its period after that. */
    method Run(steps: seq<Step>)
      requires Valid(false) && AllFine(timers, steps, book.slack)
      modifies this`tick, this`rows, this`timers, this`randomNr, this`book
      ensures Valid(false) && Grows(old(book), book) && Plans(old(timers), timers)
      ensures book.now == old(book.now) + TicksIn(steps)
      ensures forall x {:trigger Kept(old(Now()), Now(), x)} :: Alone(steps, x) ==> Kept(old(Now()), Now(), x)
      ensures forall x {:trigger AllFire(old(book), book, x)} :: Alone(steps, x) ==> AllFire(old(book), book, x)
      ensures forall x {:trigger Periodic(old(Now()), x)} :: Alone(steps, x) && Periodic(old(Now()), x) ==>
        Rings(book, x, old(DueOf(Now(), x)), old(timers[x].initTick))
      ensures AllAsked(old(Now()), Now(), steps, old(FlagsOk(Now()) && AllOrderly(timers, steps)))
      ensures forall i: nat, x {:trigger LastAsk(steps, i, Command.Start(x))} :: LastAsk(steps, i, Command.Start(x)) ==>
        x in timers && FiresFrom(book, x, old(book.now) + TicksIn(steps[..i]), timers[x].initTick)
    {
      ghost var v, flags := Now(), FlagsOk(Now()) && AllOrderly(timers, steps);
      RunAll(steps, flags);
      RunEnds(v, steps);
      AskedFire(v, steps, flags);
    }

    method RunAll(steps: seq<Step>, ghost flags: bool)
      requires Valid(false) && AllFine(timers, steps, book.slack)
      requires flags ==> FlagsOk(Now()) && AllOrderly(timers, steps)
      modifies this`tick, this`rows, this`timers, this`randomNr, this`book
      ensures Underway(old(Now()), steps, |steps|, flags) && steps[..|steps|] == steps
    {
      ghost var v := Now();
      assert Part(false);
      assert forall x :: Kept(v, v, x);
      FirstBeats(v);
      var i := 0;
      while i < |steps|
        invariant i <= |steps| && Underway(v, steps, i, flags)
      {
        RunStep(v, steps, i, flags);
        i := i + 1;
      }
      assert steps[..|steps|] == steps;
    }

    /** The first i steps of a run have been made. */
    ghost predicate Underway(v: View, steps: seq<Step>, i: nat, flags: bool)
      requires i <= |steps|
      reads this
    {
      && Valid(false) && Grows(v.book, book) && Plans(v.timers, timers)
      && AllFine(timers, steps, book.slack) && book.now == v.book.now + TicksIn(steps[..i])
      && (forall x {:trigger Kept(v, Now(), x)} :: Alone(steps, x) ==> Kept(v, Now(), x))
      && AllOnBeat(v, Now(), steps)
      && AllAsked(v, Now(), steps[..i], flags) && (flags ==> FlagsOk(Now()) && AllOrderly(timers, steps))
    }

    method RunStep(ghost v: View, steps: seq<Step>, i: nat, ghost flags: bool)
      requires i < |steps| && Underway(v, steps, i, flags)
      modifies this`tick, this`rows, this`timers, this`randomNr, this`book
      ensures Underway(v, steps, i + 1, flags)
    {
      ghost var u := Now();
      NowSettled();
      assert Fine(timers, steps[i], book.slack) && steps[..i + 1] == steps[..i] + [steps[i]];
      Happen(steps[i]);
      FineStays(u.timers, timers, steps, book.slack);
      OrderlyStays(u.timers, timers, steps);
      TicksInMore(steps[..i], steps[i]);
      KeptThen(v, u, Now(), steps, i);
      BeatsThen(v, u, steps, i);
      AskedThen(v, u, Now(), steps, i, flags);
    }

    lemma AskedFire(v: View, steps: seq<Step>, flags: bool)
      requires Valid(false) && AllAsked(v, Now(), steps, flags) && Plans(v.timers, timers)
      ensures forall i: nat, x {:trigger LastAsk(steps, i, Command.Start(x))} :: LastAsk(steps, i, Command.Start(x)) ==>
        x in timers && FiresFrom(book, x, v.book.now + TicksIn(steps[..i]), timers[x].initTick)
    {
      forall i: nat, x | LastAsk(steps, i, Command.Start(x))
        ensures x in timers && FiresFrom(book, x, v.book.now + TicksIn(steps[..i]), timers[x].initTick)
      {
        OpenFires(x, v.book.now + TicksIn(steps[..i]), v.timers[x].initTick);
      }
    }

    lemma OpenFires(x: nat, at: nat, length: nat)
      requires Valid(false) && HasStart(book, x, at, length)
      ensures FiresFrom(book, x, at, length)
    {
      assert Part(false);
      var s :| 0 <= s < |book.starts| && Open(book, x, s) && book.starts[s] == Arming(x, at, length, at);
      FiresWhenDue(s);
    }

    /** A timer that a timeout function has started, and that is left alone from then on, fires
        exactly its length later. */
    method TickThenRun(act: (nat, nat) -> seq<Command>, steps: seq<Step>) returns (ghost served: seq<nat>)
      requires Valid(false) && Ready(timers, act, book.slack) && AllFine(timers, steps, book.slack)
      modifies this`tick, this`rows, this`timers, this`randomNr, this`book
      ensures Valid(false) && book.now == old(book.now) + 1 + TicksIn(steps) && Plans(old(timers), timers)
      ensures Distinct(served, old(Due(NextTick(Now()))))
      ensures exists b :: FiredBy(old(book), b, served) && b.now == old(book.now) + 1 && Grows(b, book)
      ensures forall i: nat, x {:trigger LastWord(act, served, i, Command.Start(x))} ::
        LastWord(act, served, i, Command.Start(x)) && Alone(steps, x) ==>
          x in timers && FiresFrom(book, x, old(book.now) + 1, timers[x].initTick)
    {
      served := TickIncrease(act);
      FineStays(old(timers), timers, steps, book.slack);
      ghost var v := Now();
      Run(steps);
      forall i: nat, x | LastWord(act, served, i, Command.Start(x)) && Alone(steps, x)
        ensures x in timers && FiresFrom(book, x, old(book.now) + 1, timers[x].initTick)
      {
        assert Obeyed(v, Command.Start(x), served[i]) && AllFire(v.book, book, x);
        assert Open(v.book, x, v.book.serial[x]);
      }
    }

    lemma NowSettled()
      requires Valid(false)
      ensures Settled(Now())
    {
      assert Part(false);
      IsSettled(Now(), Last(rows));
    }

    lemma BeatsThen(v: View, u: View, steps: seq<Step>, i: nat)
      requires Valid(false) && i < |steps| && AllOnBeat(v, u, steps)
      requires Grows(u.book, book) && Plans(u.timers, timers) && Settled(u)
      requires forall x {:trigger Onward(u, Now(), x)} :: Apart(steps[i], x) ==> Onward(u, Now(), x)
      ensures AllOnBeat(v, Now(), steps)
    {
      NowSettled();
      forall x | Alone(steps, x) && Periodic(v, x)
        ensures OnBeat(Now(), x, DueOf(v, x), v.timers[x].initTick)
      {
        assert Apart(steps[i], x) && Onward(u, Now(), x);
        assert OnBeat(u, x, DueOf(v, x), v.timers[x].initTick);
        BeatOn(u, Now(), x, DueOf(v, x), v.timers[x].initTick);
      }
    }

    lemma RunEnds(v: View, steps: seq<Step>)
      requires Valid(false) && AllOnBeat(v, Now(), steps)
      requires forall x {:trigger Kept(v, Now(), x)} :: Alone(steps, x) ==> Kept(v, Now(), x)
      ensures forall x {:trigger AllFire(v.book, book, x)} :: Alone(steps, x) ==> AllFire(v.book, book, x)
      ensures forall x {:trigger Periodic(v, x)} :: Alone(steps, x) && Periodic(v, x) ==>
        Rings(book, x, DueOf(v, x), v.timers[x].initTick)
    {
      NowSettled();
      forall x | Alone(steps, x)
        ensures AllFire(v.book, book, x)
      {
        assert Kept(v, Now(), x);
        KeptFires(v, x);
      }
      forall x | Alone(steps, x) && Periodic(v, x)
        ensures Rings(book, x, DueOf(v, x), v.timers[x].initTick)
      {
        assert OnBeat(Now(), x, DueOf(v, x), v.timers[x].initTick);
        BeatsRing(Now(), x, DueOf(v, x), v.timers[x].initTick);
      }
    }

    lemma KeptFires(v: View, x: nat)
      requires Valid(false) && Kept(v, Now(), x)
      ensures AllFire(v.book, book, x)
    {
      assert Part(false);
      forall s | 0 <= s < |v.book.starts| && Open(v.book, x, s)
        ensures book.fate[s] == Outcome(v.book.starts[s], book.now)
      {
        FiresWhenDue(s);
      }
    }

    /** A timer that is started, and then neither stopped nor started again, fires exactly its
        length after the start, whatever else happens and however often the tick wraps, if and
        only if its starter is not held up between the two halves of rt_timer_start until the
        deadline has come; otherwise it fires at the first tick after that.  From then on a
        periodic timer fires at every period. */
    method StartThenRun(id: nat, meanwhile: seq<Step>, steps: seq<Step>) returns (ghost s: nat)
      requires Valid(false) && id in timers && TicksIn(meanwhile) <= timers[id].initTick + book.slack
      requires AllFine(timers, meanwhile, book.slack) && AllFine(timers, steps, book.slack)
      requires Alone(meanwhile, id) && Alone(steps, id)
      modifies this`tick, this`rows, this`timers, this`randomNr, this`book
      ensures Valid(false) && book.now == old(book.now) + TicksIn(meanwhile) + TicksIn(steps)
      ensures s < |book.starts| == |book.fate|
      ensures book.starts[s] ==
        Arming(id, old(book.now), old(timers)[id].initTick, old(book.now) + TicksIn(meanwhile))
      ensures book.fate[s] == Outcome(book.starts[s], book.now)
      ensures book.starts[s].DueAt() == old(book.now) + old(timers)[id].initTick <==>
        TicksIn(meanwhile) < old(timers)[id].initTick
      ensures old(timers)[id].periodic ==> Rings(book, id, book.starts[s].DueAt(), old(timers)[id].initTick)
    {
      s := StartHeldUp(id, meanwhile);
      FineStays(old(timers), timers, steps, book.slack);
      ghost var v := Now();
      assert Alone(steps, id);
      Run(steps);
      assert AllFire(v.book, book, id);
      assert v.timers[id].periodic ==> Periodic(v, id);
    }

    method StartHeldUp(id: nat, meanwhile: seq<Step>) returns (ghost s: nat)
      requires Valid(false) && id in timers && TicksIn(meanwhile) <= timers[id].initTick + book.slack
      requires AllFine(timers, meanwhile, book.slack) && Alone(meanwhile, id)
      modifies this`tick, this`rows, this`timers, this`randomNr, this`book
      ensures Valid(false) && book.slack == old(book.slack) && Plans(old(timers), timers)
      ensures book.now == old(book.now) + TicksIn(meanwhile)
      ensures s < |book.starts| == |book.fate| && book.fate[s] == Pending
      ensures book.starts[s] == Arming(id, old(book.now), old(timers)[id].initTick, book.now)
      ensures id in Ids(Last(rows)) && timers[id].active && id in book.serial && book.serial[id] == s
    {
      ghost var at := book.now;
      var timeout := Halfway(id, meanwhile);
      StaysOut(id);
      s := |book.starts|;
      assert Fine(timers, Ask(Command.Start(id)), book.slack);
      var _ := Link(id, timeout, at, false);
      assert Part(false);
    }

    /** Up to the second half of rt_timer_start. */
    method Halfway(id: nat, meanwhile: seq<Step>) returns (timeout: nat)
      requires Valid(false) && id in timers && AllFine(timers, meanwhile, book.slack) && Alone(meanwhile, id)
      modifies this`tick, this`rows, this`timers, this`randomNr, this`book
      ensures Valid(false) && book.slack == old(book.slack) && Plans(old(timers), timers)
      ensures Fit(timers, book.slack) && book.now == old(book.now) + TicksIn(meanwhile)
      ensures id !in Ids(Last(rows)) && timers[id] == old(timers)[id].(active := false)
      ensures timeout == (old(book.now) + timers[id].initTick) % TICKS
    {
      TickIs(timers[id].initTick, false);
      StartBegin(id, false);
      FineStays(old(timers), timers, meanwhile, book.slack);
      timeout := (tick + timers[id].initTick) % TICKS;
      ghost var v := Now();
      Run(meanwhile);
      FineStays(v.timers, timers, meanwhile, book.slack);
      assert Kept(v, Now(), id);
    }

    /** A timer that is not in the last row is in no row. */
    lemma StaysOut(id: nat)
      requires Valid(false) && id !in Ids(Last(rows))
      ensures forall l :: 0 <= l < |rows| ==> id !in Ids(rows[l])
    {
      assert Part(true);
      forall l | 0 <= l < |rows|
        ensures id !in Ids(rows[l])
      {
        if id in Ids(rows[l]) {
          InLast(l, IndexOf(rows[l], id));
        }
      }
    }

    /** rt_timer_list_next_timeout: the deadline of the timer that fires first. */
    method NextTimeout() returns (r: nat)
      requires Valid(false)
      ensures Last(rows) == [] ==> r == TICK_MAX
      ensures Last(rows) != [] ==>
        exists x :: x in Ids(Last(rows)) && FirstDue(Now(), x) && r == DeadlineOf(book.starts, book.serial, x) % TICKS
    {
      assert Part(true);
      if rows[|rows| - 1] == [] {
        return TICK_MAX;
      }
      FirstIsDue();
      r := timers[rows[|rows| - 1][0]].timeout;
    }

    lemma FirstIsDue()
      requires Valid(false) && Last(rows) != []
      ensures var x := Last(rows)[0];
        && x in Ids(Last(rows)) && FirstDue(Now(), x) && x in timers
        && timers[x].timeout == DeadlineOf(book.starts, book.serial, x) % TICKS
    {
      assert Part(true) && Part(false);
      Around(book.starts, book.serial, Last(rows), 0);
      assert Last(rows)[0] in Ids(Last(rows)) && Waits(book, timers, Last(rows)[0], false);
    }

    /** At any moment between ticks, a start that nobody cancelled has fired exactly if it is due,
        and it fired when it was. */
    lemma FiresWhenDue(s: nat)
      requires Valid(false) && s < |book.starts| == |book.fate| && !book.fate[s].Cancelled?
      ensures book.fate[s] == Outcome(book.starts[s], book.now)
    {
      assert Part(false);
      OnTime(book, Last(rows), timers, s);
    }

    /** A start that was linked before its deadline fires at the deadline, its length after the
        start. */
    lemma FiresOnTime(s: nat)
      requires Valid(false) && s < |book.starts| == |book.fate| && !book.fate[s].Cancelled?
      ensures var (a, deadline) := (book.starts[s], book.starts[s].at + book.starts[s].length);
        a.linked < deadline ==> book.fate[s] == if deadline <= book.now then Fired(deadline) else Pending
    {
      FiresWhenDue(s);
    }

    /** Every row can be read off the row below it. */
    lemma RowsNest(l: nat)
      requires Valid(false) && l + 1 < |rows|
      ensures Subsequence(rows[l], rows[l + 1])
    {
      assert Part(true);
      var n := l + 1;
      assert Below(rows[l], rows[n]);
      SortedBelow(book.starts, book.serial, rows[l], rows[n]);
    }
  }

  /** What happens to the timer list: a tick, in whose check the timeout functions do as `act` says,
      or a thread starts or stops a timer. */
  datatype Step = Tick(act: (nat, nat) -> seq<Command>) | Ask(command: Command)

  ghost function TicksIn(steps: seq<Step>): nat {
    if steps == [] then 0 else TicksIn(steps[..|steps| - 1]) + if steps[|steps| - 1].Tick? then 1 else 0
  }

  lemma TicksInMore(steps: seq<Step>, step: Step)
    ensures TicksIn(steps + [step]) == TicksIn(steps) + if step.Tick? then 1 else 0
  {
    assert (steps + [step])[..|steps|] == steps;
  }

  /** The step neither starts nor stops timer x. */
  ghost predicate Apart(step: Step, x: nat) {
    match step
    case Tick(act) => !Meddled(act, x)
    case Ask(c) => c.id != x
  }

  ghost predicate Alone(steps: seq<Step>, x: nat) {
    forall i :: 0 <= i < |steps| ==> Apart(steps[i], x)
  }

  /** Asking c is the last thing that happens to its timer. */
  ghost predicate LastAsk(steps: seq<Step>, i: nat, c: Command) {
    i < |steps| && steps[i] == Ask(c) && forall j :: i < j < |steps| ==> Apart(steps[j], c.id)
  }

  /** Timer x was started at tick `at`, and the start was not cancelled. */
  ghost predicate HasStart(b: Book, x: nat, at: nat, length: nat) {
    exists s :: 0 <= s < |b.starts| && Open(b, x, s) && b.starts[s] == Arming(x, at, length, at)
  }

  /** It fires when it is due. */
  ghost predicate FiresFrom(b: Book, x: nat, at: nat, length: nat) {
    exists s :: 0 <= s < |b.starts| && s < |b.fate| && b.starts[s] == Arming(x, at, length, at) &&
                b.fate[s] == Outcome(b.starts[s], b.now)
  }

  ghost predicate Asked(v: View, w: View, at: nat, c: Command, flags: bool) {
    && c.id in v.timers && c.id in w.timers
    && (c.Start? ==> HasStart(w.book, c.id, at, v.timers[c.id].initTick))
    && (c.Stop? && flags ==> c.id !in w.pending && !w.timers[c.id].active)
  }

  ghost predicate AllAsked(v: View, w: View, steps: seq<Step>, flags: bool) {
    forall i: nat, c {:trigger LastAsk(steps, i, c)} :: LastAsk(steps, i, c) ==>
      Asked(v, w, v.book.now + TicksIn(steps[..i]), c, flags)
  }

  lemma AskedThen(v: View, u: View, w: View, steps: seq<Step>, i: nat, flags: bool)
    requires i < |steps| && AllAsked(v, u, steps[..i], flags) && u.book.now == v.book.now + TicksIn(steps[..i])
    requires Plans(v.timers, u.timers) && Plans(u.timers, w.timers)
    requires steps[i].Ask? ==> w.book.now == u.book.now && steps[i].command.id in u.timers
    requires steps[i].Ask? && (steps[i].command.Start? || flags) ==> Done(w, steps[i].command)
    requires forall x {:trigger Kept(u, w, x)} :: Apart(steps[i], x) ==> Kept(u, w, x)
    ensures AllAsked(v, w, steps[..i + 1], flags)
  {
    var some := steps[..i + 1];
    forall k: nat, c | LastAsk(some, k, c)
      ensures Asked(v, w, v.book.now + TicksIn(some[..k]), c, flags)
    {
      assert some[..k] == steps[..k] && some[i] == steps[i];
      if k < i {
        assert steps[..i][..k] == steps[..k] && forall j :: k < j < i ==> steps[..i][j] == some[j];
        assert LastAsk(steps[..i], k, c) && Kept(u, w, c.id);
      } else {
        assert c.Start? ==> Open(w.book, c.id, w.book.serial[c.id]);
      }
    }
  }

  /** No function of this step starts its own one-shot timer. */
  ghost predicate Orderly(timers: map<nat, Timer>, step: Step) {
    step.Tick? ==> NoSelfStart(timers, step.act)
  }

  lemma OrderlyStays(was: map<nat, Timer>, timers: map<nat, Timer>, steps: seq<Step>)
    requires Plans(was, timers)
    ensures AllOrderly(timers, steps) <==> AllOrderly(was, steps)
  {
    assert forall i :: 0 <= i < |steps| ==> (Orderly(timers, steps[i]) <==> Orderly(was, steps[i]));
  }

  ghost predicate AllOrderly(timers: map<nat, Timer>, steps: seq<Step>) {
    forall i :: 0 <= i < |steps| ==> Orderly(timers, steps[i])
  }

  /** No overlong or zero periods. */
  ghost predicate Fit(timers: map<nat, Timer>, slack: nat) {
    forall x :: x in timers ==> timers[x].initTick + slack < HALF && (timers[x].periodic ==> timers[x].initTick > 0)
  }

  ghost predicate Fine(timers: map<nat, Timer>, step: Step, slack: nat) {
    && Fit(timers, slack)
    && (step.Tick? ==> Ready(timers, step.act, slack)) && (step.Ask? ==> step.command.id in timers)
  }

  ghost predicate AllFine(timers: map<nat, Timer>, steps: seq<Step>, slack: nat) {
    Fit(timers, slack) && forall i :: 0 <= i < |steps| ==> Fine(timers, steps[i], slack)
  }

  /** The same timers, of the same length and kind. */
  ghost predicate Plans(was: map<nat, Timer>, timers: map<nat, Timer>) {
    && timers.Keys == was.Keys
    && (forall x :: x in was ==> timers[x].initTick == was[x].initTick && timers[x].periodic == was[x].periodic)
  }

  lemma FineStays(was: map<nat, Timer>, timers: map<nat, Timer>, steps: seq<Step>, slack: nat)
    requires AllFine(was, steps, slack) && Plans(was, timers)
    ensures AllFine(timers, steps, slack)
  {
    forall i | 0 <= i < |steps|
      ensures Fine(timers, steps[i], slack)
    {
      assert Fine(was, steps[i], slack);
      if steps[i].Tick? {
        ReadyThen(was, timers, steps[i].act, slack);
      }
    }
  }

  /** The history grows. */
  ghost predicate Grows(was: Book, now: Book) {
    && now.slack == was.slack && was.starts <= now.starts && was.fired <= now.fired
    && |now.fate| == |now.starts|
  }

  /** What becomes of a start that is not cancelled. */
  ghost function Outcome(a: Arming, now: nat): Fate {
    if a.DueAt() <= now then Fired(a.DueAt()) else Pending
  }

  /** Nothing happened to timer x, or it was due at the tick that has come and has been served. */
  ghost predicate Onward(v: View, w: View, x: nat) {
    || Same(v, w, x)
    || (var u := v.(book := v.book.(now := w.book.now));
        w.book.now == v.book.now + 1 && x in Due(u) && Served(u, w, x))
  }

  lemma GoneOn(v: View, u: View, w: View, x: nat)
    requires u == v.(book := v.book.(now := w.book.now)) && w.book.now == v.book.now + 1
    requires if x in Due(u) then Served(u, w, x) else Same(u, w, x)
    ensures Onward(v, w, x)
  {
  }

  /** Nothing that was started for timer x gets lost or cancelled, and if it is not waiting it is
      left alone. */
  ghost predicate Kept(v: View, w: View, x: nat) {
    && (forall s :: 0 <= s < |v.book.starts| && Open(v.book, x, s) ==>
      s < |w.book.starts| && w.book.starts[s] == v.book.starts[s] && Open(w.book, x, s))
    && (x !in v.pending && x in v.timers ==> x !in w.pending && x in w.timers && w.timers[x] == v.timers[x])
  }

  /** Start s is one of timer x, and was not cancelled. */
  ghost predicate Open(b: Book, x: nat, s: nat)
    requires s < |b.starts|
  {
    s < |b.fate| && b.starts[s].id == x && !b.fate[s].Cancelled?
  }

  /** Everything that was started for timer x and not cancelled fires when it is due. */
  ghost predicate AllFire(was: Book, now: Book, x: nat) {
    forall s :: 0 <= s < |was.starts| && Open(was, x, s) ==>
      && s < |now.starts| && now.starts[s] == was.starts[s]
      && s < |now.fate| && now.fate[s] == Outcome(was.starts[s], now.now)
  }

  /** What was not cancelled stays so, and what fired has fired. */
  lemma KeptOnward(v: View, bottom: seq<nat>, w: View, left: seq<nat>, x: nat)
    requires BookOk(v.book, bottom, v.timers, false) && BookOk(w.book, left, w.timers, false)
    requires v.pending == Ids(bottom) && Grows(v.book, w.book) && Onward(v, w, x)
    ensures Kept(v, w, x)
  {
    forall s | 0 <= s < |v.book.starts| && Open(v.book, x, s)
      ensures Open(w.book, x, s)
    {
      assert Booked(v.book, bottom, s) && Booked(w.book, left, s);
    }
  }

  lemma KeptThen(v: View, u: View, w: View, steps: seq<Step>, i: nat)
    requires i < |steps|
    requires forall x {:trigger Kept(v, u, x)} :: Alone(steps, x) ==> Kept(v, u, x)
    requires forall x {:trigger Kept(u, w, x)} :: Apart(steps[i], x) ==> Kept(u, w, x)
    ensures forall x {:trigger Kept(v, w, x)} :: Alone(steps, x) ==> Kept(v, w, x)
  {
    forall x | Alone(steps, x)
      ensures Kept(v, w, x)
    {
      assert Apart(steps[i], x) && Kept(v, u, x) && Kept(u, w, x);
    }
  }

  // ---- periodic timers ----

  /** Timer x is periodic and waits. */
  ghost predicate Periodic(v: View, x: nat) {
    && x in v.pending && Armed(v.book.starts, v.book.serial, x)
    && x in v.timers && v.timers[x].periodic && v.timers[x].active && v.timers[x].initTick > 0
  }

  ghost function DueOf(v: View, x: nat): nat {
    if Armed(v.book.starts, v.book.serial, x) then v.book.starts[v.book.serial[x]].DueAt() else 0
  }

  /** The tick m periods after d. */
  ghost function Nth(d: nat, period: nat, m: nat): nat {
    d + m * period
  }

  /** Timer x fired at tick t. */
  ghost predicate FiredAt(b: Book, x: nat, t: nat) {
    exists s :: 0 <= s < |b.starts| && s < |b.fate| && b.starts[s].id == x && b.fate[s] == Fired(t)
  }

  /** Timer x has fired at tick d and at every period after it up to now. */
  ghost predicate Rings(b: Book, x: nat, d: nat, period: nat) {
    forall m: nat {:trigger Nth(d, period, m)} :: Nth(d, period, m) <= b.now ==> FiredAt(b, x, Nth(d, period, m))
  }

  /** The first k of these ticks are over, and timer x waits for the next. */
  ghost predicate Beats(v: View, x: nat, d: nat, period: nat, k: nat) {
    && Periodic(v, x) && v.timers[x].initTick == period && DueOf(v, x) == Nth(d, period, k)
    && (forall m: nat {:trigger Nth(d, period, m)} :: m < k ==> FiredAt(v.book, x, Nth(d, period, m)))
  }

  ghost predicate OnBeat(v: View, x: nat, d: nat, period: nat) {
    exists k: nat :: Beats(v, x, d, period, k)
  }

  ghost predicate AllOnBeat(v: View, w: View, steps: seq<Step>) {
    forall x {:trigger Periodic(v, x)} :: Alone(steps, x) && Periodic(v, x) ==>
      OnBeat(w, x, DueOf(v, x), v.timers[x].initTick)
  }

  lemma FirstBeats(v: View)
    ensures forall x {:trigger Periodic(v, x)} :: Periodic(v, x) ==> OnBeat(v, x, DueOf(v, x), v.timers[x].initTick)
  {
    forall x | Periodic(v, x)
      ensures OnBeat(v, x, DueOf(v, x), v.timers[x].initTick)
    {
      assert Beats(v, x, DueOf(v, x), v.timers[x].initTick, 0);
    }
  }

  /** Between checks what is pending waits for a tick to come, and what fired did when it was due. */
  ghost predicate Settled(v: View) {
    && (forall x :: x in v.pending ==> Coming(v, x))
    && (forall s :: 0 <= s < |v.book.starts| && s < |v.book.fate| && v.book.fate[s].Fired? ==>
        s in v.book.fired && v.book.fate[s].tick == v.book.starts[s].DueAt())
    && (forall s :: 0 <= s < |v.book.starts| && s < |v.book.fate| && s in v.book.fired ==> v.book.fate[s].Fired?)
  }

  ghost predicate Coming(v: View, x: nat) {
    && Armed(v.book.starts, v.book.serial, x) && DueOf(v, x) > v.book.now
    && v.book.starts[v.book.serial[x]].linked <= v.book.now
  }

  lemma IsSettled(v: View, bottom: seq<nat>)
    requires BookOk(v.book, bottom, v.timers, false) && v.pending == Ids(bottom)
    ensures Settled(v)
  {
    forall x | x in v.pending
      ensures Coming(v, x)
    {
      assert Waits(v.book, v.timers, x, false);
    }
    forall s | 0 <= s < |v.book.starts|
      ensures v.book.fate[s].Fired? <==> s in v.book.fired
      ensures v.book.fate[s].Fired? ==> v.book.fate[s].tick == v.book.starts[s].DueAt()
    {
      assert Booked(v.book, bottom, s);
    }
  }

  lemma FiredStays(v: View, w: View, x: nat, t: nat)
    requires Settled(v) && Settled(w) && Grows(v.book, w.book) && FiredAt(v.book, x, t)
    ensures FiredAt(w.book, x, t)
  {
    var s :| 0 <= s < |v.book.starts| && s < |v.book.fate| && v.book.starts[s].id == x && v.book.fate[s] == Fired(t);
    assert s in w.book.fired && w.book.starts[s] == v.book.starts[s];
  }

  lemma BeatOn(v: View, w: View, x: nat, d: nat, period: nat)
    requires Settled(v) && Settled(w) && Grows(v.book, w.book) && Plans(v.timers, w.timers)
    requires Onward(v, w, x) && OnBeat(v, x, d, period)
    ensures OnBeat(w, x, d, period)
  {
    var k: nat :| Beats(v, x, d, period, k);
    forall m: nat | m < k
      ensures FiredAt(w.book, x, Nth(d, period, m))
    {
      FiredStays(v, w, x, Nth(d, period, m));
    }
    assert Coming(v, x);
    if Same(v, w, x) {
      assert Beats(w, x, d, period, k);
    } else {
      NextBeat(v, w, x, d, period, k);
    }
  }

  /** The next tick has come, and timer x is started again. */
  lemma NextBeat(v: View, w: View, x: nat, d: nat, period: nat, k: nat)
    requires Settled(v) && Settled(w) && Grows(v.book, w.book) && Plans(v.timers, w.timers) && Beats(v, x, d, period, k)
    requires w.book.now == v.book.now + 1 && x in Due(v.(book := v.book.(now := w.book.now)))
    requires Served(v.(book := v.book.(now := w.book.now)), w, x)
    requires forall m: nat {:trigger Nth(d, period, m)} :: m < k ==> FiredAt(w.book, x, Nth(d, period, m))
    ensures OnBeat(w, x, d, period)
  {
    assert Coming(v, x);
    var s := v.book.serial[x];
    assert DueOf(v, x) == w.book.now;
    assert w.book.fate[s] == Fired(w.book.now) && w.book.starts[s] == v.book.starts[s];
    assert FiredAt(w.book, x, Nth(d, period, k));
    assert Nth(d, period, k + 1) == Nth(d, period, k) + period;
    assert Beats(w, x, d, period, k + 1);
  }

  lemma NthGrows(d: nat, period: nat, k: nat, m: nat)
    requires k <= m
    ensures Nth(d, period, k) <= Nth(d, period, m)
  {
    assert m * period == k * period + (m - k) * period;
  }

  lemma BeatsRing(w: View, x: nat, d: nat, period: nat)
    requires Settled(w) && OnBeat(w, x, d, period)
    ensures Rings(w.book, x, d, period)
  {
    var k: nat :| Beats(w, x, d, period, k);
    assert Coming(w, x);
    forall m: nat | Nth(d, period, m) <= w.book.now
      ensures FiredAt(w.book, x, Nth(d, period, m))
    {
      if m >= k {
        NthGrows(d, period, k, m);
      }
    }
  }

  /** The commands a timeout function may issue: on timers there are, and no zero-length starts. */
  ghost predicate Allowed(timers: map<nat, Timer>, c: Command, slack: nat) {
    c.id in timers && timers[c.id].initTick + slack < HALF && (c.Start? ==> timers[c.id].initTick > 0)
  }

  ghost function Touched(commands: seq<Command>): set<nat> {
    set c | c in commands :: c.id
  }

  /** The timer list as far as its order does not matter. */
  datatype View = View(book: Book, pending: set<nat>, timers: map<nat, Timer>)

  ghost function Due(v: View): set<nat> {
    set x | x in v.pending && Armed(v.book.starts, v.book.serial, x) &&
            DeadlineOf(v.book.starts, v.book.serial, x) <= v.book.now
  }

  /** Nothing happened to timer x. */
  ghost predicate Same(v: View, w: View, x: nat) {
    && (x in w.pending <==> x in v.pending)
    && (x in v.book.serial ==> x in w.book.serial && w.book.serial[x] == v.book.serial[x])
    && (x in v.timers ==> x in w.timers && w.timers[x] == v.timers[x])
    && (forall s :: 0 <= s < |v.book.starts| && v.book.starts[s].id == x && s < |v.book.fate| ==>
        s < |w.book.fate| && w.book.fate[s] == v.book.fate[s])
  }

  /** Time stands still, the history grows, nothing more becomes due, and only the touched
      timers are affected. */
  ghost predicate Progress(v: View, w: View, touched: set<nat>) {
    && w.book.now == v.book.now && w.book.slack == v.book.slack
    && v.book.starts <= w.book.starts && v.book.fired <= w.book.fired
    && w.timers.Keys == v.timers.Keys
    && (forall x :: x in v.timers ==>
        w.timers[x].initTick == v.timers[x].initTick && w.timers[x].periodic == v.timers[x].periodic)
    && Due(w) <= Due(v)
    && (forall x {:trigger Same(v, w, x)} :: x !in touched ==> Same(v, w, x))
  }

  /** Activated timers and linked timers are the same. */
  ghost predicate FlagsOk(v: View) {
    forall x :: x in v.timers ==> (v.timers[x].active <==> x in v.pending)
  }

  /** The same while timer t is being served. */
  ghost predicate FlagsBut(v: View, t: nat) {
    forall x :: x in v.timers ==>
      if x == t then !v.timers[x].active ==> x !in v.pending else v.timers[x].active <==> x in v.pending
  }

  /** Timer x has fired now; if it was periodic it waits for its next period, otherwise it is out. */
  ghost predicate Served(v: View, w: View, x: nat) {
    && x in v.book.serial && v.book.serial[x] < |w.book.fate| && w.book.fate[v.book.serial[x]] == Fired(v.book.now)
    && x in v.timers && x in w.timers
    && (if v.timers[x].periodic && v.timers[x].active then
          w.timers[x].active && x in w.pending
          && x in w.book.serial && |v.book.starts| <= w.book.serial[x] < |w.book.starts|
          && w.book.starts[w.book.serial[x]] == Arming(x, v.book.now, v.timers[x].initTick, v.book.now)
        else
          !w.timers[x].active && x !in w.pending)
  }

  lemma FireProgress(v: View, w: View, id: nat)
    requires id in v.pending && id in v.book.serial && v.book.serial[id] < |v.book.fate|
    requires Armed(v.book.starts, v.book.serial, id)
    requires w.timers == v.timers && w.pending == v.pending - {id} && w.book == Firing(v.book, id)
    ensures Progress(v, w, {id}) && Due(w) == Due(v) - {id}
  {
    forall x | x != id
      ensures Same(v, w, x)
    {
    }
  }

  ghost predicate Grown(v: View, w: View) {
    && w.book.now == v.book.now && w.book.slack == v.book.slack
    && v.book.starts <= w.book.starts && v.book.fired <= w.book.fired
    && w.timers.Keys == v.timers.Keys
    && (forall x :: x in v.timers ==>
        w.timers[x].initTick == v.timers[x].initTick && w.timers[x].periodic == v.timers[x].periodic)
  }

  /** No pending timer is due before timer x. */
  ghost predicate FirstDue(v: View, x: nat) {
    && Armed(v.book.starts, v.book.serial, x)
    && (forall y :: y in v.pending && Armed(v.book.starts, v.book.serial, y) ==>
      DeadlineOf(v.book.starts, v.book.serial, x) <= DeadlineOf(v.book.starts, v.book.serial, y))
  }

  /** What a check needs of the timers: no overlong or zero periods, and timeout functions
      (`act` says what timer t's does when it is the k-th to run) that start no zero lengths. */
  ghost predicate Ready(timers: map<nat, Timer>, act: (nat, nat) -> seq<Command>, slack: nat) {
    && (forall x :: x in timers ==>
        timers[x].initTick + slack < HALF && (timers[x].periodic ==> timers[x].initTick > 0))
    && (forall t, k, c :: c in act(t, k) ==> Allowed(timers, c, slack))
  }

  lemma ReadyThen(was: map<nat, Timer>, timers: map<nat, Timer>, act: (nat, nat) -> seq<Command>, slack: nat)
    requires Ready(was, act, slack) && timers.Keys == was.Keys
    requires forall x :: x in was ==> timers[x].initTick == was[x].initTick && timers[x].periodic == was[x].periodic
    ensures Ready(timers, act, slack)
    ensures NoSelfStart(timers, act) <==> NoSelfStart(was, act)
  {
    forall t: nat, k: nat, c | c in act(t, k)
      ensures Allowed(timers, c, slack)
    {
      assert Allowed(was, c, slack);
    }
  }

  /** Some timeout function starts or stops timer x. */
  ghost predicate Meddled(act: (nat, nat) -> seq<Command>, x: nat) {
    exists t: nat, k: nat :: x in Touched(act(t, k))
  }

  /** No one-shot timer's function starts that timer again. */
  ghost predicate NoSelfStart(timers: map<nat, Timer>, act: (nat, nat) -> seq<Command>) {
    forall t: nat, k: nat :: t in timers && !timers[t].periodic ==> Command.Start(t) !in act(t, k)
  }

  /** Where timer x stands while a check that began in v is at w. */
  ghost predicate Checked(v: View, w: View, x: nat) {
    if x in Due(v) then (x in Due(w) && Same(v, w, x)) || (x !in Due(w) && Served(v, w, x)) else
      x !in Due(w) && Same(v, w, x)
  }

  ghost predicate AllChecked(v: View, w: View, act: (nat, nat) -> seq<Command>, served: seq<nat>) {
    forall x {:trigger Untouched(act, served, x)} :: Untouched(act, served, x) ==>
      Checked(v, w, x) && (x in Due(v) - Due(w) ==> HasFired(served, x))
  }

  /** One more round of the check: timer t has fired, and its function has run. */
  lemma RoundThen(v: View, u: View, w: View, t: nat, act: (nat, nat) -> seq<Command>, served: seq<nat>, flags: bool)
    requires Grown(v, u) && AllChecked(v, u, act, served) && AllObeyed(u, act, served, flags)
    requires Distinct(served, Due(v) - Due(u)) && Due(u) <= Due(v)
    requires FiredBy(v.book, u.book, served) && FiredBy(u.book, w.book, [t])
    requires Progress(u, w, Touched(act(t, |served|)) + {t}) && Due(w) <= Due(u) - {t} && t in Due(u)
    requires t !in Touched(act(t, |served|)) ==> Served(u, w, t)
    requires AllObeyedBy(w, act(t, |served|), t, flags)
    ensures AllChecked(v, w, act, served + [t]) && AllObeyed(w, act, served + [t], flags)
    ensures Distinct(served + [t], Due(v) - Due(w)) && FiredBy(v.book, w.book, served + [t])
  {
    CheckedThen(v, u, w, t, act, served);
    ObeyedThen(u, w, t, act, served, flags);
    FiredThen(v.book, u.book, w.book, served, t);
  }

  lemma FiredOnce(v: View, p: View, w: View, id: nat)
    requires Armed(v.book.starts, v.book.serial, id) && v.book.serial[id] < |v.book.fate|
    requires p.book.fired == v.book.fired + [v.book.serial[id]] && v.book.starts <= p.book.starts
    requires w.book.fired == p.book.fired && p.book.starts <= w.book.starts
    ensures FiredBy(v.book, w.book, [id])
  {
  }

  lemma FiredThen(was: Book, b: Book, now: Book, served: seq<nat>, t: nat)
    requires FiredBy(was, b, served) && FiredBy(b, now, [t])
    ensures FiredBy(was, now, served + [t])
  {
    var more := served + [t];
    forall i: nat | i < |more|
      ensures FiredAs(was, now, more, i)
    {
      if i < |served| {
        assert FiredAs(was, b, served, i) && now.fired[|was.fired| + i] == b.fired[|was.fired| + i];
      } else {
        assert FiredAs(b, now, [t], 0);
      }
    }
  }

  lemma CheckedThen(v: View, u: View, w: View, t: nat, act: (nat, nat) -> seq<Command>, served: seq<nat>)
    requires Grown(v, u) && AllChecked(v, u, act, served)
    requires Progress(u, w, Touched(act(t, |served|)) + {t}) && Due(w) <= Due(u) - {t} && t in Due(u)
    requires t !in Touched(act(t, |served|)) ==> Served(u, w, t)
    ensures AllChecked(v, w, act, served + [t])
  {
    var more := served + [t];
    forall x | Untouched(act, more, x)
      ensures Checked(v, w, x) && (x in Due(v) - Due(w) ==> HasFired(more, x))
    {
      assert forall i :: 0 <= i < |served| ==> more[i] == served[i];
      assert more[|served|] == t;
      assert Untouched(act, served, x) && Checked(v, u, x);
      assert x != t ==> Same(u, w, x);
      if x in Due(v) - Due(u) {
        var i :| 0 <= i < |served| && served[i] == x;
        assert more[i] == x;
      }
    }
  }

  lemma ObeyedThen(u: View, w: View, t: nat, act: (nat, nat) -> seq<Command>, served: seq<nat>, flags: bool)
    requires AllObeyed(u, act, served, flags) && AllObeyedBy(w, act(t, |served|), t, flags)
    requires Progress(u, w, Touched(act(t, |served|)) + {t})
    ensures AllObeyed(w, act, served + [t], flags)
  {
    var more := served + [t];
    forall i: nat, c | LastWord(act, more, i, c) && (c.Stop? ==> flags)
      ensures Obeyed(w, c, more[i])
    {
      if i < |served| {
        assert forall j :: 0 <= j < |served| ==> more[j] == served[j];
        assert more[|served|] == t != c.id && c.id !in Touched(act(t, |served|));
        assert LastWord(act, served, i, c) && Same(u, w, c.id);
        ObeyedStays(u, w, c, served[i]);
      }
    }
  }

  lemma CheckedDone(v: View, w: View, act: (nat, nat) -> seq<Command>, served: seq<nat>)
    requires AllChecked(v, w, act, served) && Due(w) == {}
    ensures forall x {:trigger Untouched(act, served, x)} :: Untouched(act, served, x) ==>
      if x in Due(v) then HasFired(served, x) && Served(v, w, x) else Same(v, w, x)
  {
    forall x | Untouched(act, served, x)
      ensures if x in Due(v) then HasFired(served, x) && Served(v, w, x) else Same(v, w, x)
    {
      assert Checked(v, w, x);
    }
  }

  // ---- what timeout functions do ----

  /** c is the last of the commands that is about its timer. */
  ghost predicate EndsWith(commands: seq<Command>, c: Command) {
    exists i :: 0 <= i < |commands| && commands[i] == c && forall j :: i < j < |commands| ==> commands[j].id != c.id
  }

  /** Timer x was started at this tick, and waits. */
  ghost predicate JustStarted(w: View, x: nat) {
    && x in w.pending && x in w.timers && x in w.book.serial && w.book.serial[x] < |w.book.starts|
    && w.book.starts[w.book.serial[x]] == Arming(x, w.book.now, w.timers[x].initTick, w.book.now)
    && w.book.serial[x] < |w.book.fate| && w.book.fate[w.book.serial[x]] == Pending
  }

  /** The timer waits and is activated, or is neither. */
  ghost predicate Done(w: View, c: Command) {
    && c.id in w.timers
    && if c.Start? then JustStarted(w, c.id) && w.timers[c.id].active else c.id !in w.pending && !w.timers[c.id].active
  }

  ghost predicate AllDone(w: View, commands: seq<Command>, flags: bool) {
    forall c {:trigger EndsWith(commands, c)} :: EndsWith(commands, c) && (c.Stop? ==> flags) ==> Done(w, c)
  }

  lemma DoneThen(u: View, w: View, commands: seq<Command>, i: nat, flags: bool)
    requires i < |commands| && AllDone(u, commands[..i], flags)
    requires Progress(u, w, {commands[i].id}) && (commands[i].Start? || flags ==> Done(w, commands[i]))
    ensures AllDone(w, commands[..i + 1], flags)
  {
    var some := commands[..i + 1];
    forall c | EndsWith(some, c) && (c.Stop? ==> flags)
      ensures Done(w, c)
    {
      var k :| 0 <= k < |some| && some[k] == c && forall j :: k < j < |some| ==> some[j].id != c.id;
      if k < i {
        assert some[i] == commands[i] && commands[..i][k] == c;
        assert forall j :: k < j < i ==> commands[..i][j] == some[j];
        assert EndsWith(commands[..i], c) && Same(u, w, c.id);
      }
    }
  }

  /** What the function of timer `own` said last about the timer has come about.  A one-shot timer
      that its own function starts waits without being activated. */
  ghost predicate Obeyed(w: View, c: Command, own: nat) {
    if c == Command.Start(own) && own in w.timers && !w.timers[own].periodic then JustStarted(w, own) else Done(w, c)
  }

  lemma ObeyedStays(u: View, w: View, c: Command, own: nat)
    requires Obeyed(u, c, own) && Same(u, w, c.id) && u.book.starts <= w.book.starts && w.book.now == u.book.now
    requires u.timers.Keys == w.timers.Keys
    requires forall x :: x in u.timers ==> w.timers[x].periodic == u.timers[x].periodic
    ensures Obeyed(w, c, own)
  {
  }

  ghost predicate AllObeyedBy(w: View, commands: seq<Command>, own: nat, flags: bool) {
    forall c {:trigger EndsWith(commands, c)} :: EndsWith(commands, c) && (c.Stop? ==> flags) ==> Obeyed(w, c, own)
  }

  lemma HandledObeyed(p: View, w: View, id: nat, commands: seq<Command>, flags: bool)
    requires AllDone(p, commands, flags) && id in p.timers
    requires p.timers[id].periodic && p.timers[id].active ==> Progress(p, w, {id}) && Done(w, Command.Start(id))
    requires !(p.timers[id].periodic && p.timers[id].active) ==>
      w == p.(timers := p.timers[id := p.timers[id].(active := false)])
    ensures AllObeyedBy(w, commands, id, flags)
  {
    forall c | EndsWith(commands, c) && (c.Stop? ==> flags)
      ensures Obeyed(w, c, id)
    {
      assert Done(p, c);
      if c.id != id && p.timers[id].periodic && p.timers[id].active {
        assert Same(p, w, c.id);
      }
    }
  }

  /** c is the last word about its timer: the i-th of the timers that fired says so, its other
      commands after it are about other timers, and so are all those of later functions.  The
      timer did not fire later either. */
  ghost predicate LastWord(act: (nat, nat) -> seq<Command>, served: seq<nat>, i: nat, c: Command) {
    && i < |served| && EndsWith(act(served[i], i), c)
    && forall j :: i < j < |served| ==> served[j] != c.id && c.id !in Touched(act(served[j], j))
  }

  ghost predicate AllObeyed(w: View, act: (nat, nat) -> seq<Command>, served: seq<nat>, flags: bool) {
    forall i: nat, c {:trigger LastWord(act, served, i, c)} :: LastWord(act, served, i, c) && (c.Stop? ==> flags) ==>
      Obeyed(w, c, served[i])
  }

  /** None of the functions that ran started or stopped timer x. */
  ghost predicate Untouched(act: (nat, nat) -> seq<Command>, served: seq<nat>, x: nat) {
    forall i :: 0 <= i < |served| ==> x !in Touched(act(served[i], i))
  }

  ghost predicate HasFired(served: seq<nat>, x: nat) {
    exists i :: 0 <= i < |served| && served[i] == x
  }

  /** Each of them once. */
  ghost predicate Distinct(served: seq<nat>, due: set<nat>) {
    && (forall i :: 0 <= i < |served| ==> served[i] in due)
    && (forall i, j :: 0 <= i < j < |served| ==> served[i] != served[j])
  }

  /** The history tells of these timers as the next that fired. */
  ghost predicate FiredBy(was: Book, now: Book, served: seq<nat>) {
    && was.fired <= now.fired && |now.fired| == |was.fired| + |served| && was.starts <= now.starts
    && (forall i: nat {:trigger FiredAs(was, now, served, i)} :: i < |served| ==> FiredAs(was, now, served, i))
  }

  ghost predicate FiredAs(was: Book, now: Book, served: seq<nat>, i: nat)
    requires i < |served|
  {
    var k := |was.fired| + i;
    k < |now.fired| && now.fired[k] < |now.starts| && now.starts[now.fired[k]].id == served[i]
  }

  /** A timer that waited, waits no more and did not fire: its start was cancelled. */
  ghost predicate GivenUp(v: View, w: View, served: seq<nat>, x: nat) {
    x in v.pending && x !in w.pending && !HasFired(served, x) ==>
      x in v.book.serial && v.book.serial[x] < |w.book.fate| && w.book.fate[v.book.serial[x]] == Cancelled
  }

  /** What is pending has not fired. */
  ghost predicate Unfired(v: View) {
    forall x :: x in v.pending ==> Armed(v.book.starts, v.book.serial, x) && v.book.serial[x] !in v.book.fired
  }

  lemma WasPending(v: View, bottom: seq<nat>)
    requires BookOk(v.book, bottom, v.timers, true) && v.pending == Ids(bottom)
    ensures Unfired(v)
  {
    forall x | x in v.pending
      ensures Armed(v.book.starts, v.book.serial, x) && v.book.serial[x] !in v.book.fired
    {
      assert Waits(v.book, v.timers, x, true) && Booked(v.book, bottom, v.book.serial[x]);
    }
  }

  lemma AllGivenUp(v: View, w: View, bottom: seq<nat>, served: seq<nat>)
    requires BookOk(w.book, bottom, w.timers, false) && w.pending == Ids(bottom) && Unfired(v)
    requires FiredBy(v.book, w.book, served)
    ensures forall x {:trigger GivenUp(v, w, served, x)} :: GivenUp(v, w, served, x)
  {
    forall x | x in v.pending && x !in w.pending && !HasFired(served, x)
      ensures w.book.fate[v.book.serial[x]] == Cancelled
    {
      var s := v.book.serial[x];
      assert Booked(w.book, bottom, s) && w.book.starts[s] == v.book.starts[s];
      if s in w.book.fired {
        NewlyFired(v, w, served, s);
      }
    }
  }

  lemma NewlyFired(v: View, w: View, served: seq<nat>, s: nat)
    requires FiredBy(v.book, w.book, served) && s in w.book.fired && s !in v.book.fired && s < |w.book.starts|
    ensures HasFired(served, w.book.starts[s].id)
  {
    var k :| 0 <= k < |w.book.fired| && w.book.fired[k] == s;
    assert v.book.fired == w.book.fired[..|v.book.fired|];
    var i := k - |v.book.fired|;
    assert FiredAs(v.book, w.book, served, i);
  }

  /** The next tick has come. */
  ghost function NextTick(v: View): View {
    v.(book := v.book.(now := v.book.now + 1))
  }

  /** From the head timer's firing (u) and its function's work (p) to the end of the round (w). */
  lemma HandledOk(v: View, u: View, p: View, w: View, id: nat, touched: set<nat>, again: bool)
    requires id in v.pending && id in v.book.serial && v.book.serial[id] < |v.book.fate|
    requires Armed(v.book.starts, v.book.serial, id) && id in v.timers
    requires u.timers == v.timers && u.pending == v.pending - {id} && u.book == Firing(v.book, id)
    requires Progress(v, u, {id}) && Due(u) == Due(v) - {id} && Progress(u, p, touched)
    requires FlagsBut(u, id) ==> FlagsBut(p, id)
    requires !again ==> id !in p.pending
    requires p.timers[id].periodic && p.timers[id].active ==>
      Progress(p, w, {id}) && w.pending == p.pending + {id} && Restarted(p, w, id)
    requires !(p.timers[id].periodic && p.timers[id].active) ==>
      w == p.(timers := p.timers[id := p.timers[id].(active := false)])
    ensures Progress(v, w, touched + {id}) && Due(w) <= Due(v) - {id}
    ensures id !in touched ==> Served(v, w, id)
    ensures FlagsOk(v) && (v.timers[id].periodic || !again) ==> FlagsOk(w)
  {
    assert id !in touched ==> Same(u, p, id);
    forall x | x !in touched + {id}
      ensures Same(v, w, x)
    {
      assert Same(v, u, x) && Same(u, p, x);
      assert p.timers[id].periodic && p.timers[id].active ==> Same(p, w, x);
    }
  }

  ghost predicate Restarted(p: View, w: View, id: nat)
    requires id in p.timers
  {
    && id in w.timers && w.timers == p.timers[id := w.timers[id]] && w.timers[id].active
    && w.book == Begun(Removal(p.book, p.pending, id), id, p.book.now, p.timers[id].initTick)
  }

  lemma ProgressThen(v: View, u: View, w: View, touched: set<nat>, more: set<nat>)
    requires Progress(v, u, touched) && Progress(u, w, more) && more <= touched
    ensures Progress(v, w, touched)
  {
    forall x | x !in touched
      ensures Same(v, w, x)
    {
      assert Same(v, u, x) && Same(u, w, x);
    }
  }

  lemma StartProgress(v: View, w: View, id: nat, timeout: nat)
    requires id in v.timers && v.timers[id].initTick > 0
    requires (id in v.pending ==> Armed(v.book.starts, v.book.serial, id))
    requires w.timers == v.timers[id := v.timers[id].(active := true, timeout := timeout)]
    requires w.pending == v.pending + {id}
    requires w.book == Begun(Removal(v.book, v.pending, id), id, v.book.now, v.timers[id].initTick)
    ensures Progress(v, w, {id})
  {
    RemovalSame(v, id);
    forall x | x != id
      ensures Same(v, w, x)
    {
      assert forall s :: 0 <= s < |v.book.fate| ==> w.book.fate[s] == Removal(v.book, v.pending, id).fate[s];
    }
  }

  lemma RemovalSame(v: View, id: nat)
    requires id in v.pending ==> Armed(v.book.starts, v.book.serial, id)
    ensures forall s :: 0 <= s < |v.book.starts| && s < |v.book.fate| && v.book.starts[s].id != id ==>
      Removal(v.book, v.pending, id).fate[s] == v.book.fate[s]
  {
  }

  lemma StopProgress(v: View, w: View, id: nat)
    requires id in v.timers && (id in v.pending ==> Armed(v.book.starts, v.book.serial, id))
    requires w.timers == v.timers[id := v.timers[id].(active := false)]
    requires w.pending == v.pending - {id} && w.book == Removal(v.book, v.pending, id)
    ensures Progress(v, w, {id})
  {
    RemovalSame(v, id);
    forall x | x != id
      ensures Same(v, w, x)
    {
    }
  }
}
