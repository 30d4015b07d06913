/** The scheduler of one processor (scheduler.c) and the thread operations that move threads
    between its queues (thread.c, and the time slice of clock.c).  A region with interrupts
    disabled is one step. */
module Scheduler {
  import opened Lists
  import opened Bitmap
  import opened ReadyQueues
  import opened RoundRobin

  /** The largest tick count: what counting down from 0 gives. */
  const MAX_TICK: nat := 0xffff_ffff

  /** The current thread runs, and no ready thread has a better priority. */
  ghost predicate Best(c: Core) {
    && c.current >= 0 && c.current in c.threads && c.threads[c.current].stat.Running?
    && (forall x :: x in c.threads && c.threads[x].stat.Ready? ==>
        c.threads[c.current].priority <= c.threads[x].priority)
  }

  /** The switch of rt_schedule to the first thread of priority p: a thread that was still
      running goes to the end of its queue. */
  ghost function Switched(c: Core, p: nat): Core
    requires Ok(c) && c.current >= 0 && p < |c.queues| && c.queues[p] != []
  {
    var from, to := c.current, c.queues[p][0];
    assert ThreadOk(c, from) && LevelOk(c, p) && to in Ids(c.queues[p]);
    var waiting := if c.threads[from].stat.Running? then
      c.threads[from := c.threads[from].(stat := Stat.Ready, yielding := false)] else c.threads;
    var queues := if c.threads[from].stat.Running? then
                    c.queues[c.threads[from].priority := c.queues[c.threads[from].priority] + [from]]
                  else c.queues;
    Core(waiting[to := waiting[to].(stat := Running)], queues[p := queues[p][1..]], c.ready, to)
  }

  /** Some thread is ready. */
  ghost predicate Waiting(c: Core) {
    exists x :: x in c.threads && c.threads[x].stat.Ready?
  }

  /** The processor changes hands from c to d: of the ready threads one with the best priority runs,
      the thread that was still running is ready, and nobody else is affected. */
  ghost predicate GivesWay(c: Core, d: Core) {
    && c.current >= 0 && c.current in c.threads && d.current >= 0 && d.current in c.threads && d.current != c.current
    && c.threads[d.current].stat.Ready?
    && (forall x :: x in c.threads && c.threads[x].stat.Ready? ==>
        c.threads[d.current].priority <= c.threads[x].priority)
    && d.threads.Keys == c.threads.Keys && |d.queues| == |c.queues|
    && (forall x :: x in c.threads ==>
        d.threads[x] ==
        if x == d.current then c.threads[x].(stat := Running)
        else if x == c.current && c.threads[x].stat.Running? then c.threads[x].(stat := Stat.Ready, yielding := false)
        else c.threads[x])
    && (forall p :: 0 <= p < |c.queues| ==> TurnsOver(c, d, p))
  }

  /** The queue of priority p: who runs now was its first, and who was running is its last. */
  ghost predicate TurnsOver(c: Core, d: Core, p: nat)
    requires c.current in c.threads && d.current in c.threads && p < |c.queues| == |d.queues|
  {
    var (from, to) := (c.threads[c.current], c.threads[d.current]);
    c.queues[p] + (if from.stat.Running? && p == from.priority then [c.current as nat] else []) ==
      (if p == to.priority then [d.current as nat] else []) + d.queues[p]
  }

  /** What rt_schedule makes of c. */
  ghost predicate Rescheduled(c: Core, d: Core, lockNest: nat) {
    if lockNest == 0 && Waiting(c) && !Stays(c) then GivesWay(c, d) else Like(c, d)
  }

  lemma SwitchedGivesWay(c: Core, p: nat, d: Core)
    requires Ok(c) && c.current >= 0 && p < |c.queues| && c.queues[p] != [] && Like(Switched(c, p), d)
    requires forall x :: x in c.threads && c.threads[x].stat.Ready? ==> p <= c.threads[x].priority
    ensures GivesWay(c, d)
  {
    var to := c.queues[p][0];
    assert ThreadOk(c, c.current) && LevelOk(c, p) && to in Ids(c.queues[p]);
    forall q | 0 <= q < |c.queues|
      ensures TurnsOver(c, d, q)
    {
      assert LevelOk(c, q);
    }
  }

  /** Only who runs and who is ready may differ. */
  ghost predicate Steady(c: Core, d: Core) {
    Briefs(d.threads) == Briefs(c.threads) && |d.queues| == |c.queues|
  }

  lemma SwitchedSteady(c: Core, p: nat)
    requires Ok(c) && c.current >= 0 && p < |c.queues| && c.queues[p] != []
    ensures Steady(c, Switched(c, p))
  {
    assert ThreadOk(c, c.current) && LevelOk(c, p) && c.queues[p][0] in Ids(c.queues[p]);
  }

  /** Up to the bitmap, which Ok ties to the queues. */
  ghost predicate Like(c: Core, d: Core) {
    c.threads == d.threads && c.queues == d.queues && c.current == d.current
  }

  lemma SwitchOk(c: Core, p: nat, c1: Core, to: nat)
    requires Ok(c) && c.current >= 0 && p < |c.queues| && c.queues[p] != [] && to == c.queues[p][0]
    requires c.threads[c.current].stat.Running? ==>
      c.threads[c.current].priority < |c.queues| && (c.ready.wide ==> c.threads[c.current].number < |c.ready.table|)
    requires c1 == if c.threads[c.current].stat.Running? then
      Enqueued(c.(threads := c.threads[c.current := c.threads[c.current].(yielding := false)], current := NONE),
        c.current) else c.(current := NONE)
    ensures Ok(c1) && to in c1.threads && Prepared(c1, to) && c1.threads[to].priority == p
    ensures c1.threads[to].priority < |c1.queues| && (c1.ready.wide ==> c1.threads[to].number < |c1.ready.table|)
    ensures Ok(Removed(c1, to).(threads := c1.threads[to := c1.threads[to].(stat := Running)], current := to))
    ensures Like(Switched(c, p),
      Removed(c1, to).(threads := c1.threads[to := c1.threads[to].(stat := Running)], current := to))
  {
    var from := c.current;
    assert LevelOk(c, p) && to in Ids(c.queues[p]) && ThreadOk(c, from) && ThreadOk(c, to);
    var t := c.threads[from].(yielding := false);
    NotReady(c, from);
    if c.threads[from].stat.Running? {
      FluxOk(c, from, t);
      Vacant(c.(threads := c.threads[from := t]), from);
      EnqueuedOk(c.(threads := c.threads[from := t], current := NONE), from);
    } else {
      Unmanned(c);
    }
    assert ThreadOk(c1, to);
    RemovedOk(c1, to);
    var c2 := Removed(c1, to);
    Vacant(c2, to);
    Manned(c2, to);
    SettledOk(c2.(current := to), to, c2.threads[to].(stat := Running));
    assert c1.queues[p][0] == to;
    assert Unlinked(c1.queues[p], to) == c1.queues[p][1..];
  }

  /** Who is current matters only to the thread in flux. */
  lemma Vacant(c: Core, x: nat)
    requires OkBut(c, x) && c.current in {x, NONE}
    ensures OkBut(c.(current := NONE), x)
  {
    ReCurrent(c, c.(current := NONE), x);
  }

  lemma Manned(c: Core, x: nat)
    requires OkBut(c, x) && c.current == NONE
    ensures OkBut(c.(current := x), x)
  {
    ReCurrent(c, c.(current := x), x);
  }

  lemma ReCurrent(c: Core, d: Core, x: nat)
    requires OkBut(c, x) && c.current in {x, NONE} && d == c.(current := d.current) && d.current in {x, NONE}
    ensures OkBut(d, x)
  {
    forall p | 0 <= p < 256
      ensures LevelOk(d, p) && (p < |d.queues| ==> x !in Ids(d.queues[p]))
    {
      assert LevelOk(c, p);
    }
    forall y | y in d.threads && y != x
      ensures ThreadOk(d, y)
    {
      assert ThreadOk(c, y);
    }
  }

  lemma Unmanned(c: Core)
    requires Ok(c) && c.current >= 0 && !c.threads[c.current].stat.Running?
    ensures Ok(c.(current := NONE))
  {
    var d := c.(current := NONE);
    forall p | 0 <= p < 256
      ensures LevelOk(d, p)
    {
      assert LevelOk(c, p);
    }
    forall y | y in d.threads
      ensures ThreadOk(d, y)
    {
      assert ThreadOk(c, y) && ThreadOk(c, c.current);
    }
  }

  lemma StartOk(c: Core, p: nat, to: nat)
    requires Ok(c) && c.current == NONE && p < |c.queues| && c.queues[p] != [] && to == c.queues[p][0]
    ensures to in c.threads && c.threads[to].stat.Ready? && c.threads[to].priority == p
    ensures c.ready.wide ==> c.threads[to].number < |c.ready.table|
    ensures var t := c.threads[to].(stat := Running, yielding := false);
      Ok(Removed(c, to).(threads := c.threads[to := t], current := to))
  {
    assert LevelOk(c, p) && to in Ids(c.queues[p]) && ThreadOk(c, to);
    RemovedOk(c, to);
    Manned(Removed(c, to), to);
    SettledOk(Removed(c, to).(current := to), to, c.threads[to].(stat := Running, yielding := false));
  }

  lemma StartBest(c: Core, p: nat, to: nat, d: Core)
    requires Ok(c) && to in c.threads && c.threads[to].stat.Ready? && c.threads[to].priority == p
    requires forall x :: x in c.threads && c.threads[x].stat.Ready? ==> p <= c.threads[x].priority
    requires d.threads == c.threads[to := c.threads[to].(stat := Running, yielding := false)] && d.current == to
    ensures Best(d) && Briefs(d.threads) == Briefs(c.threads)
  {
  }

  /** The switch leaves nobody better waiting if p was the best ready priority and the thread
      that was running is no better. */
  lemma SwitchBest(c: Core, p: nat, d: Core)
    requires Ok(c) && c.current >= 0 && p < |c.queues| && c.queues[p] != [] && Like(Switched(c, p), d)
    requires forall x :: x in c.threads && c.threads[x].stat.Ready? ==> p <= c.threads[x].priority
    requires c.threads[c.current].stat.Running? ==> p <= c.threads[c.current].priority
    ensures Best(d)
  {
    assert LevelOk(c, p) && c.queues[p][0] in Ids(c.queues[p]);
  }

  class Scheduler {
    var threads: map<nat, Thread>
    var queues: seq<seq<nat>>
    var marks: Marks
    var current: int
    var lockNest: nat
    var defunct: seq<nat>

    ghost function Now(): Core
      reads this
    {
      Core(threads, queues, marks, current)
    }

    ghost predicate Valid()
      reads this
    {
      Ok(Now())
    }

    /** rt_schedule_insert_thread */
    method InsertThread(x: nat)
      requires x in threads && threads[x].priority < |queues| && (marks.wide ==> threads[x].number < |marks.table|)
      modifies this`threads, this`queues, this`marks
      ensures Now() == if x == current then
        old(Now()).(threads := old(threads)[x := old(threads)[x].(stat := Running)]) else Enqueued(old(Now()), x)
    {
      var t := threads[x];
      if x == current {
        threads := threads[x := t.(stat := Running)];
      } else {
        threads := threads[x := t.(stat := Stat.Ready)];
        queues := queues[t.priority := queues[t.priority] + [x]];
        marks := marks.Mark(t.number, t.numberMask, t.highMask);
      }
    }

    /** rt_schedule_remove_thread.  A thread's node can only be in the queue of its priority. */
    method RemoveThread(x: nat)
      requires x in threads && threads[x].priority < |queues| && (marks.wide ==> threads[x].number < |marks.table|)
      modifies this`queues, this`marks
      ensures Now() == Removed(old(Now()), x)
    {
      var t := threads[x];
      queues := queues[t.priority := Unlinked(queues[t.priority], x)];
      if queues[t.priority] == [] {
        marks := marks.Clear(t.number, t.numberMask, t.highMask);
      }
    }

    /** The part of rt_schedule that switches to the first thread of the best priority p. */
    method SwitchTo(p: nat)
      requires Valid() && current >= 0 && p < |queues| && queues[p] != []
      requires forall x :: x in threads && threads[x].stat.Ready? ==> p <= threads[x].priority
      requires threads[current].stat.Running? ==> p <= threads[current].priority
      modifies this`threads, this`queues, this`marks, this`current
      ensures Valid() && GivesWay(old(Now()), Now()) && Best(Now()) && Steady(old(Now()), Now())
    {
      ghost var c := Now();
      SwitchedSteady(c, p);
      var to, from := queues[p][0], current as nat;
      assert LevelOk(c, p) && to in Ids(queues[p]) && ThreadOk(c, to) && ThreadOk(c, from);
      current := to;
      if threads[from].stat == Running {
        threads := threads[from := threads[from].(yielding := false)];
        InsertThread(from);
      }
      SwitchOk(c, p, Now().(current := NONE), to);
      RemoveThread(to);
      threads := threads[to := threads[to].(stat := Running)];
      SwitchBest(c, p, Now());
      SwitchedGivesWay(c, p, Now());
    }

    /** The part of rt_schedule that lets the current thread go on. */
    method Stay()
      requires Valid() && current >= 0 && threads[current].stat.Running?
      modifies this`threads, this`queues, this`marks
      ensures Valid() && Like(old(Now()), Now())
    {
      ghost var c := Now();
      var from := current as nat;
      RemovedOk(c, from);
      NotReady(c, from);
      assert LevelOk(c, threads[from].priority) && ThreadOk(c, from);
      RemoveThread(from);
      threads := threads[from := threads[from].(stat := Running)];
      SettledOk(Removed(c, from), from, threads[from]);
    }

    /** What the bitmap says about the ready threads. */
    lemma Lookup()
      requires Valid() && threads != map[]
      ensures marks.group == 0 ==> forall x :: x in threads ==> !threads[x].stat.Ready?
      ensures marks.group != 0 ==> marks.Highest() < |queues| && queues[marks.Highest()] != []
      ensures marks.group != 0 ==>
        forall x :: x in threads && threads[x].stat.Ready? ==> marks.Highest() <= threads[x].priority
      ensures marks.group != 0 ==>
        exists x :: x in threads && threads[x].stat.Ready? && threads[x].priority == marks.Highest()
    {
      forall x | x in threads
        ensures marks.group == 0 ==> !threads[x].stat.Ready?
        ensures marks.group != 0 ==> marks.Highest() < |queues| && queues[marks.Highest()] != []
        ensures marks.group != 0 && threads[x].stat.Ready? ==> marks.Highest() <= threads[x].priority
      {
        LookupIs(Now(), x);
      }
      var y :| y in threads;
      if marks.group != 0 {
        assert LevelOk(Now(), marks.Highest()) && queues[marks.Highest()][0] in Ids(queues[marks.Highest()]);
      }
    }

    /** rt_schedule: unless the scheduler is locked, the best thread runs afterwards; the running
        thread gives way to a better one, and to an equal one only when it yields. */
    method Schedule()
      requires Valid() && current >= 0
      modifies this`threads, this`queues, this`marks, this`current
      ensures Valid() && Steady(old(Now()), Now()) && Rescheduled(old(Now()), Now(), lockNest)
      ensures lockNest == 0 && old(threads[current].stat.Running?) ==> Best(Now())
      ensures lockNest == 0 && (exists x :: x in old(threads) && old(threads)[x].stat.Ready?) ==> Best(Now())
    {
      assert current in threads;
      Lookup();
      if lockNest == 0 && marks.group != 0 {
        var p := marks.Highest();
        var t := threads[current];
        if t.stat == Running && (t.priority < p || (t.priority == p && !t.yielding)) {
          Stay();
        } else {
          SwitchTo(p);
        }
      }
    }

    constructor (levels: nat)
      requires 0 < levels <= 256
      ensures Valid() && |queues| == levels && threads == map[] && current == NONE && lockNest == 0
    {
      var wide := levels > 32;
      threads, queues, current, lockNest := map[], seq(levels, i => []), NONE, 0;
      marks := Marks(wide, 0, if wide then seq(32, i => 0) else []);
      new;
      ZeroSums(Now());
    }

    /** rt_thread_create */
    method Create(x: nat, priority: nat, tick: nat)
      requires Valid() && x !in threads && priority < |queues|
      modifies this`threads
      ensures Valid()
      ensures threads == old(threads)[x := Thread(Init, false, priority, priority, 0, 0, 0, tick, tick, false)]
    {
      ghost var c := Now();
      threads := threads[x := Thread(Init, false, priority, priority, 0, 0, 0, tick, tick, false)];
      CreatedOk(c, x, threads[x]);
    }

    /** rt_system_scheduler_start */
    method Begin()
      requires Valid() && current == NONE && marks.group != 0 && threads != map[]
      modifies this`threads, this`queues, this`marks, this`current
      ensures Valid() && Best(Now()) && Steady(old(Now()), Now())
      ensures current in old(threads)
      ensures threads == old(threads)[current := old(threads)[current].(stat := Running, yielding := false)]
      ensures |queues| == |old(queues)| && forall p :: 0 <= p < |queues| ==>
        old(queues)[p] == (if p == threads[current].priority then [current as nat] else []) + queues[p]
    {
      ghost var c := Now();
      Lookup();
      var p := marks.Highest();
      var to := queues[p][0];
      StartOk(c, p, to);
      current := to;
      RemoveThread(to);
      threads := threads[to := threads[to].(stat := Running, yielding := false)];
      StartBest(c, p, to, Now());
    }

    /** Setting a thread's error code to RT_EOK or to a timeout. */
    method SetTimedOut(x: nat, timedOut: bool)
      requires Valid() && x in threads
      modifies this`threads
      ensures Valid() && threads == old(threads)[x := old(threads)[x].(timedOut := timedOut)]
      ensures Briefs(threads) == old(Briefs(threads))[x := old(Briefs(threads)[x]).(timedOut := timedOut)]
    {
      ErrorOk(Now(), x, timedOut);
      threads := threads[x := threads[x].(timedOut := timedOut)];
    }

    /** rt_thread_resume, as far as the ready queues go: only a suspended thread is resumed. */
    method Resume(x: nat) returns (ok: bool)
      requires Valid() && x in threads
      modifies this`threads, this`queues, this`marks
      ensures Valid() && ok == old(threads[x].stat.Suspended?)
      ensures !ok ==> Now() == old(Now())
      ensures ok ==> Rejoins(old(Now()), Now(), x)
      ensures ok ==>
        && Briefs(threads) == old(Briefs(threads))[x := old(Briefs(threads)[x]).(asleep := false)]
        && |queues| == |old(queues)|
    {
      ok := threads[x].stat == Suspended;
      if ok {
        Wake(x);
      }
    }

    /** A suspended thread goes to the ready queues. */
    method Wake(x: nat)
      requires Valid() && x in threads && threads[x].stat.Suspended?
      modifies this`threads, this`queues, this`marks
      ensures Valid() && Rejoins(old(Now()), Now(), x)
      ensures x in threads && threads[x].stat in {Stat.Ready, Running}
      ensures Briefs(threads) == old(Briefs(threads))[x := old(Briefs(threads)[x]).(asleep := false)]
      ensures |queues| == |old(queues)|
    {
      WakeOk(Now(), x, threads[x]);
      BriefsUpdate(threads, x, threads[x].(stat := if x == current then Running else Stat.Ready));
      InsertThread(x);
    }

    /** rt_thread_startup */
    method Startup(x: nat)
      requires Valid() && x in threads && threads[x].stat.Init?
      modifies this`threads, this`queues, this`marks, this`current
      ensures Valid() && |queues| == |old(queues)|
      ensures Briefs(threads) ==
        old(Briefs(threads))[x := Brief(old(threads[x].initPriority), false, old(threads[x].timedOut))]
      ensures lockNest == 0 && current >= 0 ==> Best(Now())
      ensures x in threads && threads[x].stat in {Stat.Ready, Running}
      ensures threads[x].priority == old(threads[x].initPriority)
      ensures exists d, e ::
        && Changed(old(Now()), d, x) && Rejoins(d, e, x)
        && (if old(current) == NONE then e == Now() else Rescheduled(e, Now(), lockNest))
    {
      ghost var d := Enter(x);
      ghost var e := Now();
      if current != NONE {
        Schedule();
      }
      assert Changed(old(Now()), d, x) && Rejoins(d, e, x);
    }

    /** The part of rt_thread_startup before it schedules. */
    method Enter(x: nat) returns (ghost d: Core)
      requires Valid() && x in threads && threads[x].stat.Init?
      modifies this`threads, this`queues, this`marks
      ensures Valid() && |queues| == |old(queues)|
      ensures Changed(old(Now()), d, x) && Rejoins(d, Now(), x)
      ensures Briefs(threads) ==
        old(Briefs(threads))[x := Brief(old(threads[x].initPriority), false, old(threads[x].timedOut))]
      ensures x in threads && threads[x].stat.Ready? && threads[x].priority == old(threads[x].initPriority)
    {
      Prepare(x);
      d := Now();
      var _ := Resume(x);
    }

    /** The part of rt_thread_startup that sets the priority and its masks. */
    method Prepare(x: nat)
      requires Valid() && x in threads && threads[x].stat.Init?
      modifies this`threads
      ensures Valid() && x in threads && threads[x].stat.Suspended? && x != current
      ensures Changed(old(Now()), Now(), x)
      ensures threads[x].priority == old(threads[x].initPriority)
      ensures Briefs(threads) ==
        old(Briefs(threads))[x := Brief(old(threads[x].initPriority), true, old(threads[x].timedOut))]
    {
      ghost var c := Now();
      var t := threads[x];
      assert ThreadOk(c, x);
      t := t.(priority := t.initPriority);
      t := t.(number := if marks.wide then Number(t.priority) else t.number,
              numberMask := NumberMask(marks.wide, t.priority),
              highMask := if marks.wide then HighMask(t.priority) else t.highMask);
      t := t.(stat := Suspended, yielding := false);
      BriefsUpdate(threads, x, t);
      threads := threads[x := t];
      NotReady(c, x);
      SettledOk(c, x, t);
    }

    /** rt_thread_suspend: a ready or running thread leaves the ready queues. */
    method Suspend(x: nat) returns (ok: bool)
      requires Valid() && x in threads
      modifies this`threads, this`queues, this`marks
      ensures Valid() && ok == (old(threads[x].stat) in {Stat.Ready, Running})
      ensures !ok ==> Now() == old(Now())
      ensures ok ==>
        && threads == old(threads)[x := old(threads)[x].(stat := Suspended)]
        && forall p :: 0 <= p < |queues| ==> x !in Ids(queues[p])
      ensures ok ==> Briefs(threads) == old(Briefs(threads))[x := old(Briefs(threads)[x]).(asleep := true)]
      ensures ok ==>
        && |queues| == |old(queues)|
        && forall p :: 0 <= p < |queues| ==> queues[p] == Unlinked(old(queues)[p], x)
    {
      ok := threads[x].stat == Stat.Ready || threads[x].stat == Running;
      if ok {
        ghost var c := Now();
        RemovedOk(c, x);
        OnlyThere(c, x);
        RemoveThread(x);
        FluxLevels(Now(), x);
        BriefsUpdate(threads, x, threads[x].(stat := Suspended));
        threads := threads[x := threads[x].(stat := Suspended)];
        assert ThreadOk(c, x);
        SettledOk(Removed(c, x), x, threads[x]);
      }
    }

    /** rt_thread_timeout: the wait of a suspended thread is over. */
    method Timeout(x: nat)
      requires Valid() && x in threads && threads[x].stat.Suspended? && current >= 0
      modifies this`threads, this`queues, this`marks, this`current
      ensures Valid() && |queues| == |old(queues)|
      ensures Briefs(threads) == old(Briefs(threads))[x := old(Briefs(threads)[x]).(timedOut := true, asleep := false)]
      ensures lockNest == 0 ==> Best(Now())
      ensures exists d, e ::
        && d == old(Now()).(threads := old(threads)[x := old(threads)[x].(timedOut := true)])
        && Rejoins(d, e, x) && Rescheduled(e, Now(), lockNest)
    {
      assert ThreadOk(Now(), x);
      SetTimedOut(x, true);
      ghost var d := Now();
      Wake(x);
      ghost var e := Now();
      Schedule();
      assert Rejoins(d, e, x) && Rescheduled(e, Now(), lockNest);
    }

    /** The change-priority branch of rt_thread_control: a ready thread moves to the end of its
        new queue. */
    method ChangePriority(x: nat, priority: nat)
      requires Valid() && x in threads && priority < |queues|
      modifies this`threads, this`queues, this`marks
      ensures Valid()
      ensures |queues| == |old(queues)| && threads.Keys == old(threads).Keys && threads[x].priority == priority
      ensures var (t, u) := (threads[x], old(threads[x]));
        t == u.(priority := priority, number := t.number, numberMask := t.numberMask, highMask := t.highMask)
      ensures Briefs(threads) == old(Briefs(threads))[x := old(Briefs(threads)[x]).(priority := priority)]
      ensures forall y :: y in threads && y != x ==> threads[y] == old(threads)[y]
      ensures old(threads[x].stat.Ready?) ==> forall p :: 0 <= p < |queues| ==>
        queues[p] == Unlinked(old(queues)[p], x) + if p == priority then [x] else []
      ensures !old(threads[x].stat.Ready?) ==> queues == old(queues)
    {
      ghost var c := Now();
      assert ThreadOk(c, x);
      var t := threads[x].(priority := priority,
        number := if marks.wide then Number(priority) else threads[x].number,
        numberMask := NumberMask(marks.wide, priority),
        highMask := if marks.wide then HighMask(priority) else threads[x].highMask);
      BriefsUpdate(threads, x, t);
      if threads[x].stat == Stat.Ready {
        Requeue(x, t);
      } else {
        NotReady(c, x);
        SettledOk(c, x, t);
        threads := threads[x := t];
      }
    }

    /** A ready thread goes from its queue to the end of its new one. */
    method Requeue(x: nat, t: Thread)
      requires Valid() && x in threads && threads[x].stat.Ready? && t.stat.Ready?
      requires t.priority < |queues| && t.initPriority < |queues| && MasksOk(t, marks.wide)
      modifies this`threads, this`queues, this`marks
      ensures Valid() && threads == old(threads)[x := t]
      ensures |queues| == |old(queues)| && forall p :: 0 <= p < |queues| ==>
        queues[p] == Unlinked(old(queues)[p], x) + if p == t.priority then [x] else []
    {
      assert ThreadOk(Now(), x);
      OnlyThere(Now(), x);
      RemovedOk(Now(), x);
      RemoveThread(x);
      FluxOk(Now(), x, t);
      threads := threads[x := t];
      EnqueuedOk(Now(), x);
      InsertThread(x);
    }

    /** rt_thread_detach and rt_thread_delete: the thread is closed, and waits for the idle
        thread if it is not a plain system object. */
    method Close(x: nat, keep: bool)
      requires Valid() && x in threads && !threads[x].stat.Closed?
      requires forall y :: y in defunct ==> y in threads && threads[y].stat.Closed?
      modifies this`threads, this`queues, this`marks, this`defunct
      ensures Valid() && threads == old(threads)[x := old(threads)[x].(stat := Closed, yielding := false)]
      ensures |queues| == |old(queues)|
      ensures forall p :: 0 <= p < |queues| ==> queues[p] == Unlinked(old(queues)[p], x)
      ensures defunct == (if keep then [x] else []) + old(defunct)
      ensures forall y :: y in defunct ==> y in threads && threads[y].stat.Closed?
    {
      ghost var c := Now();
      assert ThreadOk(c, x);
      OnlyThere(c, x);
      if threads[x].stat != Init {
        RemovedOk(c, x);
        RemoveThread(x);
      } else {
        NotReady(c, x);
        FluxLevels(c, x);
      }
      threads := threads[x := threads[x].(stat := Closed, yielding := false)];
      defunct := (if keep then [x] else []) + defunct;
      ClosedOk(c, x, Now());
    }

    /** rt_thread_exit */
    method Exit(keep: bool)
      requires Valid() && current >= 0 && !threads[current].stat.Closed?
      requires forall y :: y in defunct ==> y in threads && threads[y].stat.Closed?
      modifies this`threads, this`queues, this`marks, this`current, this`defunct
      ensures Valid() && |queues| == |old(queues)|
      ensures Briefs(threads) == old(Briefs(threads))[old(current) := old(Briefs(threads)[current]).(asleep := false)]
      ensures lockNest == 0 && (exists x :: x in old(threads) && old(threads)[x].stat.Ready?) ==> Best(Now())
      ensures old(current) in threads && threads[old(current)].stat.Closed?
      ensures defunct == (if keep then [old(current) as nat] else []) + old(defunct)
      ensures exists d: Core ::
        && d.threads == old(threads)[old(current) := old(threads[current]).(stat := Closed, yielding := false)]
        && d.queues == old(queues) && d.current == old(current) && Rescheduled(d, Now(), lockNest)
    {
      ghost var c := Now();
      var x := current as nat;
      NotReady(c, x);
      BriefsUpdate(threads, x, threads[x].(stat := Closed, yielding := false));
      Close(x, keep);
      assert forall y :: y in c.threads && c.threads[y].stat.Ready? ==> threads[y].stat.Ready?;
      FluxLevels(c, x);
      ghost var d := Now();
      assert d.queues == c.queues;
      Schedule();
      assert Rescheduled(d, Now(), lockNest);
    }

    method EnterCritical()
      modifies this`lockNest
      ensures lockNest == old(lockNest) + 1
    {
      lockNest := lockNest + 1;
    }

    /** rt_exit_critical: leaving the outermost critical section schedules. */
    method ExitCritical()
      requires Valid()
      modifies this`threads, this`queues, this`marks, this`current, this`lockNest
      ensures Valid() && Steady(old(Now()), Now()) && lockNest == if old(lockNest) <= 1 then 0 else old(lockNest) - 1
      ensures lockNest > 0 || old(current) == NONE ==> Now() == old(Now())
      ensures lockNest == 0 && old(current) != NONE ==> Rescheduled(old(Now()), Now(), 0)
      ensures lockNest == 0 && old(current >= 0 && current in threads && threads[current].stat.Running?) ==> Best(Now())
    {
      var nest: int := lockNest - 1;
      if nest <= 0 {
        lockNest := 0;
        if current != NONE {
          Schedule();
        }
      } else {
        lockNest := nest;
      }
    }

    /** The time slice part of rt_tick_increase: threads of the best priority take turns. */
    method Slice()
      requires Valid() && current >= 0
      modifies this`threads, this`queues, this`marks, this`current
      ensures Valid()
      ensures CountsDown(old(Now()), Now(), lockNest)
      ensures lockNest == 0 && Rotates(old(Now())) ==>
        && Rotates(Now()) && Lengths(Now()) == Lengths(old(Now()))
        && Slices(TurnOf(old(Now())).ring, Lengths(old(Now())))
        && TurnOf(Now()) == Tick(TurnOf(old(Now())), Lengths(old(Now())))
    {
      ghost var c := Now();
      var x := current as nat;
      assert ThreadOk(c, x);
      NotReady(c, x);
      var t := threads[x].(remaining := if threads[x].remaining == 0 then MAX_TICK else threads[x].remaining - 1);
      if t.remaining == 0 {
        t := threads[x].(remaining := threads[x].initTick, yielding := true);
        threads := threads[x := t];
        SettledOk(c, x, t);
        ghost var d := Now();
        assert d == SliceOver(c);
        Schedule();
        if lockNest == 0 && Rotates(c) {
          Expired(c, d, Now());
        }
      } else {
        threads := threads[x := t];
        SettledOk(c, x, t);
        if Rotates(c) {
          NotExpired(c, Now());
        }
      }
    }

    /** The time slice over n ticks: the simple rule of who runs is followed tick by tick. */
    method SliceTimes(n: nat)
      requires Rotates(Now()) && lockNest == 0
      modifies this`threads, this`queues, this`marks, this`current
      ensures Rotates(Now()) && Lengths(Now()) == Lengths(old(Now()))
      ensures Slices(TurnOf(old(Now())).ring, Lengths(old(Now())))
      ensures TurnOf(Now()) == Ticks(TurnOf(old(Now())), Lengths(old(Now())), n)
    {
      ghost var start, len := TurnOf(Now()), Lengths(Now());
      RotatesSlices(Now());
      var i := 0;
      while i < n
        invariant i <= n && Rotates(Now()) && Lengths(Now()) == len && TurnOf(Now()) == Ticks(start, len, i)
      {
        Slice();
        TicksMore(start, len, i);
        i := i + 1;
      }
    }

    /** Fairness: beginning with a fresh slice, after the slices of the first k threads of the
        ring and i ticks more, it is the next thread's turn, and it has the rest of its slice. */
    method TakeTurns(ghost k: nat, ghost i: nat, n: nat)
      requires Rotates(Now()) && lockNest == 0 && threads[current].remaining == threads[current].initTick
      requires k < |TurnOf(Now()).ring| && i < Lengths(Now())[TurnOf(Now()).ring[k]]
      requires n == Sum(TurnOf(Now()).ring[..k], Lengths(Now())) + i
      modifies this`threads, this`queues, this`marks, this`current
      ensures Rotates(Now()) && current == TurnOf(old(Now())).ring[k]
      ensures threads[current].remaining == threads[current].initTick - i
    {
      SliceTimes(n);
      Fair(TurnOf(old(Now())).ring, Lengths(old(Now())), k, i);
    }
  }

  lemma RotatesSlices(c: Core)
    requires Rotates(c)
    ensures Slices(TurnOf(c).ring, Lengths(c))
  {
    var own := c.threads[c.current].priority;
    assert LevelOk(c, own);
    assert forall x :: x in c.queues[own] ==> x in Ids(c.queues[own]);
  }

  /** One tick less is left of the slice of the running thread; at its end there is a fresh one, and
      rt_schedule is called. */
  ghost predicate CountsDown(c: Core, d: Core, lockNest: nat) {
    && c.current >= 0 && c.current in c.threads
    && var left := c.threads[c.current].remaining;
       if left == 1 then Rescheduled(SliceOver(c), d, lockNest) else
         d == c.(threads := c.threads[c.current := c.threads[c.current].(remaining :=
           (if left == 0 then MAX_TICK else left - 1))])
  }

  /** The threads of the current priority, the running one first. */
  ghost function TurnOf(c: Core): Turn
    requires c.current >= 0 && c.current in c.threads && c.threads[c.current].priority < |c.queues|
  {
    Turn([c.current] + c.queues[c.threads[c.current].priority], c.threads[c.current].remaining)
  }

  ghost function Lengths(c: Core): map<nat, nat> {
    map x | x in c.threads :: c.threads[x].initTick
  }

  /** The best thread runs, and those waiting behind it have fresh slices. */
  ghost predicate Rotates(c: Core) {
    && Ok(c) && Best(c) && c.threads[c.current].priority < |c.queues|
    && 0 < c.threads[c.current].remaining <= c.threads[c.current].initTick
    && (c.threads[c.current].yielding ==> c.queues[c.threads[c.current].priority] == [])
    && (forall x :: x in Ids(c.queues[c.threads[c.current].priority]) ==> x in c.threads && Fresh(c.threads[x]))
  }

  ghost predicate Fresh(t: Thread) {
    t.remaining == t.initTick > 0 && !t.yielding
  }

  /** The running thread gets a fresh slice and is to yield. */
  ghost function SliceOver(c: Core): Core
    requires c.current >= 0 && c.current in c.threads
  {
    var t := c.threads[c.current];
    c.(threads := c.threads[c.current := t.(remaining := t.initTick, yielding := true)])
  }

  lemma NotExpired(c: Core, e: Core)
    requires Rotates(c) && c.threads[c.current].remaining > 1 && Ok(e)
    requires e == c.(threads := e.threads)
    requires e.threads == c.threads[c.current := c.threads[c.current].(remaining := c.threads[c.current].remaining - 1)]
    ensures Rotates(e) && Lengths(e) == Lengths(c)
    ensures Slices(TurnOf(c).ring, Lengths(c))
    ensures TurnOf(e) == Tick(TurnOf(c), Lengths(c))
  {
    assert LevelOk(c, c.threads[c.current].priority);
    assert forall x :: x in c.queues[c.threads[c.current].priority] ==>
      x in Ids(c.queues[c.threads[c.current].priority]);
  }

  /** The slice of the running thread is over (d), and rt_schedule has run (e). */
  lemma Expired(c: Core, d: Core, e: Core)
    requires Rotates(c) && c.threads[c.current].remaining == 1 && Ok(d) && Ok(e)
    requires d == SliceOver(c) && Rescheduled(d, e, 0)
    ensures Rotates(e) && Lengths(e) == Lengths(c)
    ensures Slices(TurnOf(c).ring, Lengths(c))
    ensures TurnOf(e) == Tick(TurnOf(c), Lengths(c))
  {
    var cur: nat := c.current;
    var own := c.threads[cur].priority;
    assert LevelOk(d, own) && ThreadOk(c, cur);
    if c.queues[own] == [] {
      assert forall x :: x in d.threads && d.threads[x].stat.Ready? && d.threads[x].priority == own ==> ThreadOk(d, x);
      assert Stays(d);
    } else {
      Rotated(c, d, e, cur, own);
    }
  }

  /** The running thread has gone to the end of its queue, the first one there runs. */
  ghost predicate Rotation(c: Core, e: Core, cur: nat, own: nat)
    requires cur in c.threads && own < |c.queues| && c.queues[own] != []
  {
    var to := c.queues[own][0];
    var t := c.threads[cur].(remaining := c.threads[cur].initTick, stat := Stat.Ready, yielding := false);
    && to in c.threads && to != cur && e.current == to
    && e.threads == c.threads[cur := t][to := c.threads[to].(stat := Running)]
    && e.queues == c.queues[own := c.queues[own][1..] + [cur]]
  }

  lemma Rotated(c: Core, d: Core, e: Core, cur: nat, own: nat)
    requires Rotates(c) && c.threads[c.current].remaining == 1 && Ok(d) && Ok(e)
    requires d == SliceOver(c) && Rescheduled(d, e, 0)
    requires cur == c.current && own == c.threads[cur].priority && c.queues[own] != []
    ensures Rotates(e) && Lengths(e) == Lengths(c)
    ensures Slices(TurnOf(c).ring, Lengths(c))
    ensures TurnOf(e) == Tick(TurnOf(c), Lengths(c))
  {
    SwitchedRotation(c, d, e, cur, own);
    RotationKeeps(c, e, cur, own);
    RotationTurn(c, e, cur, own);
  }

  /** Switching to the head of its own queue puts the running thread at the end of it. */
  lemma SwitchedRotation(c: Core, d: Core, e: Core, cur: nat, own: nat)
    requires Rotates(c) && Ok(d)
    requires d == SliceOver(c) && Rescheduled(d, e, 0)
    requires cur == c.current && own == c.threads[cur].priority && c.queues[own] != []
    ensures Rotation(c, e, cur, own)
  {
    var to := c.queues[own][0];
    assert LevelOk(d, own) && to in Ids(c.queues[own]);
    assert d.threads[to].stat.Ready? && d.threads[e.current].priority == own;
    assert TurnsOver(d, e, own);
    assert (c.queues[own] + [cur])[0] == to;
    assert e.queues[own] == (c.queues[own] + [cur])[1..] == c.queues[own][1..] + [cur];
    forall p | 0 <= p < |c.queues| && p != own
      ensures e.queues[p] == c.queues[p]
    {
      assert TurnsOver(d, e, p);
      assert d.threads[d.current].priority == own && d.threads[e.current].priority == own;
      assert c.queues[p] + [] == c.queues[p] && [] + e.queues[p] == e.queues[p];
    }
  }

  lemma RotationIds(c: Core, e: Core, cur: nat, own: nat)
    requires Ok(c) && own < |c.queues| && c.queues[own] != [] && cur in c.threads && Rotation(c, e, cur, own)
    ensures Ids(e.queues[own]) == Ids(c.queues[own]) - {c.queues[own][0]} + {cur}
    ensures c.queues[own][0] in Ids(c.queues[own]) && LevelOk(c, own)
  {
    var queue := c.queues[own];
    assert LevelOk(c, own);
    IdsConcat(queue[1..], [cur]);
    OnceTail(queue);
  }

  lemma RotationKeeps(c: Core, e: Core, cur: nat, own: nat)
    requires Rotates(c) && Ok(e)
    requires cur == c.current && own == c.threads[cur].priority && c.queues[own] != [] && Rotation(c, e, cur, own)
    ensures Rotates(e)
  {
    RotationIds(c, e, cur, own);
  }

  lemma RotationTurn(c: Core, e: Core, cur: nat, own: nat)
    requires Rotates(c) && c.threads[c.current].remaining == 1 && Rotates(e)
    requires cur == c.current && own == c.threads[cur].priority && c.queues[own] != [] && Rotation(c, e, cur, own)
    ensures Lengths(e) == Lengths(c)
    ensures Slices(TurnOf(c).ring, Lengths(c))
    ensures TurnOf(e) == Tick(TurnOf(c), Lengths(c))
  {
    RotationIds(c, e, cur, own);
    var queue := c.queues[own];
    assert forall x :: x in queue ==> x in Ids(queue);
    assert ([cur] + queue)[1..] == queue;
    assert queue + [cur] == [queue[0]] + (queue[1..] + [cur]);
  }

  /** Thread x goes to the end of the queue of its priority, unless it is the current thread, which
      then goes on running. */
  ghost predicate Rejoins(c: Core, d: Core, x: nat) {
    && x in c.threads && d.current == c.current && |d.queues| == |c.queues|
    && d.threads == c.threads[x := c.threads[x].(stat := if x == c.current then Running else Stat.Ready)]
    && (forall p :: 0 <= p < |c.queues| ==>
        d.queues[p] == c.queues[p] + if x != c.current && p == c.threads[x].priority then [x] else [])
  }

  /** Only thread x differs, which has its initial priority now and is suspended. */
  ghost predicate Changed(c: Core, d: Core, x: nat) {
    && x in c.threads && x in d.threads && d == c.(threads := c.threads[x := d.threads[x]])
    && d.threads[x].stat.Suspended? && !d.threads[x].yielding
    && d.threads[x].priority == d.threads[x].initPriority == c.threads[x].initPriority
    && d.threads[x].initTick == c.threads[x].initTick && d.threads[x].remaining == c.threads[x].remaining
    && d.threads[x].timedOut == c.threads[x].timedOut
  }

  lemma WakeOk(c: Core, x: nat, t: Thread)
    requires Ok(c) && x in c.threads && t == c.threads[x] && t.stat.Suspended?
    ensures t.priority < |c.queues| && (c.ready.wide ==> t.number < |c.ready.table|)
    ensures Ok(if x == c.current then c.(threads := c.threads[x := t.(stat := Running)]) else Enqueued(c, x))
  {
    assert ThreadOk(c, x);
    NotReady(c, x);
    if x == c.current {
      SettledOk(c, x, t.(stat := Running));
    } else {
      EnqueuedOk(c, x);
    }
  }

  lemma ClosedOk(c: Core, x: nat, d: Core)
    requires Ok(c) && x in c.threads && !c.threads[x].stat.Closed?
    requires c.threads[x].priority < |c.queues|
    requires (c.ready.wide && !c.threads[x].stat.Init? ==> c.threads[x].number < |c.ready.table|)
    requires var left := if c.threads[x].stat.Init? then c else Removed(c, x);
      d == left.(threads := c.threads[x := c.threads[x].(stat := Closed, yielding := false)])
    ensures Ok(d)
  {
    assert ThreadOk(c, x);
    if c.threads[x].stat.Init? {
      NotReady(c, x);
      SettledOk(c, x, d.threads[x]);
    } else {
      RemovedOk(c, x);
      SettledOk(Removed(c, x), x, d.threads[x]);
    }
  }

  lemma ErrorOk(c: Core, x: nat, timedOut: bool)
    requires Ok(c) && x in c.threads
    ensures Ok(c.(threads := c.threads[x := c.threads[x].(timedOut := timedOut)]))
  {
    var d := c.(threads := c.threads[x := c.threads[x].(timedOut := timedOut)]);
    forall p | 0 <= p < 256
      ensures LevelOk(d, p)
    {
      assert LevelOk(c, p);
    }
    forall y | y in d.threads
      ensures ThreadOk(d, y)
    {
      assert ThreadOk(c, y);
    }
  }

  /** A new thread disturbs nobody. */
  lemma CreatedOk(c: Core, x: nat, t: Thread)
    requires Ok(c) && x !in c.threads && t.stat.Init? && t.priority < |c.queues| && t.initPriority < |c.queues|
    ensures Ok(c.(threads := c.threads[x := t]))
  {
    var d := c.(threads := c.threads[x := t]);
    forall p | 0 <= p < 256
      ensures LevelOk(d, p)
    {
      assert LevelOk(c, p);
    }
    forall y | y in d.threads
      ensures ThreadOk(d, y)
    {
      if y != x {
        assert ThreadOk(c, y);
      }
    }
  }

  lemma ZeroSums(c: Core)
    requires c.threads == map[] && 0 < |c.queues| <= 256 && c.current == NONE
    requires forall p :: 0 <= p < |c.queues| ==> c.queues[p] == []
    requires c.ready.group == 0 && c.ready.wide == (|c.queues| > 32)
    requires c.ready.wide ==> |c.ready.table| == 32 && forall n :: 0 <= n < 32 ==> c.ready.table[n] == 0
    ensures Ok(c)
  {
    Sizes();
    forall n | 0 <= n < |c.ready.table| && c.ready.wide
      ensures c.ready.Summed(n)
    {
      ZeroBit(n);
    }
    forall p | 0 <= p < 256
      ensures LevelOk(c, p)
    {
      HighestIs(c.ready, p);
    }
  }

  /** A thread's node is in no other queue than that of its priority. */
  lemma OnlyThere(c: Core, x: nat)
    requires Ok(c) && x in c.threads && c.threads[x].priority < |c.queues|
    ensures forall p :: 0 <= p < |c.queues| && p != c.threads[x].priority ==> Unlinked(c.queues[p], x) == c.queues[p]
  {
    forall p | 0 <= p < |c.queues| && p != c.threads[x].priority
      ensures Unlinked(c.queues[p], x) == c.queues[p]
    {
      assert LevelOk(c, p);
      assert x !in Ids(c.queues[p]);
    }
  }

  lemma FluxLevels(c: Core, x: nat)
    requires OkBut(c, x)
    ensures forall p :: 0 <= p < |c.queues| ==> x !in Ids(c.queues[p])
  {
    forall p | 0 <= p < |c.queues|
      ensures x !in Ids(c.queues[p])
    {
      assert LevelOk(c, p);
    }
  }

  /** The running thread keeps the processor. */
  ghost predicate Stays(c: Core) {
    && c.current >= 0 && c.current in c.threads && c.threads[c.current].stat.Running?
    && (forall x :: x in c.threads && c.threads[x].stat.Ready? ==>
      var (own, other) := (c.threads[c.current], c.threads[x]);
      own.priority < other.priority || (own.priority == other.priority && !own.yielding))
  }
}
