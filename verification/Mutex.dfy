/** rt_mutex_take and rt_mutex_release (ipc.c) on top of the scheduler. */
module Mutex {
  import opened Lists
  import opened ReadyQueues
  import opened Scheduler
  import opened MutexRules

  datatype Outcome = Taken | TimedOut | Blocked

  const MAX_HOLD: nat := 0xff

  class Mutex {
    const sched: Scheduler
    var value: nat
    var owner: int
    var hold: nat
    var original: nat
    var waiting: seq<nat>
    ghost const base: map<nat, nat>
    ghost var takes: map<nat, nat>
    ghost var inside: set<nat>
    ghost var asked: set<nat>

    ghost function Now(): View
      reads this, sched
    {
      View(value, owner, hold, original, waiting, takes, inside, asked, Briefs(sched.threads))
    }

    ghost predicate InRange()
      reads this, sched
    {
      forall x :: x in base ==> base[x] < |sched.queues|
    }

    ghost predicate Valid()
      reads this, sched
    {
      sched.Valid() && Fine(base, Now()) && InRange()
    }

    /** The current thread runs and is not in the middle of rt_mutex_take. */
    ghost predicate Calls(t: int)
      reads this, sched
    {
      t == sched.current >= 0 && t in sched.threads && t in base && sched.threads[t].stat.Running? && t !in inside
    }

    constructor (sched: Scheduler)
      requires sched.Valid()
      ensures Valid() && this.sched == sched && owner == FREE
      ensures base == map x | x in sched.threads :: sched.threads[x].priority
    {
      this.sched := sched;
      value, owner, hold, original, waiting := 1, FREE, 0, NO_PRIORITY, [];
      base := map x | x in sched.threads :: sched.threads[x].priority;
      takes := map x | x in sched.threads :: 0;
      inside, asked := {}, {};
      new;
      forall x | x in base
        ensures ThreadFine(base, Now(), x) && base[x] < |sched.queues|
      {
        assert ThreadOk(sched.Now(), x);
      }
    }

    /** The search of rt_ipc_list_suspend under RT_IPC_FLAG_PRIO. */
    method FindPlace(priority: nat) returns (p: nat)
      requires Valid()
      ensures IsPlace(waiting, base, p, priority)
    {
      p := 0;
      while p < |waiting|
        invariant p <= |waiting|
        invariant forall i :: 0 <= i < p ==> base[waiting[i]] <= priority
      {
        assert waiting[p] in Ids(waiting) && ThreadFine(base, Now(), waiting[p]);
        if priority < sched.threads[waiting[p]].priority {
          return;
        }
        p := p + 1;
      }
    }

    /** The error code of the calling thread is set. */
    method SetError(t: nat, timedOut: bool)
      requires Valid() && Calls(t)
      modifies sched`threads
      ensures Valid() && Calls(t)
      ensures OnlyError(old(sched.threads), sched.threads, t, timedOut)
      ensures Briefs(sched.threads) ==
        old(Briefs(sched.threads))[t := old(Briefs(sched.threads)[t]).(timedOut := timedOut)]
      ensures old(Waiting(sched.Now())) ==> Waiting(sched.Now())
    {
      ghost var v := Now();
      assert ThreadFine(base, v, t);
      ghost var c := sched.Now();
      sched.SetTimedOut(t, timedOut);
      ElsewhereFine(base, v, Now());
      if Waiting(c) {
        ghost var x :| x in c.threads && c.threads[x].stat.Ready?;
        assert x in sched.threads && sched.threads[x].stat.Ready?;
      }
    }

    /** Any thread that is ready or runs may be suspended for another reason. */
    method SuspendElsewhere(t: nat) returns (ok: bool)
      requires Valid() && t in sched.threads
      modifies sched`threads, sched`queues, sched`marks
      ensures Valid() && ok == (old(sched.threads[t].stat) in {Stat.Ready, Running})
      ensures ok ==> t in sched.threads && sched.threads[t].stat.Suspended?
      ensures !ok ==> Now() == old(Now())
    {
      ghost var v := Now();
      assert t in Ids(waiting) ==> t in base && ThreadFine(base, v, t);
      ok := sched.Suspend(t);
      ElsewhereFine(base, v, Now());
    }

    /** Any suspended thread that does not wait for the mutex may be resumed. */
    method ResumeElsewhere(t: nat) returns (ok: bool)
      requires Valid() && t in sched.threads && t !in Ids(waiting)
      modifies sched`threads, sched`queues, sched`marks
      ensures Valid() && ok == old(sched.threads[t].stat.Suspended?)
      ensures t in sched.threads && !sched.threads[t].stat.Suspended?
      ensures !ok ==> Now() == old(Now())
    {
      ghost var v := Now();
      ok := sched.Resume(t);
      ElsewhereFine(base, v, Now());
    }

    /** The scheduler may run at any time. */
    method ScheduleElsewhere()
      requires Valid() && sched.current >= 0
      modifies sched`threads, sched`queues, sched`marks, sched`current
      ensures Valid() && Now() == old(Now()) && Rescheduled(old(sched.Now()), sched.Now(), sched.lockNest)
    {
      Reschedule();
    }

    /** rt_mutex_take up to where it returns or its thread is suspended. */
    method Take(time: int) returns (r: Outcome)
      requires Valid() && Calls(sched.current) && (owner == sched.current ==> hold < MAX_HOLD)
      modifies this`value, this`owner, this`hold, this`original, this`waiting, this`takes, this`inside, this`asked
      modifies sched`threads, sched`queues, sched`marks, sched`current
      ensures Valid()
      ensures r == Taken <==> old(owner) == FREE || old(owner) == old(sched.current)
      ensures r == Taken ==> owner == old(sched.current) && hold == old(hold) + 1 && waiting == old(waiting)
      ensures r == TimedOut <==> old(owner) != FREE && old(owner) != old(sched.current) && time == 0
      ensures r == TimedOut ==> owner == old(owner) && hold == old(hold) && waiting == old(waiting)
      ensures r == Blocked ==> owner == old(owner) && hold == old(hold) && inside == old(inside) + {old(sched.current)}
      ensures r == Blocked ==>
        exists p: nat ::
          && IsPlace(old(waiting), base, p, base[old(sched.current)])
          && waiting == Inserted(old(waiting), p, old(sched.current))
      ensures r != Blocked ==> inside == old(inside) && sched.current == old(sched.current) && sched.current >= 0
      ensures r != Blocked ==> OnlyError(old(sched.threads), sched.threads, sched.current, r == TimedOut)
      ensures r == Blocked ==> Blocks(old(Briefs(sched.threads)), Briefs(sched.threads), old(sched.current), owner)
      ensures r == Blocked && sched.lockNest == 0 && old(Waiting(sched.Now())) ==> Best(sched.Now())
    {
      var t := sched.current as nat;
      ghost var c, b := sched.threads, Briefs(sched.threads);
      SetError(t, false);
      ghost var c1, b1 := sched.threads, Briefs(sched.threads);
      r := Attempt(t, time);
      if r == Blocked {
        ErrorBlocks(b, b1, Briefs(sched.threads), t, owner);
      } else {
        ErrorOnce(c, c1, sched.threads, t, r == TimedOut);
      }
    }

    /** The branches of rt_mutex_take. */
    method Attempt(t: nat, time: int) returns (r: Outcome)
      requires Valid() && Calls(t) && !sched.threads[t].timedOut && (owner == t ==> hold < MAX_HOLD)
      modifies this`value, this`owner, this`hold, this`original, this`waiting, this`takes, this`inside, this`asked
      modifies sched`threads, sched`queues, sched`marks, sched`current
      ensures Valid()
      ensures r == Taken <==> old(owner) == FREE || old(owner) == t
      ensures r == Taken ==> owner == t && hold == old(hold) + 1
      ensures r != Taken ==> owner == old(owner) && hold == old(hold)
      ensures r == Blocked <==> old(owner) != FREE && old(owner) != t && time != 0
      ensures r != Blocked ==> waiting == old(waiting) && inside == old(inside) && sched.current == t
      ensures r != Blocked ==> OnlyError(old(sched.threads), sched.threads, t, r == TimedOut)
      ensures r == Blocked ==> inside == old(inside) + {t}
      ensures r == Blocked ==>
        exists p: nat :: IsPlace(old(waiting), base, p, base[t]) && waiting == Inserted(old(waiting), p, t)
      ensures r == Blocked ==> Blocks(old(Briefs(sched.threads)), Briefs(sched.threads), t, owner)
      ensures r == Blocked && sched.lockNest == 0 && old(Waiting(sched.Now())) ==> Best(sched.Now())
    {
      assert ThreadFine(base, Now(), t);
      if owner == t || value > 0 {
        TakeFree(t);
        r := Taken;
      } else if time == 0 {
        SetError(t, true);
        r := TimedOut;
      } else {
        Block(t);
        r := Blocked;
      }
    }

    /** The part of rt_mutex_take in which the thread gets the mutex at once. */
    method TakeFree(t: nat)
      requires Valid() && Calls(t) && (owner == t || value > 0) && (owner == t ==> hold < MAX_HOLD)
      modifies this`value, this`owner, this`hold, this`original, this`takes, this`asked
      ensures Valid() && owner == t && hold == old(hold) + 1 && (old(owner) == FREE || old(owner) == t)
    {
      if owner == t {
        Recount(hold + 1);
      } else {
        Acquire(t);
      }
    }

    method Recount(newHold: nat)
      requires Valid() && owner != FREE && newHold > 0
      modifies this`hold, this`takes
      ensures Valid() && hold == newHold
    {
      RecountFine(base, Now(), newHold);
      hold := newHold;
      takes := takes[owner := newHold];
    }

    method Acquire(t: nat)
      requires Valid() && value > 0 && t in sched.threads && t in base && t !in inside
      modifies this`value, this`owner, this`hold, this`original, this`takes, this`asked
      ensures Valid() && owner == t && hold == old(hold) + 1 && old(owner) == FREE
    {
      AcquiredFine(base, Now(), t);
      value := value - 1;
      owner, original, hold := t, sched.threads[t].priority, hold + 1;
      takes, asked := takes[t := hold], {};
    }

    /** Priority inheritance and rt_thread_suspend, as the mutex sees them. */
    method LiftAndSuspend(t: nat)
      requires sched.Valid() && t in sched.threads && sched.threads[t].stat.Running? && owner >= 0 && owner != t
      requires owner in sched.threads
      modifies sched`threads, sched`queues, sched`marks
      ensures sched.Valid() && |sched.queues| == |old(sched.queues)| && sched.current >= 0
      ensures forall x :: x in old(sched.threads) && x != t && old(sched.threads)[x].stat.Ready? ==>
        x in sched.threads && sched.threads[x].stat.Ready?
      ensures old(sched.threads[t].priority >= sched.threads[owner].priority) ==>
        && sched.threads == old(sched.threads)[t := old(sched.threads[t]).(stat := Suspended)]
        && forall p :: 0 <= p < |sched.queues| ==> sched.queues[p] == Unlinked(old(sched.queues)[p], t)
      ensures Briefs(sched.threads) == LiftedAndAsleep(old(Briefs(sched.threads)), owner, t)
    {
      assert ThreadOk(sched.Now(), t);
      if sched.threads[t].priority < sched.threads[owner].priority {
        sched.ChangePriority(owner, sched.threads[t].priority);
      }
      var _ := sched.Suspend(t);
    }

    /** Suspending the current thread and switching to another one. */
    method Sleep(t: nat)
      requires sched.Valid() && t in sched.threads && sched.threads[t].stat.Running? && owner >= 0 && owner != t
      requires owner in sched.threads
      modifies sched`threads, sched`queues, sched`marks, sched`current
      ensures sched.Valid() && |sched.queues| == |old(sched.queues)|
      ensures Briefs(sched.threads) == LiftedAndAsleep(old(Briefs(sched.threads)), owner, t)
      ensures sched.lockNest == 0 && old(Waiting(sched.Now())) ==> Best(sched.Now())
    {
      assert ThreadOk(sched.Now(), t);
      LiftAndSuspend(t);
      Reschedule();
    }

    /** rt_schedule, as the mutex sees it. */
    method Reschedule()
      requires sched.Valid() && sched.current >= 0
      modifies sched`threads, sched`queues, sched`marks, sched`current
      ensures sched.Valid() && |sched.queues| == |old(sched.queues)|
      ensures Briefs(sched.threads) == old(Briefs(sched.threads))
      ensures Rescheduled(old(sched.Now()), sched.Now(), sched.lockNest)
      ensures sched.lockNest == 0 && old(Waiting(sched.Now())) ==> Best(sched.Now())
      ensures sched.lockNest == 0 && old(sched.threads[sched.current].stat.Running?) ==> Best(sched.Now())
    {
      sched.Schedule();
    }

    /** The part of rt_mutex_take that suspends the current thread on the owner. */
    method Block(t: nat)
      requires Valid() && Calls(t) && owner != FREE && owner != t && !sched.threads[t].timedOut
      modifies this`waiting, this`inside, this`asked
      modifies sched`threads, sched`queues, sched`marks, sched`current
      ensures Valid() && inside == old(inside) + {t}
      ensures exists p: nat :: IsPlace(old(waiting), base, p, base[t]) && waiting == Inserted(old(waiting), p, t)
      ensures Blocks(old(Briefs(sched.threads)), Briefs(sched.threads), t, owner)
      ensures sched.lockNest == 0 && old(Waiting(sched.Now())) ==> Best(sched.Now())
    {
      ghost var v := Now();
      assert ThreadFine(base, v, t);
      var p := FindPlace(sched.threads[t].priority);
      BlockAt(t, p);
      SuspendedBlocks(base, v, t, p);
    }

    /** The same, at position p of the list. */
    method BlockAt(t: nat, p: nat)
      requires Valid() && Calls(t) && owner != FREE && owner != t && !sched.threads[t].timedOut
      requires IsPlace(waiting, base, p, base[t])
      modifies this`waiting, this`inside, this`asked
      modifies sched`threads, sched`queues, sched`marks, sched`current
      ensures Valid() && t in old(Now()).threads && owner in old(Now()).threads
      ensures Now() == SuspendedOn(old(Now()), t, p)
      ensures sched.lockNest == 0 && old(Waiting(sched.Now())) ==> Best(sched.Now())
    {
      ghost var v := Now();
      SuspendedFine(base, v, t, p);
      Sleep(t);
      waiting := Inserted(waiting, p, t);
      inside, asked := inside + {t}, asked + {t};
      LiftedIs(v, t, p);
      ghost var w := Now();
      assert w == v.(waiting := w.waiting, inside := w.inside, asked := w.asked, threads := w.threads);
    }

    /** The timer of a waiting thread runs out (rt_thread_timeout). */
    method Expire(t: nat)
      requires Valid() && t in Ids(waiting) && sched.current >= 0
      modifies this`waiting
      modifies sched`threads, sched`queues, sched`marks, sched`current
      ensures Valid() && waiting == Unlinked(old(waiting), t) && owner == old(owner)
      ensures t in old(sched.threads) && Briefs(sched.threads) ==
        old(Briefs(sched.threads))[t := old(Briefs(sched.threads)[t]).(timedOut := true, asleep := false)]
      ensures sched.lockNest == 0 ==> Best(sched.Now())
    {
      ghost var v := Now();
      assert t in base && ThreadFine(base, v, t);
      ExpiredFine(base, v, t);
      waiting := Unlinked(waiting, t);
      sched.Timeout(t);
      assert Now() == WaitExpired(v, t);
    }

    /** The rest of rt_mutex_take, when a thread that was suspended in it runs again: it has the
        mutex exactly if it does not report a timeout. */
    method Return() returns (ok: bool)
      requires Valid() && sched.current >= 0 && sched.current in inside && sched.threads[sched.current].stat.Running?
      modifies this`inside
      ensures Valid() && inside == old(inside) - {sched.current}
      ensures ok <==> owner == sched.current
    {
      ghost var t := sched.current as nat;
      assert ThreadFine(base, Now(), t);
      ok := !sched.threads[sched.current].timedOut;
      ReturnedFine(base, Now(), t);
      inside := inside - {t};
    }

    /** rt_mutex_release: only the owner may; the last release gives it back its own priority and
        hands the mutex to the best waiter, the first to come among equals. */
    method Release() returns (ok: bool)
      requires Valid() && Calls(sched.current)
      modifies this`value, this`owner, this`hold, this`original, this`waiting, this`takes, this`asked
      modifies sched`threads, sched`queues, sched`marks, sched`current
      ensures Valid() && ok == (old(owner) == old(sched.current))
      ensures !ok ==> owner == old(owner) && hold == old(hold) && waiting == old(waiting)
      ensures !ok ==> sched.current in sched.threads && sched.threads[sched.current].timedOut
      ensures ok && old(hold) > 1 ==> owner == old(owner) && hold == old(hold) - 1 && waiting == old(waiting)
      ensures ok && old(hold) == 1 ==>
        if old(waiting) == [] then owner == FREE else
          owner == old(waiting)[0] && hold == 1 && waiting == old(waiting)[1..]
      ensures ok && old(hold) == 1 ==>
        old(sched.current) in sched.threads && sched.threads[old(sched.current)].priority == base[old(sched.current)]
      ensures ok && old(hold) == 1 && old(waiting) != [] ==>
        owner in sched.threads && !sched.threads[owner].stat.Suspended? && !sched.threads[owner].timedOut
      ensures ok && old(hold) == 1 && old(waiting) != [] && sched.lockNest == 0 ==> Best(sched.Now())
      ensures !(ok && old(hold) == 1 && old(waiting) != []) ==> sched.current == old(sched.current)
      ensures ok ==> LetsGo(old(Briefs(sched.threads)), Briefs(sched.threads),
        if old(hold) == 1 then {old(owner)} else {},
        if old(hold) == 1 && old(waiting) != [] then {old(waiting)[0]} else {})
    {
      var t := sched.current as nat;
      ghost var v := Now();
      assert ThreadFine(base, v, t);
      if t != owner {
        SetError(t, true);
        return false;
      }
      ok := true;
      if hold > 1 {
        Recount(hold - 1);
      } else {
        hold := hold - 1;
        takes := takes[t := 0];
        LetGo(t, v);
      }
    }

    /** Waking the next owner, as the mutex sees it. */
    method Wake(next: nat)
      requires sched.Valid() && next in sched.threads && sched.threads[next].stat.Suspended? && sched.current >= 0
      modifies sched`threads, sched`queues, sched`marks, sched`current
      ensures sched.Valid() && |sched.queues| == |old(sched.queues)|
      ensures Briefs(sched.threads) ==
        old(Briefs(sched.threads))[next := old(Briefs(sched.threads)[next]).(asleep := false)]
      ensures sched.lockNest == 0 ==> Best(sched.Now())
    {
      assert ThreadOk(sched.Now(), next);
      var _ := sched.Resume(next);
      assert next in sched.threads && sched.threads[next].stat == if next == sched.current then Running else Stat.Ready;
      Reschedule();
    }

    /** The owner gets its own priority back. */
    method Restore(t: nat)
      requires sched.Valid() && t in sched.threads && original < |sched.queues|
      modifies sched`threads, sched`queues, sched`marks
      ensures sched.Valid() && |sched.queues| == |old(sched.queues)|
      ensures Briefs(sched.threads) ==
        old(Briefs(sched.threads))[t := old(Briefs(sched.threads)[t]).(priority := original)]
    {
      if original != sched.threads[t].priority {
        sched.ChangePriority(t, original);
      }
    }

    /** The part of rt_mutex_release that lets go of the mutex. */
    method LetGo(t: nat, ghost v: View)
      requires sched.Valid() && InRange() && Fine(base, v) && v == Now().(hold := 1, takes := takes[t := 1])
      requires hold == 0
      requires t == owner == sched.current && t in sched.threads && t !in inside && takes == v.takes[t := 0]
      modifies this`value, this`owner, this`hold, this`original, this`waiting, this`takes, this`asked
      modifies sched`threads, sched`queues, sched`marks, sched`current
      ensures Valid()
      ensures v.waiting == [] ==> Now() == Freed(v)
      ensures v.waiting != [] ==> v.waiting[0] in v.threads && Now() == HandedOver(v)
      ensures v.waiting != [] && sched.lockNest == 0 ==> Best(sched.Now())
      ensures v.waiting == [] ==> sched.current == t
      ensures LetsGo(v.threads, Briefs(sched.threads), {t}, if v.waiting == [] then {} else {v.waiting[0]})
    {
      assert ThreadFine(base, v, t);
      Restore(t);
      if waiting != [] {
        HandOver(t, v);
        HandedOverLetsGo(v);
      } else {
        FreedFine(base, v);
        value := value + 1;
        owner, original := FREE, NO_PRIORITY;
        assert Now() == Freed(v);
        FreedLetsGo(v);
      }
    }

    /** The mutex goes to the first waiter. */
    method HandOver(t: nat, ghost v: View)
      requires sched.Valid() && InRange() && Fine(base, v) && t == owner == sched.current && t in v.threads
      requires t !in inside
      requires v.waiting != [] && hold == 0
      requires Now() == v.(hold := 0, takes := v.takes[t := 0],
        threads := v.threads[t := v.threads[t].(priority := v.original)])
      modifies this`owner, this`hold, this`original, this`waiting, this`takes, this`asked
      modifies sched`threads, sched`queues, sched`marks, sched`current
      ensures Valid()
      ensures v.waiting[0] in v.threads && Now() == HandedOver(v)
      ensures v.waiting[0] != v.owner && !v.threads[v.waiting[0]].timedOut
      ensures sched.lockNest == 0 ==> Best(sched.Now())
    {
      HandedOverFine(base, v);
      ghost var b := Briefs(sched.threads);
      assert b[waiting[0]] == v.threads[waiting[0]];
      PassOn(waiting[0]);
      Wake(owner);
      assert Now() == HandedOver(v);
    }

    method PassOn(next: nat)
      requires waiting != [] && next == waiting[0] && next in sched.threads
      modifies this`owner, this`hold, this`original, this`waiting, this`takes, this`asked
      ensures owner == next && hold == old(hold) + 1 && original == sched.threads[next].priority
      ensures waiting == old(waiting)[1..] && takes == old(takes)[next := 1] && asked == Ids(old(waiting)[1..])
    {
      owner, original, hold := next, sched.threads[next].priority, hold + 1;
      takes, asked := takes[next := 1], Ids(waiting[1..]);
      waiting := waiting[1..];
    }

    /** What inheritance is for: while the owner is ready to run, no thread runs whose priority
        is worse than that of a thread waiting for the mutex. */
    lemma NoInversion(w: nat)
      requires Valid() && w in Ids(waiting) && Best(sched.Now())
      requires owner in sched.threads && sched.threads[owner].stat in {Stat.Ready, Running}
      ensures w in sched.threads && sched.threads[sched.current].priority <= sched.threads[w].priority
    {
      NoWaiterIsBetter(base, Now(), w);
      assert ThreadOk(sched.Now(), owner);
      assert Briefs(sched.threads)[owner].priority == sched.threads[owner].priority;
      assert w in base && ThreadFine(base, Now(), w);
    }
  }

  /** Nothing but the error code of thread t differs. */
  ghost predicate OnlyError(c: map<nat, Thread>, d: map<nat, Thread>, t: int, timedOut: bool) {
    t in c && d == c[t := c[t].(timedOut := timedOut)]
  }

  /** Only the priority of those who let go and the sleep of those who wake differ. */
  ghost predicate LetsGo(b: map<nat, Brief>, c: map<nat, Brief>, leaving: set<int>, woken: set<nat>) {
    && c.Keys == b.Keys
    && (forall x :: x in b && x !in leaving ==> c[x].priority == b[x].priority)
    && (forall x :: x in b ==> c[x].asleep == (b[x].asleep && x !in woken) && c[x].timedOut == b[x].timedOut)
  }

  /** Thread t falls asleep, and the owner has the better priority of the two. */
  ghost predicate Blocks(b: map<nat, Brief>, c: map<nat, Brief>, t: int, owner: int) {
    && c.Keys == b.Keys && t in c && owner in c && t != owner && c[t].asleep
    && c[owner].priority == (if b[t].priority < b[owner].priority then b[t].priority else b[owner].priority)
    && (forall x :: x in b && x != owner ==> c[x].priority == b[x].priority)
    && (forall x :: x in b && x != t ==> c[x].asleep == b[x].asleep && c[x].timedOut == b[x].timedOut)
  }

  lemma HandedOverLetsGo(v: View)
    requires v.owner in v.threads && v.waiting != [] && v.waiting[0] in v.threads
    requires v.waiting[0] != v.owner && !v.threads[v.waiting[0]].timedOut
    ensures LetsGo(v.threads, HandedOver(v).threads, {v.owner}, {v.waiting[0]})
  {
  }

  lemma FreedLetsGo(v: View)
    requires v.owner in v.threads
    ensures LetsGo(v.threads, Freed(v).threads, {v.owner}, {})
  {
  }

  lemma ErrorOnce(c: map<nat, Thread>, c1: map<nat, Thread>, d: map<nat, Thread>, t: int, timedOut: bool)
    requires OnlyError(c, c1, t, false) && OnlyError(c1, d, t, timedOut)
    ensures OnlyError(c, d, t, timedOut)
  {
  }

  lemma LiftedIs(v: View, t: nat, p: nat)
    requires t in v.threads && v.owner in v.threads && v.owner != t && p <= |v.waiting| && !v.threads[t].timedOut
    ensures LiftedAndAsleep(v.threads, v.owner, t) == SuspendedOn(v, t, p).threads
  {
  }

  lemma SuspendedBlocks(base: map<nat, nat>, v: View, t: nat, p: nat)
    requires t in v.threads && v.owner in v.threads && v.owner != t && p <= |v.waiting| && !v.threads[t].timedOut
    ensures Blocks(v.threads, SuspendedOn(v, t, p).threads, t, v.owner)
  {
  }

  lemma ErrorBlocks(b: map<nat, Brief>, b1: map<nat, Brief>, c: map<nat, Brief>, t: nat, owner: int)
    requires t in b && b1 == b[t := b[t].(timedOut := false)] && Blocks(b1, c, t, owner)
    ensures Blocks(b, c, t, owner)
  {
  }

  ghost function LiftedAndAsleep(b: map<nat, Brief>, owner: nat, t: nat): map<nat, Brief>
    requires owner in b && t in b
  {
    var lifted := if b[t].priority < b[owner].priority then b[owner := b[owner].(priority := b[t].priority)] else b;
    lifted[t := b[t].(asleep := true)]
  }
}
