/** Thread states and ready queues (scheduler.c, thread.c): the invariant of the scheduler and
    what linking and unlinking a thread do to it. */
module ReadyQueues {
  import opened Lists
  import opened Bitmap

  datatype Stat = Init | Ready | Suspended | Running | Closed

  /** `yielding` is the RT_THREAD_STAT_YIELD flag. */
  datatype Thread = Thread(stat: Stat, yielding: bool, initPriority: nat, priority: nat,
                           number: nat, numberMask: nat, highMask: nat,
                           initTick: nat, remaining: nat, timedOut: bool)

  /** What the rest of the kernel sees of a thread. */
  datatype Brief = Brief(priority: nat, asleep: bool, timedOut: bool)

  ghost function Briefs(threads: map<nat, Thread>): map<nat, Brief> {
    map x | x in threads :: Brief(threads[x].priority, threads[x].stat.Suspended?, threads[x].timedOut)
  }

  lemma BriefsUpdate(threads: map<nat, Thread>, x: nat, t: Thread)
    ensures Briefs(threads[x := t]) == Briefs(threads)[x := Brief(t.priority, t.stat.Suspended?, t.timedOut)]
  {
  }

  /** No current thread: the scheduler has not started. */
  const NONE: int := -1

  datatype Core = Core(threads: map<nat, Thread>, queues: seq<seq<nat>>, ready: Marks, current: int)

  /** The masks a thread stores belong to its priority. */
  ghost predicate MasksOk(t: Thread, wide: bool) {
    && t.numberMask == NumberMask(wide, t.priority)
    && (wide ==> t.number == Number(t.priority) && t.highMask == HighMask(t.priority))
  }

  ghost predicate Shaped(c: Core) {
    && 0 < |c.queues| <= 256 && c.ready.Valid() && c.ready.wide == (|c.queues| > 32)
  }

  /** The queue of priority p holds ready threads of that priority, each once, and its bit says
      whether there are any. */
  ghost predicate LevelOk(c: Core, p: nat)
    requires Shaped(c) && p < 256
  {
    && (c.ready.Has(p) <==> p < |c.queues| && c.queues[p] != [])
    && (p < |c.queues| ==> Once(c.queues[p]))
    && (p < |c.queues| ==>
      forall x :: x in Ids(c.queues[p]) ==> x in c.threads && c.threads[x].stat.Ready? && c.threads[x].priority == p)
  }

  /** A ready thread is in the queue of its priority, and only the current thread runs. */
  ghost predicate ThreadOk(c: Core, x: nat)
    requires Shaped(c) && x in c.threads
  {
    var t := c.threads[x];
    && t.priority < |c.queues| && t.initPriority < |c.queues|
    && (Prepared(c, x) ==> MasksOk(t, c.ready.wide))
    && (t.stat.Ready? ==> x in Ids(c.queues[t.priority]))
    && (t.stat.Running? ==> x == c.current)
  }

  /** The thread has been started and not yet closed, or is still the one that runs. */
  ghost predicate Prepared(c: Core, x: nat)
    requires x in c.threads
  {
    c.threads[x].stat in {Ready, Suspended, Running} || x == c.current
  }

  ghost predicate CurrentOk(c: Core) {
    c.current != NONE ==>
      c.current >= 0 && c.current in c.threads && c.threads[c.current].stat in {Running, Suspended, Closed}
  }

  ghost predicate Ok(c: Core) {
    && Shaped(c) && CurrentOk(c)
    && (forall p {:trigger LevelOk(c, p)} :: 0 <= p < 256 ==> LevelOk(c, p))
    && (forall x {:trigger ThreadOk(c, x)} :: x in c.threads ==> ThreadOk(c, x))
  }

  /** The same while thread x is linked nowhere and its state is in flux. */
  ghost predicate OkBut(c: Core, x: nat) {
    && Shaped(c) && x in c.threads
    && (c.current != NONE && c.current != x ==> CurrentOk(c))
    && (c.current < 0 ==> c.current == NONE)
    && (forall p {:trigger LevelOk(c, p)} :: 0 <= p < 256 ==>
        LevelOk(c, p) && (p < |c.queues| ==> x !in Ids(c.queues[p])))
    && (forall y {:trigger ThreadOk(c, y)} :: y in c.threads && y != x ==> ThreadOk(c, y))
  }

  /** rt_schedule_remove_thread */
  function Removed(c: Core, x: nat): Core
    requires x in c.threads && c.threads[x].priority < |c.queues|
    requires c.ready.wide ==> c.threads[x].number < |c.ready.table|
  {
    var t := c.threads[x];
    var queue := Unlinked(c.queues[t.priority], x);
    c.(queues := c.queues[t.priority := queue],
       ready := if queue == [] then c.ready.Clear(t.number, t.numberMask, t.highMask) else c.ready)
  }

  lemma RemovedOk(c: Core, x: nat)
    requires Ok(c) && x in c.threads && Prepared(c, x)
    ensures c.threads[x].priority < |c.queues| && (c.ready.wide ==> c.threads[x].number < |c.ready.table|)
    ensures OkBut(Removed(c, x), x)
  {
    assert ThreadOk(c, x);
    var t := c.threads[x];
    var d := Removed(c, x);
    assert LevelOk(c, t.priority);
    OnceUnlinked(c.queues[t.priority], x);
    ClearIs(c.ready, t.priority, 0);
    forall p | 0 <= p < 256
      ensures LevelOk(d, p) && (p < |d.queues| ==> x !in Ids(d.queues[p]))
    {
      assert LevelOk(c, p);
      ClearIs(c.ready, t.priority, p);
    }
    forall y | y in d.threads && y != x
      ensures ThreadOk(d, y)
    {
      assert ThreadOk(c, y);
    }
  }

  /** rt_schedule_insert_thread of a thread that is not the current one. */
  function Enqueued(c: Core, x: nat): Core
    requires x in c.threads && c.threads[x].priority < |c.queues|
    requires c.ready.wide ==> c.threads[x].number < |c.ready.table|
  {
    var t := c.threads[x];
    c.(threads := c.threads[x := t.(stat := Ready)],
       queues := c.queues[t.priority := c.queues[t.priority] + [x]],
       ready := c.ready.Mark(t.number, t.numberMask, t.highMask))
  }

  lemma EnqueuedOk(c: Core, x: nat)
    requires OkBut(c, x) && x != c.current
    requires c.threads[x].priority < |c.queues| && c.threads[x].initPriority < |c.queues|
    requires MasksOk(c.threads[x], c.ready.wide)
    ensures Ok(Enqueued(c, x))
  {
    var t := c.threads[x];
    var d := Enqueued(c, x);
    OnceAppended(c.queues[t.priority], x);
    assert LevelOk(c, t.priority);
    MarkIs(c.ready, t.priority, 0);
    forall p | 0 <= p < 256
      ensures LevelOk(d, p)
    {
      assert LevelOk(c, p);
      MarkIs(c.ready, t.priority, p);
    }
    forall y | y in d.threads
      ensures ThreadOk(d, y)
    {
      if y != x {
        assert ThreadOk(c, y);
      }
    }
  }

  /** A thread that is linked nowhere may take any other state. */
  lemma SettledOk(c: Core, x: nat, t: Thread)
    requires OkBut(c, x) && !t.stat.Ready?
    requires t.priority < |c.queues| && t.initPriority < |c.queues|
    requires t.stat in {Suspended, Running} || x == c.current ==> MasksOk(t, c.ready.wide)
    requires t.stat.Running? ==> x == c.current
    requires x == c.current ==> t.stat in {Running, Suspended, Closed}
    ensures Ok(c.(threads := c.threads[x := t]))
  {
    var d := c.(threads := c.threads[x := t]);
    forall p | 0 <= p < 256
      ensures LevelOk(d, p)
    {
      assert LevelOk(c, p);
    }
    forall y | y in d.threads
      ensures ThreadOk(d, y)
    {
      if y != x {
        assert ThreadOk(c, y);
      }
    }
  }

  /** A thread in flux may change everything about it. */
  lemma FluxOk(c: Core, x: nat, t: Thread)
    requires OkBut(c, x)
    ensures OkBut(c.(threads := c.threads[x := t]), x)
  {
    var d := c.(threads := c.threads[x := t]);
    forall p | 0 <= p < 256
      ensures LevelOk(d, p) && (p < |d.queues| ==> x !in Ids(d.queues[p]))
    {
      assert LevelOk(c, p);
    }
    forall y | y in d.threads && y != x
      ensures ThreadOk(d, y)
    {
      assert ThreadOk(c, y);
    }
  }

  /** A thread that is not ready is linked nowhere. */
  lemma NotReady(c: Core, x: nat)
    requires Ok(c) && x in c.threads && !c.threads[x].stat.Ready?
    ensures OkBut(c, x)
  {
    forall p | 0 <= p < 256
      ensures LevelOk(c, p) && (p < |c.queues| ==> x !in Ids(c.queues[p]))
    {
      assert LevelOk(c, p);
    }
    forall y | y in c.threads && y != x
      ensures ThreadOk(c, y)
    {
    }
  }

  /** READY means linked, once, in the queue of the current priority and in no other; any other
      state means linked in none. */
  lemma ReadyMeansQueued(c: Core, x: nat, p: nat)
    requires Ok(c) && x in c.threads && p < |c.queues|
    ensures Once(c.queues[p])
    ensures x in Ids(c.queues[p]) <==> c.threads[x].stat.Ready? && c.threads[x].priority == p
  {
    assert LevelOk(c, p) && ThreadOk(c, x);
  }

  /** The lookup in the bitmap finds the best priority of any ready thread, and finds none only
      if no thread is ready. */
  lemma LookupIs(c: Core, x: nat)
    requires Ok(c) && x in c.threads
    ensures c.ready.group == 0 ==> !c.threads[x].stat.Ready?
    ensures c.ready.group != 0 ==> c.ready.Highest() < |c.queues| && c.queues[c.ready.Highest()] != []
    ensures c.ready.group != 0 && c.threads[x].stat.Ready? ==> c.ready.Highest() <= c.threads[x].priority
  {
    assert ThreadOk(c, x);
    HighestIs(c.ready, c.threads[x].priority);
    assert LevelOk(c, c.threads[x].priority);
    if c.ready.group != 0 {
      assert LevelOk(c, c.ready.Highest());
    }
  }
}
