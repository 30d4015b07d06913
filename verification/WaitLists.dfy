/** The suspend lists of IPC objects (ipc.c) and the wake-and-retry protocol on them: a thread
    that finds nothing is suspended; whoever makes something available resumes one thread, which
    has to look again when it runs. */
module WaitLists {
  import opened Lists

  /** A suspend list, and the threads that were resumed from it without an error and have not
      looked again. */
  datatype Channel = Channel(waiting: seq<nat>, woken: set<nat>)

  /** No lost wake-up: while threads are suspended, there is no more available than there are
      resumed threads on their way to take it. */
  ghost predicate NoneLost(c: Channel, available: nat) {
    && Once(c.waiting) && Ids(c.waiting) !! c.woken
    && (c.waiting != [] ==> available <= |c.woken|)
  }

  /** In particular nobody sleeps beside something available once the resumed threads have run. */
  lemma Quiescent(c: Channel, available: nat)
    requires NoneLost(c, available) && c.woken == {} && available > 0
    ensures c.waiting == []
  {
  }

  /** The first suspended thread, if there is one, leaves the list and is on its way. */
  ghost predicate FirstWakes(waiting: seq<nat>, woken: set<nat>, after: seq<nat>, awake: set<nat>) {
    if waiting == [] then after == [] && awake == woken
    else waiting == [waiting[0]] + after && awake == woken + {waiting[0]}
  }

  /** One more is available, and the first suspended thread is resumed. */
  lemma ResumedOk(waiting: seq<nat>, woken: set<nat>, after: seq<nat>, awake: set<nat>, available: nat)
    requires NoneLost(Channel(waiting, woken), available) && FirstWakes(waiting, woken, after, awake)
    ensures NoneLost(Channel(after, awake), available + 1)
  {
    if waiting != [] {
      assert after == waiting[1..];
      OnceTail(waiting);
      assert waiting[0] in Ids(waiting);
      assert waiting[0] !in woken;
    }
  }

  /** Thread t has looked, and is no longer on its way. */
  function Looked(c: Channel, t: nat): Channel {
    c.(woken := c.woken - {t})
  }

  /** It found something and took it. */
  lemma TookOk(c: Channel, available: nat, t: nat)
    requires NoneLost(c, available) && available > 0
    ensures NoneLost(Looked(c, t), available - 1)
  {
    if t in c.woken {
      assert |c.woken - {t}| == |c.woken| - 1;
    } else {
      assert c.woken - {t} == c.woken;
    }
  }

  /** It found nothing and gave up. */
  lemma GaveUpOk(c: Channel, t: nat)
    requires NoneLost(c, 0)
    ensures NoneLost(Looked(c, t), 0)
  {
  }

  /** It found nothing and is suspended at position p. */
  function Slept(c: Channel, t: nat, p: nat): Channel
    requires p <= |c.waiting|
  {
    Channel(Inserted(c.waiting, p, t), c.woken - {t})
  }

  lemma SleptOk(c: Channel, t: nat, p: nat)
    requires NoneLost(c, 0) && p <= |c.waiting| && t !in Ids(c.waiting)
    ensures NoneLost(Slept(c, t, p), 0)
  {
    OnceInserted(c.waiting, p, t);
  }

  /** Its time is over, or the object is reset: it leaves the list with an error. */
  function Left(c: Channel, t: nat): Channel {
    c.(waiting := Unlinked(c.waiting, t))
  }

  lemma LeftOk(c: Channel, available: nat, t: nat)
    requires NoneLost(c, available)
    ensures NoneLost(Left(c, t), available)
  {
    OnceUnlinked(c.waiting, t);
  }

  /** Where rt_ipc_list_suspend puts a thread: at the end, or by priority behind its equals. */
  ghost predicate SuspendPlace(waiting: seq<nat>, byPriority: bool, priority: nat -> nat, t: nat, p: nat) {
    && p <= |waiting| && (!byPriority ==> p == |waiting|)
    && (byPriority ==> forall i :: 0 <= i < p ==> priority(waiting[i]) <= priority(t))
    && (byPriority && p < |waiting| ==> priority(t) < priority(waiting[p]))
  }

  method FindSuspendPlace(waiting: seq<nat>, byPriority: bool, priority: nat -> nat, t: nat) returns (p: nat)
    ensures SuspendPlace(waiting, byPriority, priority, t, p)
  {
    if !byPriority {
      return |waiting|;
    }
    p := 0;
    while p < |waiting|
      invariant p <= |waiting| && forall i :: 0 <= i < p ==> priority(waiting[i]) <= priority(t)
    {
      if priority(t) < priority(waiting[p]) {
        return;
      }
      p := p + 1;
    }
  }

  /** A thread that found nothing gives up or is suspended. */
  method GiveUpOrSleep(waiting: seq<nat>, ghost woken: set<nat>, byPriority: bool, priority: nat -> nat, t: nat,
                       timeout: int) returns (blocked: bool, after: seq<nat>)
    requires NoneLost(Channel(waiting, woken), 0) && t !in Ids(waiting)
    ensures NoneLost(Channel(after, woken - {t}), 0)
    ensures blocked == (timeout != 0) && (!blocked ==> after == waiting)
    ensures blocked ==>
      exists p: nat :: SuspendPlace(waiting, byPriority, priority, t, p) && after == Inserted(waiting, p, t)
  {
    GaveUpOk(Channel(waiting, woken), t);
    blocked, after := timeout != 0, waiting;
    if blocked {
      var p := FindSuspendPlace(waiting, byPriority, priority, t);
      SleptOk(Channel(waiting, woken), t, p);
      after := Inserted(waiting, p, t);
    }
  }

  /** One more is available: the first suspended thread is resumed. */
  method ResumeFirst(waiting: seq<nat>, ghost woken: set<nat>, ghost before: nat)
    returns (after: seq<nat>, ghost awake: set<nat>)
    requires NoneLost(Channel(waiting, woken), before)
    ensures FirstWakes(waiting, woken, after, awake)
    ensures NoneLost(Channel(after, awake), before + 1)
  {
    after, awake := waiting, woken;
    if waiting != [] {
      after, awake := waiting[1..], woken + {waiting[0]};
    }
    ResumedOk(waiting, woken, after, awake, before);
  }
}
