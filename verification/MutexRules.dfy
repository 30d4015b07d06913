/** Ownership, counting and priority inheritance of the mutex (ipc.c): the invariant, and that
    every step keeps it.  One mutex with RT_IPC_FLAG_PRIO; base priorities are fixed. */
module MutexRules {
  import opened Lists
  import opened ReadyQueues

  /** RT_NULL as the owner, and the original_priority of a free mutex. */
  const FREE: int := -1
  const NO_PRIORITY: nat := 0xff

  /** The mutex with the threads, and its history: each thread's takes that it has not released,
      the threads that were suspended in rt_mutex_take and have not returned from it, and those
      that were suspended on account of the present owner. */
  datatype View = View(value: nat, owner: int, hold: nat, original: nat, waiting: seq<nat>,
                       takes: map<nat, nat>, inside: set<nat>, asked: set<nat>, threads: map<nat, Brief>)

  /** Best waiter first. */
  ghost predicate Sorted(waiting: seq<nat>, base: map<nat, nat>) {
    && (forall i :: 0 <= i < |waiting| ==> waiting[i] in base)
    && (forall i, j :: 0 <= i < j < |waiting| ==> base[waiting[i]] <= base[waiting[j]])
  }

  /** Position p is behind every waiter that is at least as good, and before the others. */
  ghost predicate IsPlace(waiting: seq<nat>, base: map<nat, nat>, p: nat, priority: nat) {
    && p <= |waiting| && (forall i :: 0 <= i < |waiting| ==> waiting[i] in base)
    && (forall i :: 0 <= i < p ==> base[waiting[i]] <= priority)
    && (forall i :: p <= i < |waiting| ==> base[waiting[i]] > priority)
  }

  /** Everybody but the owner is at its own priority, only the owner has takes, a waiter is
      suspended, and a thread inside rt_mutex_take waits, or has the mutex, or has timed out. */
  ghost predicate ThreadFine(base: map<nat, nat>, v: View, x: nat)
    requires x in base
  {
    && x in v.threads && x in v.takes
    && (x != v.owner ==> v.threads[x].priority == base[x])
    && v.takes[x] == (if x == v.owner then v.hold else 0)
    && (x in Ids(v.waiting) ==>
      v.threads[x].asleep && !v.threads[x].timedOut && x in v.inside && x in v.asked && x != v.owner)
    && (x in v.inside ==> x in Ids(v.waiting) || (v.threads[x].timedOut <==> x != v.owner))
  }

  /** Nobody owns the mutex, or its owner's priority is the best of its own and those of all
      that were suspended on its account. */
  ghost predicate OwnerFine(base: map<nat, nat>, v: View) {
    if v.owner == FREE then
      v.value == 1 && v.hold == 0 && v.waiting == []
    else
      && v.owner >= 0 && v.owner in base && v.owner in v.threads && v.value == 0 && v.hold > 0
      && v.original == base[v.owner] && v.threads[v.owner].priority <= base[v.owner]
      && (forall a :: a in v.asked ==> a in base && v.threads[v.owner].priority <= base[a])
      && (v.threads[v.owner].priority == base[v.owner] || exists a ::
          a in v.asked && v.threads[v.owner].priority == base[a])
  }

  ghost predicate Fine(base: map<nat, nat>, v: View) {
    && v.threads.Keys == base.Keys && v.inside <= base.Keys
    && Sorted(v.waiting, base) && Once(v.waiting) && OwnerFine(base, v)
    && (forall x {:trigger ThreadFine(base, v, x)} :: x in base ==> ThreadFine(base, v, x))
  }

  /** Main property: a waiter never has a better priority than the thread it waits for. */
  lemma NoWaiterIsBetter(base: map<nat, nat>, v: View, w: nat)
    requires Fine(base, v) && w in Ids(v.waiting)
    ensures v.owner >= 0 && v.owner in v.threads && w in v.threads
    ensures v.threads[v.owner].priority <= v.threads[w].priority
  {
    assert w in base && ThreadFine(base, v, w);
  }

  /** Free, without owner and without takes are the same. */
  lemma FreeMeansUnheld(base: map<nat, nat>, v: View)
    requires Fine(base, v)
    ensures v.value <= 1
    ensures v.value == 1 <==> v.owner == FREE
    ensures v.value == 1 <==> v.hold == 0
    ensures v.owner != FREE ==> v.owner in v.takes && v.takes[v.owner] == v.hold
    ensures forall x :: x in base && x != v.owner ==> x in v.takes && v.takes[x] == 0
  {
    forall x | x in base
      ensures x in v.takes && v.takes[x] == if x == v.owner then v.hold else 0
    {
      assert ThreadFine(base, v, x);
    }
  }

  /** What goes on elsewhere: threads fall asleep and wake, and error codes change.  Only a waiter
      must go on sleeping, and the error code of a thread inside rt_mutex_take must stay. */
  ghost predicate Elsewhere(v: View, w: View) {
    && w == v.(threads := w.threads) && w.threads.Keys == v.threads.Keys
    && (forall x :: x in v.threads ==>
      && w.threads[x].priority == v.threads[x].priority
      && (x in v.inside ==> w.threads[x].timedOut == v.threads[x].timedOut)
      && (x in Ids(v.waiting) ==> w.threads[x] == v.threads[x]))
  }

  lemma ElsewhereFine(base: map<nat, nat>, v: View, w: View)
    requires Fine(base, v) && Elsewhere(v, w)
    ensures Fine(base, w)
  {
    forall x | x in base
      ensures ThreadFine(base, w, x)
    {
      assert ThreadFine(base, v, x);
    }
  }

  /** A thread takes the free mutex. */
  function Acquired(v: View, t: nat): View
    requires t in v.threads
  {
    v.(value := 0, owner := t, hold := 1, original := v.threads[t].priority, takes := v.takes[t := 1], asked := {})
  }

  lemma AcquiredFine(base: map<nat, nat>, v: View, t: nat)
    requires Fine(base, v) && v.owner == FREE && t in base && t in v.threads && t !in v.inside
    ensures Fine(base, Acquired(v, t))
  {
    assert ThreadFine(base, v, t);
    forall x | x in base
      ensures ThreadFine(base, Acquired(v, t), x)
    {
      assert ThreadFine(base, v, x);
    }
  }

  /** The owner takes it again, or releases it without letting go. */
  lemma RecountFine(base: map<nat, nat>, v: View, hold: nat)
    requires Fine(base, v) && v.owner != FREE && hold > 0
    ensures Fine(base, v.(hold := hold, takes := v.takes[v.owner := hold]))
  {
    var w := v.(hold := hold, takes := v.takes[v.owner := hold]);
    forall x | x in base
      ensures ThreadFine(base, w, x)
    {
      assert ThreadFine(base, v, x);
    }
  }

  /** A thread is suspended on the mutex; the owner inherits its priority if that is better. */
  function SuspendedOn(v: View, t: nat, p: nat): View
    requires t in v.threads && v.owner in v.threads && p <= |v.waiting|
  {
    var own := v.threads[v.owner];
    var lifted := if v.threads[t].priority < own.priority then
      v.threads[v.owner := own.(priority := v.threads[t].priority)] else v.threads;
    v.(waiting := Inserted(v.waiting, p, t), inside := v.inside + {t}, asked := v.asked + {t},
       threads := lifted[t := v.threads[t].(asleep := true, timedOut := false)])
  }

  lemma {:induction false} InsertedSorted(waiting: seq<nat>, base: map<nat, nat>, p: nat, t: nat)
    requires Sorted(waiting, base) && Once(waiting) && t in base && t !in Ids(waiting)
    requires IsPlace(waiting, base, p, base[t])
    ensures Sorted(Inserted(waiting, p, t), base) && Once(Inserted(waiting, p, t))
  {
    var r := Inserted(waiting, p, t);
    forall k | 0 <= k < |r|
      ensures r[k] == Shifted(waiting, p, t, k)
    {
      InsertedAt(waiting, p, t, k);
    }
    forall k, l | 0 <= k < l < |r|
      ensures base[r[k]] <= base[r[l]] && r[k] != r[l]
    {
      assert k != p ==> Shifted(waiting, p, t, k) in Ids(waiting);
      assert l != p ==> Shifted(waiting, p, t, l) in Ids(waiting);
    }
  }

  lemma SuspendedFine(base: map<nat, nat>, v: View, t: nat, p: nat)
    requires Fine(base, v) && v.owner != FREE && t in base && t !in v.inside && t != v.owner
    requires IsPlace(v.waiting, base, p, base[t])
    ensures t in v.threads && Fine(base, SuspendedOn(v, t, p))
  {
    assert ThreadFine(base, v, t);
    assert t !in Ids(v.waiting);
    var w := SuspendedOn(v, t, p);
    InsertedSorted(v.waiting, base, p, t);
    InsertedIds(v.waiting, p, t);
    forall x | x in base
      ensures ThreadFine(base, w, x)
    {
      assert ThreadFine(base, v, x);
    }
    if v.threads[t].priority < v.threads[v.owner].priority {
      assert t in w.asked && w.threads[w.owner].priority == base[t];
    } else {
      assert w.threads[w.owner].priority == v.threads[v.owner].priority;
    }
  }

  lemma UnlinkedSorted(waiting: seq<nat>, base: map<nat, nat>, t: nat)
    requires Sorted(waiting, base)
    ensures Sorted(Unlinked(waiting, t), base)
  {
    if t in waiting {
      var i, r := IndexOf(waiting, t), Unlinked(waiting, t);
      forall k | 0 <= k < |r|
        ensures r[k] == waiting[Skip(i, k)]
      {
        UnlinkedAt(waiting, t, k);
      }
      StillSorted(waiting, base, r, i);
    }
  }

  lemma StillSorted(waiting: seq<nat>, base: map<nat, nat>, r: seq<nat>, i: nat)
    requires Sorted(waiting, base) && |r| < |waiting|
    requires forall k :: 0 <= k < |r| ==> r[k] == waiting[Skip(i, k)]
    ensures Sorted(r, base)
  {
  }

  /** The wait of a thread ends with a timeout: it leaves the list, and the owner keeps the
      priority it was given. */
  function WaitExpired(v: View, t: nat): View
    requires t in v.threads
  {
    v.(waiting := Unlinked(v.waiting, t), threads := v.threads[t := v.threads[t].(timedOut := true, asleep := false)])
  }

  lemma ExpiredFine(base: map<nat, nat>, v: View, t: nat)
    requires Fine(base, v) && t in Ids(v.waiting)
    ensures t in v.threads && Fine(base, WaitExpired(v, t))
  {
    assert t in base && ThreadFine(base, v, t);
    var w := WaitExpired(v, t);
    UnlinkedSorted(v.waiting, base, t);
    OnceUnlinked(v.waiting, t);
    forall x | x in base
      ensures ThreadFine(base, w, x)
    {
      assert ThreadFine(base, v, x);
    }
  }

  /** The last release when nobody waits. */
  function Freed(v: View): View
    requires v.owner in v.threads
  {
    v.(value := 1, owner := FREE, hold := 0, original := NO_PRIORITY, takes := v.takes[v.owner := 0],
       threads := v.threads[v.owner := v.threads[v.owner].(priority := v.original)])
  }

  lemma FreedFine(base: map<nat, nat>, v: View)
    requires Fine(base, v) && v.owner != FREE && v.waiting == [] && v.owner !in v.inside
    ensures Fine(base, Freed(v))
  {
    forall x | x in base
      ensures ThreadFine(base, Freed(v), x)
    {
      assert ThreadFine(base, v, x);
    }
  }

  /** The last release when threads wait: the first of them has the mutex at once. */
  function HandedOver(v: View): View
    requires v.owner in v.threads && v.waiting != [] && v.waiting[0] in v.threads
  {
    var t := v.waiting[0];
    var restored := v.threads[v.owner := v.threads[v.owner].(priority := v.original)];
    v.(owner := t, hold := 1, original := restored[t].priority, waiting := v.waiting[1..],
       takes := v.takes[v.owner := 0][t := 1], asked := Ids(v.waiting[1..]),
       threads := restored[t := restored[t].(asleep := false, timedOut := false)])
  }

  lemma FirstIsBest(waiting: seq<nat>, base: map<nat, nat>)
    requires Sorted(waiting, base) && Once(waiting) && waiting != []
    ensures Sorted(waiting[1..], base) && Once(waiting[1..])
    ensures Ids(waiting[1..]) == Ids(waiting) - {waiting[0]}
    ensures forall a :: a in Ids(waiting[1..]) ==> a in base && base[waiting[0]] <= base[a]
  {
    OnceTail(waiting);
    forall a | a in Ids(waiting[1..])
      ensures a in base && base[waiting[0]] <= base[a]
    {
      var k := IndexOf(waiting[1..], a);
      assert waiting[k + 1] == a;
    }
  }

  lemma HandedOverFine(base: map<nat, nat>, v: View)
    requires Fine(base, v) && v.owner != FREE && v.waiting != [] && v.owner !in v.inside
    ensures v.waiting[0] in v.threads && Fine(base, HandedOver(v))
    ensures v.waiting[0] != v.owner && v.threads[v.waiting[0]].asleep && !v.threads[v.waiting[0]].timedOut
  {
    var t := v.waiting[0];
    assert t in Ids(v.waiting) && ThreadFine(base, v, t);
    FirstIsBest(v.waiting, base);
    forall x | x in base
      ensures ThreadFine(base, HandedOver(v), x)
    {
      assert ThreadFine(base, v, x);
    }
  }

  /** A thread returns from rt_mutex_take after having been suspended in it. */
  lemma ReturnedFine(base: map<nat, nat>, v: View, t: nat)
    requires Fine(base, v) && t !in Ids(v.waiting)
    ensures Fine(base, v.(inside := v.inside - {t}))
  {
    var w := v.(inside := v.inside - {t});
    forall x | x in base
      ensures ThreadFine(base, w, x)
    {
      assert ThreadFine(base, v, x);
    }
  }
}
