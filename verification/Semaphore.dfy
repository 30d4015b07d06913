/** The semaphore of ipc.c: a release hands its unit straight to the first suspended thread.
    Regions with interrupts disabled are single steps, so any sequence of calls is an
    interleaving of any number of threads. */
module Semaphore {
  import opened Lists
  import opened WaitLists

  datatype Outcome = Done | TimedOut | Blocked

  /** The value is a 16-bit word. */
  const MAX_VALUE: nat := 0xffff

  /** Each thread inside rt_sem_take waits, has been given a unit, or has failed, and its error
      code tells which. */
  ghost predicate Apart(waiting: seq<nat>, granted: set<nat>, failed: set<nat>, errors: set<nat>) {
    && Once(waiting) && Ids(waiting) !! granted && Ids(waiting) !! failed && granted !! failed
    && Ids(waiting) !! errors && granted !! errors && failed <= errors
  }

  lemma FirstLeaves(waiting: seq<nat>, granted: set<nat>, failed: set<nat>, errors: set<nat>)
    requires Apart(waiting, granted, failed, errors) && waiting != []
    ensures waiting[0] !in granted && Apart(waiting[1..], granted + {waiting[0]}, failed, errors)
    ensures Apart(waiting[1..], granted, failed + {waiting[0]}, errors + {waiting[0]})
    ensures Ids(waiting) == Ids(waiting[1..]) + {waiting[0]}
  {
    assert waiting[0] in Ids(waiting);
    OnceTail(waiting);
  }

  lemma OneSleeps(waiting: seq<nat>, granted: set<nat>, failed: set<nat>, errors: set<nat>, t: nat, p: nat)
    requires Apart(waiting, granted, failed, errors) && t !in Ids(waiting) && t !in granted && t !in failed
    requires p <= |waiting|
    ensures Apart(Inserted(waiting, p, t), granted, failed, errors - {t})
  {
    OnceInserted(waiting, p, t);
  }

  lemma OneFails(waiting: seq<nat>, granted: set<nat>, failed: set<nat>, errors: set<nat>, t: nat)
    requires Apart(waiting, granted, failed, errors) && t in Ids(waiting)
    ensures Apart(Unlinked(waiting, t), granted, failed + {t}, errors + {t})
  {
    OnceUnlinked(waiting, t);
  }

  class Semaphore {
    const byPriority: bool
    var value: nat
    var waiting: seq<nat>
    /** The threads whose error code is not RT_EOK. */
    var errors: set<nat>

    /** Threads that were resumed inside rt_sem_take and have not returned: with a unit, or with
        an error.  `taken` counts the takes that returned RT_EOK, `budget` all units put in. */
    ghost var granted: set<nat>
    ghost var failed: set<nat>
    ghost var taken: nat
    ghost var budget: nat

    /** Nobody waits beside a unit, every unit is accounted for, and the error code of a thread
        inside rt_sem_take tells whether it was given one. */
    ghost predicate Valid()
      reads this
    {
      && (waiting != [] ==> value == 0) && value <= MAX_VALUE
      && value + |granted| + taken == budget
      && Apart(waiting, granted, failed, errors)
    }

    ghost predicate Outside(t: nat)
      reads this
    {
      t !in Ids(waiting) + granted + failed
    }

    constructor (value: nat, byPriority: bool)
      requires value <= MAX_VALUE
      ensures Valid() && this.value == value == budget && waiting == [] && granted == failed == {} && taken == 0
      ensures this.byPriority == byPriority
    {
      this.value, this.byPriority := value, byPriority;
      waiting, errors := [], {};
      granted, failed, taken, budget := {}, {}, 0, value;
    }

    /** rt_sem_take up to where it returns or its thread is suspended. */
    method Take(t: nat, time: int, priority: nat -> nat) returns (r: Outcome)
      requires Valid() && Outside(t)
      modifies this`value, this`waiting, this`errors, this`taken
      ensures Valid() && budget == old(budget)
      ensures r == Done <==> old(value) > 0
      ensures r == Done ==> value == old(value) - 1 && taken == old(taken) + 1 && waiting == old(waiting)
      ensures r != Done ==> value == 0 && taken == old(taken)
      ensures r == TimedOut <==> old(value) == 0 && time == 0
      ensures r == TimedOut ==> waiting == old(waiting)
      ensures r == Blocked ==>
        exists p: nat ::
          SuspendPlace(old(waiting), byPriority, priority, t, p) && waiting == Inserted(old(waiting), p, t)
    {
      if value > 0 {
        value, taken := value - 1, taken + 1;
        r := Done;
      } else if time == 0 {
        r := TimedOut;
      } else {
        var p := FindSuspendPlace(waiting, byPriority, priority, t);
        OneSleeps(waiting, granted, failed, errors, t, p);
        errors, waiting := errors - {t}, Inserted(waiting, p, t);
        r := Blocked;
      }
    }

    /** The rest of rt_sem_take, when a thread that was suspended in it runs again. */
    method Return(t: nat) returns (ok: bool)
      requires Valid() && t in granted + failed
      modifies this`granted, this`failed, this`taken
      ensures Valid() && Outside(t) && value == old(value) && waiting == old(waiting) && budget == old(budget)
      ensures ok <==> t in old(granted)
      ensures taken == old(taken) + if ok then 1 else 0
    {
      ok := t !in errors;
      if ok {
        granted, taken := granted - {t}, taken + 1;
      } else {
        failed := failed - {t};
      }
    }

    /** rt_sem_release: one unit more, for the first suspended thread if there is one.  The value
        is a 16-bit word: a release at its maximum, with nobody waiting, loses all units. */
    method Release()
      requires Valid()
      modifies this`value, this`waiting, this`granted, this`budget
      ensures Valid()
      ensures budget == old(budget) + 1 <==> old(waiting) != [] || old(value) < MAX_VALUE
      ensures old(waiting) == [] ==> waiting == [] && granted == old(granted)
      ensures old(waiting) == [] ==> value == if old(value) == MAX_VALUE then 0 else old(value) + 1
      ensures old(waiting) != [] ==>
        value == 0 && waiting == old(waiting)[1..] && granted == old(granted) + {old(waiting)[0]}
    {
      if waiting != [] {
        FirstLeaves(waiting, granted, failed, errors);
        granted, waiting := granted + {waiting[0]}, waiting[1..];
        budget := budget + 1;
      } else {
        budget := budget - value;
        value := (value + 1) % (MAX_VALUE + 1);
        budget := budget + value;
      }
    }

    /** The timer of a suspended thread runs out. */
    method Expire(t: nat)
      requires Valid() && t in Ids(waiting)
      modifies this`waiting, this`errors, this`failed
      ensures Valid() && waiting == Unlinked(old(waiting), t) && failed == old(failed) + {t}
    {
      OneFails(waiting, granted, failed, errors, t);
      errors, failed, waiting := errors + {t}, failed + {t}, Unlinked(waiting, t);
    }

    /** rt_sem_control with RT_IPC_CMD_RESET: all suspended threads return with an error; a unit
        that was handed to a thread before stays with it. */
    method Reset(newValue: nat)
      requires Valid() && newValue <= MAX_VALUE
      modifies this`value, this`waiting, this`errors, this`failed, this`budget
      ensures Valid() && value == newValue && waiting == []
      ensures failed == old(failed) + Ids(old(waiting)) && granted == old(granted) && taken == old(taken)
    {
      ResumeAll();
      value := newValue;
      budget := newValue + |granted| + taken;
    }

    /** rt_ipc_list_resume_all */
    method ResumeAll()
      requires Valid()
      modifies this`waiting, this`errors, this`failed
      ensures Valid() && waiting == [] && failed == old(failed) + Ids(old(waiting))
    {
      ghost var all := failed + Ids(waiting);
      while waiting != []
        invariant Apart(waiting, granted, failed, errors) && (waiting != [] ==> value == 0)
        invariant failed + Ids(waiting) == all
        decreases |waiting|
      {
        FailFirst();
      }
      assert Ids(waiting) == {};
    }

    method FailFirst()
      requires waiting != [] && Apart(waiting, granted, failed, errors)
      modifies this`waiting, this`errors, this`failed
      ensures Apart(waiting, granted, failed, errors) && waiting == old(waiting)[1..]
      ensures failed + Ids(waiting) == old(failed + Ids(waiting))
    {
      FirstLeaves(waiting, granted, failed, errors);
      errors, failed, waiting := errors + {waiting[0]}, failed + {waiting[0]}, waiting[1..];
    }

    /** No thread has a unit that nobody put in, and none is lost while a thread waits for one:
        all of them have been taken or are on their way to a thread. */
    lemma UnitsConserved()
      requires Valid()
      ensures taken <= budget
      ensures waiting != [] ==> taken + |granted| == budget
    {
    }
  }
}
