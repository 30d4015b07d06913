/** The mailbox of ipc.c: a ring of words between suspended senders and suspended receivers.
    Every region with interrupts disabled is one method, so any sequence of calls is an
    interleaving of any number of threads. */
module Mailbox {
  import opened Arithmetic
  import opened Lists
  import opened WaitLists

  /** What a send or receive comes to before it returns or is suspended. */
  datatype Outcome = Done | NoRoom | TimedOut | Blocked

  /** The slot i places after `start` in a ring of `size` slots. */
  function Slot(start: nat, i: nat, size: nat): nat {
    if start + i < size then start + i else start + i - size
  }

  /** That is, counted modulo the size. */
  lemma SlotIsModulo(start: nat, i: nat, size: nat)
    requires start < size && i <= size
    ensures Slot(start, i, size) == (start + i) % size
  {
    if start + i >= size {
      Divided(start + i, size, 1, start + i - size);
    }
  }

  /** The `entry` mails from slot `start` on. */
  function Ring(pool: seq<nat>, start: nat, entry: nat): (r: seq<nat>)
    requires entry <= |pool| && (entry > 0 ==> start < |pool|)
    ensures |r| == entry
  {
    if entry == 0 then [] else Ring(pool, start, entry - 1) + [pool[Slot(start, entry - 1, |pool|)]]
  }

  lemma {:induction false} RingElsewhere(pool: seq<nat>, start: nat, entry: nat, k: nat, value: nat)
    requires entry <= |pool| && start < |pool| && k < |pool|
    requires forall i :: 0 <= i < entry ==> Slot(start, i, |pool|) != k
    ensures Ring(pool[k := value], start, entry) == Ring(pool, start, entry)
  {
    if entry > 0 {
      RingElsewhere(pool, start, entry - 1, k, value);
    }
  }

  lemma RingPut(pool: seq<nat>, start: nat, entry: nat, value: nat)
    requires entry < |pool| && start < |pool|
    ensures Ring(pool[Slot(start, entry, |pool|) := value], start, entry + 1) == Ring(pool, start, entry) + [value]
  {
    RingElsewhere(pool, start, entry, Slot(start, entry, |pool|), value);
  }

  lemma {:induction false} RingGet(pool: seq<nat>, start: nat, entry: nat)
    requires 0 < entry <= |pool| && start < |pool|
    ensures Slot(start, 1, |pool|) < |pool|
    ensures Ring(pool, start, entry) == [pool[start]] + Ring(pool, Slot(start, 1, |pool|), entry - 1)
  {
    if entry > 1 {
      RingGet(pool, start, entry - 1);
      assert Slot(Slot(start, 1, |pool|), entry - 2, |pool|) == Slot(start, entry - 1, |pool|);
    }
  }

  class Mailbox {
    const byPriority: bool
    const size: nat
    const pool: array<nat>
    var entry: nat
    var inOffset: nat
    var outOffset: nat
    var receivers: seq<nat>
    var senders: seq<nat>
    ghost var wokenReceivers: set<nat>
    ghost var wokenSenders: set<nat>

    /** The mails lie between the two offsets. */
    ghost predicate Laid()
      reads this`entry, this`inOffset, this`outOffset, pool
    {
      && pool.Length == size && entry <= size
      && (if size == 0 then inOffset == outOffset == 0 else
          outOffset < size && inOffset == Slot(outOffset, entry, size))
    }

    ghost predicate Valid()
      reads this, pool
    {
      && Laid()
      && NoneLost(Channel(receivers, wokenReceivers), entry)
      && NoneLost(Channel(senders, wokenSenders), size - entry)
    }

    /** The mails in the order they will be received. */
    ghost function Mails(): seq<nat>
      requires Laid()
      reads this`entry, this`inOffset, this`outOffset, pool
    {
      Ring(pool[..], outOffset, entry)
    }

    constructor (size: nat, byPriority: bool)
      ensures Valid() && Mails() == [] && this.size == size && this.byPriority == byPriority && fresh(pool)
      ensures receivers == senders == [] && wokenReceivers == wokenSenders == {}
    {
      this.size := size;
      this.byPriority := byPriority;
      pool := new nat[size];
      entry, inOffset, outOffset := 0, 0, 0;
      receivers, senders := [], [];
      wokenReceivers, wokenSenders := {}, {};
    }

    /** The region of rt_mb_send_wait that thread t enters first, or again after it has been
        resumed; `timeout` is what is left of its waiting time, negative for ever. */
    method Send(t: nat, value: nat, timeout: int, priority: nat -> nat) returns (r: Outcome)
      requires Valid() && t !in Ids(senders)
      modifies this`entry, this`inOffset, this`receivers, this`senders, this`wokenReceivers, this`wokenSenders, pool
      ensures Valid()
      ensures r == Done <==> old(entry) < size
      ensures r == Done ==>
        && Mails() == old(Mails()) + [value]
        && FirstWakes(old(receivers), old(wokenReceivers), receivers, wokenReceivers)
      ensures r == Done ==> senders == old(senders) && wokenSenders == old(wokenSenders) - {t}
      ensures r == NoRoom <==> old(entry) == size && timeout == 0
      ensures r == NoRoom ==> senders == old(senders) && wokenSenders == old(wokenSenders) - {t}
      ensures r in {NoRoom, Blocked, Done}
      ensures r == Blocked ==>
        exists p: nat ::
          SuspendPlace(old(senders), byPriority, priority, t, p) && senders == Inserted(old(senders), p, t)
      ensures r != Done ==>
        Mails() == old(Mails()) && receivers == old(receivers) && wokenReceivers == old(wokenReceivers)
    {
      if entry < size {
        Deposit(t, value);
        r := Done;
      } else {
        var blocked;
        blocked, senders := GiveUpOrSleep(senders, wokenSenders, byPriority, priority, t, timeout);
        wokenSenders := wokenSenders - {t};
        r := if blocked then Blocked else NoRoom;
      }
    }

    /** There is room: the mail is put in and a receiver resumed. */
    method Deposit(t: nat, value: nat)
      requires Valid() && entry < size
      modifies this`entry, this`inOffset, this`receivers, this`wokenReceivers, this`wokenSenders, pool
      ensures Valid() && Mails() == old(Mails()) + [value]
      ensures FirstWakes(old(receivers), old(wokenReceivers), receivers, wokenReceivers)
      ensures wokenSenders == old(wokenSenders) - {t}
    {
      TookOk(Channel(senders, wokenSenders), size - entry, t);
      wokenSenders := wokenSenders - {t};
      Put(value);
      receivers, wokenReceivers := ResumeFirst(receivers, wokenReceivers, entry - 1);
    }

    /** A mail goes into the ring. */
    method Put(value: nat)
      requires Laid() && entry < size
      modifies this`entry, this`inOffset, pool
      ensures Laid() && entry == old(entry) + 1 && Mails() == old(Mails()) + [value]
    {
      RingPut(pool[..], outOffset, entry, value);
      pool[inOffset] := value;
      inOffset := inOffset + 1;
      if inOffset >= size {
        inOffset := 0;
      }
      entry := entry + 1;
    }

    /** The region of rt_mb_recv, on the same terms. */
    method Receive(t: nat, timeout: int, priority: nat -> nat) returns (r: Outcome, value: nat)
      requires Valid() && t !in Ids(receivers)
      modifies this`entry, this`outOffset, this`receivers, this`senders, this`wokenReceivers, this`wokenSenders
      ensures Valid()
      ensures r == Done <==> old(entry) > 0
      ensures r == Done ==>
        && old(Mails()) == [value] + Mails()
        && FirstWakes(old(senders), old(wokenSenders), senders, wokenSenders)
      ensures r == Done ==> receivers == old(receivers) && wokenReceivers == old(wokenReceivers) - {t}
      ensures r == TimedOut <==> old(entry) == 0 && timeout == 0
      ensures r == TimedOut ==> receivers == old(receivers) && wokenReceivers == old(wokenReceivers) - {t}
      ensures r in {TimedOut, Blocked, Done}
      ensures r == Blocked ==>
        exists p: nat ::
          SuspendPlace(old(receivers), byPriority, priority, t, p) && receivers == Inserted(old(receivers), p, t)
      ensures r != Done ==> Mails() == old(Mails()) && senders == old(senders) && wokenSenders == old(wokenSenders)
    {
      value := 0;
      if entry > 0 {
        value := Withdraw(t);
        r := Done;
      } else {
        var blocked;
        blocked, receivers := GiveUpOrSleep(receivers, wokenReceivers, byPriority, priority, t, timeout);
        wokenReceivers := wokenReceivers - {t};
        r := if blocked then Blocked else TimedOut;
      }
    }

    /** There is a mail: it is taken out and a sender resumed. */
    method Withdraw(t: nat) returns (value: nat)
      requires Valid() && entry > 0
      modifies this`entry, this`outOffset, this`senders, this`wokenReceivers, this`wokenSenders
      ensures Valid() && old(Mails()) == [value] + Mails()
      ensures FirstWakes(old(senders), old(wokenSenders), senders, wokenSenders)
      ensures wokenReceivers == old(wokenReceivers) - {t}
    {
      TookOk(Channel(receivers, wokenReceivers), entry, t);
      wokenReceivers := wokenReceivers - {t};
      value := Get();
      senders, wokenSenders := ResumeFirst(senders, wokenSenders, size - entry - 1);
    }

    /** A mail comes out of the ring. */
    method Get() returns (value: nat)
      requires Laid() && entry > 0
      modifies this`entry, this`outOffset
      ensures Laid() && entry == old(entry) - 1 && old(Mails()) == [value] + Mails()
    {
      RingGet(pool[..], outOffset, entry);
      value := pool[outOffset];
      outOffset := outOffset + 1;
      if outOffset >= size {
        outOffset := 0;
      }
      entry := entry - 1;
    }

    /** The timer of a suspended thread runs out. */
    method Expire(t: nat)
      requires Valid()
      modifies this`receivers, this`senders
      ensures Valid() && Mails() == old(Mails())
      ensures receivers == Unlinked(old(receivers), t) && senders == Unlinked(old(senders), t)
    {
      LeftOk(Channel(receivers, wokenReceivers), entry, t);
      LeftOk(Channel(senders, wokenSenders), size - entry, t);
      receivers, senders := Unlinked(receivers, t), Unlinked(senders, t);
    }

    /** Once every resumed thread has looked again, a suspended receiver means an empty mailbox
        and a suspended sender a full one. */
    lemma NobodySleepsInVain()
      requires Valid() && wokenReceivers == wokenSenders == {}
      ensures receivers != [] ==> Mails() == []
      ensures senders != [] ==> |Mails()| == size
    {
      if entry > 0 {
        Quiescent(Channel(receivers, wokenReceivers), entry);
      }
      if entry < size {
        Quiescent(Channel(senders, wokenSenders), size - entry);
      }
    }
  }
}
