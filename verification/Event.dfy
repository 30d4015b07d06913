/** Event flags (ipc.c).  A 32-bit word of flags is the set of the numbers of its bits. */
module Event {
  import opened Lists
  import opened WaitLists

  /** RT_EVENT_FLAG_AND, RT_EVENT_FLAG_OR and RT_EVENT_FLAG_CLEAR. */
  datatype Option = Option(all: bool, any: bool, clear: bool)

  datatype Want = Want(bits: set<nat>, option: Option)

  datatype Outcome = Received | Refused | TimedOut | Blocked

  /** The condition of an immediate receive, what it gets, and what it leaves. */
  predicate Satisfied(flags: set<nat>, w: Want) {
    if w.option.all then w.bits <= flags else w.option.any && w.bits * flags != {}
  }

  function Gets(flags: set<nat>, w: Want): set<nat> {
    flags * w.bits
  }

  function Leaves(flags: set<nat>, w: Want): set<nat> {
    if w.option.clear then flags - w.bits else flags
  }

  /** What is left of the flags when every thread of the list, one after the other, receives
      at once if it can; who does not receive; and what the others get. */
  datatype Walk = Walk(flags: set<nat>, waiting: seq<nat>, got: map<nat, set<nat>>)

  function Serve(flags: set<nat>, list: seq<nat>, wants: map<nat, Want>): Walk
    requires Ids(list) <= wants.Keys
    decreases |list|
  {
    if list == [] then Walk(flags, [], map[])
    else
      assert list[0] in Ids(list) && Ids(list[1..]) <= Ids(list);
      var w := wants[list[0]];
      if Satisfied(flags, w) then
        var rest := Serve(Leaves(flags, w), list[1..], wants);
        rest.(got := rest.got[list[0] := Gets(flags, w)])
      else
        var rest := Serve(flags, list[1..], wants);
        rest.(waiting := [list[0]] + rest.waiting)
  }

  /** Flags b, of all that are set, are what a thread waits for. */
  ghost predicate Enough(flags: set<nat>, w: Want) {
    if w.option.all then forall b :: b in w.bits ==> b in flags
    else w.option.any && exists b :: b in w.bits && b in flags
  }

  /** The turn of a thread that wants w, with flags before it and after it: exactly if there is
      enough it gets those it wants of the flags that are set, which are cleared if it says so. */
  ghost predicate TurnOf(before: set<nat>, after: set<nat>, w: Want, served: bool, bits: set<nat>) {
    && served == Enough(before, w)
    && (served ==> bits == before * w.bits)
    && after == if served && w.option.clear then before - w.bits else before
  }

  /** The threads of the list have their turns, one after the other; flags[i] are set when it is the
      turn of the i-th. */
  ghost predicate Turns(flags: seq<set<nat>>, list: seq<nat>, wants: map<nat, Want>, got: map<nat, set<nat>>) {
    && |flags| == |list| + 1 && Ids(list) <= wants.Keys && got.Keys <= Ids(list)
    && (forall i :: 0 <= i < |list| ==> HasTurn(flags, list, wants, got, i))
  }

  ghost predicate HasTurn(flags: seq<set<nat>>, list: seq<nat>, wants: map<nat, Want>, got: map<nat, set<nat>>, i: nat)
    requires i < |list| && |flags| == |list| + 1
  {
    && list[i] in wants
    && TurnOf(flags[i], flags[i + 1], wants[list[i]], list[i] in got, if list[i] in got then got[list[i]] else {})
  }

  /** The walk gives every thread its turn, and those who are not served stay in the same order. */
  lemma {:induction false} ServedInTurn(flags: set<nat>, list: seq<nat>, wants: map<nat, Want>)
    returns (left: seq<set<nat>>)
    requires Ids(list) <= wants.Keys && Once(list)
    ensures var v := Serve(flags, list, wants);
      && Turns(left, list, wants, v.got) && left[0] == flags && left[|list|] == v.flags
      && InOrder(v.waiting, list)
    decreases |list|
  {
    if list == [] {
      left := [flags];
    } else {
      var t, w := list[0], wants[list[0]];
      assert t in Ids(list);
      OnceTail(list);
      var now := if Satisfied(flags, w) then Leaves(flags, w) else flags;
      ServedRight(now, list[1..], wants);
      var rest := ServedInTurn(now, list[1..], wants);
      var v, u := Serve(flags, list, wants), Serve(now, list[1..], wants);
      left := [flags] + rest;
      EnoughIs(flags, w);
      forall i | 0 <= i < |list|
        ensures HasTurn(left, list, wants, v.got, i)
      {
        if i > 0 {
          assert HasTurn(rest, list[1..], wants, u.got, i - 1);
          assert list[1..][i - 1] == list[i] != t;
        }
      }
      OrderStep(u.waiting, list);
    }
  }

  lemma EnoughIs(flags: set<nat>, w: Want)
    ensures Satisfied(flags, w) <==> Enough(flags, w)
  {
    if b :| b in w.bits && b in flags {
      assert b in w.bits * flags;
    }
  }

  /** Threads of the list, in its order. */
  ghost predicate InOrder(some: seq<nat>, list: seq<nat>) {
    && Ids(some) <= Ids(list)
    && (forall i, j :: 0 <= i < j < |some| ==> Before(list, some[i], some[j]))
  }

  ghost predicate Before(list: seq<nat>, x: nat, y: nat) {
    exists i, j :: 0 <= i < j < |list| && list[i] == x && list[j] == y
  }

  lemma OrderStep(some: seq<nat>, list: seq<nat>)
    requires list != [] && Once(list) && InOrder(some, list[1..])
    ensures InOrder(some, list) && InOrder([list[0]] + some, list)
  {
    forall x, y | Before(list[1..], x, y)
      ensures Before(list, x, y)
    {
      var i, j :| 0 <= i < j < |list| - 1 && list[1..][i] == x && list[1..][j] == y;
      assert list[i + 1] == x && list[j + 1] == y;
    }
    forall x | x in Ids(list[1..])
      ensures x in Ids(list) && Before(list, list[0], x)
    {
      var k := IndexOf(list[1..], x);
      assert list[k + 1] == x;
    }
    var r := [list[0]] + some;
    assert forall x :: x in Ids(some) ==> x in Ids(list[1..]);
    forall i, j | 0 <= i < j < |r|
      ensures Before(list, r[i], r[j])
    {
      assert r[j] in Ids(some);
    }
  }

  lemma Shrinks(smaller: set<nat>, flags: set<nat>, w: Want)
    requires smaller <= flags && Satisfied(smaller, w)
    ensures Satisfied(flags, w)
  {
    if !w.option.all {
      var b :| b in w.bits * smaller;
      assert b in w.bits * flags;
    }
  }

  /** After the walk nobody who still waits could receive, and everybody who was served got
      what he wanted. */
  lemma {:induction false} ServedRight(flags: set<nat>, list: seq<nat>, wants: map<nat, Want>)
    requires Ids(list) <= wants.Keys && Once(list)
    ensures var v := Serve(flags, list, wants);
      && v.flags <= flags && Ids(v.waiting) <= Ids(list) && Once(v.waiting)
      && v.got.Keys == Ids(list) - Ids(v.waiting)
      && (forall t :: t in Ids(v.waiting) ==> !Satisfied(v.flags, wants[t]))
      && (forall t :: t in v.got ==>
        && v.got[t] <= flags
        && (wants[t].option.clear ==> v.got[t] !! v.flags)
        && (if wants[t].option.all then v.got[t] == wants[t].bits else v.got[t] <= wants[t].bits && v.got[t] != {}))
    decreases |list|
  {
    if list != [] {
      assert list[0] in Ids(list);
      OnceTail(list);
      var w := wants[list[0]];
      if Satisfied(flags, w) {
        ServedRight(Leaves(flags, w), list[1..], wants);
      } else {
        ServedRight(flags, list[1..], wants);
        var rest := Serve(flags, list[1..], wants);
        Prepended(rest.waiting, list[0]);
        if Satisfied(rest.flags, w) {
          Shrinks(rest.flags, flags, w);
        }
      }
    }
  }

  /** Flags disappear only by being received with RT_EVENT_FLAG_CLEAR. */
  lemma {:induction false} ClearedByServed(flags: set<nat>, list: seq<nat>, wants: map<nat, Want>, b: nat)
    requires Ids(list) <= wants.Keys && Once(list) && b in flags
    ensures b in Serve(flags, list, wants).flags || exists t ::
      t in Serve(flags, list, wants).got && t in wants && wants[t].option.clear && b in Serve(flags, list, wants).got[t]
    decreases |list|
  {
    if list != [] {
      assert list[0] in Ids(list);
      OnceTail(list);
      var w := wants[list[0]];
      ServedRight(Leaves(flags, w), list[1..], wants);
      if Satisfied(flags, w) {
        if b in Leaves(flags, w) {
          ClearedByServed(Leaves(flags, w), list[1..], wants, b);
          assert list[0] !in Serve(Leaves(flags, w), list[1..], wants).got;
        } else {
          assert b in Gets(flags, w);
        }
      } else {
        ClearedByServed(flags, list[1..], wants, b);
      }
    }
  }

  /** The walk of rt_event_send has come to position i; v is what it will come to. */
  ghost predicate Walking(v: Walk, flags: set<nat>, waiting: seq<nat>, i: nat, wants: map<nat, Want>,
                          was: map<nat, Want>) {
    && i <= |waiting| && Once(waiting) && Ids(waiting) <= was.Keys == wants.Keys
    && (forall t :: t in Ids(waiting) ==> wants[t] == was[t])
    && Ids(waiting[i..]) <= Ids(waiting) && ComingTo(v, Serve(flags, waiting[i..], was), waiting, i)
    && (forall t :: t in v.got ==> Getting(v.got[t], Serve(flags, waiting[i..], was).got, waiting, wants, t))
    && Others(v.got, Serve(flags, waiting[i..], was).got, wants, was)
  }

  ghost predicate ComingTo(v: Walk, rest: Walk, waiting: seq<nat>, i: nat)
    requires i <= |waiting|
  {
    v.flags == rest.flags && v.waiting == waiting[..i] + rest.waiting
  }

  /** What the others want is not touched. */
  ghost predicate Others(got: map<nat, set<nat>>, later: map<nat, set<nat>>, wants: map<nat, Want>,
                         was: map<nat, Want>) {
    && later.Keys <= got.Keys
    && (forall t :: t in was && t !in got ==> t in wants && wants[t] == was[t])
  }

  /** Thread t is still to get its flags, or has got them. */
  ghost predicate Getting(bits: set<nat>, later: map<nat, set<nat>>, waiting: seq<nat>, wants: map<nat, Want>, t: nat) {
    if t in later then later[t] == bits else t !in Ids(waiting) && t in wants && wants[t].bits == bits
  }

  lemma KeepStep(v: Walk, flags: set<nat>, waiting: seq<nat>, i: nat, wants: map<nat, Want>, was: map<nat, Want>)
    requires Walking(v, flags, waiting, i, wants, was) && i < |waiting|
    requires waiting[i] in was && !Satisfied(flags, was[waiting[i]])
    ensures Walking(v, flags, waiting, i + 1, wants, was)
  {
    var t, rest := waiting[i], waiting[i..];
    assert rest[0] == t && rest[1..] == waiting[i + 1..];
    OnceSlices(waiting, i);
    assert waiting[..i] + ([t] + Serve(flags, rest[1..], was).waiting) ==
      waiting[..i + 1] + Serve(flags, rest[1..], was).waiting;
  }

  lemma ServeStep(v: Walk, flags: set<nat>, waiting: seq<nat>, i: nat, wants: map<nat, Want>, was: map<nat, Want>,
                  w: Want)
    requires Walking(v, flags, waiting, i, wants, was) && i < |waiting|
    requires waiting[i] in was && w == was[waiting[i]] && Satisfied(flags, w)
    ensures Walking(v, Leaves(flags, w), Unlinked(waiting, waiting[i]), i,
      wants[waiting[i] := w.(bits := Gets(flags, w))], was)
  {
    var t, after := waiting[i], Unlinked(waiting, waiting[i]);
    ServeRest(flags, waiting, i, was, w);
    OnceUnlinked(waiting, t);
    assert after[..i] == waiting[..i];
    GotStep(v.got, Serve(flags, waiting[i..], was).got, Serve(Leaves(flags, w), after[i..], was).got, waiting, after,
      wants, t, w.(bits := Gets(flags, w)));
  }

  lemma ServeRest(flags: set<nat>, waiting: seq<nat>, i: nat, was: map<nat, Want>, w: Want)
    requires i < |waiting| && Once(waiting) && Ids(waiting) <= was.Keys && Ids(waiting[i..]) <= Ids(waiting)
    requires waiting[i] in was && w == was[waiting[i]] && Satisfied(flags, w)
    ensures i <= |Unlinked(waiting, waiting[i])|
    ensures Ids(Unlinked(waiting, waiting[i])[i..]) <= Ids(waiting) - {waiting[i]}
    ensures var rest := Serve(Leaves(flags, w), Unlinked(waiting, waiting[i])[i..], was);
      waiting[i] !in rest.got && Serve(flags, waiting[i..], was) == rest.(got := rest.got[waiting[i] := Gets(flags, w)])
  {
    OnceSlices(waiting, i);
    assert waiting[i..][0] == waiting[i] && waiting[i..][1..] == Unlinked(waiting, waiting[i])[i..] == waiting[i + 1..];
    ServedRight(Leaves(flags, w), waiting[i + 1..], was);
  }

  lemma GotStep(got: map<nat, set<nat>>, before: map<nat, set<nat>>, later: map<nat, set<nat>>,
                waiting: seq<nat>, after: seq<nat>, wants: map<nat, Want>, t: nat, w: Want)
    requires before == later[t := w.bits] && t !in later && Ids(after) == Ids(waiting) - {t}
    requires forall x :: x in got ==> Getting(got[x], before, waiting, wants, x)
    ensures forall x :: x in got ==> Getting(got[x], later, after, wants[t := w], x)
  {
    forall x | x in got
      ensures Getting(got[x], later, after, wants[t := w], x)
    {
      assert Getting(got[x], before, waiting, wants, x);
    }
  }

  /** A list up to and after position i. */
  lemma OnceSlices(list: seq<nat>, i: nat)
    requires Once(list) && i < |list|
    ensures Unlinked(list, list[i]) == list[..i] + list[i + 1..]
    ensures list[i] !in Ids(list[i + 1..]) && Ids(list[i + 1..]) <= Ids(list) && Once(list[i + 1..])
  {
    var k := IndexOf(list, list[i]);
    assert list[..k] + [list[i]] + list[k + 1..] == list;
  }

  class Event {
    const byPriority: bool
    var flags: set<nat>
    var waiting: seq<nat>

    /** Each thread's event_set and event_info. */
    var wants: map<nat, Want>

    /** Nobody waits for what is there. */
    ghost predicate Valid()
      reads this
    {
      && Once(waiting) && Ids(waiting) <= wants.Keys
      && (forall t :: t in Ids(waiting) ==> !Satisfied(flags, wants[t]))
    }

    constructor (byPriority: bool)
      ensures Valid() && flags == {} && waiting == [] && this.byPriority == byPriority
    {
      this.byPriority := byPriority;
      flags, waiting, wants := {}, [], map[];
    }

    /** rt_event_send: the flags are set, and the suspended threads are served in the order of
        the list, each exactly as if it received at that moment. */
    method Send(sent: set<nat>) returns (ok: bool, ghost left: seq<set<nat>>, ghost got: map<nat, set<nat>>)
      requires Valid()
      modifies this`flags, this`waiting, this`wants
      ensures Valid() && ok == (sent != {})
      ensures !ok ==> flags == old(flags) && waiting == old(waiting) && wants == old(wants)
      ensures ok ==> Turns(left, old(waiting), old(wants), got)
      ensures ok ==> left[0] == old(flags) + sent && left[|left| - 1] == flags
      ensures ok ==> Ids(waiting) == Ids(old(waiting)) - got.Keys && InOrder(waiting, old(waiting))
      ensures ok ==> forall t :: t in got ==> t in wants && wants[t].bits == got[t]
      ensures ok ==> forall t :: t in old(wants) && t !in got ==> t in wants && wants[t] == old(wants)[t]
    {
      left, got := [], map[];
      ok := sent != {};
      if !ok {
        return;
      }
      flags := flags + sent;
      ServedRight(flags, waiting, wants);
      left := ServedInTurn(flags, waiting, wants);
      ghost var v := Serve(flags, waiting, wants);
      got := v.got;
      assert waiting[0..] == waiting;
      var i := 0;
      while i < |waiting|
        invariant Walking(v, flags, waiting, i, wants, old(wants))
        decreases |waiting| - i
      {
        var served := ServeOne(i, v, old(wants));
        if !served {
          i := i + 1;
        }
      }
      assert waiting[i..] == [] && waiting[..i] == waiting;
      assert waiting == v.waiting;
    }

    /** One round of the walk: the thread at position i, if what it waits for is there, takes it
        and leaves the list. */
    method ServeOne(i: nat, ghost v: Walk, ghost was: map<nat, Want>) returns (served: bool)
      requires Walking(v, flags, waiting, i, wants, was) && i < |waiting|
      modifies this`flags, this`waiting, this`wants
      ensures served ==> Walking(v, flags, waiting, i, wants, was) && |waiting| == |old(waiting)| - 1
      ensures !served ==> Walking(v, flags, waiting, i + 1, wants, was) && waiting == old(waiting)
    {
      var t := waiting[i];
      assert t in Ids(waiting);
      var w := wants[t];
      if Satisfied(flags, w) {
        ServeStep(v, flags, waiting, i, wants, was, w);
      } else {
        KeepStep(v, flags, waiting, i, wants, was);
      }
      OnceUnlinked(waiting, t);
      served := false;
      if w.option.all {
        served := w.bits * flags == w.bits;
      } else if w.option.any {
        if w.bits * flags != {} {
          w := w.(bits := w.bits * flags);
          served := true;
        }
      }
      if served {
        assert w.bits == Gets(flags, wants[t]) && flags - w.bits == flags - wants[t].bits;
        assert wants[t := w] == wants[t := wants[t].(bits := w.bits)];
        if w.option.clear {
          flags := flags - w.bits;
        }
        wants := wants[t := w];
        waiting := Unlinked(waiting, t);
      }
    }

    /** rt_event_recv up to where it returns or its thread is suspended. */
    method Receive(t: nat, bits: set<nat>, option: Option, timeout: int, priority: nat -> nat)
      returns (r: Outcome, got: set<nat>)
      requires Valid() && t !in Ids(waiting) && (option.all || option.any)
      modifies this`flags, this`waiting, this`wants
      ensures Valid()
      ensures r == Refused <==> bits == {}
      ensures r == Received <==> bits != {} && Enough(old(flags), Want(bits, option))
      ensures r == Received ==> TurnOf(old(flags), flags, Want(bits, option), true, got)
      ensures r == Received && option.clear ==> flags == old(flags) - bits
      ensures r == Received && !option.clear ==> flags == old(flags)
      ensures r == Received ==> got == old(flags) * bits && got != {}
      ensures r == TimedOut <==> bits != {} && !Enough(old(flags), Want(bits, option)) && timeout == 0
      ensures r != Received ==> flags == old(flags) && got == {}
      ensures r != Blocked ==> waiting == old(waiting) && wants == old(wants)
      ensures r == Blocked ==> wants == old(wants)[t := Want(bits, option)]
      ensures r == Blocked ==>
        exists p: nat ::
          SuspendPlace(old(waiting), byPriority, priority, t, p) && waiting == Inserted(old(waiting), p, t)
    {
      got := {};
      if bits == {} {
        r := Refused;
        return;
      }
      ghost var w := Want(bits, option);
      var satisfied := if option.all then flags * bits == bits else flags * bits != {};
      assert satisfied == Satisfied(flags, w);
      EnoughIs(flags, w);
      if satisfied {
        got := flags * bits;
        StillWaiting(Leaves(flags, w));
        if option.clear {
          flags := flags - bits;
        }
        r := Received;
      } else if timeout == 0 {
        r := TimedOut;
      } else {
        var p := FindSuspendPlace(waiting, byPriority, priority, t);
        OnceInserted(waiting, p, t);
        wants := wants[t := Want(bits, option)];
        waiting := Inserted(waiting, p, t);
        r := Blocked;
      }
    }

    /** With fewer flags nobody's wait is over. */
    lemma StillWaiting(fewer: set<nat>)
      requires Valid() && fewer <= flags
      ensures forall t :: t in Ids(waiting) ==> !Satisfied(fewer, wants[t])
    {
      forall t | t in Ids(waiting)
        ensures !Satisfied(fewer, wants[t])
      {
        if Satisfied(fewer, wants[t]) {
          Shrinks(fewer, flags, wants[t]);
        }
      }
    }

    /** The timer of a suspended thread runs out. */
    method Expire(t: nat)
      requires Valid()
      modifies this`waiting
      ensures Valid() && waiting == Unlinked(old(waiting), t)
    {
      OnceUnlinked(waiting, t);
      waiting := Unlinked(waiting, t);
    }

    /** rt_event_control with RT_IPC_CMD_RESET. */
    method Reset()
      modifies this`waiting, this`flags
      ensures Valid() && flags == {} && waiting == []
    {
      waiting, flags := [], {};
    }
  }
}
