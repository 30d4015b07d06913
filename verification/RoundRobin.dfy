/** Time slices among threads of the same priority: who runs at which tick. */
module RoundRobin {
  /** The threads that take turns, the running one first, and what is left of its slice. */
  datatype Turn = Turn(ring: seq<nat>, left: nat)

  /** Every thread in the ring has a slice. */
  predicate Slices(ring: seq<nat>, len: map<nat, nat>) {
    ring != [] && forall k :: 0 <= k < |ring| ==> ring[k] in len && len[ring[k]] > 0
  }

  /** The first thread goes to the end. */
  function Rotated(ring: seq<nat>): seq<nat>
    requires ring != []
  {
    ring[1..] + [ring[0]]
  }

  lemma RotatedSlices(ring: seq<nat>, len: map<nat, nat>)
    requires Slices(ring, len)
    ensures Slices(Rotated(ring), len)
  {
  }

  /** One clock tick; len[x] is the slice of thread x. */
  function Tick(t: Turn, len: map<nat, nat>): (r: Turn)
    requires Slices(t.ring, len)
    ensures Slices(r.ring, len)
  {
    if t.left > 1 then t.(left := t.left - 1)
    else
      RotatedSlices(t.ring, len);
      Turn(Rotated(t.ring), len[Rotated(t.ring)[0]])
  }

  ghost function Ticks(t: Turn, len: map<nat, nat>, n: nat): (r: Turn)
    requires Slices(t.ring, len)
    ensures Slices(r.ring, len)
    decreases n
  {
    if n == 0 then t else Ticks(Tick(t, len), len, n - 1)
  }

  lemma {:induction false} TicksAdd(t: Turn, len: map<nat, nat>, m: nat, n: nat)
    requires Slices(t.ring, len)
    ensures Ticks(t, len, m + n) == Ticks(Ticks(t, len, m), len, n)
    decreases m
  {
    if m > 0 {
      TicksAdd(Tick(t, len), len, m - 1, n);
    }
  }

  lemma TicksMore(t: Turn, len: map<nat, nat>, n: nat)
    requires Slices(t.ring, len)
    ensures Ticks(t, len, n + 1) == Tick(Ticks(t, len, n), len)
  {
    TicksAdd(t, len, n, 1);
    OneTick(Ticks(t, len, n), len);
  }

  function Sum(ring: seq<nat>, len: map<nat, nat>): nat
    requires forall k :: 0 <= k < |ring| ==> ring[k] in len
  {
    if ring == [] then 0 else len[ring[0]] + Sum(ring[1..], len)
  }

  /** The running thread keeps running until its slice is used up. */
  lemma {:induction false} Running(t: Turn, len: map<nat, nat>, n: nat)
    requires Slices(t.ring, len) && n < t.left
    ensures Ticks(t, len, n) == t.(left := t.left - n)
    decreases n
  {
    if n > 0 {
      Running(t.(left := t.left - 1), len, n - 1);
    }
  }

  lemma SliceEnds(t: Turn, len: map<nat, nat>)
    requires Slices(t.ring, len) && t.left > 0
    ensures Rotated(t.ring)[0] in len && Ticks(t, len, t.left) == Turn(Rotated(t.ring), len[Rotated(t.ring)[0]])
  {
    RotatedSlices(t.ring, len);
    Running(t, len, t.left - 1);
    LastTick(t, len, t.left - 1, t.(left := 1));
  }

  lemma LastTick(t: Turn, len: map<nat, nat>, n: nat, u: Turn)
    requires Slices(t.ring, len) && Ticks(t, len, n) == u
    ensures Ticks(t, len, n + 1) == Tick(u, len)
  {
    TicksMore(t, len, n);
  }

  lemma OneTick(t: Turn, len: map<nat, nat>)
    requires Slices(t.ring, len)
    ensures Ticks(t, len, 1) == Tick(t, len)
  {
    assert Ticks(Tick(t, len), len, 0) == Tick(t, len);
  }

  /** After the slices of the first k threads the ring has turned by k, and a fresh slice begins. */
  lemma {:induction false} Turned(ring: seq<nat>, len: map<nat, nat>, k: nat)
    requires Slices(ring, len) && k <= |ring|
    ensures Slices(ring[k..] + ring[..k], len)
    ensures Ticks(Turn(ring, len[ring[0]]), len, Sum(ring[..k], len)) ==
      Turn(ring[k..] + ring[..k], len[(ring[k..] + ring[..k])[0]])
    decreases k
  {
    var start := Turn(ring, len[ring[0]]);
    if k == 0 {
      assert ring[0..] + ring[..0] == ring;
    } else {
      var j := k - 1;
      Turned(ring, len, j);
      var before := ring[j..] + ring[..j];
      SumSnoc(ring[..j], len, ring[j]);
      assert ring[..j] + [ring[j]] == ring[..k];
      TicksAdd(start, len, Sum(ring[..j], len), len[ring[j]]);
      SliceEnds(Turn(before, len[before[0]]), len);
      assert Rotated(before) == ring[k..] + ring[..k];
    }
  }

  lemma {:induction false} SumSnoc(ring: seq<nat>, len: map<nat, nat>, x: nat)
    requires x in len && forall k :: 0 <= k < |ring| ==> ring[k] in len
    ensures Sum(ring + [x], len) == Sum(ring, len) + len[x]
    decreases |ring|
  {
    if ring != [] {
      assert (ring + [x])[1..] == ring[1..] + [x];
      SumSnoc(ring[1..], len, x);
    }
  }

  /** Fairness: in one cycle every thread runs for exactly its slice, one after the other. */
  lemma Fair(ring: seq<nat>, len: map<nat, nat>, k: nat, i: nat)
    requires Slices(ring, len) && k < |ring| && i < len[ring[k]]
    ensures Ticks(Turn(ring, len[ring[0]]), len, Sum(ring[..k], len) + i).ring[0] == ring[k]
    ensures Ticks(Turn(ring, len[ring[0]]), len, Sum(ring[..k], len) + i).left == len[ring[k]] - i
  {
    Turned(ring, len, k);
    TicksAdd(Turn(ring, len[ring[0]]), len, Sum(ring[..k], len), i);
    var turned := ring[k..] + ring[..k];
    assert turned[0] == ring[k];
    Running(Turn(turned, len[ring[k]]), len, i);
  }

  /** When the cycle is over everything is as it was. */
  lemma Cycle(ring: seq<nat>, len: map<nat, nat>)
    requires Slices(ring, len)
    ensures Ticks(Turn(ring, len[ring[0]]), len, Sum(ring, len)) == Turn(ring, len[ring[0]])
  {
    Turned(ring, len, |ring|);
    assert ring[..|ring|] == ring && ring[|ring|..] + ring == ring;
  }
}
