/** The intrusive lists of rtservice.h as sequences of the objects linked in them. */
module Lists {
  /** The members of a list. */
  function Ids(list: seq<nat>): set<nat> {
    set x | x in list
  }

  function IndexOf(list: seq<nat>, x: nat): (i: nat)
    requires x in list
    ensures i < |list| && list[i] == x && x !in list[..i]
  {
    if list[0] == x then 0 else 1 + IndexOf(list[1..], x)
  }

  /** rt_list_remove of x's node; a node that is not in the list changes nothing. */
  function Unlinked(list: seq<nat>, x: nat): (r: seq<nat>) {
    if x in list then var i := IndexOf(list, x); list[..i] + list[i + 1..] else list
  }

  /** rt_list_insert_after the node at position p - 1. */
  function Inserted(list: seq<nat>, p: nat, x: nat): (r: seq<nat>)
    requires p <= |list|
  {
    list[..p] + [x] + list[p..]
  }

  /** Position k once position i is gone. */
  function Skip(i: nat, k: nat): nat {
    if k < i then k else k + 1
  }

  lemma UnlinkedAt(list: seq<nat>, x: nat, k: nat)
    requires x in list && k < |list| - 1
    ensures |Unlinked(list, x)| == |list| - 1
    ensures Unlinked(list, x)[k] == list[Skip(IndexOf(list, x), k)]
  {
    var i := IndexOf(list, x);
    assert Unlinked(list, x) == list[..i] + list[i + 1..];
  }

  lemma IdsConcat(a: seq<nat>, b: seq<nat>)
    ensures Ids(a + b) == Ids(a) + Ids(b)
  {
  }

  lemma OnceIds(list: seq<nat>, x: nat)
    requires x in list && x !in list[IndexOf(list, x) + 1..]
    ensures Ids(Unlinked(list, x)) == Ids(list) - {x}
  {
    var i := IndexOf(list, x);
    assert list == list[..i] + ([x] + list[i + 1..]);
    IdsConcat([x], list[i + 1..]);
    IdsConcat(list[..i], [x] + list[i + 1..]);
    IdsConcat(list[..i], list[i + 1..]);
  }

  /** What is at position k after x went in at p. */
  function Shifted(list: seq<nat>, p: nat, x: nat, k: nat): nat
    requires p <= |list| && k <= |list|
  {
    if k < p then list[k] else if k == p then x else list[k - 1]
  }

  lemma InsertedAt(list: seq<nat>, p: nat, x: nat, k: nat)
    requires p <= |list| && k <= |list|
    ensures |Inserted(list, p, x)| == |list| + 1
    ensures Inserted(list, p, x)[k] == Shifted(list, p, x, k)
  {
  }

  lemma InsertedIds(list: seq<nat>, p: nat, x: nat)
    requires p <= |list|
    ensures Ids(Inserted(list, p, x)) == Ids(list) + {x}
  {
    assert list == list[..p] + list[p..];
    assert Inserted(list, p, x) == list[..p] + ([x] + list[p..]);
    IdsConcat(list[..p], list[p..]);
    IdsConcat([x], list[p..]);
    IdsConcat(list[..p], [x] + list[p..]);
  }

  /** x is linked at most once. */
  ghost predicate Once(list: seq<nat>) {
    forall i, j :: 0 <= i < j < |list| ==> list[i] != list[j]
  }

  lemma OnceUnlinked(list: seq<nat>, x: nat)
    requires Once(list)
    ensures Once(Unlinked(list, x)) && Ids(Unlinked(list, x)) == Ids(list) - {x}
    ensures |Unlinked(list, x)| == |list| - (if x in list then 1 else 0)
  {
    if x in list {
      var i := IndexOf(list, x);
      forall k | i < k < |list|
        ensures list[k] != x
      {
        assert list[i] != list[k];
      }
      OnceIds(list, x);
      forall k, l | 0 <= k < l < |Unlinked(list, x)|
        ensures Unlinked(list, x)[k] != Unlinked(list, x)[l]
      {
        UnlinkedAt(list, x, k);
        UnlinkedAt(list, x, l);
      }
    }
  }

  lemma OnceTail(list: seq<nat>)
    requires Once(list) && list != []
    ensures Once(list[1..]) && Ids(list[1..]) == Ids(list) - {list[0]}
  {
    OnceUnlinked(list, list[0]);
    assert Unlinked(list, list[0]) == list[1..];
  }

  /** Linking a node once more keeps the list sound exactly if the node was in no list. */
  lemma OnceAppended(list: seq<nat>, x: nat)
    ensures Once(list + [x]) <==> Once(list) && x !in Ids(list)
    ensures Ids(list + [x]) == Ids(list) + {x}
  {
    var r := list + [x];
    assert r[|list|] == x;
    assert forall i :: 0 <= i < |list| ==> r[i] == list[i];
    if Once(r) {
      forall i | 0 <= i < |list|
        ensures list[i] != x
      {
        assert r[i] != r[|list|];
      }
    }
    IdsConcat(list, [x]);
  }

  lemma OnceInserted(list: seq<nat>, p: nat, x: nat)
    requires Once(list) && p <= |list| && x !in Ids(list)
    ensures Once(Inserted(list, p, x)) && Ids(Inserted(list, p, x)) == Ids(list) + {x}
  {
    InsertedIds(list, p, x);
    var r := Inserted(list, p, x);
    forall k, l | 0 <= k < l < |r|
      ensures r[k] != r[l]
    {
      InsertedAt(list, p, x, k);
      InsertedAt(list, p, x, l);
      assert k != p ==> Shifted(list, p, x, k) in Ids(list);
      assert l != p ==> Shifted(list, p, x, l) in Ids(list);
    }
  }

  lemma Prepended(list: seq<nat>, x: nat)
    requires Once(list) && x !in Ids(list)
    ensures Once([x] + list) && Ids([x] + list) == Ids(list) + {x}
  {
    OnceInserted(list, 0, x);
    assert Inserted(list, 0, x) == [x] + list;
  }
}
