/** Linked lists threaded through one array of nodes, as FastHash keeps them: list `t` for
    bucket `t`, and one more, the last, for the free nodes. */
module Chains {

  /** `c` is the list that starts at `head` and follows `next`; -1 is the null pointer. */
  ghost predicate Linked(next: seq<int>, head: int, c: seq<int>)
  {
    && head == Head(c)
    && forall j :: 0 <= j < |c| ==> 0 <= c[j] < |next| && next[c[j]] == Head(c[j + 1..])
  }

  function Head(c: seq<int>): int {
    if c == [] then -1 else c[0]
  }

  ghost predicate Distinct(c: seq<int>)
  {
    forall i, j :: 0 <= i < j < |c| ==> c[i] != c[j]
  }

  ghost predicate AllDistinct(lists: seq<seq<int>>)
  {
    forall t :: 0 <= t < |lists| ==> Distinct(lists[t])
  }

  /** Every listed node knows its list. */
  ghost predicate Owned(lists: seq<seq<int>>, own: seq<int>)
  {
    forall t, j :: 0 <= t < |lists| && 0 <= j < |lists[t]| ==> OwnedBy(own, lists[t][j], t)
  }

  ghost predicate OwnedBy(own: seq<int>, x: int, t: int)
  {
    0 <= x < |own| && own[x] == t
  }

  /** Every node is in the list it names. */
  ghost predicate Covered(lists: seq<seq<int>>, own: seq<int>)
  {
    forall x :: 0 <= x < |own| ==> 0 <= own[x] < |lists| && x in lists[own[x]]
  }

  function Total(lists: seq<seq<int>>): nat
  {
    if lists == [] then 0 else Total(lists[..|lists| - 1]) + |lists[|lists| - 1]|
  }

  /** The lists partition the nodes: each node is in exactly one list, once. */
  ghost predicate Partition(lists: seq<seq<int>>, own: seq<int>)
  {
    Owned(lists, own) && AllDistinct(lists) && Covered(lists, own) && Total(lists) == |own|
  }

  ghost predicate AllLinked(next: seq<int>, heads: seq<int>, lists: seq<seq<int>>)
  {
    |heads| == |lists| && forall t :: 0 <= t < |lists| ==> Linked(next, heads[t], lists[t])
  }

  function Drop(c: seq<int>, j: nat): (d: seq<int>)
    requires j < |c|
    ensures |d| == |c| - 1
  {
    c[..j] + c[j + 1..]
  }

  /** Node `j` of list `a` becomes the first of list `b`. */
  function Move(lists: seq<seq<int>>, a: nat, j: nat, b: nat): (r: seq<seq<int>>)
    requires a < |lists| && b < |lists| && a != b && j < |lists[a]|
    ensures |r| == |lists|
    ensures r[a] == Drop(lists[a], j) && r[b] == [lists[a][j]] + lists[b]
    ensures forall t :: 0 <= t < |lists| && t != a && t != b ==> r[t] == lists[t]
  {
    lists[a := Drop(lists[a], j)][b := [lists[a][j]] + lists[b]]
  }

  lemma {:induction false} TotalUpdate(lists: seq<seq<int>>, t: nat, c: seq<int>)
    requires t < |lists|
    ensures Total(lists[t := c]) == Total(lists) - |lists[t]| + |c|
  {
    var n := |lists| - 1;
    if t == n {
      assert lists[t := c][..n] == lists[..n];
    } else {
      assert lists[t := c][..n] == lists[..n][t := c];
      TotalUpdate(lists[..n], t, c);
    }
  }

  lemma MoveOwned(lists: seq<seq<int>>, own: seq<int>, a: nat, j: nat, b: nat)
    requires a < |lists| && b < |lists| && a != b && j < |lists[a]|
    requires Owned(lists, own) && AllDistinct(lists)
    ensures OwnedBy(own, lists[a][j], a)
    ensures Owned(Move(lists, a, j, b), own[lists[a][j] := b])
  {
  }

  lemma MoveDistinct(lists: seq<seq<int>>, own: seq<int>, a: nat, j: nat, b: nat)
    requires a < |lists| && b < |lists| && a != b && j < |lists[a]|
    requires Owned(lists, own) && AllDistinct(lists)
    ensures AllDistinct(Move(lists, a, j, b))
  {
  }

  lemma MoveCovered(lists: seq<seq<int>>, own: seq<int>, a: nat, j: nat, b: nat)
    requires a < |lists| && b < |lists| && a != b && j < |lists[a]|
    requires OwnedBy(own, lists[a][j], a) && Covered(lists, own)
    ensures Covered(Move(lists, a, j, b), own[lists[a][j] := b])
  {
  }

  /** Moving a node keeps the partition, so no node is ever lost or listed twice. */
  lemma MovePartition(lists: seq<seq<int>>, own: seq<int>, a: nat, j: nat, b: nat)
    requires a < |lists| && b < |lists| && a != b && j < |lists[a]|
    requires Partition(lists, own)
    ensures OwnedBy(own, lists[a][j], a)
    ensures Partition(Move(lists, a, j, b), own[lists[a][j] := b])
  {
    MoveOwned(lists, own, a, j, b);
    MoveDistinct(lists, own, a, j, b);
    MoveCovered(lists, own, a, j, b);
    TotalUpdate(lists, a, Drop(lists[a], j));
    TotalUpdate(lists[a := Drop(lists[a], j)], b, [lists[a][j]] + lists[b]);
  }

  // ---- The pointer surgery that performs a move ----

  /** A list that owns none of the rewritten nodes keeps its links. */
  lemma LinkedFrame(next: seq<int>, next': seq<int>, head: int, c: seq<int>)
    requires Linked(next, head, c) && |next| == |next'|
    requires forall j :: 0 <= j < |c| ==> next'[c[j]] == next[c[j]]
    ensures Linked(next', head, c)
  {
  }

  lemma LinkedTail(next: seq<int>, head: int, c: seq<int>)
    requires Linked(next, head, c) && c != []
    ensures Linked(next, next[c[0]], c[1..])
  {
  }

  /** Unlinking an inner node: its predecessor now points past it. */
  lemma LinkedSkip(next: seq<int>, next': seq<int>, head: int, c: seq<int>, j: nat)
    requires Linked(next, head, c) && Distinct(c) && 0 < j < |c| && |next'| == |next|
    requires next'[c[j - 1]] == next[c[j]]
    requires forall i :: 0 <= i < |c| && i != j - 1 && i != j ==> next'[c[i]] == next[c[i]]
    ensures Linked(next', head, Drop(c, j))
  {
  }

  ghost predicate SameElsewhere(next: seq<int>, next': seq<int>, own: seq<int>, a: int)
  {
    |next| == |next'| == |own| && forall x :: 0 <= x < |own| && own[x] != a ==> next'[x] == next[x]
  }

  /** Rewriting nodes of list `a` only, then pushing node `x` on list `b`, relinks every list. */
  lemma MoveLinked(next: seq<int>, next': seq<int>, heads: seq<int>, heads': seq<int>,
                   lists: seq<seq<int>>, own: seq<int>, a: nat, j: nat, b: nat)
    requires a < |lists| && b < |lists| && a != b && j < |lists[a]|
    requires AllLinked(next, heads, lists) && Owned(lists, own) && OwnedBy(own, lists[a][j], a)
    requires SameElsewhere(next, next', own, a)
    requires |heads'| == |heads| && heads'[b] == lists[a][j] && next'[lists[a][j]] == heads[b]
    requires forall t :: 0 <= t < |lists| && t != a && t != b ==> heads'[t] == heads[t]
    requires Linked(next', heads'[a], Drop(lists[a], j))
    ensures AllLinked(next', heads', Move(lists, a, j, b))
  {
  }

  // ---- All listed nodes, in list order ----

  function Flatten(lists: seq<seq<int>>): (f: seq<int>)
    ensures |f| == Total(lists)
  {
    if lists == [] then [] else Flatten(lists[..|lists| - 1]) + lists[|lists| - 1]
  }

  lemma {:induction false} FlattenMembers(lists: seq<seq<int>>, x: int)
    ensures x in Flatten(lists) <==> exists t :: 0 <= t < |lists| && x in lists[t]
    decreases |lists|
  {
    if lists != [] {
      var n := |lists| - 1;
      FlattenMembers(lists[..n], x);
      if x in Flatten(lists[..n]) {
        var t :| 0 <= t < n && x in lists[..n][t];
        assert x in lists[t];
      }
      if t :| 0 <= t < |lists| && x in lists[t] && t < n {
        assert x in lists[..n][t];
      }
    }
  }

  lemma FlattenOwned(lists: seq<seq<int>>, own: seq<int>, x: int)
    requires Owned(lists, own) && x in Flatten(lists)
    ensures 0 <= x < |own| && 0 <= own[x] < |lists|
  {
  }

  /** The concatenation of the lists lists every node of theirs exactly once. */
  lemma {:induction false} FlattenDistinct(lists: seq<seq<int>>, own: seq<int>)
    requires Owned(lists, own) && AllDistinct(lists)
    ensures Distinct(Flatten(lists))
    decreases |lists|
  {
    if lists != [] {
      var n := |lists| - 1;
      var init, last := lists[..n], lists[n];
      assert forall t, j :: 0 <= t < n && 0 <= j < |init[t]| ==> OwnedBy(own, lists[t][j], t);
      assert forall t :: 0 <= t < n ==> Distinct(lists[t]);
      FlattenDistinct(init, own);
      assert Distinct(last);
      forall i, j | 0 <= i < |Flatten(init)| && 0 <= j < |last| ensures Flatten(init)[i] != last[j] {
        FlattenOwned(init, own, Flatten(init)[i]);
        assert OwnedBy(own, lists[n][j], n);
      }
    }
  }
}
