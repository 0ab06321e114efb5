/** Whole runs of a FastHash: it is a bounded map from keys to stacks, with an index of all it holds. */
module HashRuns {
  import opened Chains
  import opened HashModel

  datatype Op<K, V> =
    | InsertOp(key: K, value: V)
    | RemoveOp(key: K)
    | AssignOp(key: K, value: V)
    | LookupOp(index: nat)

  /** The specification: stacks by key, and how many values are held in all. */
  datatype Stacks<K, V> = Stacks(at: map<K, seq<V>>, held: nat)

  function At<K, V>(m: Stacks<K, V>, k: K): seq<V>
  {
    if k in m.at then m.at[k] else []
  }

  function Apply<K, V>(m: Stacks<K, V>, capacity: nat, op: Op<K, V>): Stacks<K, V>
  {
    match op
    case InsertOp(k, v) =>
      if m.held >= capacity then m else Stacks(m.at[k := [v] + At(m, k)], m.held + 1)
    case RemoveOp(k) =>
      if At(m, k) == [] || m.held == 0 then m else Stacks(m.at[k := At(m, k)[1..]], m.held - 1)
    case AssignOp(k, v) =>
      if At(m, k) == [] then m else m.(at := m.at[k := [v] + At(m, k)[1..]])
    case LookupOp(_) => m
  }

  function ApplyAll<K, V>(capacity: nat, ops: seq<Op<K, V>>): Stacks<K, V>
  {
    if ops == [] then Stacks(map[], 0)
    else Apply(ApplyAll(capacity, ops[..|ops| - 1]), capacity, ops[|ops| - 1])
  }

  ghost function Do<K(!new), V>(h: Hash<K, V>, f: K -> nat, op: Op<K, V>): (r: Hash<K, V>)
    requires Inv(h, f)
    ensures Inv(r, f) && |r.own| == |h.own|
  {
    match op
    case InsertOp(k, v) => InsertInv(h, f, k, v); Insert(h, f, k, v)
    case RemoveOp(k) => RemoveInv(h, f, k); Remove(h, f, k)
    case AssignOp(k, v) => AssignInv(h, f, k, v); Assign(h, f, k, v)
    case LookupOp(i) => IndexedInv(h, f); if i < Size(h) then Indexed(h) else h
  }

  ghost function DoAll<K(!new), V>(h: Hash<K, V>, f: K -> nat, ops: seq<Op<K, V>>): (r: Hash<K, V>)
    requires Inv(h, f)
    ensures Inv(r, f) && |r.own| == |h.own|
  {
    if ops == [] then h else Do(DoAll(h, f, ops[..|ops| - 1]), f, ops[|ops| - 1])
  }

  ghost predicate Refines<K(!new), V(!new)>(h: Hash<K, V>, f: K -> nat, m: Stacks<K, V>)
    requires Inv(h, f)
  {
    Size(h) == m.held && forall k :: Stack(h, f, k) == At(m, k)
  }

  lemma AssignRefines<K(!new), V(!new)>(h: Hash<K, V>, f: K -> nat, m: Stacks<K, V>, key: K, value: V)
    requires Inv(h, f) && Refines(h, f, m)
    ensures Refines(Do(h, f, AssignOp(key, value)), f, Apply(m, |h.own|, AssignOp(key, value)))
  {
    hide Inv, Assign, Size, Stack;
    AssignInv(h, f, key, value);
    assert Stack(h, f, key) == At(m, key);
    forall k ensures Stack(Assign(h, f, key, value), f, k) == At(Apply(m, |h.own|, AssignOp(key, value)), k) {
      AssignStack(h, f, key, value, k);
      assert Stack(h, f, k) == At(m, k);
    }
  }

  lemma DoRefines<K(!new), V(!new)>(h: Hash<K, V>, f: K -> nat, m: Stacks<K, V>, op: Op<K, V>)
    requires Inv(h, f) && Refines(h, f, m)
    ensures Refines(Do(h, f, op), f, Apply(m, |h.own|, op))
  {
    match op
    case InsertOp(key, value) =>
      InsertInv(h, f, key, value);
      assert Size(h) <= |h.own|;
      if Size(h) < |h.own| {
        forall k ensures Stack(Do(h, f, op), f, k) == At(Apply(m, |h.own|, op), k) {
          InsertStack(h, f, key, value, k);
          assert Stack(h, f, k) == At(m, k);
        }
      }
    case RemoveOp(key) =>
      RemoveInv(h, f, key);
      assert Stack(h, f, key) == At(m, key);
      if Stack(h, f, key) != [] {
        RemoveFields(h, f, key);
        forall k ensures Stack(Do(h, f, op), f, k) == At(Apply(m, |h.own|, op), k) {
          RemoveStack(h, f, key, k);
          assert Stack(h, f, k) == At(m, k);
        }
      }
    case AssignOp(key, value) => AssignRefines(h, f, m, key, value);
    case LookupOp(_) => IndexedInv(h, f);
  }

  /** After any sequence of insertions, removals, assignments and lookups by index the table holds exactly
      the specified stacks. */
  lemma {:induction false} RunRefines<K(!new), V(!new)>(tsize: nat, keys: seq<K>, vals: seq<V>, f: K -> nat,
                                                        ops: seq<Op<K, V>>)
    requires tsize > 0 && |keys| == |vals| > 0
    ensures Inv(Empty(tsize, keys, vals), f)
    ensures Refines(DoAll(Empty(tsize, keys, vals), f, ops), f, ApplyAll(|keys|, ops))
    decreases |ops|
  {
    if ops == [] {
      EmptyInv(tsize, keys, vals, f);
    } else {
      var init := ops[..|ops| - 1];
      RunRefines(tsize, keys, vals, f, init);
      DoRefines(DoAll(Empty(tsize, keys, vals), f, init), f, ApplyAll(|keys|, init), ops[|ops| - 1]);
    }
  }

  /** And lookup by index over 0 to size - 1 then lists every value held, as often as it is held. */
  lemma RunListing<K(!new), V(!new)>(tsize: nat, keys: seq<K>, vals: seq<V>, f: K -> nat,
                                      ops: seq<Op<K, V>>, k: K, v: V)
    requires tsize > 0 && |keys| == |vals| > 0
    ensures Inv(Empty(tsize, keys, vals), f)
    ensures var h, m := DoAll(Empty(tsize, keys, vals), f, ops), ApplyAll(|keys|, ops);
            |Listing(h, f)| == m.held && multiset(Listing(h, f))[(k, v)] == multiset(At(m, k))[v]
  {
    hide Inv, DoAll, ApplyAll, Empty, Listing;
    RunRefines(tsize, keys, vals, f, ops);
    ListingIsStacks(DoAll(Empty(tsize, keys, vals), f, ops), f, k, v);
  }
}
