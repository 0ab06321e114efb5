/** A FastHash into which no key is inserted twice is a map, and its index lists that map. */
module HashMaps {
  import opened HashModel

  ghost predicate IsMap<K(!new), V>(h: Hash<K, V>, f: K -> nat, m: map<K, V>)
    requires Inv(h, f)
  {
    Size(h) == |m| && forall k :: Stack(h, f, k) == if k in m then [m[k]] else []
  }

  lemma EmptyIsMap<K(!new), V>(tsize: nat, keys: seq<K>, vals: seq<V>, f: K -> nat)
    requires tsize > 0 && |keys| == |vals| > 0
    ensures Inv(Empty(tsize, keys, vals), f) && IsMap(Empty(tsize, keys, vals), f, map[])
  {
    EmptyInv(tsize, keys, vals, f);
  }

  /** A new key is added when there is room; a full table stays as it is. */
  lemma InsertIsMap<K(!new), V>(h: Hash<K, V>, f: K -> nat, m: map<K, V>, key: K, value: V)
    requires Inv(h, f) && IsMap(h, f, m) && key !in m
    ensures Inv(Insert(h, f, key, value), f)
    ensures IsMap(Insert(h, f, key, value), f, if |m| < |h.own| then m[key := value] else m)
  {
    hide Inv, Insert, Stack, Size;
    InsertInv(h, f, key, value);
    SizeFits(h, f);
    if |m| < |h.own| {
      var n := m[key := value];
      forall k ensures Stack(Insert(h, f, key, value), f, k) == if k in n then [n[k]] else [] {
        InsertStack(h, f, key, value, k);
        assert Stack(h, f, k) == if k in m then [m[k]] else [];
      }
    }
  }

  lemma SizeFits<K(!new), V>(h: Hash<K, V>, f: K -> nat)
    requires Inv(h, f)
    ensures Size(h) <= |h.own|
  {
  }

  lemma RemoveIsMap<K(!new), V>(h: Hash<K, V>, f: K -> nat, m: map<K, V>, key: K)
    requires Inv(h, f) && IsMap(h, f, m)
    ensures Inv(Remove(h, f, key), f) && IsMap(Remove(h, f, key), f, m - {key})
  {
    hide Inv, Remove, Stack, Size;
    RemoveInv(h, f, key);
    assert Stack(h, f, key) == if key in m then [m[key]] else [];
    Fewer(m, key);
    RemoveSize(h, f, key);
    forall k ensures Stack(Remove(h, f, key), f, k) == if k in m - {key} then [(m - {key})[k]] else [] {
      RemoveAt(h, f, key, k);
      assert Stack(h, f, k) == if k in m then [m[k]] else [];
    }
  }

  lemma Fewer<K, V>(m: map<K, V>, key: K)
    ensures |m - {key}| == if key in m then |m| - 1 else |m|
  {
    assert (m - {key}).Keys == m.Keys - {key};
    assert |m| == |m.Keys| && |m - {key}| == |(m - {key}).Keys|;
  }

  lemma RemoveSize<K(!new), V>(h: Hash<K, V>, f: K -> nat, key: K)
    requires Inv(h, f) && Inv(Remove(h, f, key), f)
    ensures Size(Remove(h, f, key)) == if Stack(h, f, key) != [] then Size(h) - 1 else Size(h)
  {
    var t := Bucket(h, f, key);
    ListInRange(h, t);
    SelectNone(h.lists[t], h.keys, h.vals, key);
    if Stack(h, f, key) != [] {
      RemoveFields(h, f, key);
    }
  }

  lemma RemoveAt<K(!new), V>(h: Hash<K, V>, f: K -> nat, key: K, k: K)
    requires Inv(h, f) && Inv(Remove(h, f, key), f)
    ensures Stack(Remove(h, f, key), f, k)
            == if k == key && Stack(h, f, key) != [] then Stack(h, f, k)[1..] else Stack(h, f, k)
  {
    var t := Bucket(h, f, key);
    ListInRange(h, t);
    SelectNone(h.lists[t], h.keys, h.vals, key);
    if Stack(h, f, key) != [] {
      RemoveStack(h, f, key, k);
    }
  }

  lemma AssignIsMap<K(!new), V>(h: Hash<K, V>, f: K -> nat, m: map<K, V>, key: K, value: V)
    requires Inv(h, f) && IsMap(h, f, m) && key in m
    ensures Inv(Assign(h, f, key, value), f) && IsMap(Assign(h, f, key, value), f, m[key := value])
  {
    hide Inv, Assign, Stack, Size;
    AssignInv(h, f, key, value);
    assert Stack(h, f, key) == [m[key]];
    var n := m[key := value];
    forall k ensures Stack(Assign(h, f, key, value), f, k) == if k in n then [n[k]] else [] {
      AssignStack(h, f, key, value, k);
      assert Stack(h, f, k) == if k in m then [m[k]] else [];
    }
  }

  /** Whatever position of the index is asked for, below the size, an entry of the map comes back. */
  lemma ListedIsEntry<K(!new), V>(h: Hash<K, V>, f: K -> nat, m: map<K, V>, i: nat)
    requires Inv(h, f) && IsMap(h, f, m) && i < |m|
    ensures i < |Listing(h, f)| && Listing(h, f)[i].0 in m && Listing(h, f)[i].1 == m[Listing(h, f)[i].0]
  {
    hide Inv, Stack, Listing, Size;
    var listing := Listing(h, f);
    ListingAt(h, f);
    var (k, v) := listing[i];
    ListingIsStacks(h, f, k, v);
    assert listing[i] in multiset(listing);
    assert Stack(h, f, k) == if k in m then [m[k]] else [];
  }
}
