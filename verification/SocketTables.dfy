/** FastHashDynamic as the poller and the TCP thread use it: from a socket to a number, no socket twice. */
module SocketTables {
  import opened Options
  import FastHash
  import HashModel
  import HashMaps
  import Primes

  /** A descriptor as an unsigned machine word. */
  function HashOf(s: int): nat
  {
    s % 0x1_0000_0000_0000_0000
  }

  class SocketTable {
    const hash: FastHash.FastHash<int, nat>

    /** What the hash table holds. */
    ghost var m: map<int, nat>

    ghost function Repr(): set<object>
    {
      {this, hash, hash.keys, hash.vals, hash.next, hash.table, hash.index}
    }

    ghost predicate Valid()
      reads this, hash, hash.keys, hash.vals, hash.next, hash.table, hash.index
    {
      hash.Valid() && HashMaps.IsMap(hash.h, hash.hash, m)
    }

    /** As wide as the least prime that is not below the capacity. */
    constructor (capacity: nat)
      requires capacity > 0
      ensures Valid() && m == map[] && hash.fsize == capacity && fresh(Repr())
    {
      var width := Primes.FindPrime(capacity);
      var table := new FastHash.FastHash<int, nat>(capacity, width, HashOf);
      hash := table;
      m := map[];
      new;
      HashMaps.EmptyIsMap(width, hash.keys[..], hash.vals[..], HashOf);
    }

    method Size() returns (n: nat)
      requires Valid()
      ensures n == |m|
    {
      hide HashModel.Inv, HashModel.Stack;
      n := hash.size;
    }

    method Lookup(s: int) returns (v: Option<nat>)
      requires Valid()
      ensures v == if s in m then Some(m[s]) else None
    {
      hide HashModel.Inv, HashModel.Stack;
      var found, value := hash.Lookup(s);
      assert HashModel.Stack(hash.h, hash.hash, s) == if s in m then [m[s]] else [];
      v := if found then Some(value) else None;
    }

    method Insert(s: int, value: nat) returns (ok: bool)
      requires Valid() && s !in m
      modifies Repr()
      ensures Valid() && ok == (|old(m)| < hash.fsize) && m == if ok then old(m)[s := value] else old(m)
    {
      hide HashModel.Inv, HashModel.Stack, HashModel.Insert, HashModel.Size;
      HashMaps.InsertIsMap(hash.h, hash.hash, m, s, value);
      ok := hash.Insert(s, value);
      m := if ok then m[s := value] else m;
    }

    method Remove(s: int) returns (ok: bool)
      requires Valid()
      modifies Repr()
      ensures Valid() && ok == (s in old(m)) && m == old(m) - {s}
    {
      hide HashModel.Inv, HashModel.Stack, HashModel.Remove, HashModel.Size;
      HashMaps.RemoveIsMap(hash.h, hash.hash, m, s);
      assert HashModel.Stack(hash.h, hash.hash, s) == if s in m then [m[s]] else [];
      ok := hash.Remove(s);
      m := m - {s};
    }

    /** A write through the place Lookup returns. */
    method Assign(s: int, value: nat)
      requires Valid() && s in m
      modifies Repr()
      ensures Valid() && m == old(m)[s := value]
    {
      hide HashModel.Inv, HashModel.Stack, HashModel.Assign, HashModel.Size;
      HashMaps.AssignIsMap(hash.h, hash.hash, m, s, value);
      var ok := hash.Assign(s, value);
      m := m[s := value];
    }

    /** The first item of the index: some entry, while there is one. */
    method First() returns (item: Option<(int, nat)>)
      requires Valid()
      modifies Repr()
      ensures Valid() && m == old(m)
      ensures item.None? <==> m == map[]
      ensures item.Some? ==> item.value.0 in m && item.value.1 == m[item.value.0]
    {
      hide HashModel.Inv, HashModel.Stack, HashModel.Indexed, HashModel.Listing, HashModel.Size;
      HashModel.IndexedInv(hash.h, hash.hash);
      if |m| > 0 {
        HashMaps.ListedIsEntry(hash.h, hash.hash, m, 0);
      }
      var found, key, value := hash.LookupByIndex(0);
      item := if found then Some((key, value)) else None;
    }
  }
}
