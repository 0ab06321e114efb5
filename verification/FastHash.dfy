/** The fixed-capacity chained hash table of common/fasthash.h, in place. A node pointer is the
    node's position in the node array; -1 is the null pointer. */
module FastHash {
  import opened Chains
  import HashModel

  // ---- The circular side index ----

  function Wrap(x: nat, n: nat): nat {
    if x < n then x else x - n
  }

  lemma WrapIsMod(x: nat, n: nat)
    requires x < 2 * n
    ensures x % n == Wrap(x, n)
  {
  }

  /** From `start` on, the circular array holds `order`. */
  ghost predicate Circular(index: seq<int>, start: nat, order: seq<int>)
  {
    && |order| <= |index| && start < |index|
    && forall j :: 0 <= j < |order| ==> index[Wrap(start + j, |index|)] == order[j]
  }

  lemma CircularAppend(index: seq<int>, start: nat, order: seq<int>, x: int)
    requires Circular(index, start, order) && |order| < |index|
    ensures Circular(index[Wrap(start + |order|, |index|) := x], start, order + [x])
  {
  }

  lemma CircularDropFront(index: seq<int>, start: nat, order: seq<int>)
    requires Circular(index, start, order) && order != []
    ensures Circular(index, Wrap(start + 1, |index|), order[1..])
  {
  }

  lemma CircularWhole(index: seq<int>, n: nat)
    requires n <= |index| && |index| > 0
    ensures Circular(index, 0, index[..n])
  {
  }

  lemma CircularDropBack(index: seq<int>, start: nat, order: seq<int>)
    requires Circular(index, start, order) && order != []
    ensures Circular(index, start, order[..|order| - 1])
  {
  }

  // ---- Pointer updates, on the values of the arrays ----

  /** Taking the first free node for bucket `t`. */
  lemma TakeFree(next: seq<int>, table: seq<int>, free: int, lists: seq<seq<int>>, own: seq<int>, t: nat)
    requires |lists| == |table| + 1 && |own| == |next| && t < |table| && free != -1
    requires Partition(lists, own) && AllLinked(next, table + [free], lists)
    ensures 0 <= free < |next| && |lists[|table|]| > 0 && lists[|table|][0] == free && own[free] == |table|
    ensures Partition(Move(lists, |table|, 0, t), own[free := t])
    ensures AllLinked(next[free := table[t]], table[t := free] + [next[free]], Move(lists, |table|, 0, t))
  {
    var b, heads := |table|, table + [free];
    var c := lists[b];
    assert Linked(next, heads[b], c) && Linked(next, heads[t], lists[t]);
    MovePartition(lists, own, b, 0, t);
    LinkedTail(next, free, c);
    var next' := next[free := table[t]];
    assert Distinct(c);
    LinkedFrame(next, next', next[free], c[1..]);
    assert Drop(c, 0) == c[1..];
    MoveLinked(next, next', heads, table[t := free] + [next[free]], lists, own, b, 0, t);
  }

  /** Unlinking the first node of bucket `t` and putting it in front of the free list. */
  lemma GiveBackFirst(next: seq<int>, table: seq<int>, free: int, lists: seq<seq<int>>, own: seq<int>, t: nat)
    requires |lists| == |table| + 1 && |own| == |next| && t < |table| && lists[t] != []
    requires Partition(lists, own) && AllLinked(next, table + [free], lists)
    ensures 0 <= lists[t][0] < |next|
    ensures var node := lists[t][0];
            AllLinked(next[node := free], table[t := next[node]] + [node], Move(lists, t, 0, |table|))
  {
    var b, heads, c := |table|, table + [free], lists[t];
    assert Linked(next, heads[t], c) && Distinct(c) && OwnedBy(own, c[0], t);
    var node := c[0];
    var next' := next[node := free];
    LinkedTail(next, table[t], c);
    LinkedFrame(next, next', next[node], c[1..]);
    assert Drop(c, 0) == c[1..];
    MoveLinked(next, next', heads, table[t := next[node]] + [node], lists, own, t, 0, b);
  }

  /** Unlinking a later node: its predecessor is redirected. */
  lemma GiveBackInner(next: seq<int>, table: seq<int>, free: int, lists: seq<seq<int>>, own: seq<int>, t: nat, pos: nat)
    requires |lists| == |table| + 1 && |own| == |next| && t < |table| && 0 < pos < |lists[t]|
    requires Partition(lists, own) && AllLinked(next, table + [free], lists)
    ensures 0 <= lists[t][pos] < |next| && 0 <= lists[t][pos - 1] < |next|
    ensures var node, prev := lists[t][pos], lists[t][pos - 1];
            AllLinked(next[prev := next[node]][node := free], table + [node], Move(lists, t, pos, |table|))
  {
    var b, heads, c := |table|, table + [free], lists[t];
    assert Linked(next, heads[t], c) && Distinct(c);
    assert OwnedBy(own, c[pos], t) && OwnedBy(own, c[pos - 1], t);
    var node, prev := c[pos], c[pos - 1];
    var next' := next[prev := next[node]][node := free];
    LinkedSkip(next, next', heads[t], c, pos);
    MoveLinked(next, next', heads, table + [node], lists, own, t, pos, b);
  }

  lemma EmptyLinked(next: seq<int>, table: seq<int>, tsize: nat, fsize: nat)
    requires |next| == fsize > 0 && |table| == tsize
    requires forall t :: 0 <= t < tsize ==> table[t] == -1
    requires forall x :: 0 <= x < fsize ==> next[x] == if x + 1 < fsize then x + 1 else -1
    ensures AllLinked(next, table + [0], HashModel.EmptyLists(tsize, fsize))
  {
  }

  class FastHash<K(==, 0, !new), V(0)> {
    const fsize: nat
    const tsize: nat
    const hash: K -> nat
    const keys: array<K>
    const vals: array<V>
    const next: array<int>
    const table: array<int>
    const index: array<int>
    var freeHead: int
    var size: nat
    var indexStart: nat
    var indexValid: bool

    /** What the arrays stand for. */
    ghost var h: HashModel.Hash<K, V>

    ghost predicate Shaped()
    {
      && fsize > 0 && tsize > 0
      && keys.Length == vals.Length == next.Length == index.Length == fsize && table.Length == tsize
      && next != table && next != index && table != index
      && keys as object != vals && keys as object != next && keys as object != table && keys as object != index
      && vals as object != next && vals as object != table && vals as object != index
    }

    ghost predicate Valid()
      reads this, keys, vals, next, table, index
    {
      && Shaped() && h.tsize == tsize && |h.lists| == tsize + 1 && |h.own| == fsize
      && h.keys == keys[..] && h.vals == vals[..]
      && HashModel.Inv(h, hash)
      && AllLinked(next[..], table[..] + [freeHead], h.lists)
      && size == HashModel.Size(h) && indexValid == h.indexed && indexStart < fsize
      && (indexValid ==> Circular(index[..], indexStart, h.order))
    }

    constructor (fsize: nat, tsize: nat, hash: K -> nat)
      requires fsize > 0 && tsize > 0
      ensures Valid() && h == HashModel.Empty(tsize, keys[..], vals[..])
      ensures this.fsize == fsize && this.tsize == tsize && this.hash == hash
      ensures fresh(keys) && fresh(vals) && fresh(next) && fresh(table) && fresh(index)
    {
      this.fsize, this.tsize, this.hash := fsize, tsize, hash;
      keys, vals := new K[fsize], new V[fsize];
      next, table, index := new int[fsize], new int[tsize], new int[fsize];
      new;
      Reset();
    }

    /** All buckets empty, all nodes chained in one free list. */
    method ResetLinks()
      requires Shaped()
      modifies next, table
      ensures forall t :: 0 <= t < tsize ==> table[t] == -1
      ensures forall x :: 0 <= x < fsize ==> next[x] == if x + 1 < fsize then x + 1 else -1
    {
      for t := 0 to tsize
        invariant forall i :: 0 <= i < t ==> table[i] == -1
      {
        table[t] := -1;
      }
      for x := 0 to fsize
        invariant forall i :: 0 <= i < tsize ==> table[i] == -1
        invariant forall i :: 0 <= i < x ==> next[i] == i + 1
      {
        next[x] := x + 1;
      }
      next[fsize - 1] := -1;
    }

    method Reset()
      requires Shaped()
      modifies this, next, table
      ensures Valid() && h == HashModel.Empty(tsize, keys[..], vals[..])
    {
      ResetLinks();
      freeHead, size, indexValid, indexStart := 0, 0, true, 0;
      h := HashModel.Empty(tsize, keys[..], vals[..]);
      HashModel.EmptyInv(tsize, keys[..], vals[..], hash);
      EmptyLinked(next[..], table[..], tsize, fsize);
    }

    /** Walks one chain up to the first node that holds the key. */
    method Probe(key: K, head: int, ghost c: seq<int>) returns (node: int, prev: int)
      requires keys.Length == next.Length && Linked(next[..], head, c)
      ensures forall j :: 0 <= j < |c| ==> 0 <= c[j] < keys.Length
      ensures var pos := HashModel.First(c, keys[..], key);
              && node == Head(c[pos..]) && (pos == 0 ==> prev == -1) && (pos > 0 ==> prev == c[pos - 1])
    {
      prev, node := -1, head;
      ghost var pos := 0;
      assert c[0..] == c;
      while node != -1
        invariant pos <= |c| && node == Head(c[pos..])
        invariant (pos == 0 ==> prev == -1) && (pos > 0 ==> prev == c[pos - 1])
        invariant forall j :: 0 <= j < pos ==> keys[c[j]] != key
        decreases |c| - pos
      {
        assert node == c[pos] && 0 <= node < next.Length && next[node] == Head(c[pos + 1..]);
        if keys[node] == key {
          break;
        }
        prev := node;
        node := next[node];
        pos := pos + 1;
      }
      assert pos == HashModel.First(c, keys[..], key);
    }

    /** The first node of the key's chain that holds the key, and its predecessor. */
    method Find(key: K) returns (t: nat, node: int, prev: int)
      requires Valid()
      ensures t == HashModel.Bucket(h, hash, key)
      ensures var c, pos := h.lists[t], HashModel.Position(h, hash, key);
              && (pos == |c| ==> node == -1)
              && (pos < |c| ==> node == c[pos] && 0 <= node < fsize && keys[node] == key)
              && (pos == 0 ==> prev == -1) && (pos > 0 ==> prev == c[pos - 1] && 0 <= prev < fsize)
    {
      t := hash(key) % tsize;
      assert Linked(next[..], (table[..] + [freeHead])[t], h.lists[t]);
      hide HashModel.Inv, AllLinked, Circular;
      node, prev := Probe(key, table[t], h.lists[t]);
    }

    /** The latest value under the key, if any. */
    method Lookup(key: K) returns (found: bool, value: V)
      requires Valid()
      ensures found <==> HashModel.Stack(h, hash, key) != []
      ensures found ==> value == HashModel.Stack(h, hash, key)[0]
    {
      var t, node, prev := Find(key);
      HashModel.ListInRange(h, t);
      HashModel.SelectNone(h.lists[t], h.keys, h.vals, key);
      found := node != -1;
      if found {
        HashModel.SelectFirst(h.lists[t], h.keys, h.vals, HashModel.Position(h, hash, key), key);
        value := vals[node];
      } else {
        value := *;
      }
    }

    /** A write through the place Lookup returns. */
    method Assign(key: K, value: V) returns (ok: bool)
      requires Valid()
      modifies `h, vals
      ensures Valid() && h == HashModel.Assign(old(h), hash, key, value)
      ensures ok <==> HashModel.Stack(old(h), hash, key) != []
    {
      hide AllLinked, Circular, HashModel.Size, HashModel.Select, HashModel.First;
      var t, node, prev := Find(key);
      HashModel.ListInRange(h, t);
      HashModel.SelectNone(h.lists[t], h.keys, h.vals, key);
      HashModel.AssignInv(h, hash, key, value);
      ok := node != -1;
      if ok {
        AssignAt(node, value, HashModel.Assign(h, hash, key, value));
      }
    }

    /** The memory write of an assignment, for a table value worked out beforehand. */
    method AssignAt(node: int, value: V, ghost after: HashModel.Hash<K, V>)
      requires Valid() && 0 <= node < fsize && after == h.(vals := vals[..][node := value])
      requires HashModel.Inv(after, hash) && HashModel.Size(after) == size
      modifies `h, vals
      ensures Valid() && h == after
    {
      hide AllLinked, HashModel.Inv, Circular, HashModel.Size;
      vals[node] := value;
      h := after;
    }

    /** Called before the size grows. */
    method UpdateIndexWithAdd(node: int)
      requires Shaped() && size < fsize && indexStart < fsize
      requires indexValid ==> |h.order| == size && Circular(index[..], indexStart, h.order)
      modifies index
      ensures indexValid ==> Circular(index[..], indexStart, h.order + [node])
    {
      if indexValid {
        WrapIsMod(size + indexStart, fsize);
        var pos := (size + indexStart) % fsize;
        CircularAppend(index[..], indexStart, h.order, node);
        index[pos] := node;
        assert index[..] == old(index[..])[pos := node];
      }
    }

    lemma FreeHead()
      requires Valid()
      ensures freeHead == -1 <==> h.lists[tsize] == []
      ensures freeHead == -1 <==> size == fsize
    {
    }

    /** The first free node takes the item and is put in front of bucket `t`. */
    method FillFree(t: nat, key: K, value: V)
      requires Shaped() && t < tsize && 0 <= freeHead < fsize
      modifies `freeHead, keys, vals, next, table
      ensures var node := old(freeHead);
              && freeHead == old(next[node])
              && next[..] == old(next[..])[node := old(table[t])] && table[..] == old(table[..])[t := node]
              && keys[..] == old(keys[..])[node := key] && vals[..] == old(vals[..])[node := value]
    {
      var node, head := freeHead, table[t];
      freeHead := next[node];
      keys[node] := key;
      vals[node] := value;
      next[node] := head;
      table[t] := node;
    }

    /** The memory writes of an insertion, for a table value worked out beforehand. */
    method InsertAt(t: nat, key: K, value: V, ghost after: HashModel.Hash<K, V>)
      requires Shaped() && t < tsize && 0 <= freeHead < fsize && size < fsize && indexStart < fsize
      requires indexValid ==> |h.order| == size && Circular(index[..], indexStart, h.order)
      requires after.keys == keys[..][freeHead := key] && after.vals == vals[..][freeHead := value]
      requires after.order == h.order + [freeHead] && after.indexed == indexValid
      requires AllLinked(next[..][freeHead := table[t]], table[..][t := freeHead] + [next[freeHead]], after.lists)
      requires after.tsize == tsize && |after.lists| == tsize + 1 && |after.own| == fsize
      requires HashModel.Inv(after, hash) && HashModel.Size(after) == size + 1
      modifies this, keys, vals, next, table, index
      ensures Valid() && h == after
    {
      hide AllLinked, Circular, HashModel.Inv;
      UpdateIndexWithAdd(freeHead);
      FillFree(t, key, value);
      size := size + 1;
      h := after;
    }

    /** Fails only at capacity. */
    method Insert(key: K, value: V) returns (ok: bool)
      requires Valid()
      modifies this, keys, vals, next, table, index
      ensures Valid() && h == HashModel.Insert(old(h), hash, key, value)
      ensures ok <==> old(size) < fsize
    {
      FreeHead();
      HashModel.InsertInv(h, hash, key, value);
      ok := freeHead != -1;
      if ok {
        var t := hash(key) % tsize;
        TakeFree(next[..], table[..], freeHead, h.lists, h.own, t);
        HashModel.InsertFields(h, hash, key, value);
        hide AllLinked, Partition, Move, Circular, HashModel.Insert;
        InsertAt(t, key, value, HashModel.Insert(h, hash, key, value));
      }
    }

    /** Called before the size shrinks: an end of the enumeration is cut off, a middle node spoils it. */
    method UpdateIndexWithRemove(node: int)
      requires Shaped() && size > 0 && indexStart < fsize
      requires |h.lists| == h.tsize + 1 && HashModel.Size(h) == size && h.indexed == indexValid
      requires indexValid ==> |h.order| == size && Circular(index[..], indexStart, h.order)
      modifies `indexValid, `indexStart
      ensures indexStart < fsize && indexValid == HashModel.Unlist(h, node).0
      ensures indexValid ==> Circular(index[..], indexStart, HashModel.Unlist(h, node).1)
    {
      if size > 1 && !indexValid {
        return;
      }
      if size == 1 {
        indexValid, indexStart := true, 0;
        return;
      }
      assert index[Wrap(indexStart + 0, fsize)] == h.order[0];
      if node == index[indexStart] {
        CircularDropFront(index[..], indexStart, h.order);
        WrapIsMod(indexStart + 1, fsize);
        indexStart := (indexStart + 1) % fsize;
        return;
      }
      WrapIsMod(indexStart + (size - 1), fsize);
      var last := (indexStart + (size - 1)) % fsize;
      assert index[last] == h.order[size - 1];
      if node == index[last] {
        CircularDropBack(index[..], indexStart, h.order);
        return;
      }
      indexValid := false;
    }

    /** The node leaves its chain and becomes the first free one. */
    method Unlink(t: nat, node: int, prev: int)
      requires Shaped() && t < tsize && 0 <= node < fsize && -1 <= prev < fsize && prev != node
      modifies `freeHead, next, table
      ensures freeHead == node
      ensures prev == -1 ==> table[..] == old(table[..])[t := old(next[node])]
      ensures prev == -1 ==> next[..] == old(next[..])[node := old(freeHead)]
      ensures prev != -1 ==> table[..] == old(table[..])
      ensures prev != -1 ==> next[..] == old(next[..])[prev := old(next[node])][node := old(freeHead)]
    {
      var after := next[node];
      if prev == -1 {
        table[t] := after;
      } else {
        next[prev] := after;
      }
      next[node] := freeHead;
      freeHead := node;
    }

    /** The memory writes of a removal, for a table value worked out beforehand. */
    method RemoveAt(t: nat, node: int, prev: int, ghost after: HashModel.Hash<K, V>)
      requires Shaped() && t < tsize && 0 <= node < fsize && -1 <= prev < fsize && prev != node
      requires size > 0 && indexStart < fsize
      requires |h.lists| == h.tsize + 1 && HashModel.Size(h) == size && h.indexed == indexValid
      requires indexValid ==> |h.order| == size && Circular(index[..], indexStart, h.order)
      requires after.keys == keys[..] && after.vals == vals[..]
      requires (after.indexed, after.order) == HashModel.Unlist(h, node)
      requires prev == -1 ==> AllLinked(next[..][node := freeHead], table[..][t := next[node]] + [node], after.lists)
      requires prev != -1 ==> AllLinked(next[..][prev := next[node]][node := freeHead], table[..] + [node], after.lists)
      requires after.tsize == tsize && |after.lists| == tsize + 1 && |after.own| == fsize
      requires HashModel.Inv(after, hash) && HashModel.Size(after) == size - 1
      modifies this, next, table
      ensures Valid() && h == after
    {
      hide AllLinked, Circular, HashModel.Inv, HashModel.Unlist;
      UpdateIndexWithRemove(node);
      Unlink(t, node, prev);
      size := size - 1;
      h := after;
    }

    /** Pops the key's stack; fails when it is empty. */
    method Remove(key: K) returns (ok: bool)
      requires Valid()
      modifies this, keys, vals, next, table, index
      ensures Valid() && h == HashModel.Remove(old(h), hash, key)
      ensures ok <==> HashModel.Stack(old(h), hash, key) != []
    {
      var t, node, prev := Find(key);
      HashModel.RemoveInv(h, hash, key);
      ok := node != -1;
      if ok {
        ghost var pos := HashModel.Position(h, hash, key);
        if pos == 0 {
          GiveBackFirst(next[..], table[..], freeHead, h.lists, h.own, t);
        } else {
          GiveBackInner(next[..], table[..], freeHead, h.lists, h.own, t, pos);
        }
        HashModel.RemoveFields(h, hash, key);
        hide AllLinked, Partition, Move, Circular, HashModel.Remove, HashModel.Stack;
        RemoveAt(t, node, prev, HashModel.Remove(h, hash, key));
      }
    }

    /** Writes the chains one after the other into the index array. */
    method ListChains(ghost lists: seq<seq<int>>) returns (count: nat)
      requires Shaped() && |lists| == tsize + 1 && |Flatten(lists[..tsize])| <= fsize
      requires AllLinked(next[..], table[..] + [freeHead], lists)
      modifies index
      ensures count == |Flatten(lists[..tsize])| && index[..count] == Flatten(lists[..tsize])
    {
      count := 0;
      for t := 0 to tsize
        invariant count == |Flatten(lists[..t])| <= fsize && index[..count] == Flatten(lists[..t])
        invariant AllLinked(next[..], table[..] + [freeHead], lists)
      {
        FlattenPrefix(lists, t, tsize);
        assert Linked(next[..], (table[..] + [freeHead])[t], lists[t]);
        hide AllLinked, Flatten;
        count := CopyChain(table[t], count, lists[t]);
      }
    }

    method ReIndex()
      requires Valid() && size > 0
      modifies `h, `indexValid, `indexStart, index
      ensures Valid() && indexValid && h == HashModel.ReIndex(old(h))
    {
      hide HashModel.Inv, AllLinked, Flatten, Circular, HashModel.Stack;
      HashModel.ReIndexInv(h, hash);
      IndexFits(h, hash);
      var count := ListChains(h.lists);
      CircularWhole(index[..], count);
      indexValid, indexStart := true, 0;
      h := HashModel.ReIndex(h);
    }

    /** Appends one chain to the index array. */
    method CopyChain(head: int, start: nat, ghost c: seq<int>) returns (end: nat)
      requires Shaped() && Linked(next[..], head, c) && start + |c| <= fsize
      modifies index
      ensures end == start + |c| && index[..end] == old(index[..start]) + c
    {
      var node := head;
      end := start;
      ghost var pos := 0;
      assert c[0..] == c;
      while node != -1
        invariant pos <= |c| && end == start + pos && node == Head(c[pos..])
        invariant index[..end] == old(index[..start]) + c[..pos]
        invariant Linked(next[..], head, c)
        decreases |c| - pos
      {
        assert node == c[pos];
        index[end] := node;
        end := end + 1;
        node := next[node];
        assert c[..pos + 1] == c[..pos] + [c[pos]];
        pos := pos + 1;
      }
      assert c[..pos] == c;
    }

    /** Reads through the circular index. */
    method ItemAt(i: nat) returns (item: int)
      requires Valid() && indexValid && i < size
      ensures |h.order| == size && item == h.order[i] && 0 <= item < fsize
    {
      hide AllLinked, Partition, HashModel.Hashed, Distinct;
      WrapIsMod(indexStart + i, fsize);
      item := index[(indexStart + i) % fsize];
    }

    method EnsureIndex()
      requires Valid() && size > 0
      modifies `h, `indexValid, `indexStart, index
      ensures Valid() && indexValid && h == HashModel.Indexed(old(h))
    {
      hide AllLinked, HashModel.Inv, Circular, HashModel.ReIndex;
      if !indexValid {
        ReIndex();
      }
    }

    /** The item at a position of the listing, rebuilding the index first when it was given up. */
    method LookupByIndex(i: nat) returns (found: bool, key: K, value: V)
      requires Valid()
      modifies `h, `indexValid, `indexStart, index
      ensures Valid() && found == (i < size) && size == old(size)
      ensures h == if found then HashModel.Indexed(old(h)) else old(h)
      ensures found ==> i < |HashModel.Listing(old(h), hash)| && (key, value) == HashModel.Listing(old(h), hash)[i]
    {
      hide AllLinked, HashModel.Inv, HashModel.Indexed, HashModel.Listing, Circular;
      found, key, value := i < size, *, *;
      if found {
        HashModel.ListingAt(h, hash);
        EnsureIndex();
        var item := ItemAt(i);
        key, value := keys[item], vals[item];
        assert HashModel.ItemIs(h, item, HashModel.Listing(old(h), hash)[i]);
      }
    }
  }

  lemma {:induction false} FlattenPrefix(lists: seq<seq<int>>, t: nat, n: nat)
    requires t < n <= |lists|
    ensures Flatten(lists[..t + 1]) == Flatten(lists[..t]) + lists[t]
    ensures |Flatten(lists[..t + 1])| <= |Flatten(lists[..n])|
    decreases n - t
  {
    assert lists[..t + 1][..t] == lists[..t];
    if t + 1 < n {
      FlattenPrefix(lists, t + 1, n);
    }
  }

  lemma IndexFits<K(!new), V>(h: HashModel.Hash<K, V>, f: K -> nat)
    requires HashModel.Inv(h, f) && |h.lists| == h.tsize + 1
    ensures |Flatten(h.lists[..h.tsize])| + |h.lists[h.tsize]| == |h.own|
  {
  }
}
