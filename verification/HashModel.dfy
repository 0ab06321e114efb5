/** What a FastHash holds, as a value: which nodes are in which list, their items, and the
    enumeration behind its side index. */
module HashModel {
  import opened Chains

  // ---- What the table stands for: for every key a stack of values, latest first ----

  /** The values stored under `k` along a bucket chain. */
  function Select<K(==), V>(c: seq<int>, keys: seq<K>, vals: seq<V>, k: K): (s: seq<V>)
    requires |keys| == |vals| && forall j :: 0 <= j < |c| ==> 0 <= c[j] < |keys|
  {
    if c == [] then []
    else (if keys[c[0]] == k then [vals[c[0]]] else []) + Select(c[1..], keys, vals, k)
  }

  lemma {:induction false} SelectFrame<K, V>(c: seq<int>, keys: seq<K>, vals: seq<V>, keys': seq<K>, vals': seq<V>,
                                             k: K)
    requires |keys| == |vals| == |keys'| == |vals'|
    requires forall j :: 0 <= j < |c| ==> 0 <= c[j] < |keys|
    requires forall j :: 0 <= j < |c| ==> keys'[c[j]] == keys[c[j]] && vals'[c[j]] == vals[c[j]]
    ensures Select(c, keys', vals', k) == Select(c, keys, vals, k)
    decreases |c|
  {
    if c != [] {
      SelectFrame(c[1..], keys, vals, keys', vals', k);
    }
  }

  /** Dropping the first node with key `k` pops the stack of `k` and touches no other stack. */
  lemma {:induction false} SelectDrop<K, V>(c: seq<int>, keys: seq<K>, vals: seq<V>, j: nat, k: K)
    requires |keys| == |vals| && forall i :: 0 <= i < |c| ==> 0 <= c[i] < |keys|
    requires j < |c| && forall i :: 0 <= i < j ==> keys[c[i]] != keys[c[j]]
    ensures k == keys[c[j]] ==> Select(c, keys, vals, k) == [vals[c[j]]] + Select(Drop(c, j), keys, vals, k)
    ensures k != keys[c[j]] ==> Select(c, keys, vals, k) == Select(Drop(c, j), keys, vals, k)
    decreases |c|
  {
    var d := Drop(c, j);
    if j == 0 {
      assert d == c[1..];
    } else {
      assert d[1..] == Drop(c[1..], j - 1);
      assert d[0] == c[0];
      SelectDrop(c[1..], keys, vals, j - 1, k);
    }
  }

  lemma {:induction false} SelectNone<K, V>(c: seq<int>, keys: seq<K>, vals: seq<V>, k: K)
    requires |keys| == |vals| && forall j :: 0 <= j < |c| ==> 0 <= c[j] < |keys|
    ensures Select(c, keys, vals, k) == [] <==> forall j :: 0 <= j < |c| ==> keys[c[j]] != k
    decreases |c|
  {
    if c != [] {
      SelectNone(c[1..], keys, vals, k);
      if forall j :: 0 <= j < |c| - 1 ==> keys[c[1..][j]] != k {
        assert forall j :: 1 <= j < |c| ==> c[j] == c[1..][j - 1];
      }
    }
  }

  lemma {:induction false} SelectFirst<K, V>(c: seq<int>, keys: seq<K>, vals: seq<V>, j: nat, k: K)
    requires |keys| == |vals| && forall i :: 0 <= i < |c| ==> 0 <= c[i] < |keys|
    requires j < |c| && keys[c[j]] == k && forall i :: 0 <= i < j ==> keys[c[i]] != k
    ensures Select(c, keys, vals, k) != [] && Select(c, keys, vals, k)[0] == vals[c[j]]
    decreases |c|
  {
    if j > 0 {
      SelectFirst(c[1..], keys, vals, j - 1, k);
    }
  }

  // ---- Enumerating the live nodes ----

  /** `order` lists the nodes of the first `buckets` lists exactly once. */
  ghost predicate Enumerates(order: seq<int>, own: seq<int>, buckets: int)
  {
    && Distinct(order)
    && (forall j :: 0 <= j < |order| ==> OwnedBelow(order[j], own, buckets))
    && (forall x :: 0 <= x < |own| && own[x] < buckets ==> x in order)
  }

  ghost predicate OwnedBelow(x: int, own: seq<int>, buckets: int)
  {
    0 <= x < |own| && own[x] < buckets
  }

  lemma EnumeratesAdd(order: seq<int>, own: seq<int>, buckets: int, x: int, t: int)
    requires Enumerates(order, own, buckets) && 0 <= x < |own| && own[x] >= buckets && t < buckets
    ensures Enumerates(order + [x], own[x := t], buckets)
  {
  }

  lemma EnumeratesRemove(order: seq<int>, own: seq<int>, buckets: int, j: nat)
    requires Enumerates(order, own, buckets) && j < |order|
    ensures Enumerates(Drop(order, j), own[order[j] := buckets], buckets)
  {
  }

  lemma EnumeratesAll(lists: seq<seq<int>>, own: seq<int>, buckets: nat)
    requires Partition(lists, own) && |lists| == buckets + 1
    ensures Enumerates(Flatten(lists[..buckets]), own, buckets)
  {
    var init := lists[..buckets];
    assert forall t, j :: 0 <= t < buckets && 0 <= j < |init[t]| ==> OwnedBy(own, lists[t][j], t);
    assert forall t :: 0 <= t < buckets ==> Distinct(lists[t]);
    FlattenDistinct(init, own);
    forall j | 0 <= j < |Flatten(init)| ensures OwnedBelow(Flatten(init)[j], own, buckets) {
      FlattenOwned(init, own, Flatten(init)[j]);
    }
    forall x | 0 <= x < |own| && own[x] < buckets ensures x in Flatten(init) {
      assert x in lists[own[x]] && init[own[x]] == lists[own[x]];
      FlattenMembers(init, x);
    }
  }

  // ---- The table ----

  /** `lists[tsize]` is the free list; `order` matters only while `indexed`. */
  datatype Hash<K, V> = Hash(tsize: nat, lists: seq<seq<int>>, own: seq<int>, keys: seq<K>, vals: seq<V>,
                             indexed: bool, order: seq<int>)

  function Bucket<K, V>(h: Hash<K, V>, f: K -> nat, k: K): (t: nat)
    requires h.tsize > 0
    ensures t < h.tsize
  {
    f(k) % h.tsize
  }

  ghost predicate Sized<K, V>(h: Hash<K, V>)
  {
    && h.tsize > 0 && |h.lists| == h.tsize + 1
    && |h.own| == |h.keys| == |h.vals| > 0
  }

  function Size<K, V>(h: Hash<K, V>): int
    requires |h.lists| == h.tsize + 1
  {
    |h.own| - |h.lists[h.tsize]|
  }

  ghost predicate Hashed<K(!new), V>(h: Hash<K, V>, f: K -> nat)
    requires Sized(h)
  {
    forall x :: 0 <= x < |h.own| && h.own[x] < h.tsize ==> h.own[x] == Bucket(h, f, h.keys[x])
  }

  ghost predicate IndexOk<K, V>(h: Hash<K, V>)
    requires Sized(h)
  {
    && (Size(h) == 0 ==> h.indexed)
    && (h.indexed ==> |h.order| == Size(h) && Enumerates(h.order, h.own, h.tsize))
  }

  ghost predicate Inv<K(!new), V>(h: Hash<K, V>, f: K -> nat)
  {
    Sized(h) && Partition(h.lists, h.own) && Hashed(h, f) && IndexOk(h)
  }

  lemma ListInRange<K, V>(h: Hash<K, V>, t: nat)
    requires Sized(h) && Owned(h.lists, h.own) && t < |h.lists|
    ensures forall j :: 0 <= j < |h.lists[t]| ==> 0 <= h.lists[t][j] < |h.own| && h.own[h.lists[t][j]] == t
  {
  }

  /** The values inserted under `k` and not yet removed, latest first. */
  ghost function Stack<K(!new), V>(h: Hash<K, V>, f: K -> nat, k: K): seq<V>
    requires Inv(h, f)
  {
    ListInRange(h, Bucket(h, f, k));
    Select(h.lists[Bucket(h, f, k)], h.keys, h.vals, k)
  }

  function Empty<K, V>(tsize: nat, keys: seq<K>, vals: seq<V>): Hash<K, V>
  {
    Hash(tsize, EmptyLists(tsize, |keys|), seq(|keys|, _ => tsize), keys, vals, true, [])
  }

  ghost function Insert<K(!new), V>(h: Hash<K, V>, f: K -> nat, key: K, value: V): Hash<K, V>
    requires Inv(h, f)
  {
    var b, t := h.tsize, Bucket(h, f, key);
    if h.lists[b] == [] then h
    else
      var node := h.lists[b][0];
      assert OwnedBy(h.own, node, b);
      Hash(b, Move(h.lists, b, 0, t), h.own[node := t], h.keys[node := key], h.vals[node := value],
           h.indexed, h.order + [node])
  }

  /** Where along `c` the key first occurs; `|c|` when it does not. */
  function First<K(==)>(c: seq<int>, keys: seq<K>, k: K): (pos: nat)
    requires forall j :: 0 <= j < |c| ==> 0 <= c[j] < |keys|
    ensures pos <= |c| && (pos < |c| ==> keys[c[pos]] == k)
    ensures forall j :: 0 <= j < pos ==> keys[c[j]] != k
  {
    if c == [] || keys[c[0]] == k then 0 else 1 + First(c[1..], keys, k)
  }

  /** The enumeration after removing `node`: cut at either end, otherwise given up until rebuilt. */
  function Unlist<K, V>(h: Hash<K, V>, node: int): (bool, seq<int>)
    requires |h.lists| == h.tsize + 1
  {
    if Size(h) == 1 then (true, [])
    else if !h.indexed || h.order == [] then (h.indexed, [])
    else if h.order[0] == node then (true, h.order[1..])
    else if h.order[|h.order| - 1] == node then (true, h.order[..|h.order| - 1])
    else (false, [])
  }

  ghost function Position<K(!new), V>(h: Hash<K, V>, f: K -> nat, key: K): (pos: nat)
    requires Inv(h, f)
    ensures pos <= |h.lists[Bucket(h, f, key)]|
  {
    ListInRange(h, Bucket(h, f, key));
    First(h.lists[Bucket(h, f, key)], h.keys, key)
  }

  ghost function Remove<K(!new), V>(h: Hash<K, V>, f: K -> nat, key: K): Hash<K, V>
    requires Inv(h, f)
  {
    var b, t, pos := h.tsize, Bucket(h, f, key), Position(h, f, key);
    if pos == |h.lists[t]| then h
    else
      var node := h.lists[t][pos];
      assert OwnedBy(h.own, node, t);
      var (indexed, order) := Unlist(h, node);
      Hash(b, Move(h.lists, t, pos, b), h.own[node := b], h.keys, h.vals, indexed, order)
  }

  /** Writing through the place a lookup found: the latest value of the key is replaced. */
  ghost function Assign<K(!new), V>(h: Hash<K, V>, f: K -> nat, key: K, value: V): Hash<K, V>
    requires Inv(h, f)
  {
    var t, pos := Bucket(h, f, key), Position(h, f, key);
    if pos == |h.lists[t]| then h
    else
      assert OwnedBy(h.own, h.lists[t][pos], t);
      h.(vals := h.vals[h.lists[t][pos] := value])
  }

  /** The rebuilt enumeration: bucket by bucket. */
  function ReIndex<K, V>(h: Hash<K, V>): Hash<K, V>
    requires |h.lists| == h.tsize + 1
  {
    h.(indexed := true, order := Flatten(h.lists[..h.tsize]))
  }

  // ---- Every operation keeps the invariant ----

  function EmptyLists(tsize: nat, fsize: nat): (lists: seq<seq<int>>)
    ensures |lists| == tsize + 1 && |lists[tsize]| == fsize
    ensures forall t :: 0 <= t < tsize ==> lists[t] == []
    ensures forall x :: 0 <= x < fsize ==> lists[tsize][x] == x
  {
    seq(tsize, _ => []) + [seq(fsize, i => i)]
  }

  lemma EmptyPartition(tsize: nat, fsize: nat)
    ensures Partition(EmptyLists(tsize, fsize), seq(fsize, _ => tsize))
  {
    var lists, own := EmptyLists(tsize, fsize), seq(fsize, _ => tsize);
    forall x | 0 <= x < fsize ensures x in lists[own[x]] {
      assert lists[tsize][x] == x;
    }
    assert lists[..tsize] == seq(tsize, _ => []);
    TotalEmpty(tsize);
  }

  lemma {:induction false} TotalEmpty(n: nat)
    ensures Total(seq(n, _ => [])) == 0
  {
    if n > 0 {
      var lists: seq<seq<int>> := seq(n, _ => []);
      assert lists[..n - 1] == seq(n - 1, _ => []);
      TotalEmpty(n - 1);
    }
  }

  lemma EmptyInv<K(!new), V>(tsize: nat, keys: seq<K>, vals: seq<V>, f: K -> nat)
    requires tsize > 0 && |keys| == |vals| > 0
    ensures Inv(Empty(tsize, keys, vals), f) && Size(Empty(tsize, keys, vals)) == 0
    ensures forall k :: Stack(Empty(tsize, keys, vals), f, k) == []
  {
    EmptyPartition(tsize, |keys|);
  }

  lemma InsertInv<K(!new), V>(h: Hash<K, V>, f: K -> nat, key: K, value: V)
    requires Inv(h, f)
    ensures Inv(Insert(h, f, key, value), f)
    ensures Size(h) < |h.own| ==> Size(Insert(h, f, key, value)) == Size(h) + 1
    ensures Size(h) == |h.own| ==> Insert(h, f, key, value) == h
  {
    var b, t := h.tsize, Bucket(h, f, key);
    if h.lists[b] != [] {
      var node := h.lists[b][0];
      MovePartition(h.lists, h.own, b, 0, t);
      if h.indexed {
        EnumeratesAdd(h.order, h.own, b, node, t);
      }
    }
  }

  lemma InsertFields<K(!new), V>(h: Hash<K, V>, f: K -> nat, key: K, value: V)
    requires Inv(h, f) && h.lists[h.tsize] != []
    ensures var r, t, node := Insert(h, f, key, value), Bucket(h, f, key), h.lists[h.tsize][0];
            && r.tsize == h.tsize && r.lists == Move(h.lists, h.tsize, 0, t) && |r.own| == |h.own|
            && 0 <= node < |h.own| && r.keys == h.keys[node := key] && r.vals == h.vals[node := value]
            && r.indexed == h.indexed && r.order == h.order + [node]
            && (h.indexed ==> |h.order| == Size(h))
  {
  }

  /** A successful insertion pushes on the stack of its key and touches no other. */
  lemma InsertStack<K(!new), V>(h: Hash<K, V>, f: K -> nat, key: K, value: V, k: K)
    requires Inv(h, f) && Size(h) < |h.own| && Inv(Insert(h, f, key, value), f)
    ensures Stack(Insert(h, f, key, value), f, k) == (if k == key then [value] else []) + Stack(h, f, k)
  {
    var b, t, u := h.tsize, Bucket(h, f, key), Bucket(h, f, k);
    var node, r := h.lists[b][0], Insert(h, f, key, value);
    assert OwnedBy(h.own, node, b);
    ListInRange(h, u);
    ListInRange(r, u);
    SelectFrame(h.lists[u], h.keys, h.vals, r.keys, r.vals, k);
    if u == t {
      assert r.lists[u][1..] == h.lists[u];
    }
  }

  lemma UnlistEnumerates<K(!new), V>(h: Hash<K, V>, f: K -> nat, node: int)
    requires Inv(h, f) && 0 <= node < |h.own| && h.own[node] < h.tsize
    ensures var (indexed, order) := Unlist(h, node);
            (Size(h) == 1 ==> indexed) &&
            (indexed ==> |order| == Size(h) - 1 && Enumerates(order, h.own[node := h.tsize], h.tsize))
  {
    if Size(h) == 1 {
      OnlyLive(h, f, node);
    } else if h.indexed {
      assert node in h.order;
      var n := |h.order|;
      if h.order[0] == node {
        EnumeratesRemove(h.order, h.own, h.tsize, 0);
        assert Drop(h.order, 0) == h.order[1..];
      } else if h.order[n - 1] == node {
        EnumeratesRemove(h.order, h.own, h.tsize, n - 1);
        assert Drop(h.order, n - 1) == h.order[..n - 1];
      }
    }
  }

  lemma OnlyLive<K(!new), V>(h: Hash<K, V>, f: K -> nat, node: int)
    requires Inv(h, f) && 0 <= node < |h.own| && h.own[node] < h.tsize && Size(h) == 1
    ensures Enumerates([], h.own[node := h.tsize], h.tsize)
  {
    EnumeratesAll(h.lists, h.own, h.tsize);
    var all := Flatten(h.lists[..h.tsize]);
    assert node in all && |all| == 1;
    forall x | 0 <= x < |h.own| && h.own[x] < h.tsize ensures x == node {
      assert x in all;
    }
  }

  lemma RemoveInv<K(!new), V>(h: Hash<K, V>, f: K -> nat, key: K)
    requires Inv(h, f)
    ensures Inv(Remove(h, f, key), f)
    ensures Stack(h, f, key) == [] <==> Position(h, f, key) == |h.lists[Bucket(h, f, key)]|
    ensures Stack(h, f, key) == [] ==> Remove(h, f, key) == h
    ensures Stack(h, f, key) != [] ==> Size(Remove(h, f, key)) == Size(h) - 1
  {
    var b, t, pos := h.tsize, Bucket(h, f, key), Position(h, f, key);
    ListInRange(h, t);
    SelectNone(h.lists[t], h.keys, h.vals, key);
    if pos < |h.lists[t]| {
      var node := h.lists[t][pos];
      MovePartition(h.lists, h.own, t, pos, b);
      UnlistEnumerates(h, f, node);
    }
  }

  lemma RemoveFields<K(!new), V>(h: Hash<K, V>, f: K -> nat, key: K)
    requires Inv(h, f) && Position(h, f, key) < |h.lists[Bucket(h, f, key)]|
    ensures var r, t, pos := Remove(h, f, key), Bucket(h, f, key), Position(h, f, key);
            var node := h.lists[t][pos];
            && r.tsize == h.tsize && r.lists == Move(h.lists, t, pos, h.tsize) && |r.own| == |h.own|
            && r.keys == h.keys && r.vals == h.vals && (r.indexed, r.order) == Unlist(h, node)
            && (pos > 0 ==> h.lists[t][pos - 1] != node) && Size(h) > 0
  {
  }

  /** Removal pops the stack of its key, so the value inserted before becomes visible again. */
  lemma RemoveStack<K(!new), V>(h: Hash<K, V>, f: K -> nat, key: K, k: K)
    requires Inv(h, f) && Stack(h, f, key) != [] && Inv(Remove(h, f, key), f)
    ensures Stack(Remove(h, f, key), f, k) == if k == key then Stack(h, f, k)[1..] else Stack(h, f, k)
  {
    var t, pos, u := Bucket(h, f, key), Position(h, f, key), Bucket(h, f, k);
    ListInRange(h, t);
    ListInRange(h, u);
    SelectNone(h.lists[t], h.keys, h.vals, key);
    if u == t {
      SelectDrop(h.lists[t], h.keys, h.vals, pos, k);
    }
  }

  lemma AssignInv<K(!new), V>(h: Hash<K, V>, f: K -> nat, key: K, value: V)
    requires Inv(h, f)
    ensures Inv(Assign(h, f, key, value), f) && Size(Assign(h, f, key, value)) == Size(h)
    ensures Assign(h, f, key, value) == h.(vals := Assign(h, f, key, value).vals)
  {
  }

  /** Assignment replaces the top of the key's stack and touches no other stack. */
  lemma AssignStack<K(!new), V>(h: Hash<K, V>, f: K -> nat, key: K, value: V, k: K)
    requires Inv(h, f) && Inv(Assign(h, f, key, value), f)
    ensures Stack(h, f, key) == [] ==> Assign(h, f, key, value) == h
    ensures k != key ==> Stack(Assign(h, f, key, value), f, k) == Stack(h, f, k)
    ensures Stack(h, f, key) != [] ==> Stack(Assign(h, f, key, value), f, key) == [value] + Stack(h, f, key)[1..]
  {
    var t, pos, u := Bucket(h, f, key), Position(h, f, key), Bucket(h, f, k);
    ListInRange(h, t);
    ListInRange(h, u);
    SelectNone(h.lists[t], h.keys, h.vals, key);
    if pos < |h.lists[t]| {
      SelectAssign(h.lists[t], h.keys, h.vals, pos, value, key);
      assert Distinct(h.lists[t]) && Distinct(h.lists[u]);
      hide Inv;
      SelectOther(h.lists[u], h.keys, h.vals, h.lists[t][pos], value, k);
    }
  }

  lemma {:induction false} SelectAssign<K, V>(c: seq<int>, keys: seq<K>, vals: seq<V>, pos: nat, v: V, k: K)
    requires |keys| == |vals| && Distinct(c) && forall j :: 0 <= j < |c| ==> 0 <= c[j] < |keys|
    requires pos < |c| && keys[c[pos]] == k && forall j :: 0 <= j < pos ==> keys[c[j]] != k
    ensures Select(c, keys, vals, k) != []
    ensures Select(c, keys, vals[c[pos] := v], k) == [v] + Select(c, keys, vals, k)[1..]
    decreases |c|
  {
    var vals' := vals[c[pos] := v];
    if pos == 0 {
      assert forall j :: 0 <= j < |c[1..]| ==> c[1..][j] != c[0];
      SelectFrame(c[1..], keys, vals, keys, vals', k);
    } else {
      assert c[1..][pos - 1] == c[pos] && keys[c[0]] != k;
      SelectAssign(c[1..], keys, vals, pos - 1, v, k);
    }
  }

  /** A value under another key does not show. */
  lemma {:induction false} SelectOther<K, V>(c: seq<int>, keys: seq<K>, vals: seq<V>, x: int, v: V, k: K)
    requires |keys| == |vals| && 0 <= x < |keys| && forall j :: 0 <= j < |c| ==> 0 <= c[j] < |keys|
    ensures keys[x] != k ==> Select(c, keys, vals[x := v], k) == Select(c, keys, vals, k)
    decreases |c|
  {
    if c != [] {
      SelectOther(c[1..], keys, vals, x, v, k);
    }
  }

  /** The rebuilt enumeration is valid and changes nothing else. */
  lemma ReIndexInv<K(!new), V>(h: Hash<K, V>, f: K -> nat)
    requires Inv(h, f)
    ensures Inv(ReIndex(h), f) && Size(ReIndex(h)) == Size(h)
    ensures forall k :: Stack(ReIndex(h), f, k) == Stack(h, f, k)
  {
    EnumeratesAll(h.lists, h.own, h.tsize);
    assert h.lists == h.lists[..h.tsize] + [h.lists[h.tsize]];
  }

  /** The table as a lookup by index finds it: a given-up index is rebuilt first. */
  function Indexed<K, V>(h: Hash<K, V>): Hash<K, V>
    requires |h.lists| == h.tsize + 1
  {
    if h.indexed then h else ReIndex(h)
  }

  lemma IndexedInv<K(!new), V>(h: Hash<K, V>, f: K -> nat)
    requires Inv(h, f)
    ensures Inv(Indexed(h), f) && Indexed(h).indexed && Size(Indexed(h)) == Size(h)
    ensures Indexed(h).own == h.own && Indexed(h).keys == h.keys && Indexed(h).vals == h.vals
    ensures Indexed(h).lists == h.lists
    ensures forall k :: Stack(Indexed(h), f, k) == Stack(h, f, k)
  {
    if !h.indexed {
      ReIndexInv(h, f);
    }
  }

  /** Lookup by index, over all positions below the size, meets every live node exactly once. */
  lemma IndexIsBijection<K(!new), V>(h: Hash<K, V>, f: K -> nat)
    requires Inv(h, f)
    ensures var order := Indexed(h).order;
            && |order| == Size(h)
            && (forall x :: (0 <= x < |h.own| && h.own[x] < h.tsize) <==> x in order)
            && (forall i, j :: 0 <= i < j < |order| ==> order[i] != order[j])
  {
    IndexedInv(h, f);
    var g := Indexed(h);
    assert Enumerates(g.order, g.own, g.tsize);
    hide Inv;
    forall x | x in g.order ensures 0 <= x < |h.own| && h.own[x] < h.tsize {
    }
  }

  // ---- What the index lists is what the stacks hold ----

  /** The nodes of `c` with this key and value. */
  ghost function Holding<K, V>(c: seq<int>, keys: seq<K>, vals: seq<V>, k: K, v: V): set<int>
    requires |keys| == |vals| && forall j :: 0 <= j < |c| ==> 0 <= c[j] < |keys|
  {
    set x | x in c && keys[x] == k && vals[x] == v
  }

  ghost function Pairs<K, V>(c: seq<int>, keys: seq<K>, vals: seq<V>): (s: seq<(K, V)>)
    requires |keys| == |vals| && forall j :: 0 <= j < |c| ==> 0 <= c[j] < |keys|
    ensures |s| == |c| && forall i :: 0 <= i < |c| ==> s[i] == (keys[c[i]], vals[c[i]])
  {
    if c == [] then [] else [(keys[c[0]], vals[c[0]])] + Pairs(c[1..], keys, vals)
  }

  lemma HeadAndRest(c: seq<int>)
    requires c != [] && Distinct(c)
    ensures Distinct(c[1..]) && c[0] !in c[1..] && forall x :: x in c <==> x == c[0] || x in c[1..]
  {
    assert c == [c[0]] + c[1..];
  }

  lemma HoldingSplit<K, V>(c: seq<int>, keys: seq<K>, vals: seq<V>, k: K, v: V)
    requires |keys| == |vals| && c != [] && Distinct(c) && forall j :: 0 <= j < |c| ==> 0 <= c[j] < |keys|
    ensures Distinct(c[1..])
    ensures |Holding(c, keys, vals, k, v)|
            == |Holding(c[1..], keys, vals, k, v)| + if keys[c[0]] == k && vals[c[0]] == v then 1 else 0
  {
    var all, rest := Holding(c, keys, vals, k, v), Holding(c[1..], keys, vals, k, v);
    HeadAndRest(c);
    hide Distinct;
    assert c[0] !in rest;
    if keys[c[0]] == k && vals[c[0]] == v {
      assert all == rest + {c[0]};
    } else {
      assert all == rest;
    }
  }

  lemma {:induction false} PairsCount<K, V>(c: seq<int>, keys: seq<K>, vals: seq<V>, k: K, v: V)
    requires |keys| == |vals| && Distinct(c) && forall j :: 0 <= j < |c| ==> 0 <= c[j] < |keys|
    ensures multiset(Pairs(c, keys, vals))[(k, v)] == |Holding(c, keys, vals, k, v)|
    decreases |c|
  {
    hide Holding, Distinct;
    if c == [] {
      NothingHeld(keys, vals, k, v);
    } else {
      HoldingSplit(c, keys, vals, k, v);
      PairsCount(c[1..], keys, vals, k, v);
    }
  }

  lemma NothingHeld<K, V>(keys: seq<K>, vals: seq<V>, k: K, v: V)
    requires |keys| == |vals|
    ensures Holding([], keys, vals, k, v) == {}
  {
  }

  lemma {:induction false} SelectCount<K, V>(c: seq<int>, keys: seq<K>, vals: seq<V>, k: K, v: V)
    requires |keys| == |vals| && Distinct(c) && forall j :: 0 <= j < |c| ==> 0 <= c[j] < |keys|
    ensures multiset(Select(c, keys, vals, k))[v] == |Holding(c, keys, vals, k, v)|
    decreases |c|
  {
    hide Holding, Distinct;
    if c == [] {
      NothingHeld(keys, vals, k, v);
    } else {
      HoldingSplit(c, keys, vals, k, v);
      SelectCount(c[1..], keys, vals, k, v);
    }
  }

  ghost predicate ItemIs<K, V>(h: Hash<K, V>, x: int, item: (K, V))
    requires Sized(h)
  {
    0 <= x < |h.own| && h.keys[x] == item.0 && h.vals[x] == item.1
  }

  /** The items in the order in which lookup by index gives them. */
  ghost function Listing<K(!new), V>(h: Hash<K, V>, f: K -> nat): seq<(K, V)>
    requires Inv(h, f)
  {
    OrderInRange(h, f);
    Pairs(Indexed(h).order, h.keys, h.vals)
  }

  lemma OrderInRange<K(!new), V>(h: Hash<K, V>, f: K -> nat)
    requires Inv(h, f)
    ensures |h.keys| == |h.vals| && forall j :: 0 <= j < |Indexed(h).order| ==> 0 <= Indexed(h).order[j] < |h.keys|
  {
    IndexIsBijection(h, f);
    var order := Indexed(h).order;
    assert forall j :: 0 <= j < |order| ==> order[j] in order;
  }

  lemma ListingAt<K(!new), V>(h: Hash<K, V>, f: K -> nat)
    requires Inv(h, f)
    ensures Sized(Indexed(h)) && |Listing(h, f)| == Size(h) == |Indexed(h).order|
    ensures forall i :: 0 <= i < Size(h) ==> ItemIs(Indexed(h), Indexed(h).order[i], Listing(h, f)[i])
  {
    IndexIsBijection(h, f);
    OrderInRange(h, f);
    IndexedInv(h, f);
    hide Stack;
  }

  /** The live nodes with key `k` are those on its chain. */
  lemma HoldingOnChain<K(!new), V>(h: Hash<K, V>, f: K -> nat, k: K, v: V)
    requires Inv(h, f)
    ensures |h.keys| == |h.vals| && forall j :: 0 <= j < |Indexed(h).order| ==> 0 <= Indexed(h).order[j] < |h.keys|
    ensures forall j :: 0 <= j < |h.lists[Bucket(h, f, k)]| ==> 0 <= h.lists[Bucket(h, f, k)][j] < |h.keys|
    ensures Holding(Indexed(h).order, h.keys, h.vals, k, v) == Holding(h.lists[Bucket(h, f, k)], h.keys, h.vals, k, v)
  {
    IndexIsBijection(h, f);
    OrderInRange(h, f);
    var t := Bucket(h, f, k);
    ListInRange(h, t);
    forall x ensures x in Indexed(h).order && h.keys[x] == k <==> x in h.lists[t] && h.keys[x] == k {
      if 0 <= x < |h.own| && h.own[x] < h.tsize && h.keys[x] == k {
        assert h.own[x] == t && x in h.lists[h.own[x]];
      }
    }
  }

  /** Lookup by index over all positions lists exactly what the stacks hold, with the same multiplicities. */
  lemma ListingIsStacks<K(!new), V>(h: Hash<K, V>, f: K -> nat, k: K, v: V)
    requires Inv(h, f)
    ensures |Listing(h, f)| == Size(h)
    ensures multiset(Listing(h, f))[(k, v)] == multiset(Stack(h, f, k))[v]
  {
    IndexIsBijection(h, f);
    HoldingOnChain(h, f, k, v);
    OrderInRange(h, f);
    var t := Bucket(h, f, k);
    ListInRange(h, t);
    assert Distinct(h.lists[t]) && Distinct(Indexed(h).order);
    hide Inv, Indexed, Holding, Distinct, Bucket;
    PairsCount(Indexed(h).order, h.keys, h.vals, k, v);
    SelectCount(h.lists[t], h.keys, h.vals, k, v);
  }

  // ---- Insertions only ----

  ghost function InsertAll<K(!new), V>(h: Hash<K, V>, f: K -> nat, items: seq<(K, V)>): (r: Hash<K, V>)
    requires Inv(h, f)
    ensures Inv(r, f) && |r.own| == |h.own|
  {
    if items == [] then h
    else
      var init := InsertAll(h, f, items[..|items| - 1]);
      var (k, v) := items[|items| - 1];
      InsertInv(init, f, k, v);
      Insert(init, f, k, v)
  }

  /** The enumeration lists exactly `items`, in order. */
  ghost predicate Lists<K, V>(h: Hash<K, V>, items: seq<(K, V)>)
    requires Sized(h)
  {
    && h.indexed && |h.order| == |items| == Size(h)
    && forall i :: 0 <= i < |items| ==> ItemIs(h, h.order[i], items[i])
  }

  lemma InsertLists<K(!new), V>(h: Hash<K, V>, f: K -> nat, items: seq<(K, V)>, key: K, value: V)
    requires Inv(h, f) && Lists(h, items) && |items| < |h.own|
    ensures Inv(Insert(h, f, key, value), f) && Lists(Insert(h, f, key, value), items + [(key, value)])
  {
    InsertInv(h, f, key, value);
    InsertFields(h, f, key, value);
    var node, r := h.lists[h.tsize][0], Insert(h, f, key, value);
    assert OwnedBy(h.own, node, h.tsize);
    forall i | 0 <= i < |items| ensures ItemIs(r, r.order[i], items[i]) {
      assert OwnedBelow(h.order[i], h.own, h.tsize) && ItemIs(h, h.order[i], items[i]);
    }
  }

  /** With insertions only, the index gives the items in insertion order. */
  lemma {:induction false} InsertionOrder<K(!new), V>(tsize: nat, keys: seq<K>, vals: seq<V>, f: K -> nat,
                                                      items: seq<(K, V)>)
    requires tsize > 0 && |keys| == |vals| > 0 && |items| <= |keys|
    ensures Inv(Empty(tsize, keys, vals), f)
    ensures Lists(InsertAll(Empty(tsize, keys, vals), f, items), items)
    decreases |items|
  {
    hide Inv, Insert;
    if items != [] {
      var n := |items| - 1;
      hide Lists;
      InsertionOrder(tsize, keys, vals, f, items[..n]);
      InsertLists(InsertAll(Empty(tsize, keys, vals), f, items[..n]), f, items[..n], items[n].0, items[n].1);
      assert items == items[..n] + [(items[n].0, items[n].1)];
    } else {
      EmptyInv(tsize, keys, vals, f);
    }
  }
}
