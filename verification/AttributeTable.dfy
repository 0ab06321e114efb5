/** The reader's attribute table is a FastHash of thirty nodes and 53 buckets, filled in wire order.
    It behaves as the plain attribute list the other modules use. */
module AttributeTable {
  import opened Options
  import opened Wire
  import Sealing
  import HashModel

  /** The insertions the body loop makes. */
  function Items(attributes: seq<Located>): (items: seq<(nat, Located)>)
    ensures |items| == |attributes|
  {
    seq(|attributes|, i requires 0 <= i < |attributes| => (attributes[i].kind, attributes[i]))
  }

  ghost function Table(keys: seq<nat>, vals: seq<Located>, f: nat -> nat, attributes: seq<Located>)
    : (h: HashModel.Hash<nat, Located>)
    requires |keys| == |vals| == MAX_ATTRIBUTES
    ensures HashModel.Inv(h, f) && |h.own| == MAX_ATTRIBUTES
  {
    HashModel.EmptyInv(53, keys, vals, f);
    HashModel.InsertAll(HashModel.Empty(53, keys, vals), f, Items(attributes))
  }

  lemma TableStep(keys: seq<nat>, vals: seq<Located>, f: nat -> nat, attributes: seq<Located>, a: Located)
    requires |keys| == |vals| == MAX_ATTRIBUTES
    ensures Table(keys, vals, f, attributes + [a]) == HashModel.Insert(Table(keys, vals, f, attributes), f, a.kind, a)
  {
    var items := Items(attributes + [a]);
    assert items[..|attributes|] == Items(attributes) && items[|attributes|] == (a.kind, a);
  }

  /** Lookup by kind finds the last attribute of that kind. */
  lemma {:induction false} LookupFindsLast(keys: seq<nat>, vals: seq<Located>, f: nat -> nat, attributes: seq<Located>,
                                           kind: nat)
    requires |keys| == |vals| == MAX_ATTRIBUTES && |attributes| <= MAX_ATTRIBUTES
    ensures HashModel.Size(Table(keys, vals, f, attributes)) == |attributes|
    ensures var s, i := HashModel.Stack(Table(keys, vals, f, attributes), f, kind), Sealing.LastIndex(attributes, kind);
            (s == [] <==> i == -1) && (i != -1 ==> s != [] && s[0] == attributes[i])
    decreases |attributes|
  {
    hide HashModel.Inv, HashModel.Insert, HashModel.Stack, HashModel.Size;
    if attributes == [] {
      EmptyTable(keys, vals, f, kind);
    } else {
      var n := |attributes| - 1;
      var init, a := attributes[..n], attributes[n];
      assert attributes == init + [a];
      LookupFindsLast(keys, vals, f, init, kind);
      TableStep(keys, vals, f, init, a);
      var h := Table(keys, vals, f, init);
      HashModel.InsertInv(h, f, a.kind, a);
      HashModel.InsertStack(h, f, a.kind, a, kind);
      Sealing.LastIndexAppend(init, a, kind);
    }
  }

  lemma EmptyTable(keys: seq<nat>, vals: seq<Located>, f: nat -> nat, kind: nat)
    requires |keys| == |vals| == MAX_ATTRIBUTES
    ensures HashModel.Size(Table(keys, vals, f, [])) == 0 && HashModel.Stack(Table(keys, vals, f, []), f, kind) == []
  {
    HashModel.EmptyInv(53, keys, vals, f);
    assert Items([]) == [];
  }

  /** Lookup by index gives the attributes in wire order, and a thirty-first one is refused. */
  lemma IndexIsWireOrder(keys: seq<nat>, vals: seq<Located>, f: nat -> nat, attributes: seq<Located>, extra: Located)
    requires |keys| == |vals| == MAX_ATTRIBUTES && |attributes| <= MAX_ATTRIBUTES
    ensures HashModel.Lists(Table(keys, vals, f, attributes), Items(attributes))
    ensures |attributes| == MAX_ATTRIBUTES ==>
              HashModel.Insert(Table(keys, vals, f, attributes), f, extra.kind, extra)
              == Table(keys, vals, f, attributes)
  {
    HashModel.EmptyInv(53, keys, vals, f);
    HashModel.InsertionOrder(53, keys, vals, f, Items(attributes));
    HashModel.InsertInv(Table(keys, vals, f, attributes), f, extra.kind, extra);
  }
}
