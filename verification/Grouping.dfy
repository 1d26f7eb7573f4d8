/** Reading a table row by row and grouping the rows by a key, as both rewriting migrations do. */
module Grouping {
  import opened Schema

  ghost predicate NoRepeats<T>(s: seq<T>)
  {
    forall i, j :: 0 <= i < j < |s| ==> s[i] != s[j]
  }

  /** `order` lists the ids of a table, each once: the order a SELECT happens to return them in. */
  ghost predicate Lists<V>(order: seq<Id>, rows: map<Id, V>)
  {
    (forall r :: r in order <==> r in rows) && NoRepeats(order)
  }

  /** The rows with key `k` among the first `n` read, in reading order. */
  function GroupOf<K(==)>(keyOf: map<Id, K>, order: seq<Id>, n: nat, k: K): (g: seq<Id>)
    requires n <= |order|
    ensures forall r :: r in g <==> r in order[..n] && r in keyOf && keyOf[r] == k
  {
    if n == 0 then [] else
      assert order[..n] == order[..n - 1] + [order[n - 1]];
      var r := order[n - 1];
      GroupOf(keyOf, order, n - 1, k) + if r in keyOf && keyOf[r] == k then [r] else []
  }

  /** The dictionary of groups after `n` rows. */
  ghost predicate Grouped<K(!new)>(keyOf: map<Id, K>, order: seq<Id>, n: nat, groups: map<K, seq<Id>>)
    requires n <= |order|
  {
    forall k :: if k in groups then groups[k] != [] && groups[k] == GroupOf(keyOf, order, n, k)
                else GroupOf(keyOf, order, n, k) == []
  }

  lemma GroupedStep<K(!new)>(keyOf: map<Id, K>, order: seq<Id>, n: nat, groups: map<K, seq<Id>>)
    requires n < |order| && Grouped(keyOf, order, n, groups)
    ensures var r := order[n];
            if r in keyOf then Grouped(keyOf, order, n + 1,
                                       groups[keyOf[r] := (if keyOf[r] in groups then groups[keyOf[r]] else []) + [r]])
            else Grouped(keyOf, order, n + 1, groups)
  {
    var r := order[n];
    forall e: K
      ensures GroupOf(keyOf, order, n + 1, e) ==
              GroupOf(keyOf, order, n, e) + if r in keyOf && keyOf[r] == e then [r] else []
    {
    }
  }

  lemma NothingGrouped<K(!new)>(keyOf: map<Id, K>, order: seq<Id>)
    ensures Grouped(keyOf, order, 0, map[])
  {
  }

  /** The keys in order of first appearance: the order in which a dictionary lists its groups. */
  function KeyOrder<K(==)>(keyOf: map<Id, K>, order: seq<Id>, n: nat): seq<K>
    requires n <= |order|
  {
    if n == 0 then [] else
      var keys, r := KeyOrder(keyOf, order, n - 1), order[n - 1];
      if r in keyOf && keyOf[r] !in keys then keys + [keyOf[r]] else keys
  }

  lemma {:induction false} KeyOrderLists<K>(keyOf: map<Id, K>, order: seq<Id>, n: nat)
    requires n <= |order|
    ensures NoRepeats(KeyOrder(keyOf, order, n))
    ensures forall i :: 0 <= i < n && order[i] in keyOf ==> keyOf[order[i]] in KeyOrder(keyOf, order, n)
  {
    if n > 0 {
      KeyOrderLists(keyOf, order, n - 1);
    }
  }

  /** Rows without a key are passed over. */
  method GroupRows<K(==,!new)>(keyOf: map<Id, K>, order: seq<Id>) returns (keys: seq<K>, groups: map<K, seq<Id>>)
    ensures keys == KeyOrder(keyOf, order, |order|)
    ensures NoRepeats(keys) && forall k :: k in keys <==> k in groups
    ensures Grouped(keyOf, order, |order|, groups)
  {
    hide Grouped;
    keys, groups := [], map[];
    NothingGrouped(keyOf, order);
    for n := 0 to |order|
      invariant keys == KeyOrder(keyOf, order, n)
      invariant NoRepeats(keys) && forall k :: k in keys <==> k in groups
      invariant Grouped(keyOf, order, n, groups)
    {
      var r := order[n];
      GroupedStep(keyOf, order, n, groups);
      if r in keyOf {
        var k := keyOf[r];
        if k in groups {
          groups := groups[k := groups[k] + [r]];
        } else {
          keys := keys + [k];
          groups := groups[k := [] + [r]];
        }
      }
    }
  }

  lemma GroupIs<K(!new)>(keyOf: map<Id, K>, order: seq<Id>, groups: map<K, seq<Id>>, k: K)
    requires Grouped(keyOf, order, |order|, groups) && k in groups
    ensures groups[k] == GroupOf(keyOf, order, |order|, k) && groups[k] != []
    ensures forall r :: r in groups[k] ==> r in keyOf && keyOf[r] == k
  {
  }

  lemma InOwnGroup<K>(keyOf: map<Id, K>, order: seq<Id>, r: Id)
    requires r in order && r in keyOf
    ensures r in GroupOf(keyOf, order, |order|, keyOf[r])
  {
    assert order[..|order|] == order;
  }

  lemma {:induction false} GroupNoRepeats<K>(keyOf: map<Id, K>, order: seq<Id>, n: nat, k: K)
    requires NoRepeats(order) && n <= |order|
    ensures NoRepeats(GroupOf(keyOf, order, n, k))
  {
    if n > 0 {
      GroupNoRepeats(keyOf, order, n - 1, k);
      var g := GroupOf(keyOf, order, n - 1, k);
      forall i | 0 <= i < |g|
        ensures g[i] != order[n - 1]
      {
        assert g[i] in g;
      }
    }
  }

  ghost function Seen<K>(keys: seq<K>, k: nat): set<K>
    requires k <= |keys|
  {
    set d | d in keys[..k]
  }

  lemma SeenStep<K>(keys: seq<K>, k: nat)
    requires k < |keys| && NoRepeats(keys)
    ensures keys[k] !in Seen(keys, k) && Seen(keys, k + 1) == Seen(keys, k) + {keys[k]}
  {
    assert keys[..k + 1] == keys[..k] + [keys[k]];
  }

  lemma SeenAll<K>(keys: seq<K>)
    ensures Seen(keys, 0) == {}
    ensures forall k :: k in Seen(keys, |keys|) <==> k in keys
  {
    assert keys[..|keys|] == keys;
  }
}
