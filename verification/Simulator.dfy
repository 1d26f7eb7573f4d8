/** The simulator's agent side: `OidTree`, a dictionary kept in OID order. */
module Simulator {
  import opened Oids
  import opened Mib
  import opened Text
  import opened DeviceMib

  // ----- what the lookups mean

  /** `k` is the least key strictly greater than `o`. */
  ghost predicate IsNext(keys: seq<Oid>, o: Oid, k: Oid)
  {
    k in keys && Less(o, k) && forall k' :: k' in keys && Less(o, k') ==> k == k' || Less(k, k')
  }

  function NextKey(keys: seq<Oid>, o: Oid): Option<Oid>
  {
    var i := BisectRight(keys, o);
    if i < |keys| then Some(keys[i]) else None
  }

  function BulkKeys(keys: seq<Oid>, o: Oid, n: nat): seq<Oid>
  {
    var i := BisectRight(keys, o);
    keys[i..if i + n < |keys| then i + n else |keys|]
  }

  /** GETNEXT applied `n` times, cut where the MIB ends. */
  function IteratedNext(keys: seq<Oid>, o: Oid, n: nat): seq<Oid>
    decreases n
  {
    if n == 0 then [] else
      match NextKey(keys, o)
      case None => []
      case Some(k) => [k] + IteratedNext(keys, k, n - 1)
  }

  lemma NextIsLeast(keys: seq<Oid>, o: Oid)
    requires Sorted(keys)
    ensures match NextKey(keys, o)
            case Some(k) => IsNext(keys, o, k)
            case None => forall k :: k in keys ==> !Less(o, k)
  {
    var i := BisectRight(keys, o);
    forall k | k in keys && Less(o, k)
      ensures i < |keys| && (k == keys[i] || Less(keys[i], k))
    {
      var j :| 0 <= j < |keys| && keys[j] == k;
      BisectRightSplits(keys, o, j);
    }
  }

  /** GETBULK is iterated GETNEXT. */
  lemma {:induction false} BulkIsIteratedNext(keys: seq<Oid>, o: Oid, n: nat)
    requires Sorted(keys)
    ensures BulkKeys(keys, o, n) == IteratedNext(keys, o, n)
    decreases n
  {
    hide Sorted;
    var i := BisectRight(keys, o);
    if n > 0 && i < |keys| {
      BisectRightAt(keys, i);
      BulkIsIteratedNext(keys, keys[i], n - 1);
      assert BulkKeys(keys, o, n) == [keys[i]] + BulkKeys(keys, keys[i], n - 1);
      assert IteratedNext(keys, o, n) == [keys[i]] + IteratedNext(keys, keys[i], n - 1);
    } else {
      assert BulkKeys(keys, o, n) == [];
    }
  }

  /** Iterating GETNEXT from below everything lists every key once, in order. */
  lemma NextEnumerates(keys: seq<Oid>, o: Oid)
    requires Sorted(keys) && forall k :: k in keys ==> Less(o, k)
    ensures IteratedNext(keys, o, |keys|) == keys
  {
    BulkIsIteratedNext(keys, o, |keys|);
    if keys != [] {
      BisectRightSplits(keys, o, 0);
    }
  }

  /** `OidTree.walk` is the subtree, with the base itself first when it is an instance. */
  function WalkKeys(keys: seq<Oid>, base: Oid): seq<Oid>
  {
    (if base in keys then [base] else []) + SubtreeKeys(keys, base)
  }

  ghost predicate HasInstances(vals: Content, cols: seq<Column>, d: Device)
  {
    forall c, k :: c in cols && 0 <= k < |d.interfaces| ==> Instance(c, d.interfaces[k].index) in vals
  }

  class OidTree {
    const device: Device
    var keys: seq<Oid>
    var vals: Content

    /** The sorted key list and the dictionary agree. */
    ghost predicate InOrder()
      reads this
    {
      Sorted(keys) && forall o :: o in keys <==> o in vals
    }

    ghost predicate Valid()
      reads this
    {
      InOrder() && TreeOf(vals, device)
    }

    constructor (d: Device)
      ensures Valid() && device == d && vals == Populated(d)
    {
      device, keys, vals := d, [], map[];
      new;
      Set(SystemOid(1), StrVal(d.sysDescr));
      Set(SystemOid(2), StrVal(d.sysObjectId));
      Set(SystemOid(3), IntVal(0));
      Set(SystemOid(4), StrVal(d.sysContact));
      Set(SystemOid(5), StrVal(d.sysName));
      Set(SystemOid(6), StrVal(d.sysLocation));
      PutAll(TREE_COLUMNS, false);
    }

    /** SortedDict assignment: an existing key keeps its place, a new one is inserted in order. */
    method Set(o: Oid, v: Value)
      requires InOrder()
      modifies this
      ensures InOrder() && vals == old(vals)[o := v]
      ensures o in old(vals) ==> keys == old(keys)
    {
      if o !in vals {
        var p := BisectLeft(keys, o);
        InsertKeepsOrder(keys, o);
        keys := keys[..p] + [o] + keys[p..];
      }
      vals := vals[o := v];
    }

    method PutOne(cols: seq<Column>, f: Interface, live: bool)
      requires InOrder()
      modifies this
      ensures InOrder()
      ensures vals == PutColumns(old(vals), cols, |cols|, f, live)
      ensures (forall c :: c in cols ==> Instance(c, f.index) in old(vals)) ==> keys == old(keys)
    {
      hide Sorted, Instance, LiveValue, InitialValue;
      ghost var present := forall c :: c in cols ==> Instance(c, f.index) in old(vals);
      for j := 0 to |cols|
        invariant InOrder()
        invariant vals == PutColumns(old(vals), cols, j, f, live)
        invariant present ==> keys == old(keys)
      {
        var c := cols[j];
        if present {
          PutColumnsKeepsKeys(old(vals), cols, j, f, live);
        }
        Set(Instance(c, f.index), if live then LiveValue(c, f) else InitialValue(c, f));
      }
    }

    method PutAll(cols: seq<Column>, live: bool)
      requires InOrder()
      modifies this
      ensures InOrder()
      ensures vals == PutInterfaces(old(vals), cols, device.interfaces, |device.interfaces|, live)
      ensures HasInstances(old(vals), cols, device) ==> keys == old(keys)
    {
      hide Sorted, Instance, PutColumns;
      ghost var present := HasInstances(old(vals), cols, device);
      for i := 0 to |device.interfaces|
        invariant InOrder()
        invariant vals == PutInterfaces(old(vals), cols, device.interfaces, i, live)
        invariant present ==> keys == old(keys)
      {
        if present {
          PutInterfacesKeepsKeys(old(vals), cols, device.interfaces, i, live);
        }
        PutOne(cols, device.interfaces[i], live);
      }
    }

    /** The clock enters only through `sys_uptime`. */
    method RefreshCounters(uptime: int)
      requires Valid()
      modifies this
      ensures Valid() && keys == old(keys)
      ensures vals == Refreshed(Populated(device), device, uptime)
    {
      PopulatedHas(device);
      RefreshKeepsTree(vals, device, uptime);
      RefreshForgets(vals, device, uptime);
      PutInterfacesKeepsKeys(vals, COUNTER_COLUMNS, device.interfaces, |device.interfaces|, true);
      PutAll(COUNTER_COLUMNS, true);
      Set(UPTIME, IntVal(uptime));
    }

    method Get(o: Oid) returns (r: Option<VarBind>)
      requires Valid()
      ensures r == if o in vals then Some(VarBind(o, Bound(vals[o]))) else None
    {
      if o in vals {
        r := Some(VarBind(o, Bound(vals[o])));
      } else {
        r := None;
      }
    }

    method GetNext(o: Oid) returns (r: Option<VarBind>)
      requires Valid()
      ensures r.Some? ==>
                IsNext(keys, o, r.value.name) && r.value.name in vals && r.value.val == Bound(vals[r.value.name])
      ensures r.None? ==> forall k :: k in keys ==> !Less(o, k)
    {
      NextIsLeast(keys, o);
      var i := BisectRight(keys, o);
      if i >= |keys| {
        r := None;
      } else {
        r := Some(VarBind(keys[i], Bound(vals[keys[i]])));
      }
    }

    method GetBulk(o: Oid, n: nat) returns (r: seq<VarBind>)
      requires Valid()
      ensures InMib(vals, IteratedNext(keys, o, n)) && r == Bindings(vals, IteratedNext(keys, o, n))
    {
      hide TreeOf;
      BulkIsIteratedNext(keys, o, n);
      hide IteratedNext, Sorted;
      var idx := BisectRight(keys, o);
      var end := if idx + n < |keys| then idx + n else |keys|;
      r := [];
      for i := idx to end
        invariant InMib(vals, keys[idx..i])
        invariant r == Bindings(vals, keys[idx..i])
      {
        assert keys[idx..i + 1] == keys[idx..i] + [keys[i]];
        BindingsSnoc(vals, keys[idx..i], keys[i]);
        r := r + [VarBind(keys[i], Bound(vals[keys[i]]))];
      }
    }

    method Walk(base: Oid) returns (r: seq<VarBind>)
      requires Valid()
      ensures InMib(vals, WalkKeys(keys, base)) && r == Bindings(vals, WalkKeys(keys, base))
    {
      hide TreeOf;
      ghost var top := WalkKeysInterval(keys, base);
      var idx := BisectLeft(keys, base);
      r := [];
      var i := idx;
      while i < |keys| && Under(base, keys[i])
        invariant idx <= i <= top
        invariant r == Bindings(vals, keys[idx..i])
      {
        assert keys[idx..i + 1] == keys[idx..i] + [keys[i]];
        BindingsSnoc(vals, keys[idx..i], keys[i]);
        r := r + [VarBind(keys[i], Bound(vals[keys[i]]))];
        i := i + 1;
      }
    }
  }

  ghost predicate InMib(vals: Content, names: seq<Oid>)
  {
    forall i :: 0 <= i < |names| ==> names[i] in vals
  }

  function Bindings(vals: Content, names: seq<Oid>): (r: seq<VarBind>)
    requires InMib(vals, names)
    ensures |r| == |names|
    ensures forall i :: 0 <= i < |r| ==> r[i] == VarBind(names[i], Bound(vals[names[i]]))
  {
    seq(|names|, i requires 0 <= i < |names| => VarBind(names[i], Bound(vals[names[i]])))
  }

  lemma BindingsSnoc(vals: Content, names: seq<Oid>, k: Oid)
    requires InMib(vals, names) && k in vals
    ensures InMib(vals, names + [k])
    ensures Bindings(vals, names + [k]) == Bindings(vals, names) + [VarBind(k, Bound(vals[k]))]
  {
  }

  lemma WalkKeysInterval(keys: seq<Oid>, base: Oid) returns (top: nat)
    requires Sorted(keys)
    ensures BisectLeft(keys, base) <= top <= |keys|
    ensures WalkKeys(keys, base) == keys[BisectLeft(keys, base)..top]
    ensures forall i :: BisectLeft(keys, base) <= i < top ==> Under(base, keys[i])
    ensures top < |keys| ==> !Under(base, keys[top])
  {
    BisectLeftRight(keys, base);
    SubtreeIsInterval(keys, base);
    top := BisectRight(keys, base) + |SubtreeKeys(keys, base)|;
  }

  lemma InsertKeepsOrder(keys: seq<Oid>, o: Oid)
    requires Sorted(keys) && o !in keys
    ensures var p := BisectLeft(keys, o);
            var keys' := keys[..p] + [o] + keys[p..];
            Sorted(keys') && forall k :: k in keys' <==> k in keys || k == o
  {
    var p := BisectLeft(keys, o);
    BisectLeftRight(keys, o);
    forall i | p <= i < |keys|
      ensures Less(o, keys[i])
    {
      BisectRightSplits(keys, o, i);
    }
  }
}
