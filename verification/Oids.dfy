/** Object identifiers as tuples, in the order Python compares tuples. */
module Oids {

  type Oid = seq<nat>

  /** Lexicographic order: the first differing component decides, a proper prefix comes first. */
  predicate Less(a: Oid, b: Oid)
  {
    LessFrom(a, b, 0)
  }

  predicate LessFrom(a: Oid, b: Oid, i: nat)
    requires i <= |a| && i <= |b|
    decreases |a| - i
  {
    i < |b| && (i == |a| || a[i] < b[i] || (a[i] == b[i] && LessFrom(a, b, i + 1)))
  }

  predicate Under(base: Oid, o: Oid)
  {
    |base| <= |o| && o[..|base|] == base
  }

  lemma {:induction false} LessFromIrreflexive(a: Oid, i: nat)
    requires i <= |a|
    ensures !LessFrom(a, a, i)
    decreases |a| - i
  {
    if i < |a| {
      LessFromIrreflexive(a, i + 1);
    }
  }

  lemma LessIrreflexive(a: Oid)
    ensures !Less(a, a)
  {
    LessFromIrreflexive(a, 0);
  }

  lemma {:induction false} LessFromTransitive(a: Oid, b: Oid, c: Oid, i: nat)
    requires i <= |a| && i <= |b| && i <= |c|
    requires LessFrom(a, b, i) && LessFrom(b, c, i)
    ensures LessFrom(a, c, i)
    decreases |a| - i
  {
    if i < |a| && a[i] == b[i] == c[i] {
      LessFromTransitive(a, b, c, i + 1);
    }
  }

  lemma LessTransitive(a: Oid, b: Oid, c: Oid)
    requires Less(a, b) && Less(b, c)
    ensures Less(a, c)
  {
    LessFromTransitive(a, b, c, 0);
  }

  lemma {:induction false} LessFromTotal(a: Oid, b: Oid, i: nat)
    requires i <= |a| && i <= |b| && a[..i] == b[..i]
    ensures LessFrom(a, b, i) || a == b || LessFrom(b, a, i)
    decreases |a| - i
  {
    if i < |a| && i < |b| && a[i] == b[i] {
      assert a[..i + 1] == a[..i] + [a[i]] && b[..i + 1] == b[..i] + [b[i]];
      LessFromTotal(a, b, i + 1);
    }
  }

  lemma LessTotal(a: Oid, b: Oid)
    ensures Less(a, b) || a == b || Less(b, a)
  {
    LessFromTotal(a, b, 0);
  }

  lemma LessAsymmetric(a: Oid, b: Oid)
    requires Less(a, b)
    ensures !Less(b, a)
  {
    if Less(b, a) {
      LessTransitive(a, b, a);
      LessIrreflexive(a);
    }
  }

  lemma {:induction false} UnderIsAfterFrom(base: Oid, o: Oid, i: nat)
    requires Under(base, o) && |base| < |o| && i <= |base|
    ensures LessFrom(base, o, i)
    decreases |base| - i
  {
    if i < |base| {
      assert base[i] == o[..|base|][i];
      UnderIsAfterFrom(base, o, i + 1);
    }
  }

  /** Everything below a base, other than the base, sorts after it. */
  lemma UnderIsAfter(base: Oid, o: Oid)
    requires Under(base, o) && o != base
    ensures Less(base, o)
  {
    UnderIsAfterFrom(base, o, 0);
  }

  lemma {:induction false} SubtreeConvexFrom(base: Oid, mid: Oid, o: Oid, i: nat)
    requires i <= |base| && i <= |mid| && mid[..i] == base[..i]
    requires Under(base, o) && LessFrom(base, mid, i) && LessFrom(mid, o, i)
    ensures Under(base, mid)
    decreases |base| - i
  {
    if i < |base| {
      assert base[i] == o[..|base|][i];
      assert mid[..i + 1] == mid[..i] + [mid[i]] && base[..i + 1] == base[..i] + [base[i]];
      SubtreeConvexFrom(base, mid, o, i + 1);
    }
  }

  /** A subtree is an interval: nothing outside it sorts between the base and one of its members. */
  lemma SubtreeConvex(base: Oid, mid: Oid, o: Oid)
    requires Under(base, o) && Less(base, mid) && Less(mid, o)
    ensures Under(base, mid)
  {
    SubtreeConvexFrom(base, mid, o, 0);
  }

  lemma {:induction false} LessFromDecided(a: Oid, b: Oid, i: nat, d: nat)
    requires i <= d <= |a| && d < |b| && a[..d] == b[..d]
    requires d == |a| || a[d] < b[d]
    ensures LessFrom(a, b, i)
    decreases d - i
  {
    if i < d {
      assert a[i] == a[..d][i] == b[..d][i];
      LessFromDecided(a, b, i + 1, d);
    }
  }

  /** The first difference decides the order. */
  lemma LessDecided(a: Oid, b: Oid, d: nat)
    requires d <= |a| && d < |b| && a[..d] == b[..d]
    requires d == |a| || a[d] < b[d]
    ensures Less(a, b)
  {
    LessFromDecided(a, b, 0, d);
  }

  ghost predicate Sorted(keys: seq<Oid>)
  {
    forall i, j :: 0 <= i < j < |keys| ==> Less(keys[i], keys[j])
  }

  lemma SortedInjective(keys: seq<Oid>, i: nat, j: nat)
    requires Sorted(keys) && i < |keys| && j < |keys| && keys[i] == keys[j]
    ensures i == j
  {
    LessIrreflexive(keys[i]);
  }

  /** The index of the first key strictly after `o`, as `bisect_right` returns it. */
  function BisectRight(keys: seq<Oid>, o: Oid): (r: nat)
    ensures r <= |keys|
    ensures forall i :: 0 <= i < r ==> !Less(o, keys[i])
    ensures r < |keys| ==> Less(o, keys[r])
  {
    FirstAfter(keys, o, 0)
  }

  function FirstAfter(keys: seq<Oid>, o: Oid, from: nat): (r: nat)
    requires from <= |keys|
    ensures from <= r <= |keys|
    ensures forall i :: from <= i < r ==> !Less(o, keys[i])
    ensures r < |keys| ==> Less(o, keys[r])
    decreases |keys| - from
  {
    if from == |keys| || Less(o, keys[from]) then from else FirstAfter(keys, o, from + 1)
  }

  /** The index of the first key at or after `o`, as `bisect_left` returns it. */
  function BisectLeft(keys: seq<Oid>, o: Oid): (r: nat)
    ensures r <= |keys|
    ensures forall i :: 0 <= i < r ==> Less(keys[i], o)
    ensures r < |keys| ==> !Less(keys[r], o)
  {
    FirstAtOrAfter(keys, o, 0)
  }

  function FirstAtOrAfter(keys: seq<Oid>, o: Oid, from: nat): (r: nat)
    requires from <= |keys|
    ensures from <= r <= |keys|
    ensures forall i :: from <= i < r ==> Less(keys[i], o)
    ensures r < |keys| ==> !Less(keys[r], o)
    decreases |keys| - from
  {
    if from == |keys| || !Less(keys[from], o) then from else FirstAtOrAfter(keys, o, from + 1)
  }

  lemma BisectRightSplits(keys: seq<Oid>, o: Oid, i: nat)
    requires Sorted(keys) && i < |keys|
    ensures Less(o, keys[i]) <==> BisectRight(keys, o) <= i
  {
    var r := BisectRight(keys, o);
    if r < i {
      LessTransitive(o, keys[r], keys[i]);
    }
  }

  lemma BisectRightAt(keys: seq<Oid>, i: nat)
    requires Sorted(keys) && i < |keys|
    ensures BisectRight(keys, keys[i]) == i + 1
  {
    BisectRightSplits(keys, keys[i], i);
    LessIrreflexive(keys[i]);
    if i + 1 < |keys| {
      BisectRightSplits(keys, keys[i], i + 1);
    }
  }

  /** `bisect_left` differs from `bisect_right` by one exactly when `o` is itself a key. */
  lemma BisectLeftRight(keys: seq<Oid>, o: Oid)
    requires Sorted(keys)
    ensures o in keys ==> BisectLeft(keys, o) + 1 == BisectRight(keys, o) && keys[BisectLeft(keys, o)] == o
    ensures o !in keys ==> BisectLeft(keys, o) == BisectRight(keys, o)
  {
    var l, r := BisectLeft(keys, o), BisectRight(keys, o);
    if o in keys {
      var i :| 0 <= i < |keys| && keys[i] == o;
      BisectRightAt(keys, i);
      LessIrreflexive(o);
    } else {
      if l < r {
        LessTotal(o, keys[l]);
      }
      if r < l {
        LessAsymmetric(keys[r], o);
      }
    }
  }
}
