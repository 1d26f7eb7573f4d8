/** `SnmpDeviceHandler`: each request refreshes the tree, then answers from it. */
module Handler {
  import opened Oids
  import opened Mib
  import opened Text
  import opened DeviceMib
  import opened Simulator
  import Walk

  function GetOne(vals: Content, o: Oid): VarBind
  {
    VarBind(o, if o in vals then Bound(vals[o]) else NoSuchObject)
  }

  function GetAnswer(vals: Content, oids: seq<Oid>): (r: seq<VarBind>)
    ensures |r| == |oids| && forall i :: 0 <= i < |oids| ==> r[i] == GetOne(vals, oids[i])
  {
    seq(|oids|, i requires 0 <= i < |oids| => GetOne(vals, oids[i]))
  }

  ghost predicate KeysOf(keys: seq<Oid>, vals: Content)
  {
    Sorted(keys) && forall o :: o in keys <==> o in vals
  }

  lemma {:induction false} IteratedInMib(keys: seq<Oid>, vals: Content, o: Oid, n: nat)
    requires KeysOf(keys, vals)
    ensures InMib(vals, IteratedNext(keys, o, n))
  {
    BulkIsIteratedNext(keys, o, n);
  }

  /** One cursor's share of an answer: its successors, or a single endOfMibView naming the cursor. */
  ghost function Share(keys: seq<Oid>, vals: Content, o: Oid, n: nat): seq<VarBind>
    requires KeysOf(keys, vals)
  {
    IteratedInMib(keys, vals, o, n);
    var names := IteratedNext(keys, o, n);
    if names == [] then [VarBind(o, EndOfMibView)] else Bindings(vals, names)
  }

  /** The handler concatenates the cursors' shares one after the other (not interleaved as RFC 3416 asks). */
  ghost function BulkAnswer(keys: seq<Oid>, vals: Content, nonRepeaters: nat, maxReps: nat, oids: seq<Oid>,
                            n: nat): seq<VarBind>
    requires KeysOf(keys, vals) && n <= |oids|
  {
    if n == 0 then [] else
      BulkAnswer(keys, vals, nonRepeaters, maxReps, oids, n - 1)
      + Share(keys, vals, oids[n - 1], if n - 1 < nonRepeaters then 1 else maxReps)
  }

  class SnmpDeviceHandler {
    const tree: OidTree

    constructor (d: Device)
      ensures fresh(tree) && tree.Valid() && tree.device == d
    {
      tree := new OidTree(d);
    }

    method HandleGet(oids: seq<Oid>, uptime: int) returns (results: seq<VarBind>)
      requires tree.Valid()
      modifies tree
      ensures tree.Valid() && tree.keys == old(tree.keys)
      ensures results == GetAnswer(Refreshed(Populated(tree.device), tree.device, uptime), oids)
    {
      tree.RefreshCounters(uptime);
      results := [];
      for i := 0 to |oids|
        invariant tree.Valid() && tree.keys == old(tree.keys)
        invariant tree.vals == Refreshed(Populated(tree.device), tree.device, uptime)
        invariant results == GetAnswer(tree.vals, oids[..i])
      {
        var r := tree.Get(oids[i]);
        results := results + [if r.Some? then r.value else VarBind(oids[i], NoSuchObject)];
        assert oids[..i + 1] == oids[..i] + [oids[i]];
      }
      assert oids[..|oids|] == oids;
    }

    method HandleGetBulk(nonRepeaters: nat, maxReps: nat, oids: seq<Oid>, uptime: int) returns (results: seq<VarBind>)
      requires tree.Valid()
      modifies tree
      ensures tree.Valid() && tree.keys == old(tree.keys)
      ensures tree.vals == Refreshed(Populated(tree.device), tree.device, uptime)
      ensures KeysOf(tree.keys, tree.vals)
              && results == BulkAnswer(tree.keys, tree.vals, nonRepeaters, maxReps, oids, |oids|)
    {
      tree.RefreshCounters(uptime);
      results := [];
      for i := 0 to |oids|
        invariant tree.Valid() && tree.keys == old(tree.keys)
        invariant tree.vals == Refreshed(Populated(tree.device), tree.device, uptime)
        invariant results == BulkAnswer(tree.keys, tree.vals, nonRepeaters, maxReps, oids, i)
      {
        var o := oids[i];
        if i < nonRepeaters {
          var r := tree.GetNext(o);
          NextIsShare(tree.keys, tree.vals, o, r);
          results := results + [if r.Some? then r.value else VarBind(o, EndOfMibView)];
        } else {
          var bulk := tree.GetBulk(o, maxReps);
          if bulk != [] {
            results := results + bulk;
          } else {
            results := results + [VarBind(o, EndOfMibView)];
          }
        }
      }
    }
  }

  lemma NextIsShare(keys: seq<Oid>, vals: Content, o: Oid, r: Option<VarBind>)
    requires KeysOf(keys, vals)
    requires r.Some? ==>
               IsNext(keys, o, r.value.name) && r.value.name in vals && r.value.val == Bound(vals[r.value.name])
    requires r.None? ==> forall k :: k in keys ==> !Less(o, k)
    ensures Share(keys, vals, o, 1) == [if r.Some? then r.value else VarBind(o, EndOfMibView)]
  {
    NextIsLeast(keys, o);
    var next := NextKey(keys, o);
    if r.Some? {
      LessIrreflexive(r.value.name);
      if next.Some? && next.value != r.value.name {
        LessAsymmetric(next.value, r.value.name);
      }
      assert r.value == VarBind(r.value.name, r.value.val);
    }
    if next.Some? {
      assert IteratedNext(keys, o, 1) == [next.value];
    }
  }

  lemma ShareFollowsStream(keys: seq<Oid>, vals: Content, stable: Content, cursor: Oid, n: nat, j: nat)
    requires KeysOf(keys, vals) && n > 0
    requires forall o :: o in stable && o in vals ==> stable[o] == vals[o]
    ensures 0 < |Share(keys, vals, cursor, n)| <= n
    ensures var share := Share(keys, vals, cursor, n);
            if j < |share| then StreamBind(keys, stable, cursor, j, share[j]) else j < n ==> Ended(keys, cursor, j)
  {
    hide IteratedNext;
    BulkIsIteratedNext(keys, cursor, n);
    IteratedInMib(keys, vals, cursor, n);
    var i, names := BisectRight(keys, cursor), BulkKeys(keys, cursor, n);
    var share := Share(keys, vals, cursor, n);
    if i == |keys| {
      assert names == [];
    } else {
      assert share == Bindings(vals, names);
      assert j < |share| ==> share[j] == VarBind(keys[i + j], Bound(vals[keys[i + j]]));
    }
  }

  /** With one cursor the handler is a conforming agent that answers in full. */
  lemma SingleCursorConforms(keys: seq<Oid>, vals: Content, stable: Content, cursors: seq<Oid>, n: nat)
    requires KeysOf(keys, vals) && |cursors| == 1 && 0 < n <= MAX_REPETITIONS
    requires forall o :: o in stable && o in vals ==> stable[o] == vals[o]
    ensures var binds := BulkAnswer(keys, vals, 0, n, cursors, 1);
            ConformingBinds(keys, stable, cursors, binds) && HasRepetitions(keys, cursors, binds, n)
  {
    hide StreamBind, Ended, Share;
    assert BulkAnswer(keys, vals, 0, n, cursors, 0) == [];
    var binds := BulkAnswer(keys, vals, 0, n, cursors, 1);
    assert binds == Share(keys, vals, cursors[0], n);
    forall j: nat
      ensures j % |cursors| == 0 && j / |cursors| == j
      ensures if j < |binds| then StreamBind(keys, stable, cursors[0], j, binds[j])
              else j < n ==> Ended(keys, cursors[0], j)
    {
      ShareFollowsStream(keys, vals, stable, cursors[0], n, j);
    }
    ShareFollowsStream(keys, vals, stable, cursors[0], n, 0);
  }

  /** How many bindings a cursor's share has: its successors, or one endOfMibView. */
  function ShareSize(keys: seq<Oid>, o: Oid, n: nat): nat
  {
    var left := |keys| - BisectRight(keys, o);
    if left <= 1 || n <= 1 then 1 else if n <= left then n else left
  }

  lemma ShareIs(keys: seq<Oid>, vals: Content, o: Oid, n: nat, j: nat)
    requires KeysOf(keys, vals) && n > 0 && j < ShareSize(keys, o, n)
    ensures |Share(keys, vals, o, n)| == ShareSize(keys, o, n)
    ensures var i, vb := BisectRight(keys, o), Share(keys, vals, o, n)[j];
            if i < |keys|
            then i + j < |keys| && keys[i + j] in vals && vb == VarBind(keys[i + j], Bound(vals[keys[i + j]]))
            else j == 0 && vb == VarBind(o, EndOfMibView)
  {
    hide IteratedNext, Sorted;
    BulkIsIteratedNext(keys, o, n);
    IteratedInMib(keys, vals, o, n);
    var i, names := BisectRight(keys, o), BulkKeys(keys, o, n);
    if i == |keys| {
      assert names == [];
    } else {
      assert |names| == ShareSize(keys, o, n) && names[j] == keys[i + j];
      assert Share(keys, vals, o, n) == Bindings(vals, names);
    }
  }

  /** The answer to two cursors: one share after the other. */
  lemma TwoShares(keys: seq<Oid>, vals: Content, c0: Oid, c1: Oid, n: nat)
    requires KeysOf(keys, vals)
    ensures BulkAnswer(keys, vals, 0, n, [c0, c1], 2) == Share(keys, vals, c0, n) + Share(keys, vals, c1, n)
  {
    hide Share;
    var cs := [c0, c1];
    assert BulkAnswer(keys, vals, 0, n, cs, 0) == [];
    assert BulkAnswer(keys, vals, 0, n, cs, 1) == Share(keys, vals, c0, n);
  }

  /** RFC order for two cursors, binding by binding. */
  lemma TwoCursorOrder(keys: seq<Oid>, stable: Content, c0: Oid, c1: Oid, binds: seq<VarBind>)
    ensures ConformingBinds(keys, stable, [c0, c1], binds) <==>
            && |binds| <= 2 * MAX_REPETITIONS
            && forall i :: 0 <= i < |binds| ==> StreamBind(keys, stable, if i % 2 == 0 then c0 else c1, i / 2, binds[i])
  {
    hide StreamBind;
    var cs := [c0, c1];
    forall i | 0 <= i < |binds|
      ensures cs[i % |cs|] == if i % 2 == 0 then c0 else c1
      ensures i / |cs| == i / 2
    {
    }
  }

  /**
   * When two shares, one after the other, happen to be in RFC order: both are single bindings, or the
   * second cursor stands one instance further on and the first has two bindings only.
   */
  predicate HappensToConform(keys: seq<Oid>, c0: Oid, c1: Oid, n: nat)
  {
    var b0, b1 := BisectRight(keys, c0), BisectRight(keys, c1);
    if ShareSize(keys, c0, n) == 1 then ShareSize(keys, c1, n) == 1
    else b1 == b0 + 1 && (n == 2 || b0 + 2 == |keys|)
  }

  lemma BoundBinds(keys: seq<Oid>, vals: Content, stable: Content, c: Oid, j: nat, k: nat)
    requires KeysOf(keys, vals) && k < |keys|
    requires forall o :: o in stable && o in vals ==> stable[o] == vals[o]
    ensures keys[k] in vals
    ensures StreamBind(keys, stable, c, j, VarBind(keys[k], Bound(vals[keys[k]]))) <==> BisectRight(keys, c) + j == k
  {
    var i := BisectRight(keys, c);
    if i + j < |keys| && keys[i + j] == keys[k] {
      SortedInjective(keys, i + j, k);
    }
  }

  /** Binding `i` of the answer to two cursors names the instance at position `k`. */
  ghost predicate Names(keys: seq<Oid>, vals: Content, binds: seq<VarBind>, i: nat, k: nat)
  {
    i < |binds| && k < |keys| && keys[k] in vals && binds[i] == VarBind(keys[k], Bound(vals[keys[k]]))
  }

  lemma NamesInBoth(keys: seq<Oid>, vals: Content, first: seq<VarBind>, second: seq<VarBind>, i: nat, k: nat)
    ensures Names(keys, vals, first, i, k) ==> Names(keys, vals, first + second, i, k)
    ensures i >= |first| && Names(keys, vals, second, i - |first|, k) ==> Names(keys, vals, first + second, i, k)
  {
  }

  lemma ShareNames(keys: seq<Oid>, vals: Content, o: Oid, n: nat, j: nat)
    requires KeysOf(keys, vals) && n > 0
    ensures |Share(keys, vals, o, n)| == ShareSize(keys, o, n)
    ensures j < ShareSize(keys, o, n) && BisectRight(keys, o) < |keys| ==>
            Names(keys, vals, Share(keys, vals, o, n), j, BisectRight(keys, o) + j)
  {
    hide Share;
    ShareIs(keys, vals, o, n, if j < ShareSize(keys, o, n) then j else 0);
  }

  lemma AnswerNames(keys: seq<Oid>, vals: Content, c0: Oid, c1: Oid, n: nat, i: nat)
    requires KeysOf(keys, vals) && n > 0
    ensures var m0, m1 := ShareSize(keys, c0, n), ShareSize(keys, c1, n);
            var binds := BulkAnswer(keys, vals, 0, n, [c0, c1], 2);
            var b0, b1 := BisectRight(keys, c0), BisectRight(keys, c1);
            && |binds| == m0 + m1
            && (i < m0 && b0 < |keys| ==> Names(keys, vals, binds, i, b0 + i))
            && (m0 <= i < m0 + m1 && b1 < |keys| ==> Names(keys, vals, binds, i, b1 + i - m0))
  {
    hide Share, BulkAnswer, Names, ShareSize;
    var m0, first, second := ShareSize(keys, c0, n), Share(keys, vals, c0, n), Share(keys, vals, c1, n);
    TwoShares(keys, vals, c0, c1, n);
    ShareNames(keys, vals, c0, n, i);
    ShareNames(keys, vals, c1, n, if i >= m0 then i - m0 else 0);
    NamesInBoth(keys, vals, first, second, i, BisectRight(keys, c0) + i);
    if i >= m0 {
      NamesInBoth(keys, vals, first, second, i, BisectRight(keys, c1) + i - m0);
    }
  }

  lemma Misplaced(keys: seq<Oid>, stable: Content, c0: Oid, c1: Oid, binds: seq<VarBind>, i: nat)
    requires i < |binds| && !StreamBind(keys, stable, if i % 2 == 0 then c0 else c1, i / 2, binds[i])
    ensures !ConformingBinds(keys, stable, [c0, c1], binds)
  {
    TwoCursorOrder(keys, stable, c0, c1, binds);
  }

  lemma Placed(keys: seq<Oid>, stable: Content, c0: Oid, c1: Oid, binds: seq<VarBind>)
    requires |binds| <= 4
    requires |binds| > 0 ==> StreamBind(keys, stable, c0, 0, binds[0])
    requires |binds| > 1 ==> StreamBind(keys, stable, c1, 0, binds[1])
    requires |binds| > 2 ==> StreamBind(keys, stable, c0, 1, binds[2])
    requires |binds| > 3 ==> StreamBind(keys, stable, c1, 1, binds[3])
    ensures ConformingBinds(keys, stable, [c0, c1], binds)
  {
    hide StreamBind;
    TwoCursorOrder(keys, stable, c0, c1, binds);
    forall i | 0 <= i < |binds|
      ensures StreamBind(keys, stable, if i % 2 == 0 then c0 else c1, i / 2, binds[i])
    {
    }
  }

  /**
   * With one binding each, the order of the two shares is RFC order; a second binding of the second cursor comes too
   * early.
   */
  lemma OneBindingFirst(keys: seq<Oid>, vals: Content, stable: Content, c0: Oid, c1: Oid, n: nat)
    requires KeysOf(keys, vals) && 0 < n <= MAX_REPETITIONS && ShareSize(keys, c0, n) == 1
    requires forall o :: o in stable && o in vals ==> stable[o] == vals[o]
    ensures ConformingBinds(keys, stable, [c0, c1], BulkAnswer(keys, vals, 0, n, [c0, c1], 2)) <==>
              ShareSize(keys, c1, n) == 1
  {
    hide StreamBind, BulkAnswer, ConformingBinds, Share;
    var binds := BulkAnswer(keys, vals, 0, n, [c0, c1], 2);
    AnswerNames(keys, vals, c0, c1, n, 2);
    if ShareSize(keys, c1, n) > 1 {
      BoundBinds(keys, vals, stable, c0, 1, BisectRight(keys, c1) + 1);
      Misplaced(keys, stable, c0, c1, binds, 2);
    } else {
      TwoShares(keys, vals, c0, c1, n);
      ShareIs(keys, vals, c0, n, 0);
      ShareIs(keys, vals, c1, n, 0);
      ShareFollowsStream(keys, vals, stable, c0, n, 0);
      ShareFollowsStream(keys, vals, stable, c1, n, 0);
      Placed(keys, stable, c0, c1, binds);
    }
  }

  lemma TwoBindingsFirst(keys: seq<Oid>, vals: Content, stable: Content, c0: Oid, c1: Oid, n: nat)
    requires KeysOf(keys, vals) && 0 < n <= MAX_REPETITIONS && ShareSize(keys, c0, n) > 1
    requires forall o :: o in stable && o in vals ==> stable[o] == vals[o]
    ensures ConformingBinds(keys, stable, [c0, c1], BulkAnswer(keys, vals, 0, n, [c0, c1], 2)) <==>
            HappensToConform(keys, c0, c1, n)
  {
    hide StreamBind, BulkAnswer, ConformingBinds, Share;
    var binds, b0, b1 := BulkAnswer(keys, vals, 0, n, [c0, c1], 2), BisectRight(keys, c0), BisectRight(keys, c1);
    AnswerNames(keys, vals, c0, c1, n, 1);
    AnswerNames(keys, vals, c0, c1, n, 2);
    BoundBinds(keys, vals, stable, c1, 0, b0 + 1);
    if b1 != b0 + 1 {
      Misplaced(keys, stable, c0, c1, binds, 1);
    } else if ShareSize(keys, c0, n) > 2 {
      BoundBinds(keys, vals, stable, c0, 1, b0 + 2);
      Misplaced(keys, stable, c0, c1, binds, 2);
    } else {
      AnswerNames(keys, vals, c0, c1, n, 0);
      AnswerNames(keys, vals, c0, c1, n, 3);
      BoundBinds(keys, vals, stable, c0, 0, b0);
      BoundBinds(keys, vals, stable, c0, 1, b1);
      if b1 + 1 < |keys| {
        BoundBinds(keys, vals, stable, c1, 1, b1 + 1);
      }
      Placed(keys, stable, c0, c1, binds);
    }
  }

  /** With two cursors the answer conforms exactly when column-major and RFC order happen to coincide. */
  lemma TwoCursorsConformIff(keys: seq<Oid>, vals: Content, stable: Content, c0: Oid, c1: Oid, n: nat)
    requires KeysOf(keys, vals) && 0 < n <= MAX_REPETITIONS
    requires forall o :: o in stable && o in vals ==> stable[o] == vals[o]
    ensures ConformingBinds(keys, stable, [c0, c1], BulkAnswer(keys, vals, 0, n, [c0, c1], 2)) <==>
            var b0, b1 := BisectRight(keys, c0), BisectRight(keys, c1);
            if n > 1 && b0 + 1 < |keys| then b1 == b0 + 1 && (n == 2 || b0 + 2 == |keys|)
            else n == 1 || b1 + 1 >= |keys|
  {
    hide BulkAnswer, ConformingBinds;
    if ShareSize(keys, c0, n) == 1 {
      OneBindingFirst(keys, vals, stable, c0, c1, n);
    } else {
      TwoBindingsFirst(keys, vals, stable, c0, c1, n);
    }
  }

  lemma {:induction false} FirstShare(keys: seq<Oid>, vals: Content, cursors: seq<Oid>, n: nat, m: nat)
    requires KeysOf(keys, vals) && 0 < m <= |cursors|
    ensures var first, binds := Share(keys, vals, cursors[0], n), BulkAnswer(keys, vals, 0, n, cursors, m);
            |first| <= |binds| && binds[..|first|] == first
  {
    hide Share;
    if m == 1 {
      assert BulkAnswer(keys, vals, 0, n, cursors, 0) == [];
    } else {
      FirstShare(keys, vals, cursors, n, m - 1);
    }
  }

  /**
   * With more cursors: if the first has more successors than there are cursors, its share runs on where the second
   * repetition should begin, and the answer never conforms.
   */
  lemma ManyCursorsDoNotConform(keys: seq<Oid>, vals: Content, stable: Content, cursors: seq<Oid>, n: nat)
    requires KeysOf(keys, vals) && 0 < n <= MAX_REPETITIONS
    requires 2 <= |cursors| < ShareSize(keys, cursors[0], n)
    requires forall o :: o in stable && o in vals ==> stable[o] == vals[o]
    ensures !ConformingBinds(keys, stable, cursors, BulkAnswer(keys, vals, 0, n, cursors, |cursors|))
  {
    hide Share, BulkAnswer, StreamBind;
    var k, first, binds := |cursors|, Share(keys, vals, cursors[0], n), BulkAnswer(keys, vals, 0, n, cursors,
                                            |cursors|);
    FirstShare(keys, vals, cursors, n, k);
    ShareIs(keys, vals, cursors[0], n, k);
    assert binds[k] == binds[..|first|][k] == first[k];
    BoundBinds(keys, vals, stable, cursors[0], 1, BisectRight(keys, cursors[0]) + k);
    assert k % k == 0 && k / k == 1;
    assert !StreamBind(keys, stable, cursors[k % k], k / k, binds[k]);
  }

  // ----- the client's walk against the tree's own

  /** Bindings as the client prints them. */
  function Printed(vbs: seq<VarBind>): seq<Row>
  {
    seq(|vbs|, i requires 0 <= i < |vbs| => (vbs[i].name, Pretty(vbs[i].val)))
  }

  function BaseBinding(vals: Content, base: Oid): seq<VarBind>
  {
    if base in vals then [VarBind(base, Bound(vals[base]))] else []
  }

  /**
   * A followed subtree of at most 10,000 rows, walked over GETBULK, is what `OidTree.walk` lists, minus the
   * base itself. Instances outside `stable`, such as the uptime, may change between requests.
   */
  method WalkBoth(tree: OidTree, agent: Agent, base: Oid, ghost stable: Content)
    returns (walked: Walk.WalkResult, listed: seq<VarBind>)
    requires tree.Valid() && Conforming(tree.keys, stable, agent, 1) && Answers(tree.keys, agent, 1, 1)
    requires Followed(tree.keys, base) && |SubtreeKeys(tree.keys, base)| <= Walk.ROW_CAP
    requires StableBelow(tree.keys, tree.vals, stable, base)
    ensures InMib(tree.vals, WalkKeys(tree.keys, base)) && listed == Bindings(tree.vals, WalkKeys(tree.keys, base))
    ensures var own := |BaseBinding(tree.vals, base)|;
            && own <= |listed| && listed[..own] == BaseBinding(tree.vals, base)
            && walked == Walk.Rows(Printed(listed[own..]))
  {
    hide TreeOf, Walk.WalkPromise, Conforming, Answers, Followed, SubtreeKeys, WalkKeys, Sorted, InMib, Printed,
         Bindings, SubtreeRows, StableBelow;
    var w := Walk.Walk(agent, base, tree.keys, stable);
    WholeSubtree(tree.keys, tree.vals, stable, agent, base, w);
    ListedSubtree(tree.keys, tree.vals, base);
    walked := w;
    listed := tree.Walk(base);
    ghost var own := BaseBinding(tree.vals, base);
    assert listed[..|own|] == own && listed[|own|..] == Bindings(tree.vals, SubtreeKeys(tree.keys, base));
  }

  /** `stable` has the tree's own values for the subtree of `base`. */
  ghost predicate StableBelow(keys: seq<Oid>, vals: Content, stable: Content, base: Oid)
  {
    forall i :: 0 <= i < |SubtreeKeys(keys, base)| ==>
      var o := SubtreeKeys(keys, base)[i]; o in stable && o in vals && stable[o] == vals[o]
  }

  lemma WholeSubtree(keys: seq<Oid>, vals: Content, stable: Content, agent: Agent, base: Oid, walked: Walk.WalkResult)
    requires KeysOf(keys, vals) && Conforming(keys, stable, agent, 1) && Answers(keys, agent, 1, 1)
    requires Followed(keys, base) && |SubtreeKeys(keys, base)| <= Walk.ROW_CAP && StableBelow(keys, vals, stable, base)
    requires Walk.WalkPromise(agent, base, keys, stable, walked)
    ensures InMib(vals, SubtreeKeys(keys, base))
    ensures walked == Walk.Rows(Printed(Bindings(vals, SubtreeKeys(keys, base))))
  {
    SubtreeIsInterval(keys, base);
    hide SubtreeKeys, Followed, Conforming, Answers, Sorted;
    ColumnIsSubtree(keys, stable, base, walked.rows);
  }

  lemma ListedSubtree(keys: seq<Oid>, vals: Content, base: Oid)
    requires KeysOf(keys, vals)
    ensures InMib(vals, WalkKeys(keys, base)) && InMib(vals, SubtreeKeys(keys, base))
    ensures Bindings(vals, WalkKeys(keys, base)) ==
            BaseBinding(vals, base) + Bindings(vals, SubtreeKeys(keys, base))
  {
    SubtreeIsInterval(keys, base);
    hide SubtreeKeys, Sorted;
  }
}
