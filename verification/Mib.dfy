/** What a conforming agent exposes: an ordered key list, and the stream of variable
    bindings that section 4.2.3 of RFC 3416 lets a GETBULK repeater return. */
module Mib {
  import opened Oids
  import opened Text

  datatype Value = IntVal(n: int) | StrVal(s: string)

  datatype Binding = Bound(value: Value) | EndOfMibView | NoSuchObject

  datatype VarBind = VarBind(name: Oid, val: Binding)

  /** One request's outcome: an SNMP error status, an exception, or variable bindings in wire order. */
  datatype Response = Failed | Raised | Binds(binds: seq<VarBind>)

  /** An agent answers request number `r` for the given cursors. Letting the answer depend on the
      request number covers every stateful, truncating or failing agent. */
  type Agent = (nat, seq<Oid>) -> Response

  type Row = (Oid, string)

  const MAX_REPETITIONS: nat := 25

  const END_OF_MIB_TEXT := "No more variables left in this MIB View"
  const NO_SUCH_OBJECT_TEXT := "No Such Object currently exists at this OID"

  function Pretty(val: Binding): string
  {
    match val
    case Bound(IntVal(n)) => PrintInt(n)
    case Bound(StrVal(s)) => s
    case EndOfMibView => END_OF_MIB_TEXT
    case NoSuchObject => NO_SUCH_OBJECT_TEXT
  }

  // ----- the successor stream of a cursor

  predicate Ended(keys: seq<Oid>, cursor: Oid, j: nat)
  {
    BisectRight(keys, cursor) + j >= |keys|
  }

  /** The name in repetition `j` after `cursor`: the j-th successor, then the last name repeated. */
  function StreamName(keys: seq<Oid>, cursor: Oid, j: nat): Oid
  {
    var start := BisectRight(keys, cursor);
    if start + j < |keys| then keys[start + j]
    else if start < |keys| then keys[|keys| - 1]
    else cursor
  }

  /** Restarting the stream from a name it produced continues it: walks may resume anywhere. */
  lemma StreamResumes(keys: seq<Oid>, cursor: Oid, j: nat, m: nat)
    requires Sorted(keys)
    ensures StreamName(keys, StreamName(keys, cursor, j), m) == StreamName(keys, cursor, j + 1 + m)
    ensures Ended(keys, StreamName(keys, cursor, j), m) == Ended(keys, cursor, j + 1 + m)
  {
    var start := BisectRight(keys, cursor);
    if start + j < |keys| {
      BisectRightAt(keys, start + j);
    } else if start < |keys| {
      BisectRightAt(keys, |keys| - 1);
    }
  }

  // ----- conformance

  /** `vals` holds the instances whose value is stable; other instances may change between requests. */
  predicate StreamBind(keys: seq<Oid>, vals: map<Oid, Value>, cursor: Oid, j: nat, vb: VarBind)
  {
    vb.name == StreamName(keys, cursor, j) &&
    if Ended(keys, cursor, j) then vb.val == EndOfMibView
    else vb.val.Bound? && (vb.name in vals ==> vb.val.value == vals[vb.name])
  }

  /** RFC order: binding `i` of a response to `k` cursors is repetition `i / k` of cursor `i % k`.
      The response may be cut after any binding. */
  predicate ConformingBinds(keys: seq<Oid>, vals: map<Oid, Value>, cursors: seq<Oid>, binds: seq<VarBind>)
    requires cursors != []
  {
    |binds| <= MAX_REPETITIONS * |cursors| &&
    forall i :: 0 <= i < |binds| ==>
      StreamBind(keys, vals, cursors[i % |cursors|], i / |cursors|, binds[i])
  }

  /** Every answer to a request with at most `width` cursors conforms. */
  ghost predicate Conforming(keys: seq<Oid>, vals: map<Oid, Value>, agent: Agent, width: nat)
  {
    forall r: nat, cursors: seq<Oid> :: 0 < |cursors| <= width && agent(r, cursors).Binds? ==>
      ConformingBinds(keys, vals, cursors, agent(r, cursors).binds)
  }

  /** `binds` carries at least `p` repetitions, except for bindings past the end of the MIB. */
  predicate HasRepetitions(keys: seq<Oid>, cursors: seq<Oid>, binds: seq<VarBind>, p: nat)
    requires cursors != []
  {
    binds != [] &&
    forall i :: |binds| <= i < p * |cursors| ==> Ended(keys, cursors[i % |cursors|], i / |cursors|)
  }

  /** The agent never fails and always answers at least `p` repetitions. */
  ghost predicate Answers(keys: seq<Oid>, agent: Agent, width: nat, p: nat)
  {
    forall r: nat, cursors: seq<Oid> :: 0 < |cursors| <= width ==>
      agent(r, cursors).Binds? && HasRepetitions(keys, cursors, agent(r, cursors).binds, p)
  }

  /** Requests before number `k` are all answered, request `r` with at least `reps(r)` repetitions. */
  ghost predicate AnswersUpTo(keys: seq<Oid>, agent: Agent, width: nat, reps: nat -> nat, k: nat)
  {
    forall r: nat, cursors: seq<Oid> :: r < k && 0 < |cursors| <= width ==>
      reps(r) >= 1 && agent(r, cursors).Binds? && HasRepetitions(keys, cursors, agent(r, cursors).binds, reps(r))
  }

  /** The repetitions of the first `k` requests. */
  function Quota(reps: nat -> nat, k: nat): nat
  {
    if k == 0 then 0 else Quota(reps, k - 1) + reps(k - 1)
  }

  lemma {:induction false} QuotaOfConstant(p: nat, k: nat)
    ensures Quota((r: nat) => p, k) == k * p
  {
    if k > 0 {
      QuotaOfConstant(p, k - 1);
    }
  }

  lemma {:induction false} QuotaGrows(reps: nat -> nat, j: nat, k: nat)
    requires j <= k
    ensures Quota(reps, j) <= Quota(reps, k)
    decreases k
  {
    if j < k {
      QuotaGrows(reps, j, k - 1);
    }
  }

  function Min(a: nat, b: nat): nat
  {
    if a <= b then a else b
  }

  // ----- subtrees

  predicate Below(base: Oid, o: Oid)
  {
    Under(base, o) && o != base
  }

  /** The reference a walk is measured against: the instances strictly below `base`, in order. */
  function SubtreeKeys(keys: seq<Oid>, base: Oid): seq<Oid>
  {
    SubtreeFrom(keys, base, 0)
  }

  function SubtreeFrom(keys: seq<Oid>, base: Oid, i: nat): seq<Oid>
    requires i <= |keys|
    decreases |keys| - i
  {
    if i == |keys| then []
    else (if Below(base, keys[i]) then [keys[i]] else []) + SubtreeFrom(keys, base, i + 1)
  }

  /** Some instance sorts after the whole subtree of `base`. */
  ghost predicate Followed(keys: seq<Oid>, base: Oid)
  {
    exists i :: 0 <= i < |keys| && Less(base, keys[i]) && !Under(base, keys[i])
  }

  function SubtreeRows(vals: map<Oid, Value>, names: seq<Oid>): (rows: seq<Row>)
    requires forall i :: 0 <= i < |names| ==> names[i] in vals
    ensures |rows| == |names|
    ensures forall i :: 0 <= i < |names| ==> rows[i] == (names[i], Pretty(Bound(vals[names[i]])))
  {
    seq(|names|, i requires 0 <= i < |names| => (names[i], Pretty(Bound(vals[names[i]]))))
  }

  lemma {:induction false} FilterInterval(keys: seq<Oid>, base: Oid, s: nat, e: nat, i: nat)
    requires s <= e <= |keys| && i <= |keys|
    requires forall j :: 0 <= j < |keys| ==> (Below(base, keys[j]) <==> s <= j < e)
    ensures SubtreeFrom(keys, base, i) == if e <= i then [] else keys[if s <= i then i else s..e]
    decreases |keys| - i
  {
    if i < |keys| {
      FilterInterval(keys, base, s, e, i + 1);
    }
  }

  lemma {:induction false} SubtreeEndExists(keys: seq<Oid>, base: Oid, s: nat) returns (e: nat)
    requires s <= |keys|
    ensures s <= e <= |keys|
    ensures forall i :: s <= i < e ==> Under(base, keys[i])
    ensures e < |keys| ==> !Under(base, keys[e])
  {
    e := s;
    while e < |keys| && Under(base, keys[e])
      invariant s <= e <= |keys|
      invariant forall i :: s <= i < e ==> Under(base, keys[i])
    {
      e := e + 1;
    }
  }

  /** In a sorted MIB the subtree is the contiguous run of keys after the base. */
  lemma SubtreeIsInterval(keys: seq<Oid>, base: Oid)
    requires Sorted(keys)
    ensures var s, n := BisectRight(keys, base), |SubtreeKeys(keys, base)|;
            && s + n <= |keys|
            && SubtreeKeys(keys, base) == keys[s..s + n]
            && (forall i :: s <= i < s + n ==> Under(base, keys[i]))
            && (s + n < |keys| ==> !Under(base, keys[s + n]))
            && (Followed(keys, base) <==> s + n < |keys|)
  {
    var s := BisectRight(keys, base);
    var e := SubtreeEndExists(keys, base, s);
    forall i | 0 <= i < |keys|
      ensures Below(base, keys[i]) <==> s <= i < e
      ensures i >= e && i >= s ==> !Under(base, keys[i]) && Less(base, keys[i])
    {
      BisectRightSplits(keys, base, i);
      LessIrreflexive(base);
      if i < s && Below(base, keys[i]) {
        UnderIsAfter(base, keys[i]);
      }
      if e < i {
        BisectRightSplits(keys, base, e);
        if Under(base, keys[i]) {
          SubtreeConvex(base, keys[e], keys[i]);
        }
      }
    }
    FilterInterval(keys, base, s, e, 0);
    if Followed(keys, base) {
      var i :| 0 <= i < |keys| && Less(base, keys[i]) && !Under(base, keys[i]);
      BisectRightSplits(keys, base, i);
    }
  }

  /** The stream of a base leaves the base after the subtree, exactly if something follows it. */
  lemma StreamLeavesBase(keys: seq<Oid>, base: Oid, j: nat)
    requires Sorted(keys)
    ensures Under(base, StreamName(keys, base, j)) <==> j < |SubtreeKeys(keys, base)| || !Followed(keys, base)
  {
    SubtreeIsInterval(keys, base);
    var s, n := BisectRight(keys, base), |SubtreeKeys(keys, base)|;
    if s < |keys| {
      var p := if s + j < |keys| then s + j else |keys| - 1;
      BisectRightSplits(keys, base, p);
      if s + n < p && Under(base, keys[p]) {
        BisectRightSplits(keys, base, s + n);
        SubtreeConvex(base, keys[s + n], keys[p]);
      }
    }
  }

  lemma StreamInSubtree(keys: seq<Oid>, base: Oid, j: nat)
    requires Sorted(keys) && j < |SubtreeKeys(keys, base)|
    ensures !Ended(keys, base, j) && StreamName(keys, base, j) == SubtreeKeys(keys, base)[j]
  {
    SubtreeIsInterval(keys, base);
  }

  // ----- what a walk has collected so far

  predicate ColumnRow(keys: seq<Oid>, vals: map<Oid, Value>, base: Oid, j: nat, row: Row)
  {
    && Under(base, row.0)
    && row.0 == StreamName(keys, base, j)
    && (Ended(keys, base, j) ==> row.1 == END_OF_MIB_TEXT)
    && (!Ended(keys, base, j) && row.0 in vals ==> row.1 == Pretty(Bound(vals[row.0])))
  }

  /** `rows` is an initial piece of the stream of `base`, all of it under `base`. */
  predicate ColumnPrefix(keys: seq<Oid>, vals: map<Oid, Value>, base: Oid, rows: seq<Row>)
  {
    forall j :: 0 <= j < |rows| ==> ColumnRow(keys, vals, base, j, rows[j])
  }

  /** Where the walk of `base` asks next once `m` rows were taken. */
  function Cursor(keys: seq<Oid>, base: Oid, m: nat): Oid
  {
    if m == 0 then base else StreamName(keys, base, m - 1)
  }

  lemma CursorResumes(keys: seq<Oid>, base: Oid, m: nat, j: nat)
    requires Sorted(keys)
    ensures StreamName(keys, Cursor(keys, base, m), j) == StreamName(keys, base, m + j)
    ensures Ended(keys, Cursor(keys, base, m), j) == Ended(keys, base, m + j)
  {
    if m > 0 {
      StreamResumes(keys, base, m - 1, j);
    }
  }

  /** A binding of the resumed stream, kept because it lies under the base, extends the column. */
  lemma ColumnExtends(keys: seq<Oid>, vals: map<Oid, Value>, base: Oid, rows: seq<Row>, m: nat, j: nat, vb: VarBind)
    requires Sorted(keys) && ColumnPrefix(keys, vals, base, rows) && |rows| == m + j
    requires StreamBind(keys, vals, Cursor(keys, base, m), j, vb) && Under(base, vb.name)
    ensures ColumnPrefix(keys, vals, base, rows + [(vb.name, Pretty(vb.val))])
    ensures vb.name == Cursor(keys, base, |rows| + 1)
  {
    CursorResumes(keys, base, m, j);
  }

  /** With an instance after the subtree, a column can hold nothing but the subtree's own rows. */
  lemma ColumnWithinSubtree(keys: seq<Oid>, vals: map<Oid, Value>, base: Oid, rows: seq<Row>)
    requires Sorted(keys) && ColumnPrefix(keys, vals, base, rows) && Followed(keys, base)
    ensures |rows| <= |SubtreeKeys(keys, base)|
    ensures forall j :: 0 <= j < |rows| ==>
              rows[j].0 == SubtreeKeys(keys, base)[j] && !Ended(keys, base, j)
  {
    var n := |SubtreeKeys(keys, base)|;
    forall j | 0 <= j < |rows|
      ensures j < n && rows[j].0 == SubtreeKeys(keys, base)[j] && !Ended(keys, base, j)
    {
      assert ColumnRow(keys, vals, base, j, rows[j]);
      StreamLeavesBase(keys, base, j);
      StreamInSubtree(keys, base, j);
    }
    if |rows| > 0 {
      var top := |rows| - 1;
      assert rows[top].0 == SubtreeKeys(keys, base)[top];
    }
  }

  /** A column whose next stream name left the base holds the whole subtree. */
  lemma ColumnFinished(keys: seq<Oid>, vals: map<Oid, Value>, base: Oid, rows: seq<Row>)
    requires Sorted(keys) && ColumnPrefix(keys, vals, base, rows)
    requires !Under(base, StreamName(keys, base, |rows|))
    ensures |rows| == |SubtreeKeys(keys, base)| && Followed(keys, base)
  {
    StreamLeavesBase(keys, base, |rows|);
    ColumnWithinSubtree(keys, vals, base, rows);
  }

  /** Cursors of a followed column never repeat, so a column that moved is seen to move. */
  lemma CursorAdvances(keys: seq<Oid>, base: Oid, m: nat, m': nat)
    requires Sorted(keys) && m < m' && !Ended(keys, base, m' - 1)
    ensures Cursor(keys, base, m) != Cursor(keys, base, m')
  {
    var s := BisectRight(keys, base);
    if m == 0 {
      BisectRightSplits(keys, base, s + m' - 1);
      LessIrreflexive(base);
    } else if keys[s + m - 1] == keys[s + m' - 1] {
      SortedInjective(keys, s + m - 1, s + m' - 1);
    }
  }

  /** The rows of a complete column, when every value in the subtree is stable. */
  lemma ColumnIsSubtree(keys: seq<Oid>, vals: map<Oid, Value>, base: Oid, rows: seq<Row>)
    requires Sorted(keys) && ColumnPrefix(keys, vals, base, rows) && Followed(keys, base)
    requires |rows| == |SubtreeKeys(keys, base)|
    requires forall i :: 0 <= i < |SubtreeKeys(keys, base)| ==> SubtreeKeys(keys, base)[i] in vals
    ensures rows == SubtreeRows(vals, SubtreeKeys(keys, base))
  {
    ColumnWithinSubtree(keys, vals, base, rows);
    var spec := SubtreeRows(vals, SubtreeKeys(keys, base));
    forall j | 0 <= j < |rows|
      ensures rows[j] == spec[j]
    {
      assert ColumnRow(keys, vals, base, j, rows[j]);
      assert rows[j] == (rows[j].0, rows[j].1);
    }
  }
}
