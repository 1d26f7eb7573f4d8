/** `SnmpConnector.walk_multi`: several subtrees in one correlated GETBULK stream. */
module WalkMulti {
  import opened Oids
  import opened Mib
  import Walk

  type Columns = map<Oid, seq<Row>>

  datatype MultiResult = Exception | Table(columns: Columns)

  const ROUND_CAP: nat := 500
  const TOTAL_CAP: nat := 20000

  ghost predicate Distinct(oids: seq<Oid>)
  {
    forall i, j :: 0 <= i < j < |oids| ==> oids[i] != oids[j]
  }

  /** The rows held by the first `n` columns. */
  function Total(oids: seq<Oid>, columns: Columns, n: nat): nat
    requires n <= |oids| && forall b :: b in oids ==> b in columns
  {
    if n == 0 then 0 else Total(oids, columns, n - 1) + |columns[oids[n - 1]]|
  }

  /** A column gets no more rows than its subtree has, plus two answers of endOfMibView if nothing follows it. */
  ghost function MaxRows(keys: seq<Oid>, base: Oid): nat
  {
    |SubtreeKeys(keys, base)| + if Followed(keys, base) then 0 else 2 * MAX_REPETITIONS
  }

  /** The rows the first `n` columns may get. */
  ghost function RowBudget(keys: seq<Oid>, oids: seq<Oid>, n: nat): nat
    requires n <= |oids|
  {
    if n == 0 then 0 else RowBudget(keys, oids, n - 1) + MaxRows(keys, oids[n - 1])
  }

  lemma {:induction false} TotalGrows(oids: seq<Oid>, columns: Columns, n: nat, at: nat, row: Row)
    requires Distinct(oids) && n <= |oids| && at < |oids|
    requires forall b :: b in oids ==> b in columns
    ensures Total(oids, columns[oids[at] := columns[oids[at]] + [row]], n)
            == Total(oids, columns, n) + (if at < n then 1 else 0)
  {
    if n > 0 {
      TotalGrows(oids, columns, n - 1, at, row);
    }
  }

  lemma {:induction false} TotalZero(oids: seq<Oid>, columns: Columns, n: nat)
    requires n <= |oids| && forall b :: b in oids ==> b in columns && columns[b] == []
    ensures Total(oids, columns, n) == 0
  {
    if n > 0 {
      TotalZero(oids, columns, n - 1);
    }
  }

  /** If every column is within its share and the totals agree, every column has its share. */
  lemma {:induction false} TotalsForceEquality(keys: seq<Oid>, oids: seq<Oid>, columns: Columns, n: nat)
    requires n <= |oids|
    requires forall b :: b in oids ==> b in columns && |columns[b]| <= MaxRows(keys, b)
    ensures Total(oids, columns, n) <= RowBudget(keys, oids, n)
    ensures Total(oids, columns, n) == RowBudget(keys, oids, n) ==>
              forall j :: 0 <= j < n ==> |columns[oids[j]]| == MaxRows(keys, oids[j])
  {
    hide MaxRows;
    if n > 0 {
      TotalsForceEquality(keys, oids, columns, n - 1);
    }
  }

  // ----- one round

  /** How many of the first `q * k + r` bindings belong to the column at position `j`. */
  function Repetitions(q: nat, r: nat, j: nat): nat
  {
    q + (if j < r then 1 else 0)
  }

  /** What is known of one active column after some of a round's bindings were demultiplexed. */
  ghost predicate ColumnState(keys: seq<Oid>, vals: map<Oid, Value>, base: Oid,
                              before: seq<Row>, rows: seq<Row>, last: Oid, dropped: bool, reps: nat)
  {
    && ColumnPrefix(keys, vals, base, rows)
    && |before| <= |rows|
    && last == Cursor(keys, base, |rows|)
    && (dropped ==> !Under(base, StreamName(keys, base, |rows|)))
    && (!dropped ==> |rows| == |before| + reps)
  }

  /** The conditions under which a round's bindings can be trusted. */
  ghost predicate GoodRound(keys: seq<Oid>, vals: map<Oid, Value>, active: seq<Oid>,
                            cursors: map<Oid, Oid>, before: Columns, binds: seq<VarBind>)
    requires active != []
    requires forall b :: b in active ==> b in cursors && b in before
  {
    && Sorted(keys) && Distinct(active)
    && (forall b :: b in active ==>
          ColumnPrefix(keys, vals, b, before[b]) && cursors[b] == Cursor(keys, b, |before[b]|))
    && ConformingBinds(keys, vals, Requested(active, cursors), binds)
  }

  function Requested(active: seq<Oid>, cursors: map<Oid, Oid>): (cs: seq<Oid>)
    requires forall b :: b in active ==> b in cursors
    ensures |cs| == |active|
    ensures forall i :: 0 <= i < |cs| ==> cs[i] == cursors[active[i]]
  {
    seq(|active|, i requires 0 <= i < |active| => cursors[active[i]])
  }

  lemma MulGap(a: nat, b: nat, k: nat)
    requires a < b
    ensures a * k + k <= b * k
  {
    assert (b - a) * k == b * k - a * k;
    assert (b - a - 1) * k >= 0;
  }

  lemma DivMod(i: nat, k: nat, q: nat, r: nat)
    requires k > 0 && r < k && i == q * k + r
    ensures i / k == q && i % k == r
  {
    var q' := i / k;
    assert q' * k <= i < q' * k + k;
    if q < q' {
      MulGap(q, q', k);
    } else if q' < q {
      MulGap(q', q, k);
    }
  }

  /** Binding `q * k + r` continues the column at position `r`. */
  lemma DemuxBind(keys: seq<Oid>, vals: map<Oid, Value>, active: seq<Oid>, cursors: map<Oid, Oid>,
                  before: Columns, binds: seq<VarBind>, i: nat, q: nat, r: nat)
    requires active != [] && forall b :: b in active ==> b in cursors && b in before
    requires GoodRound(keys, vals, active, cursors, before, binds)
    requires i < |binds| && r < |active| && i == q * |active| + r
    ensures StreamBind(keys, vals, Cursor(keys, active[r], |before[active[r]]|), q, binds[i])
    ensures binds[i].name == StreamName(keys, active[r], |before[active[r]]| + q)
  {
    DivMod(i, |active|, q, r);
    var cs := Requested(active, cursors);
    assert StreamBind(keys, vals, cs[i % |cs|], i / |cs|, binds[i]);
    CursorResumes(keys, active[r], |before[active[r]]|, q);
  }

  ghost predicate RoundState(keys: seq<Oid>, vals: map<Oid, Value>, active: seq<Oid>, before: Columns,
                             columns: Columns, last: map<Oid, Oid>, dropped: set<Oid>, q: nat, r: nat)
    requires forall b :: b in active ==> b in before && b in columns && b in last
  {
    forall j :: 0 <= j < |active| ==>
      ColumnState(keys, vals, active[j], before[active[j]], columns[active[j]], last[active[j]],
                  active[j] in dropped, Repetitions(q, r, j))
  }

  /** Delivering one binding to the column at position `r`. */
  lemma ColumnStep(keys: seq<Oid>, vals: map<Oid, Value>, base: Oid, before: seq<Row>, rows: seq<Row>, last: Oid,
                   dropped: bool, q: nat, vb: VarBind)
    requires Sorted(keys) && ColumnState(keys, vals, base, before, rows, last, dropped, q)
    requires StreamBind(keys, vals, Cursor(keys, base, |before|), q, vb)
    requires vb.name == StreamName(keys, base, |before| + q)
    ensures dropped ==> ColumnState(keys, vals, base, before, rows, last, true, q + 1)
    ensures !dropped && !Under(base, vb.name) ==> ColumnState(keys, vals, base, before, rows, last, true, q + 1)
    ensures !dropped && Under(base, vb.name) ==>
              ColumnState(keys, vals, base, before, rows + [(vb.name, Pretty(vb.val))], vb.name, false, q + 1)
  {
    if !dropped && Under(base, vb.name) {
      ColumnExtends(keys, vals, base, rows, |before|, q, vb);
    }
  }

  lemma RoundStep(keys: seq<Oid>, vals: map<Oid, Value>, active: seq<Oid>, cursors: map<Oid, Oid>, before: Columns,
                  binds: seq<VarBind>, columns: Columns, last: map<Oid, Oid>, dropped: set<Oid>,
                  columns': Columns, last': map<Oid, Oid>, dropped': set<Oid>, i: nat, q: nat, r: nat)
    requires active != [] && forall b :: b in active ==> b in cursors && b in before && b in columns && b in last
    requires GoodRound(keys, vals, active, cursors, before, binds)
    requires i < |binds| && r < |active| && i == q * |active| + r
    requires RoundState(keys, vals, active, before, columns, last, dropped, q, r)
    requires columns'.Keys == columns.Keys && last'.Keys == last.Keys
    requires forall j :: 0 <= j < |active| && active[j] != active[r] ==>
               && columns'[active[j]] == columns[active[j]] && last'[active[j]] == last[active[j]]
               && (active[j] in dropped' <==> active[j] in dropped)
    requires var base, vb := active[r], binds[i];
             if base in dropped || !Under(base, vb.name)
             then columns'[base] == columns[base] && last'[base] == last[base] && base in dropped'
             else && columns'[base] == columns[base] + [(vb.name, Pretty(vb.val))]
                  && last'[base] == vb.name && base !in dropped'
    ensures RoundState(keys, vals, active, before, columns', last', dropped', q, r + 1)
  {
    var base := active[r];
    DemuxBind(keys, vals, active, cursors, before, binds, i, q, r);
    assert ColumnState(keys, vals, base, before[base], columns[base], last[base], base in dropped,
                       Repetitions(q, r, r));
    ColumnStep(keys, vals, base, before[base], columns[base], last[base], base in dropped, q, binds[i]);
    forall j | 0 <= j < |active|
      ensures ColumnState(keys, vals, active[j], before[active[j]], columns'[active[j]], last'[active[j]],
                          active[j] in dropped', Repetitions(q, r + 1, j))
    {
      if j != r {
        assert active[j] != base;
        assert ColumnState(keys, vals, active[j], before[active[j]], columns[active[j]], last[active[j]],
                           active[j] in dropped, Repetitions(q, r, j));
      }
    }
  }

  lemma RoundStarts(keys: seq<Oid>, vals: map<Oid, Value>, active: seq<Oid>, cursors: map<Oid, Oid>, before: Columns,
                    binds: seq<VarBind>, last: map<Oid, Oid>)
    requires active != [] && forall b :: b in active ==>
               b in cursors && b in before && b in last && last[b] == cursors[b]
    requires GoodRound(keys, vals, active, cursors, before, binds)
    ensures RoundState(keys, vals, active, before, before, last, {}, 0, 0)
  {
  }

  lemma RoundWraps(keys: seq<Oid>, vals: map<Oid, Value>, active: seq<Oid>, before: Columns,
                   columns: Columns, last: map<Oid, Oid>, dropped: set<Oid>, q: nat)
    requires forall b :: b in active ==> b in before && b in columns && b in last
    requires RoundState(keys, vals, active, before, columns, last, dropped, q, |active|)
    ensures RoundState(keys, vals, active, before, columns, last, dropped, q + 1, 0)
  {
    forall j | 0 <= j < |active|
      ensures ColumnState(keys, vals, active[j], before[active[j]], columns[active[j]], last[active[j]],
                          active[j] in dropped, Repetitions(q + 1, 0, j))
    {
      assert ColumnState(keys, vals, active[j], before[active[j]], columns[active[j]], last[active[j]],
                         active[j] in dropped, Repetitions(q, |active|, j));
    }
  }

  /** `total` counts the rows of distinct columns, and the active ones are among them. */
  ghost predicate Counts(oids: seq<Oid>, active: seq<Oid>, columns: Columns, total: nat)
  {
    && Distinct(oids)
    && (forall b :: b in oids ==> b in columns)
    && (forall b :: b in active ==> b in oids)
    && total == Total(oids, columns, |oids|)
  }

  lemma CountsGrow(oids: seq<Oid>, active: seq<Oid>, columns: Columns, total: nat, base: Oid, row: Row)
    requires Counts(oids, active, columns, total) && base in active
    ensures Counts(oids, active, columns[base := columns[base] + [row]], total + 1)
  {
    assert base in oids;
    var at :| 0 <= at < |oids| && oids[at] == base;
    TotalGrows(oids, columns, |oids|, at, row);
  }

  method Demux(active: seq<Oid>, cursors: map<Oid, Oid>, before: Columns, binds: seq<VarBind>, total: nat,
               ghost oids: seq<Oid>, ghost keys: seq<Oid>, ghost vals: map<Oid, Value>)
    returns (columns: Columns, last: map<Oid, Oid>, dropped: set<Oid>, total': nat, ghost q: nat, ghost r: nat)
    requires active != [] && forall b :: b in active ==> b in cursors && b in before
    ensures columns.Keys == before.Keys
    ensures forall b :: b in active ==> b in last
    ensures forall b :: b in before && b !in active ==> columns[b] == before[b]
    ensures r < |active| && |binds| == q * |active| + r
    ensures GoodRound(keys, vals, active, cursors, before, binds) ==>
              RoundState(keys, vals, active, before, columns, last, dropped, q, r)
    ensures Counts(oids, active, before, total) ==> Counts(oids, active, columns, total')
  {
    hide GoodRound, RoundState, Counts;
    var k := |active|;
    ghost var good := GoodRound(keys, vals, active, cursors, before, binds);
    columns, dropped, total' := before, {}, total;
    last := map b | b in active :: cursors[b];
    q, r := 0, 0;
    if good {
      RoundStarts(keys, vals, active, cursors, before, binds, last);
    }
    var i := 0;
    while i < |binds|
      invariant 0 <= i <= |binds| && r < k && i == q * k + r
      invariant columns.Keys == before.Keys
      invariant forall b :: b in active ==> b in last
      invariant forall b :: b in before && b !in active ==> columns[b] == before[b]
      invariant good ==> RoundState(keys, vals, active, before, columns, last, dropped, q, r)
      invariant Counts(oids, active, before, total) ==> Counts(oids, active, columns, total')
    {
      DivMod(i, k, q, r);
      var base := active[i % k];
      var vb := binds[i];
      ghost var columns0, last0, dropped0 := columns, last, dropped;
      if base in dropped {
      } else if !Under(base, vb.name) {
        dropped := dropped + {base};
      } else {
        if Counts(oids, active, before, total) {
          CountsGrow(oids, active, columns, total', base, (vb.name, Pretty(vb.val)));
        }
        columns := columns[base := columns[base] + [(vb.name, Pretty(vb.val))]];
        last := last[base := vb.name];
        total' := total' + 1;
      }
      if good {
        RoundStep(keys, vals, active, cursors, before, binds, columns0, last0, dropped0, columns, last, dropped, i, q,
                  r);
        if r + 1 == k {
          RoundWraps(keys, vals, active, before, columns, last, dropped, q);
        }
      }
      i := i + 1;
      if r + 1 == k { q, r := q + 1, 0; } else { r := r + 1; }
    }
  }

  /** The columns that stay active: neither out of their base nor stalled. */
  method Advance(active: seq<Oid>, dropped: set<Oid>, last: map<Oid, Oid>, cursors: map<Oid, Oid>)
    returns (active': seq<Oid>, cursors': map<Oid, Oid>)
    requires forall b :: b in active ==> b in cursors && b in last
    ensures cursors'.Keys == cursors.Keys
    ensures forall b :: b in active' <==> b in active && b !in dropped && last[b] != cursors[b]
    ensures forall b :: b in cursors ==> cursors'[b] == if b in active' then last[b] else cursors[b]
    ensures Distinct(active') && |active'| <= |active|
  {
    active', cursors' := [], cursors;
    for j := 0 to |active|
      invariant cursors'.Keys == cursors.Keys
      invariant forall b :: b in active' <==> b in active[..j] && b !in dropped && last[b] != cursors[b]
      invariant forall b :: b in cursors ==> cursors'[b] == if b in active' then last[b] else cursors[b]
      invariant Distinct(active') && |active'| <= j
    {
      var b := active[j];
      assert active[..j + 1] == active[..j] + [b];
      if b !in dropped && last[b] != cursors'[b] {
        cursors' := cursors'[b := last[b]];
        active' := active' + [b];
      }
    }
    assert active[..|active|] == active;
  }

  /** A column that was not served `p` times has nothing left before the end of the MIB. */
  lemma UnservedIsEnded(keys: seq<Oid>, cs: seq<Oid>, binds: seq<VarBind>, q: nat, r: nat, p: nat, j: nat)
    requires cs != [] && r < |cs| && |binds| == q * |cs| + r
    requires HasRepetitions(keys, cs, binds, p)
    requires j < |cs| && Repetitions(q, r, j) < p
    ensures Ended(keys, cs[j], Repetitions(q, r, j))
  {
    var k, reps := |cs|, Repetitions(q, r, j);
    var i := reps * k + j;
    DivMod(i, k, reps, j);
    MulGap(reps, p, k);
    assert j < r ==> (q + 1) * k == q * k + k;
  }

  /** With `p` answered repetitions, an active column either finishes in a round or grows by `p` rows and moves. */
  lemma RoundProgress(keys: seq<Oid>, vals: map<Oid, Value>, base: Oid, cs: seq<Oid>, binds: seq<VarBind>,
                      before: seq<Row>, rows: seq<Row>, last: Oid, dropped: bool, q: nat, r: nat, p: nat, j: nat)
    requires Sorted(keys) && Followed(keys, base) && p >= 1
    requires cs != [] && r < |cs| && |binds| == q * |cs| + r && HasRepetitions(keys, cs, binds, p)
    requires j < |cs| && cs[j] == Cursor(keys, base, |before|)
    requires ColumnState(keys, vals, base, before, rows, last, dropped, Repetitions(q, r, j))
    ensures if dropped then |rows| == |SubtreeKeys(keys, base)| else |rows| >= |before| + p && last != cs[j]
    ensures |rows| <= |SubtreeKeys(keys, base)|
  {
    var reps := Repetitions(q, r, j);
    ColumnWithinSubtree(keys, vals, base, rows);
    if dropped {
      ColumnFinished(keys, vals, base, rows);
    } else {
      SubtreeIsInterval(keys, base);
      assert !Ended(keys, base, |rows|);
      CursorResumes(keys, base, |before|, reps);
      if reps < p {
        UnservedIsEnded(keys, cs, binds, q, r, p, j);
      } else {
        CursorAdvances(keys, base, |before|, |rows|);
      }
    }
  }

  lemma RepetitionsBounded(k: nat, q: nat, r: nat, j: nat)
    requires r < k && q * k + r <= MAX_REPETITIONS * k
    ensures Repetitions(q, r, j) <= MAX_REPETITIONS
  {
    if q >= MAX_REPETITIONS {
      if q > MAX_REPETITIONS {
        MulGap(MAX_REPETITIONS, q, k);
      }
    }
  }

  /**
   * With nothing after the subtree, its stream has ended once the subtree's rows are taken, and its cursor stands
   * still.
   */
  lemma UnfollowedEnds(keys: seq<Oid>, base: Oid, m: nat, m': nat)
    requires Sorted(keys) && !Followed(keys, base)
    ensures Ended(keys, base, m) <==> m >= |SubtreeKeys(keys, base)|
    ensures Under(base, StreamName(keys, base, m))
    ensures |SubtreeKeys(keys, base)| <= m <= m' ==> Cursor(keys, base, m) == Cursor(keys, base, m')
  {
    SubtreeIsInterval(keys, base);
    StreamLeavesBase(keys, base, m);
  }

  /** An unfollowed column that goes on was not complete before the round; one that stops is complete. */
  lemma UnfollowedProgress(keys: seq<Oid>, vals: map<Oid, Value>, base: Oid, cs: seq<Oid>, binds: seq<VarBind>,
                           before: seq<Row>, rows: seq<Row>, last: Oid, dropped: bool, q: nat, r: nat, p: nat, j: nat)
    requires Sorted(keys) && !Followed(keys, base) && p >= 1
    requires cs != [] && r < |cs| && |binds| == q * |cs| + r && HasRepetitions(keys, cs, binds, p)
    requires |binds| <= MAX_REPETITIONS * |cs|
    requires j < |cs| && cs[j] == Cursor(keys, base, |before|)
    requires ColumnState(keys, vals, base, before, rows, last, dropped, Repetitions(q, r, j))
    ensures !dropped && |rows| <= |before| + MAX_REPETITIONS
    ensures if last == cs[j] then |rows| >= |SubtreeKeys(keys, base)|
            else |before| < |SubtreeKeys(keys, base)| && (|rows| >= |before| + p || |rows| >= |SubtreeKeys(keys, base)|)
  {
    var reps := Repetitions(q, r, j);
    hide HasRepetitions, ColumnPrefix, Followed, SubtreeKeys, StreamName, Ended, Cursor;
    RepetitionsBounded(|cs|, q, r, j);
    UnfollowedEnds(keys, base, |rows|, |rows|);
    UnfollowedEnds(keys, base, |before|, |rows|);
    CursorResumes(keys, base, |before|, reps);
    if reps < p {
      UnservedIsEnded(keys, cs, binds, q, r, p, j);
    } else if last == cs[j] {
      UnfollowedEnds(keys, base, |rows| - 1, |rows|);
      if !Ended(keys, base, |rows| - 1) {
        CursorAdvances(keys, base, |before|, |rows|);
      }
    }
  }

  /** Every base occurs once, and all rows together stay below the cap. */
  ghost predicate WithinCaps(keys: seq<Oid>, oids: seq<Oid>)
  {
    Distinct(oids) && RowBudget(keys, oids, |oids|) <= 20_000
  }

  ghost predicate Consistent(keys: seq<Oid>, vals: map<Oid, Value>, oids: seq<Oid>, active: seq<Oid>,
                             cursors: map<Oid, Oid>, columns: Columns)
  {
    && Distinct(active)
    && (forall b :: b in oids ==> b in columns && ColumnPrefix(keys, vals, b, columns[b]))
    && (forall b :: b in active ==> b in oids && b in cursors && cursors[b] == Cursor(keys, b, |columns[b]|))
  }

  /**
   * The rows of one column after `round` rounds: what every round brought at least while it goes on, all of its
   * subtree once it has stopped.
   */
  ghost predicate OnTrack(keys: seq<Oid>, base: Oid, rows: nat, goesOn: bool, reps: nat -> nat, round: nat)
  {
    var n := |SubtreeKeys(keys, base)|;
    var extra := if Followed(keys, base) then 0 else MAX_REPETITIONS;
    if goesOn then (rows >= Quota(reps, round) || rows >= n) && rows <= n + extra
    else n <= rows <= MaxRows(keys, base)
  }

  ghost predicate OnSchedule(keys: seq<Oid>, oids: seq<Oid>, active: seq<Oid>, columns: Columns,
                             reps: nat -> nat, round: nat)
  {
    forall b :: b in oids ==> b in columns && OnTrack(keys, b, |columns[b]|, b in active, reps, round)
  }

  /** One round keeps a column on track. */
  lemma RoundOnTrack(keys: seq<Oid>, vals: map<Oid, Value>, base: Oid, cs: seq<Oid>, binds: seq<VarBind>,
                     before: seq<Row>, rows: seq<Row>, last: Oid, dropped: bool, q: nat, r: nat,
                     reps: nat -> nat, j: nat, round: nat)
    requires Sorted(keys) && reps(round) >= 1
    requires cs != [] && r < |cs| && |binds| == q * |cs| + r && HasRepetitions(keys, cs, binds, reps(round))
    requires |binds| <= MAX_REPETITIONS * |cs|
    requires j < |cs| && cs[j] == Cursor(keys, base, |before|)
    requires ColumnState(keys, vals, base, before, rows, last, dropped, Repetitions(q, r, j))
    requires OnTrack(keys, base, |before|, true, reps, round)
    ensures OnTrack(keys, base, |rows|, !dropped && last != cs[j], reps, round + 1)
  {
    hide HasRepetitions, ColumnState, Followed, SubtreeKeys, Cursor;
    if Followed(keys, base) {
      RoundProgress(keys, vals, base, cs, binds, before, rows, last, dropped, q, r, reps(round), j);
    } else {
      UnfollowedProgress(keys, vals, base, cs, binds, before, rows, last, dropped, q, r, reps(round), j);
    }
  }

  lemma RoundConsistent(keys: seq<Oid>, vals: map<Oid, Value>, oids: seq<Oid>, active: seq<Oid>, cursors: map<Oid, Oid>,
                        before: Columns, binds: seq<VarBind>, columns: Columns, last: map<Oid, Oid>, dropped: set<Oid>,
                        q: nat, r: nat, active': seq<Oid>, cursors': map<Oid, Oid>)
    requires active != [] && forall b :: b in active ==> b in cursors && b in before && b in columns && b in last
    requires Consistent(keys, vals, oids, active, cursors, before)
    requires GoodRound(keys, vals, active, cursors, before, binds)
    requires RoundState(keys, vals, active, before, columns, last, dropped, q, r)
    requires columns.Keys == before.Keys && forall b :: b in before && b !in active ==> columns[b] == before[b]
    requires Distinct(active') && cursors'.Keys == cursors.Keys
    requires forall b :: b in active' ==> b in active && cursors'[b] == last[b]
    ensures Consistent(keys, vals, oids, active', cursors', columns)
  {
    forall b | b in active
      ensures ColumnPrefix(keys, vals, b, columns[b]) && last[b] == Cursor(keys, b, |columns[b]|)
    {
      var j :| 0 <= j < |active| && active[j] == b;
      assert ColumnState(keys, vals, active[j], before[b], columns[b], last[b], b in dropped, Repetitions(q, r, j));
    }
  }

  lemma RoundOnSchedule(keys: seq<Oid>, vals: map<Oid, Value>, oids: seq<Oid>, active: seq<Oid>, cursors: map<Oid, Oid>,
                        before: Columns, binds: seq<VarBind>, columns: Columns, last: map<Oid, Oid>, dropped: set<Oid>,
                        q: nat, r: nat, active': seq<Oid>, reps: nat -> nat, round: nat)
    requires active != [] && forall b :: b in active ==> b in cursors && b in before && b in columns && b in last
    requires forall b :: b in oids ==> b in columns
    requires forall b :: b in active ==> b in oids
    requires OnSchedule(keys, oids, active, before, reps, round)
    requires GoodRound(keys, vals, active, cursors, before, binds)
    requires RoundState(keys, vals, active, before, columns, last, dropped, q, r)
    requires r < |active| && |binds| == q * |active| + r
    requires HasRepetitions(keys, Requested(active, cursors), binds, reps(round)) && reps(round) >= 1
    requires columns.Keys == before.Keys && forall b :: b in before && b !in active ==> columns[b] == before[b]
    requires forall b :: b in active' <==> b in active && b !in dropped && last[b] != cursors[b]
    ensures OnSchedule(keys, oids, active', columns, reps, round + 1)
  {
    forall b | b in oids
      ensures OnTrack(keys, b, |columns[b]|, b in active', reps, round + 1)
    {
      if b in active {
        var j :| 0 <= j < |active| && active[j] == b;
        hide OnTrack, HasRepetitions;
        RoundOnTrack(keys, vals, b, Requested(active, cursors), binds, before[b], columns[b], last[b], b in dropped,
                     q, r, reps, j, round);
      }
    }
  }

  lemma OnTrackBounds(keys: seq<Oid>, base: Oid, rows: nat, goesOn: bool, reps: nat -> nat, round: nat)
    requires OnTrack(keys, base, rows, goesOn, reps, round)
    ensures rows <= MaxRows(keys, base)
    ensures rows >= Min(|SubtreeKeys(keys, base)|, Quota(reps, round))
    ensures rows == MaxRows(keys, base) || !goesOn ==> rows >= |SubtreeKeys(keys, base)|
  {
  }

  /** Every column has at least what the first `k` rounds brought, or its whole subtree. */
  ghost predicate Floor(keys: seq<Oid>, oids: seq<Oid>, columns: Columns, reps: nat -> nat, k: nat)
  {
    forall b :: b in oids ==> b in columns && |columns[b]| >= Min(|SubtreeKeys(keys, b)|, Quota(reps, k))
  }

  lemma ScheduleFloor(keys: seq<Oid>, oids: seq<Oid>, active: seq<Oid>, columns: Columns, reps: nat -> nat, round: nat)
    requires OnSchedule(keys, oids, active, columns, reps, round)
    ensures Floor(keys, oids, columns, reps, round)
  {
    hide OnTrack, SubtreeKeys;
    forall b | b in oids
      ensures |columns[b]| >= Min(|SubtreeKeys(keys, b)|, Quota(reps, round))
    {
      OnTrackBounds(keys, b, |columns[b]|, b in active, reps, round);
    }
  }

  /** A run that stops by itself, with all columns ended or the row cap reached, has every subtree in full. */
  lemma StoppedComplete(keys: seq<Oid>, oids: seq<Oid>, active: seq<Oid>, columns: Columns, reps: nat -> nat,
                        round: nat, 
                        total: nat)
    requires WithinCaps(keys, oids)
    requires OnSchedule(keys, oids, active, columns, reps, round)
    requires Counts(oids, active, columns, total)
    requires active == [] || total >= TOTAL_CAP
    ensures forall b :: b in oids ==> |columns[b]| >= |SubtreeKeys(keys, b)|
  {
    hide OnTrack, SubtreeKeys, MaxRows;
    forall b | b in oids
      ensures |columns[b]| <= MaxRows(keys, b)
    {
      OnTrackBounds(keys, b, |columns[b]|, b in active, reps, round);
    }
    TotalsForceEquality(keys, oids, columns, |oids|);
    forall b | b in oids
      ensures |columns[b]| >= |SubtreeKeys(keys, b)|
    {
      OnTrackBounds(keys, b, |columns[b]|, b in active, reps, round);
      var j :| 0 <= j < |oids| && oids[j] == b;
    }
  }

  /** Whichever way a run whose first `k` requests were answered stops, no row they brought is missing. */
  lemma RunComplete(keys: seq<Oid>, oids: seq<Oid>, active: seq<Oid>, columns: Columns, reps: nat -> nat, k: nat,
                    round: nat, total: nat)
    requires WithinCaps(keys, oids) && Counts(oids, active, columns, total)
    requires round <= k ==> OnSchedule(keys, oids, active, columns, reps, round)
    requires Floor(keys, oids, columns, reps, Min(round, k))
    requires round >= k || active == [] || total >= TOTAL_CAP
    ensures Floor(keys, oids, columns, reps, k)
  {
    if round < k {
      hide OnSchedule, Counts, WithinCaps, SubtreeKeys;
      StoppedComplete(keys, oids, active, columns, reps, round, total);
    }
  }

  /** The answer carries `p` repetitions. */
  ghost predicate Served(keys: seq<Oid>, active: seq<Oid>, cursors: map<Oid, Oid>, binds: seq<VarBind>, p: nat)
    requires active != [] && forall b :: b in active ==> b in cursors
  {
    p >= 1 && HasRepetitions(keys, Requested(active, cursors), binds, p)
  }

  /** One GETBULK answer: deliver its bindings, then decide which columns go on. */
  method Round(active: seq<Oid>, cursors: map<Oid, Oid>, columns: Columns, binds: seq<VarBind>, total: nat,
               ghost oids: seq<Oid>, ghost keys: seq<Oid>, ghost vals: map<Oid, Value>, ghost reps: nat -> nat,
               ghost round: nat)
    returns (active': seq<Oid>, cursors': map<Oid, Oid>, columns': Columns, total': nat)
    requires active != [] && forall b :: b in active ==> b in cursors && b in columns
    ensures columns'.Keys == columns.Keys && cursors'.Keys == cursors.Keys
    ensures |active'| <= |active| && forall b :: b in active' ==> b in active
    ensures Counts(oids, active, columns, total) ==> Counts(oids, active', columns', total')
    ensures Consistent(keys, vals, oids, active, cursors, columns)
            && GoodRound(keys, vals, active, cursors, columns, binds)
            ==> && Consistent(keys, vals, oids, active', cursors', columns')
                && (forall b :: b in columns ==> |columns'[b]| >= |columns[b]|)
                && (OnSchedule(keys, oids, active, columns, reps, round)
                    && Served(keys, active, cursors, binds, reps(round))
                    ==> OnSchedule(keys, oids, active', columns', reps, round + 1))
  {
    var last, dropped;
    ghost var q, r;
    columns', last, dropped, total', q, r := Demux(active, cursors, columns, binds, total, oids, keys, vals);
    active', cursors' := Advance(active, dropped, last, cursors);
    if && Consistent(keys, vals, oids, active, cursors, columns)
       && GoodRound(keys, vals, active, cursors, columns, binds) {
      RoundConsistent(keys, vals, oids, active, cursors, columns, binds, columns', last, dropped, q, r, active',
                      cursors');
      NothingLost(keys, vals, active, columns, columns', last, dropped, q, r);
      if OnSchedule(keys, oids, active, columns, reps, round) && Served(keys, active, cursors, binds, reps(round)) {
        RoundOnSchedule(keys, vals, oids, active, cursors, columns, binds, columns', last, dropped, q, r, active',
                        reps, round);
      }
    }
  }

  lemma NothingLost(keys: seq<Oid>, vals: map<Oid, Value>, active: seq<Oid>, before: Columns, columns: Columns,
                    last: map<Oid, Oid>, dropped: set<Oid>, q: nat, r: nat)
    requires forall b :: b in active ==> b in before && b in columns && b in last
    requires RoundState(keys, vals, active, before, columns, last, dropped, q, r)
    requires columns.Keys == before.Keys && forall b :: b in before && b !in active ==> columns[b] == before[b]
    ensures forall b :: b in before ==> |columns[b]| >= |before[b]|
  {
    forall b | b in active
      ensures |columns[b]| >= |before[b]|
    {
      var j :| 0 <= j < |active| && active[j] == b;
      assert ColumnState(keys, vals, active[j], before[b], columns[b], last[b], b in dropped, Repetitions(q, r, j));
    }
  }

  /** A conforming agent's answer to consistent cursors makes a good round. */
  lemma AnswerIsGood(keys: seq<Oid>, vals: map<Oid, Value>, agent: Agent, oids: seq<Oid>, active: seq<Oid>,
                     cursors: map<Oid, Oid>, columns: Columns, round: nat)
    requires Sorted(keys) && Conforming(keys, vals, agent, |oids|)
    requires 0 < |active| <= |oids| && Consistent(keys, vals, oids, active, cursors, columns)
    requires agent(round, Requested(active, cursors)).Binds?
    ensures GoodRound(keys, vals, active, cursors, columns, agent(round, Requested(active, cursors)).binds)
  {
  }

  lemma AnswerServes(keys: seq<Oid>, agent: Agent, oids: seq<Oid>, active: seq<Oid>, cursors: map<Oid, Oid>,
                     reps: nat -> nat, k: nat, round: nat)
    requires AnswersUpTo(keys, agent, |oids|, reps, k) && round < k
    requires 0 < |active| <= |oids| && forall b :: b in active ==> b in cursors
    ensures var resp := agent(round, Requested(active, cursors));
            resp.Binds? && resp.binds != [] && Served(keys, active, cursors, resp.binds, reps(round))
  {
  }

  lemma Start(keys: seq<Oid>, vals: map<Oid, Value>, oids: seq<Oid>, cursors: map<Oid, Oid>, columns: Columns,
              reps: nat -> nat)
    requires forall b :: b in oids ==> b in columns && columns[b] == [] && b in cursors && cursors[b] == b
    ensures Distinct(oids) ==> Consistent(keys, vals, oids, oids, cursors, columns)
    ensures Distinct(oids) ==> Counts(oids, oids, columns, 0)
    ensures OnSchedule(keys, oids, oids, columns, reps, 0) && Floor(keys, oids, columns, reps, 0)
  {
    TotalZero(oids, columns, |oids|);
  }

  /** The agent conforms. */
  ghost predicate Good(keys: seq<Oid>, vals: map<Oid, Value>, agent: Agent, oids: seq<Oid>)
  {
    Sorted(keys) && Conforming(keys, vals, agent, |oids|) && Distinct(oids)
  }

  /** It conforms and answers the first `k` requests, within the caps. */
  ghost predicate Full(keys: seq<Oid>, vals: map<Oid, Value>, agent: Agent, oids: seq<Oid>, reps: nat -> nat, k: nat)
  {
    && Good(keys, vals, agent, oids) && AnswersUpTo(keys, agent, |oids|, reps, k)
    && k <= ROUND_CAP && WithinCaps(keys, oids)
  }

  /** What every round of a run keeps, given a conforming agent (`good`) that answers `k` requests (`full`). */
  ghost predicate RunInvariant(keys: seq<Oid>, vals: map<Oid, Value>, oids: seq<Oid>, active: seq<Oid>,
                               cursors: map<Oid, Oid>, columns: Columns, total: nat, reps: nat -> nat, k: nat,
                               round: nat, good: bool, full: bool)
  {
    && |active| <= |oids|
    && (forall b :: b in columns <==> b in oids)
    && (forall b :: b in oids ==> b in cursors)
    && (forall b :: b in active ==> b in oids)
    && (good ==> Consistent(keys, vals, oids, active, cursors, columns) && Counts(oids, active, columns, total))
    && (full && round <= k ==> OnSchedule(keys, oids, active, columns, reps, round))
    && (full ==> Floor(keys, oids, columns, reps, Min(round, k)))
  }

  lemma FloorKept(keys: seq<Oid>, oids: seq<Oid>, active': seq<Oid>, columns: Columns, columns': Columns,
                  reps: nat -> nat, k: nat, round: nat)
    requires Floor(keys, oids, columns, reps, Min(round, k))
    requires forall b :: b in columns ==> b in columns' && |columns'[b]| >= |columns[b]|
    requires round < k ==> OnSchedule(keys, oids, active', columns', reps, round + 1)
    ensures Floor(keys, oids, columns', reps, Min(round + 1, k))
  {
    if round < k {
      hide OnSchedule, Floor;
      ScheduleFloor(keys, oids, active', columns', reps, round + 1);
    }
  }

  /** One request and its answer; `more` is false when the loop must stop, `ok` when the request raised. */
  method Exchange(agent: Agent, act: seq<Oid>, cur: map<Oid, Oid>, columns: Columns, sum: nat, n: nat,
                  ghost oids: seq<Oid>, ghost keys: seq<Oid>, ghost vals: map<Oid, Value>, ghost reps: nat -> nat,
                  ghost k: nat, ghost good: bool, ghost full: bool)
    returns (ok: bool, more: bool, act': seq<Oid>, cur': map<Oid, Oid>, columns': Columns, sum': nat)
    requires act != [] && good == Good(keys, vals, agent, oids) && full == Full(keys, vals, agent, oids, reps, k)
    requires RunInvariant(keys, vals, oids, act, cur, columns, sum, reps, k, n, good, full)
    ensures full && n < k ==> more
    ensures more ==> ok
    ensures NeverRaises(agent) ==> ok
    ensures !more ==> act' == act && cur' == cur && columns' == columns && sum' == sum
    ensures more ==> RunInvariant(keys, vals, oids, act', cur', columns', sum', reps, k, n + 1, good, full)
  {
    hide Conforming, AnswersUpTo, WithinCaps, OnSchedule, Consistent, Counts, Floor, Served;
    ok, more, act', cur', columns', sum' := true, false, act, cur, columns, sum;
    var resp := agent(n, Requested(act, cur));
    if full && n < k {
      AnswerServes(keys, agent, oids, act, cur, reps, k, n);
    }
    if resp.Raised? {
      ok := false;
    } else if resp.Binds? && resp.binds != [] {
      more := true;
      if good {
        AnswerIsGood(keys, vals, agent, oids, act, cur, columns, n);
      }
      act', cur', columns', sum' := Round(act, cur, columns, resp.binds, sum, oids, keys, vals, reps, n);
      if full {
        FloorKept(keys, oids, act', columns, columns', reps, k, n);
      }
    }
  }

  method Rounds(agent: Agent, oids: seq<Oid>, ghost keys: seq<Oid>, ghost vals: map<Oid, Value>, ghost reps: nat -> nat,
                ghost k: nat, ghost good: bool, ghost full: bool)
    returns (ok: bool, columns: Columns)
    requires good == Good(keys, vals, agent, oids) && full == Full(keys, vals, agent, oids, reps, k)
    ensures ok ==> forall b :: b in columns <==> b in oids
    ensures ok && good ==> forall b :: b in oids ==> ColumnPrefix(keys, vals, b, columns[b])
    ensures ok && full ==> Floor(keys, oids, columns, reps, k)
    ensures full && k == ROUND_CAP ==> ok
    ensures NeverRaises(agent) ==> ok
  {
    hide Good, Full, RunInvariant, Floor, ColumnPrefix, NeverRaises;
    columns := map b | b in oids :: [];
    var cur := map b | b in oids :: b;
    BeginRun(keys, vals, agent, oids, cur, columns, reps, k, good, full);
    ghost var act, total, round;
    ok, columns, act, cur, total, round := Loop(agent, columns, cur, oids, keys, vals, reps, k, good, full);
    if ok {
      EndRun(keys, vals, agent, oids, act, cur, columns, total, reps, k, round, good, full);
    }
  }

  /** The loop proper, from the bases as cursors. */
  method Loop(agent: Agent, start: Columns, cursors: map<Oid, Oid>, oids: seq<Oid>, ghost keys: seq<Oid>,
              ghost vals: map<Oid, Value>, ghost reps: nat -> nat, ghost k: nat, ghost good: bool, ghost full: bool)
    returns (ok: bool, columns: Columns, ghost active: seq<Oid>, cur: map<Oid, Oid>, ghost total: nat, ghost round: nat)
    requires good == Good(keys, vals, agent, oids) && full == Full(keys, vals, agent, oids, reps, k)
    requires RunInvariant(keys, vals, oids, oids, cursors, start, 0, reps, k, 0, good, full)
    ensures ok ==> RunInvariant(keys, vals, oids, active, cur, columns, total, reps, k, round, good, full)
    ensures ok && full ==> round >= k || active == [] || total >= TOTAL_CAP
    ensures full && k == ROUND_CAP ==> ok
    ensures NeverRaises(agent) ==> ok
  {
    hide Good, Full, RunInvariant, NeverRaises;
    if full {
      FullWithin(keys, vals, agent, oids, reps, k);
    }
    columns, cur := start, cursors;
    var act, n, sum := oids, 0, 0;
    ok := true;
    while n < ROUND_CAP
      invariant 0 <= n <= ROUND_CAP && 0 <= sum
      invariant ok && RunInvariant(keys, vals, oids, act, cur, columns, sum, reps, k, n, good, full)
    {
      if act == [] {
        break;
      }
      var more;
      ok, more, act, cur, columns, sum :=
        Exchange(agent, act, cur, columns, sum, n, oids, keys, vals, reps, k, good, full);
      if !more {
        break;
      }
      n := n + 1;
      if sum >= TOTAL_CAP {
        break;
      }
    }
    active, total, round := act, sum, n;
  }

  lemma FullWithin(keys: seq<Oid>, vals: map<Oid, Value>, agent: Agent, oids: seq<Oid>, reps: nat -> nat, k: nat)
    requires Full(keys, vals, agent, oids, reps, k)
    ensures k <= ROUND_CAP
  {
  }

  lemma BeginRun(keys: seq<Oid>, vals: map<Oid, Value>, agent: Agent, oids: seq<Oid>, cursors: map<Oid, Oid>,
                 columns: Columns, reps: nat -> nat, k: nat, good: bool, full: bool)
    requires good == Good(keys, vals, agent, oids) && full == Full(keys, vals, agent, oids, reps, k)
    requires (forall b :: b in columns <==> b in oids) && forall b :: b in oids ==> columns[b] == []
    requires forall b :: b in oids ==> b in cursors && cursors[b] == b
    ensures RunInvariant(keys, vals, oids, oids, cursors, columns, 0, reps, k, 0, good, full)
  {
    hide Conforming, AnswersUpTo, OnSchedule, Counts, Floor, WithinCaps, Consistent;
    Start(keys, vals, oids, cursors, columns, reps);
  }

  lemma EndRun(keys: seq<Oid>, vals: map<Oid, Value>, agent: Agent, oids: seq<Oid>, active: seq<Oid>,
               cursors: map<Oid, Oid>, columns: Columns, total: nat, reps: nat -> nat, k: nat, round: nat,
               good: bool, full: bool)
    requires good == Good(keys, vals, agent, oids) && full == Full(keys, vals, agent, oids, reps, k)
    requires RunInvariant(keys, vals, oids, active, cursors, columns, total, reps, k, round, good, full)
    requires full ==> round >= k || active == [] || total >= TOTAL_CAP
    ensures forall b :: b in columns <==> b in oids
    ensures good ==> forall b :: b in oids ==> ColumnPrefix(keys, vals, b, columns[b])
    ensures full ==> Floor(keys, oids, columns, reps, k)
  {
    hide Conforming, AnswersUpTo, OnSchedule, Counts, Floor, WithinCaps, ColumnPrefix;
    if full {
      RunComplete(keys, oids, active, columns, reps, k, round, total);
    }
  }

  ghost predicate NeverRaises(agent: Agent)
  {
    forall r, cs :: !agent(r, cs).Raised?
  }

  method WalkMulti(agent: Agent, oids: seq<Oid>, ghost keys: seq<Oid>, ghost vals: map<Oid, Value>,
                   ghost reps: nat -> nat, ghost k: nat)
    returns (res: MultiResult)
    ensures res.Table? ==> forall b :: b in res.columns <==> b in oids
    ensures NeverRaises(agent) ==> res.Table?
    // any truncation, any failure: every column is an initial piece of its own stream
    ensures res.Table? && Good(keys, vals, agent, oids)
            ==> forall b :: b in oids ==> ColumnPrefix(keys, vals, b, res.columns[b])
    // and, whatever follows the first `k` requests, it has all the repetitions they brought, or its whole subtree
    ensures res.Table? && Full(keys, vals, agent, oids, reps, k)
            ==> forall b :: b in oids ==> |res.columns[b]| >= Min(|SubtreeKeys(keys, b)|, Quota(reps, k))
    // if all requests are answered: every column is complete, and exact where an instance follows its subtree
    ensures Full(keys, vals, agent, oids, reps, ROUND_CAP) && k == ROUND_CAP ==> res.Table?
    ensures Full(keys, vals, agent, oids, reps, ROUND_CAP) && k == ROUND_CAP
            ==> forall b :: b in oids && |SubtreeKeys(keys, b)| <= Quota(reps, ROUND_CAP) ==>
                  && |res.columns[b]| >= |SubtreeKeys(keys, b)|
                  && (Followed(keys, b) ==> |res.columns[b]| == |SubtreeKeys(keys, b)|)
  {
    hide AnswersUpTo, WithinCaps, Conforming, ColumnPrefix, SubtreeKeys, Followed, Sorted;
    if oids == [] {
      return Table(map[]);
    }
    ghost var good := Good(keys, vals, agent, oids);
    ghost var full := Full(keys, vals, agent, oids, reps, k);
    var ok, columns := Rounds(agent, oids, keys, vals, reps, k, good, full);
    if !ok {
      return Exception;
    }
    if full {
      forall b | b in oids && Followed(keys, b)
        ensures |columns[b]| <= |SubtreeKeys(keys, b)|
      {
        ColumnWithinSubtree(keys, vals, b, columns[b]);
      }
    }
    return Table(columns);
  }

  lemma WalkedAlone(agent: Agent, base: Oid, keys: seq<Oid>, vals: map<Oid, Value>, r: Walk.WalkResult)
    requires Sorted(keys) && Conforming(keys, vals, agent, 1) && Answers(keys, agent, 1, 1)
    requires Walk.WalkPromise(agent, base, keys, vals, r) && |SubtreeKeys(keys, base)| <= Walk.ROW_CAP
    requires forall i :: 0 <= i < |SubtreeKeys(keys, base)| ==> SubtreeKeys(keys, base)[i] in vals
    ensures r.Rows? && (Followed(keys, base) ==> r.rows == SubtreeRows(vals, SubtreeKeys(keys, base)))
  {
    hide Conforming, Answers, SubtreeKeys, Followed, ColumnPrefix;
    if Followed(keys, base) {
      ColumnIsSubtree(keys, vals, base, r.rows);
    }
  }

  method WalkEach(single: Agent, oids: seq<Oid>, keys: seq<Oid>, vals: map<Oid, Value>) returns (separate: Columns)
    requires Sorted(keys) && Conforming(keys, vals, single, 1) && Answers(keys, single, 1, 1)
    requires forall b, i :: b in oids && 0 <= i < |SubtreeKeys(keys, b)| ==> SubtreeKeys(keys, b)[i] in vals
    requires forall b :: b in oids ==> |SubtreeKeys(keys, b)| <= Walk.ROW_CAP
    ensures separate.Keys == set b | b in oids
    ensures forall b :: b in oids && Followed(keys, b) ==> separate[b] == SubtreeRows(vals, SubtreeKeys(keys, b))
  {
    hide Walk.WalkPromise, Conforming, Answers, SubtreeKeys, Sorted, Followed, ColumnPrefix;
    separate := map[];
    for j := 0 to |oids|
      invariant separate.Keys == set b | b in oids[..j]
      invariant forall b :: b in oids[..j] && Followed(keys, b) ==>
                  separate[b] == SubtreeRows(vals, SubtreeKeys(keys, b))
    {
      var r := Walk.Walk(single, oids[j], keys, vals);
      WalkedAlone(single, oids[j], keys, vals, r);
      separate := separate[oids[j] := r.rows];
      assert oids[..j + 1] == oids[..j] + [oids[j]];
    }
    assert oids[..|oids|] == oids;
  }

  lemma AllAnswered(keys: seq<Oid>, vals: map<Oid, Value>, agent: Agent, oids: seq<Oid>)
    requires Good(keys, vals, agent, oids) && WithinCaps(keys, oids)
    requires Answers(keys, agent, |oids|, MAX_REPETITIONS)
    ensures Full(keys, vals, agent, oids, (r: nat) => MAX_REPETITIONS, ROUND_CAP)
    ensures Quota((r: nat) => MAX_REPETITIONS, ROUND_CAP) >= Walk.ROW_CAP
  {
    QuotaOfConstant(MAX_REPETITIONS, ROUND_CAP);
  }

  /** The docstring's promise: the same lists as one single-column walk per base, whatever the rounds interleave. */
  method CompareWithWalk(single: Agent, multi: Agent, oids: seq<Oid>, keys: seq<Oid>, vals: map<Oid, Value>)
    returns (separate: Columns, together: MultiResult)
    requires Sorted(keys) && Conforming(keys, vals, single, 1) && Answers(keys, single, 1, 1)
    requires Conforming(keys, vals, multi, |oids|) && Answers(keys, multi, |oids|, MAX_REPETITIONS)
    requires WithinCaps(keys, oids)
    requires forall b, i :: b in oids && 0 <= i < |SubtreeKeys(keys, b)| ==> SubtreeKeys(keys, b)[i] in vals
    requires forall b :: b in oids ==> |SubtreeKeys(keys, b)| <= 10_000
    ensures together.Table? && together.columns.Keys == separate.Keys == (set b | b in oids)
    ensures forall b :: b in oids && Followed(keys, b) ==>
              together.columns[b] == separate[b] == SubtreeRows(vals, SubtreeKeys(keys, b))
    ensures (forall b :: b in oids ==> Followed(keys, b)) ==> together == Table(separate)
  {
    assert Distinct(oids);
    hide Conforming, Answers, AnswersUpTo, WithinCaps, SubtreeKeys, Sorted, Followed, ColumnPrefix, Quota;
    separate := WalkEach(single, oids, keys, vals);
    AllAnswered(keys, vals, multi, oids);
    hide Full;
    together := WalkMulti(multi, oids, keys, vals, (r: nat) => MAX_REPETITIONS, ROUND_CAP);
    forall b | b in oids && Followed(keys, b)
      ensures together.columns[b] == SubtreeRows(vals, SubtreeKeys(keys, b))
    {
      ColumnIsSubtree(keys, vals, b, together.columns[b]);
    }
    assert (forall b :: b in oids ==> Followed(keys, b)) ==> together.columns == separate;
  }

  // ----- an agent in RFC order

  function RfcBind(keys: seq<Oid>, vals: map<Oid, Value>, cursor: Oid, j: nat): VarBind
  {
    var name := StreamName(keys, cursor, j);
    VarBind(name,
            if Ended(keys, cursor, j) then EndOfMibView else Bound(if name in vals then vals[name] else IntVal(0)))
  }

  /** All 25 repetitions of all cursors, interleaved. */
  function RfcAgent(keys: seq<Oid>, vals: map<Oid, Value>): Agent
  {
    (r: nat, cs: seq<Oid>) =>
      if cs == [] then Binds([])
      else Binds(seq(MAX_REPETITIONS * |cs|, i requires 0 <= i < MAX_REPETITIONS * |cs| =>
                       RfcBind(keys, vals, cs[i % |cs|], i / |cs|)))
  }

  /** Such an agent conforms and answers in full, for any number of columns. */
  lemma RfcAgentServes(keys: seq<Oid>, vals: map<Oid, Value>, width: nat)
    ensures Conforming(keys, vals, RfcAgent(keys, vals), width)
    ensures Answers(keys, RfcAgent(keys, vals), width, MAX_REPETITIONS)
  {
  }
}
