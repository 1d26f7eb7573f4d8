/** `SnmpConnector.walk`: one subtree, one GETBULK request at a time. */
module Walk {
  import opened Oids
  import opened Mib

  datatype WalkResult = Exception | Rows(rows: seq<Row>)

  const ROW_CAP: nat := 10000

  /** The rows a single-column answer contributes: its bindings up to the first one outside the base. */
  method TakeUnder(base: Oid, binds: seq<VarBind>, rows: seq<Row>, ghost keys: seq<Oid>, ghost vals: map<Oid, Value>)
    returns (rows': seq<Row>, outOfTree: bool)
    ensures |rows| <= |rows'| <= |rows| + |binds|
    ensures !outOfTree ==> |rows'| == |rows| + |binds|
    ensures forall j :: 0 <= j < |rows'| ==>
              rows'[j] == if j < |rows| then rows[j] else (binds[j - |rows|].name, Pretty(binds[j - |rows|].val))
    ensures forall j :: |rows| <= j < |rows'| ==> Under(base, rows'[j].0)
    ensures Resumable(keys, vals, base, rows, binds)
            ==> ColumnPrefix(keys, vals, base, rows') && (outOfTree ==> !Under(base, StreamName(keys, base, |rows'|)))
  {
    rows', outOfTree := rows, false;
    var i := 0;
    while i < |binds|
      invariant 0 <= i <= |binds| && |rows'| == |rows| + i
      invariant forall j :: 0 <= j < |rows'| ==>
                  rows'[j] == if j < |rows| then rows[j] else (binds[j - |rows|].name, Pretty(binds[j - |rows|].val))
      invariant forall j :: |rows| <= j < |rows'| ==> Under(base, rows'[j].0)
      invariant Resumable(keys, vals, base, rows, binds) ==> ColumnPrefix(keys, vals, base, rows')
    {
      var vb := binds[i];
      if !Under(base, vb.name) {
        if Resumable(keys, vals, base, rows, binds) {
          ResumedBind(keys, vals, base, rows, binds, i);
        }
        outOfTree := true;
        return;
      }
      if Resumable(keys, vals, base, rows, binds) {
        ResumedBind(keys, vals, base, rows, binds, i);
        ColumnExtends(keys, vals, base, rows', |rows|, i, vb);
      }
      rows' := rows' + [(vb.name, Pretty(vb.val))];
      i := i + 1;
    }
  }

  /** `binds` is a conforming answer to the cursor a walk holds after `rows`. */
  ghost predicate Resumable(keys: seq<Oid>, vals: map<Oid, Value>, base: Oid, rows: seq<Row>, binds: seq<VarBind>)
  {
    && Sorted(keys)
    && ColumnPrefix(keys, vals, base, rows)
    && ConformingBinds(keys, vals, [Cursor(keys, base, |rows|)], binds)
  }

  lemma ResumedBind(keys: seq<Oid>, vals: map<Oid, Value>, base: Oid, rows: seq<Row>, binds: seq<VarBind>, i: nat)
    requires Resumable(keys, vals, base, rows, binds) && i < |binds|
    ensures StreamBind(keys, vals, Cursor(keys, base, |rows|), i, binds[i])
    ensures binds[i].name == StreamName(keys, base, |rows| + i)
  {
    var cursors := [Cursor(keys, base, |rows|)];
    assert i % |cursors| == 0 && i / |cursors| == i;
    CursorResumes(keys, base, |rows|, i);
  }

  /** What a walk of `base` may return, for any agent whatsoever. */
  ghost predicate WalkPromise(agent: Agent, base: Oid, keys: seq<Oid>, vals: map<Oid, Value>, r: WalkResult)
  {
    var n := |SubtreeKeys(keys, base)|;
    // whatever the agent does, no row lies outside the base
    && (r.Rows? ==> forall j :: 0 <= j < |r.rows| ==> Under(base, r.rows[j].0))
    // bounded answers bound the result
    && (r.Rows? && BoundedAnswers(agent) ==> |r.rows| < 10_025)
    // a conforming agent that cuts or fails anywhere: an initial piece of the subtree's stream
    && (r.Rows? && Sorted(keys) && Conforming(keys, vals, agent, 1) ==> ColumnPrefix(keys, vals, base, r.rows))
    // a conforming agent that always answers: the whole subtree, and the exact condition for nothing more
    && (Sorted(keys) && Conforming(keys, vals, agent, 1) && Answers(keys, agent, 1, 1) ==>
          && r.Rows?
          && (n <= 10_000 ==> n <= |r.rows|)
          && (n < 10_000 ==> (|r.rows| == n <==> Followed(keys, base)))
          && (n <= 10_000 && Followed(keys, base) ==> |r.rows| == n))
    // a conforming agent that answers some requests: whatever follows, no row they brought is missing
    && (r.Rows? && Sorted(keys) && Conforming(keys, vals, agent, 1) ==> Gathered(agent, base, keys, |r.rows|))
    && ((forall q, cs :: !agent(q, cs).Raised?) ==> r.Rows?)
  }

  /** At least the repetitions the first `k` requests brought, or the whole subtree, or the cap. */
  ghost predicate Holds(base: Oid, keys: seq<Oid>, rows: nat, reps: nat -> nat, k: nat)
  {
    rows >= Min(ROW_CAP, Min(|SubtreeKeys(keys, base)|, Quota(reps, k)))
  }

  ghost predicate Gathered(agent: Agent, base: Oid, keys: seq<Oid>, rows: nat)
  {
    forall reps: nat -> nat, k: nat :: AnswersUpTo(keys, agent, 1, reps, k) ==> Holds(base, keys, rows, reps, k)
  }

  /** The same for the rounds so far. */
  ghost predicate GatheredBy(agent: Agent, base: Oid, keys: seq<Oid>, rows: nat, round: nat)
  {
    forall reps: nat -> nat, k: nat :: k <= round && AnswersUpTo(keys, agent, 1, reps, k) ==>
      Holds(base, keys, rows, reps, k)
  }

  /** A round that goes on has added every repetition it was answered with. */
  lemma GatheredMore(agent: Agent, base: Oid, keys: seq<Oid>, rows: nat, rows': nat, round: nat)
    requires Sorted(keys) && GatheredBy(agent, base, keys, rows, round)
    requires var resp := agent(round, [Cursor(keys, base, rows)]); resp.Binds? && rows' == rows + |resp.binds|
    ensures GatheredBy(agent, base, keys, rows', round + 1)
  {
    hide SubtreeKeys;
    forall reps: nat -> nat, k: nat | k <= round + 1 && AnswersUpTo(keys, agent, 1, reps, k)
      ensures Holds(base, keys, rows', reps, k)
    {
      if k <= round {
        assert Holds(base, keys, rows, reps, k);
      } else {
        AnsweredBefore(agent, keys, reps, k);
        assert Holds(base, keys, rows, reps, round);
        AnswerAdds(agent, base, keys, rows, rows', reps, round);
      }
    }
  }

  lemma AnsweredBefore(agent: Agent, keys: seq<Oid>, reps: nat -> nat, k: nat)
    requires k > 0 && AnswersUpTo(keys, agent, 1, reps, k)
    ensures AnswersUpTo(keys, agent, 1, reps, k - 1)
  {
  }

  lemma AnswerAdds(agent: Agent, base: Oid, keys: seq<Oid>, rows: nat, rows': nat, reps: nat -> nat, round: nat)
    requires Sorted(keys) && AnswersUpTo(keys, agent, 1, reps, round + 1)
    requires var resp := agent(round, [Cursor(keys, base, rows)]); resp.Binds? && rows' == rows + |resp.binds|
    ensures rows' >= rows + reps(round) || rows' >= |SubtreeKeys(keys, base)|
  {
    var cs := [Cursor(keys, base, rows)];
    var binds := agent(round, cs).binds;
    assert HasRepetitions(keys, cs, binds, reps(round));
    if |binds| < reps(round) {
      assert |binds| % |cs| == 0 && |binds| / |cs| == |binds|;
      assert Ended(keys, cs[0], |binds|);
      CursorResumes(keys, base, rows, |binds|);
      SubtreeIsInterval(keys, base);
    }
  }

  /** A request that is not answered bounds how many were. */
  lemma FailureBounds(agent: Agent, base: Oid, keys: seq<Oid>, rows: nat, round: nat, cursor: Oid)
    requires GatheredBy(agent, base, keys, rows, round)
    requires var resp := agent(round, [cursor]); !resp.Binds? || resp.binds == []
    ensures Gathered(agent, base, keys, rows)
  {
    hide Holds;
    forall reps: nat -> nat, k: nat | AnswersUpTo(keys, agent, 1, reps, k)
      ensures Holds(base, keys, rows, reps, k)
    {
      if k > round {
        Answered(agent, keys, reps, k, round, cursor);
      }
    }
  }

  lemma Answered(agent: Agent, keys: seq<Oid>, reps: nat -> nat, k: nat, round: nat, cursor: Oid)
    requires AnswersUpTo(keys, agent, 1, reps, k) && round < k
    ensures agent(round, [cursor]).Binds? && agent(round, [cursor]).binds != []
  {
    var cs := [cursor];
    assert agent(round, cs).Binds? && HasRepetitions(keys, cs, agent(round, cs).binds, reps(round));
  }

  lemma EnoughGathered(agent: Agent, base: Oid, keys: seq<Oid>, rows: nat)
    requires rows >= ROW_CAP || rows >= |SubtreeKeys(keys, base)|
    ensures Gathered(agent, base, keys, rows)
  {
  }

  lemma NothingGathered(agent: Agent, base: Oid, keys: seq<Oid>)
    ensures GatheredBy(agent, base, keys, 0, 0)
  {
  }

  ghost predicate BoundedAnswers(agent: Agent)
  {
    forall q, cs: seq<Oid> :: cs != [] && agent(q, cs).Binds? ==> |agent(q, cs).binds| <= MAX_REPETITIONS * |cs|
  }

  /** The loop ends for every agent: a round that goes on has added a row. */
  method Walk(agent: Agent, base: Oid, ghost keys: seq<Oid>, ghost vals: map<Oid, Value>) returns (r: WalkResult)
    ensures WalkPromise(agent, base, keys, vals, r)
  {
    ghost var good := Sorted(keys) && Conforming(keys, vals, agent, 1);
    ghost var small := BoundedAnswers(agent);
    ghost var n := |SubtreeKeys(keys, base)|;
    hide AnswersUpTo, Gathered, GatheredBy;
    var rows: seq<Row> := [];
    var current := base;
    var round := 0;
    NothingGathered(agent, base, keys);
    while |rows| < ROW_CAP
      invariant forall j :: 0 <= j < |rows| ==> Under(base, rows[j].0)
      invariant small ==> |rows| < ROW_CAP + MAX_REPETITIONS
      invariant good ==> ColumnPrefix(keys, vals, base, rows)
      invariant good ==> current == Cursor(keys, base, |rows|)
      invariant good ==> GatheredBy(agent, base, keys, |rows|, round)
      decreases ROW_CAP - |rows|
    {
      var resp := agent(round, [current]);
      if resp.Raised? {
        return Exception;
      }
      if resp.Failed? || resp.binds == [] {
        if good {
          FailureBounds(agent, base, keys, |rows|, round, current);
          Collected(keys, vals, base, rows);
        }
        return Rows(rows);
      }
      assert good ==> Resumable(keys, vals, base, rows, resp.binds);
      var rows', outOfTree := TakeUnder(base, resp.binds, rows, keys, vals);
      if good && outOfTree {
        ColumnFinished(keys, vals, base, rows');
      }
      if outOfTree || |rows'| == |rows| || rows'[|rows'| - 1].0 == current {
        if good && !outOfTree {
          StalledColumn(keys, vals, base, rows, rows');
        }
        rows := rows';
        if good {
          EnoughGathered(agent, base, keys, |rows|);
          Collected(keys, vals, base, rows);
        }
        return Rows(rows);
      }
      if good {
        GatheredMore(agent, base, keys, |rows|, |rows'|, round);
      }
      current := rows'[|rows'| - 1].0;
      rows := rows';
      round := round + 1;
    }
    if good {
      EnoughGathered(agent, base, keys, |rows|);
      Collected(keys, vals, base, rows);
    }
    return Rows(rows);
  }

  /** A column only stops advancing past the end of the MIB. */
  lemma StalledColumn(keys: seq<Oid>, vals: map<Oid, Value>, base: Oid, rows: seq<Row>, rows': seq<Row>)
    requires Sorted(keys) && ColumnPrefix(keys, vals, base, rows') && |rows| < |rows'|
    requires Cursor(keys, base, |rows|) == Cursor(keys, base, |rows'|)
    ensures !Followed(keys, base) && |SubtreeKeys(keys, base)| < |rows'|
  {
    if !Ended(keys, base, |rows'| - 1) {
      CursorAdvances(keys, base, |rows|, |rows'|);
    }
    SubtreeIsInterval(keys, base);
    if Followed(keys, base) {
      ColumnWithinSubtree(keys, vals, base, rows');
    }
  }

  lemma Collected(keys: seq<Oid>, vals: map<Oid, Value>, base: Oid, rows: seq<Row>)
    requires Sorted(keys) && ColumnPrefix(keys, vals, base, rows)
    ensures Followed(keys, base) ==> |rows| <= |SubtreeKeys(keys, base)|
  {
    if Followed(keys, base) {
      ColumnWithinSubtree(keys, vals, base, rows);
    }
  }
}
