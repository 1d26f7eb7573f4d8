/** What a ladder of alert definitions means, before and after it is folded into one list of tiers. */
module Severity {
  import opened Text

  /** A threshold: the severity it raises and the expression that fires it. */
  datatype Threshold = Threshold(severity: string, expression: string)

  /** Which expressions currently hold. */
  type Readings = string -> bool

  /** `severity.rank`: unknown severities, and no severity, rank below everything. */
  function Rank(s: Option<string>): int
  {
    match s
    case None => -1
    case Some(v) => if v == "info" then 0 else if v == "warning" then 1 else if v == "critical" then 2 else -1
  }

  /** Info below warning below critical, and nothing else above no severity at all. */
  lemma SeverityOrder(s: string)
    ensures Rank(None) < Rank(Some("info")) < Rank(Some("warning")) < Rank(Some("critical"))
    ensures Rank(Some(s)) > Rank(None) <==> s == "info" || s == "warning" || s == "critical"
    ensures Rank(Some(s)) >= Rank(None)
  {
  }

  lemma RankInjective(a: string, b: string)
    requires Rank(Some(a)) == Rank(Some(b)) && Rank(Some(a)) >= 0
    ensures a == b
  {
  }

  /** Old model: thresholds in ladder-rank order, the highest one that fires suppresses the others. */
  function LastFiring(ts: seq<Threshold>, n: nat, env: Readings): Option<string>
    requires n <= |ts|
  {
    if n == 0 then None
    else if env(ts[n - 1].expression) then Some(ts[n - 1].severity)
    else LastFiring(ts, n - 1, env)
  }

  /** New model: the engine's scan over the tiers of one definition. */
  function Effective(ts: seq<Threshold>, n: nat, env: Readings): Option<string>
    requires n <= |ts|
  {
    if n == 0 then None else
      var sofar, t := Effective(ts, n - 1, env), ts[n - 1];
      if t.expression != "" && t.severity != "healthy" && env(t.expression) && Rank(Some(t.severity)) > Rank(sofar)
      then Some(t.severity) else sofar
  }

  /** After `j` no threshold has the expression of threshold `i`. */
  ghost predicate LastBy(ts: seq<Threshold>, i: nat, j: nat)
    requires i < |ts|
  {
    forall k :: j < k < |ts| ==> ts[k].expression != ts[i].expression
  }

  /**
   * The ladder order agrees with the severity order: every expression is there, the last threshold of an
   * expression has a known severity, and none that cannot fire without a later one outranks it.
   */
  ghost predicate Agreeing(ts: seq<Threshold>)
  {
    && (forall i :: 0 <= i < |ts| ==> ts[i].expression != "")
    && (forall j :: 0 <= j < |ts| && LastBy(ts, j, j) ==> Rank(Some(ts[j].severity)) >= 0)
    && (forall i, j :: 0 <= i < j < |ts| && LastBy(ts, i, j) && LastBy(ts, j, j) ==>
          Rank(Some(ts[i].severity)) <= Rank(Some(ts[j].severity)))
  }

  lemma RankFacts(s: string)
    ensures Rank(None) == -1 && Rank(Some(s)) >= -1 && (s == "healthy" ==> Rank(Some(s)) == -1)
  {
  }

  predicate Fires(ts: seq<Threshold>, i: nat, env: Readings)
    requires i < |ts|
  {
    env(ts[i].expression)
  }

  /** The last threshold that fires gives the old severity. */
  lemma {:induction false} LastFiringAt(ts: seq<Threshold>, n: nat, env: Readings, l: nat)
    requires l < n <= |ts| && Fires(ts, l, env) && forall k :: l < k < n ==> !Fires(ts, k, env)
    ensures LastFiring(ts, n, env) == Some(ts[l].severity)
  {
    if l < n - 1 {
      assert !Fires(ts, n - 1, env);
      LastFiringAt(ts, n - 1, env, l);
    }
  }

  lemma {:induction false} LastFiringIs(ts: seq<Threshold>, n: nat, env: Readings) returns (l: nat)
    requires n <= |ts| && LastFiring(ts, n, env).Some?
    ensures l < n && Fires(ts, l, env) && forall k :: l < k < n ==> !Fires(ts, k, env)
  {
    if Fires(ts, n - 1, env) {
      l := n - 1;
    } else {
      l := LastFiringIs(ts, n - 1, env);
    }
  }

  lemma {:induction false} NoneFiring(ts: seq<Threshold>, n: nat, env: Readings)
    requires n <= |ts| && LastFiring(ts, n, env) == None
    ensures forall i :: 0 <= i < n ==> !Fires(ts, i, env)
  {
    if n > 0 {
      NoneFiring(ts, n - 1, env);
    }
  }

  /** Without a firing expression the engine reports nothing. */
  lemma {:induction false} QuietMeansNone(ts: seq<Threshold>, n: nat, env: Readings)
    requires n <= |ts| && forall i :: 0 <= i < n ==> !Fires(ts, i, env)
    ensures Effective(ts, n, env) == None
  {
    if n > 0 {
      QuietMeansNone(ts, n - 1, env);
      assert !Fires(ts, n - 1, env);
    }
  }

  /** The engine reports a known severity, that of some firing threshold. */
  lemma {:induction false} EffectiveFires(ts: seq<Threshold>, n: nat, env: Readings) returns (i: nat)
    requires n <= |ts| && Effective(ts, n, env).Some?
    ensures i < n && Fires(ts, i, env) && ts[i].expression != ""
    ensures Effective(ts, n, env) == Some(ts[i].severity) && Rank(Effective(ts, n, env)) >= 0
  {
    hide Rank;
    RankFacts(ts[n - 1].severity);
    if Effective(ts, n, env) == Effective(ts, n - 1, env) {
      i := EffectiveFires(ts, n - 1, env);
    } else {
      if Effective(ts, n - 1, env).Some? {
        RankFacts(Effective(ts, n - 1, env).value);
      }
      i := n - 1;
    }
  }

  /** And none that fires ranks higher. */
  lemma {:induction false} EffectiveIsHighest(ts: seq<Threshold>, n: nat, env: Readings, i: nat)
    requires i < n <= |ts| && Fires(ts, i, env) && ts[i].expression != ""
    ensures Rank(Some(ts[i].severity)) <= Rank(Effective(ts, n, env))
  {
    hide Rank;
    RankFacts(ts[n - 1].severity);
    if Effective(ts, n - 1, env).Some? {
      RankFacts(Effective(ts, n - 1, env).value);
    }
    if i < n - 1 {
      EffectiveIsHighest(ts, n - 1, env, i);
    }
  }

  /** Old and new report agree for one reading. */
  lemma AgreeingMeaning(ts: seq<Threshold>, env: Readings)
    requires Agreeing(ts)
    ensures Effective(ts, |ts|, env) == LastFiring(ts, |ts|, env)
  {
    hide Rank, Effective, LastFiring;
    if LastFiring(ts, |ts|, env) == None {
      NoneFiring(ts, |ts|, env);
      QuietMeansNone(ts, |ts|, env);
    } else {
      var l := LastFiringIs(ts, |ts|, env);
      LastFiringAt(ts, |ts|, env, l);
      FiringIsLast(ts, env, l, l);
      EffectiveIsHighest(ts, |ts|, env, l);
      RankFacts(ts[l].severity);
      var i := EffectiveFires(ts, |ts|, env);
      FiringIsLast(ts, env, i, l);
      RankInjective(ts[i].severity, ts[l].severity);
    }
  }

  /** Of what fires, nothing has its expression again after the last threshold that fires. */
  lemma FiringIsLast(ts: seq<Threshold>, env: Readings, i: nat, l: nat)
    requires i < |ts| && l < |ts| && Fires(ts, i, env) && Fires(ts, l, env)
    requires forall k :: l < k < |ts| ==> !Fires(ts, k, env)
    ensures i <= l && LastBy(ts, i, l)
  {
    forall k | l < k < |ts|
      ensures ts[k].expression != ts[i].expression
    {
      assert !Fires(ts, k, env);
    }
  }

  ghost predicate SameMeaning(ts: seq<Threshold>)
  {
    forall env: Readings :: Effective(ts, |ts|, env) == LastFiring(ts, |ts|, env)
  }

  /** Exactly the expressions of thresholds `i` and `j` hold. */
  function Pair(ts: seq<Threshold>, i: nat, j: nat): Readings
    requires i < |ts| && j < |ts|
  {
    (e: string) => e == ts[i].expression || e == ts[j].expression
  }

  lemma MeaningForcesOrder(ts: seq<Threshold>, i: nat, j: nat)
    requires SameMeaning(ts) && i <= j < |ts| && LastBy(ts, i, j) && LastBy(ts, j, j)
    ensures ts[j].expression != "" && Rank(Some(ts[j].severity)) >= 0
    ensures ts[i].expression != "" ==> Rank(Some(ts[i].severity)) <= Rank(Some(ts[j].severity))
  {
    hide Rank, Effective, LastFiring;
    var both, alone := Pair(ts, i, j), Pair(ts, j, j);
    assert Effective(ts, |ts|, both) == LastFiring(ts, |ts|, both);
    assert Effective(ts, |ts|, alone) == LastFiring(ts, |ts|, alone);
    LastFiringAt(ts, |ts|, both, j);
    LastFiringAt(ts, |ts|, alone, j);
    var k := EffectiveFires(ts, |ts|, alone);
    if ts[i].expression != "" {
      EffectiveIsHighest(ts, |ts|, both, i);
    }
  }

  lemma {:induction false} LastOfExpression(ts: seq<Threshold>, i: nat, n: nat) returns (j: nat)
    requires i < n <= |ts|
    ensures i <= j < n && ts[j].expression == ts[i].expression
    ensures forall k :: j < k < n ==> ts[k].expression != ts[i].expression
    decreases n
  {
    if ts[n - 1].expression == ts[i].expression {
      j := n - 1;
    } else {
      j := LastOfExpression(ts, i, n - 1);
    }
  }

  lemma MeaningForcesAgreement(ts: seq<Threshold>)
    requires SameMeaning(ts)
    ensures Agreeing(ts)
  {
    hide Rank, SameMeaning;
    forall i | 0 <= i < |ts|
      ensures ts[i].expression != ""
    {
      var j := LastOfExpression(ts, i, |ts|);
      MeaningForcesOrder(ts, j, j);
    }
    forall i, j | 0 <= i <= j < |ts| && LastBy(ts, i, j) && LastBy(ts, j, j)
      ensures Rank(Some(ts[j].severity)) >= 0 && Rank(Some(ts[i].severity)) <= Rank(Some(ts[j].severity))
    {
      MeaningForcesOrder(ts, i, j);
    }
  }

  /** For any ladder whatever: folding it preserves the reported severity under all readings exactly when its order
      agrees with the engine's severity order. */
  lemma FoldingPreservesMeaning(ts: seq<Threshold>)
    ensures SameMeaning(ts) <==> Agreeing(ts)
  {
    hide Rank, Effective, LastFiring, Agreeing;
    if Agreeing(ts) {
      forall env: Readings
        ensures Effective(ts, |ts|, env) == LastFiring(ts, |ts|, env)
      {
        AgreeingMeaning(ts, env);
      }
    }
    if SameMeaning(ts) {
      MeaningForcesAgreement(ts);
    }
  }

  /** When no expression occurs twice, agreeing is ascending. */
  lemma AgreeingDistinct(ts: seq<Threshold>)
    requires forall i, j :: 0 <= i < j < |ts| ==> ts[i].expression != ts[j].expression
    ensures Agreeing(ts) <==>
            && (forall i :: 0 <= i < |ts| ==> ts[i].expression != "" && Rank(Some(ts[i].severity)) >= 0)
            && (forall i, j :: 0 <= i < j < |ts| ==> Rank(Some(ts[i].severity)) <= Rank(Some(ts[j].severity)))
  {
    hide Rank;
    forall i, j | 0 <= i <= j < |ts|
      ensures LastBy(ts, i, j)
    {
    }
  }

  // ----- instances

  /**
   * A critical threshold below a warning: with both firing the old engine reports the warning, the new one the
   * critical.
   */
  lemma InvertedLadder()
    ensures !SameMeaning([Threshold("critical", "a"), Threshold("warning", "b")])
  {
    var ts := [Threshold("critical", "a"), Threshold("warning", "b")];
    FoldingPreservesMeaning(ts);
    hide SameMeaning;
    assert LastBy(ts, 0, 1) && LastBy(ts, 1, 1);
    assert Rank(Some(ts[0].severity)) == 2 && Rank(Some(ts[1].severity)) == 1;
  }

  /** A severity the engine does not know: it never reports it. */
  lemma UnknownSeverity()
    ensures !SameMeaning([Threshold("major", "a")])
  {
    var ts := [Threshold("major", "a")];
    FoldingPreservesMeaning(ts);
    hide SameMeaning;
    assert LastBy(ts, 0, 0);
    assert Rank(Some(ts[0].severity)) == -1;
  }
}
