/** The three data migrations run one after the other. */
module Migrations {
  import opened Text
  import opened Schema
  import opened Grouping
  import opened Severity
  import Ladders
  import HealthyTier
  import Dedupe

  /** The listing of a table from which some rows were deleted. */
  method Remaining<V>(order: seq<Id>, before: map<Id, V>, now: map<Id, V>) returns (rest: seq<Id>)
    requires Lists(order, before) && now.Keys <= before.Keys
    ensures Lists(rest, now)
  {
    rest := [];
    for i := 0 to |order|
      invariant NoRepeats(rest) && forall x :: x in rest <==> x in order[..i] && x in now
    {
      assert order[..i + 1] == order[..i] + [order[i]];
      assert order[i] !in order[..i];
      if order[i] in now {
        rest := rest + [order[i]];
      }
    }
    assert order[..|order|] == order;
  }

  method MigrateAll(before: Db, defOrder: seq<Id>, ruleOrder: seq<Id>)
    returns (res: Option<Db>, ghost folded: Db, ghost tiered: Db)
    requires Sound(before) && UniqueNames(before.defs) && Lists(defOrder, before.defs) && Lists(ruleOrder, before.rules)
    ensures res.Some? <==> Ladders.FoldsCleanly(before, defOrder)
    ensures res.Some? ==> Migrated(before, defOrder, ruleOrder, folded, tiered, res.value)
  {
    hide Ladders.Folded, Dedupe.Deduped, Leads, Sound, HealthyTier.WithHealthy, Lists,
         UniqueNames, Ladders.FoldsCleanly;
    folded, tiered := before, before;
    var first, _ := Ladders.Upgrade(before, defOrder);
    if first.None? {
      return None, folded, tiered;
    }
    folded := first.value;
    FoldedKeys(before, defOrder, first.value);
    var rest := Remaining(defOrder, before.defs, first.value.defs);
    var second := HealthyTier.Upgrade(first.value, rest);
    tiered := second;
    TieredIsSound(before, first.value, second, ruleOrder);
    var third, _ := Dedupe.Upgrade(second, ruleOrder);
    res := Some(third);
  }

  lemma FoldedKeys(before: Db, order: seq<Id>, db: Db)
    requires Ladders.Folded(before, order, db)
    ensures db.defs.Keys <= before.defs.Keys && db.rules.Keys == before.rules.Keys && db.incidents == before.incidents
  {
  }

  lemma TieredIsSound(before: Db, folded: Db, tiered: Db, ruleOrder: seq<Id>)
    requires Sound(folded) && HealthyTier.WithHealthy(folded, tiered)
    requires Lists(ruleOrder, before.rules) && folded.rules.Keys == before.rules.Keys
    ensures Sound(tiered) && Lists(ruleOrder, tiered.rules)
  {
    hide HealthyTier.Rebuilt, HealthyTier.OldMessage;
  }

  /** Every step of the chain, from `before` to `db`. */
  ghost predicate Migrated(before: Db, defOrder: seq<Id>, ruleOrder: seq<Id>, folded: Db, tiered: Db, db: Db)
  {
    && Sound(before) && Lists(defOrder, before.defs) && Lists(ruleOrder, before.rules)
    && Ladders.Folded(before, defOrder, folded) && HealthyTier.WithHealthy(folded, tiered)
    && Sound(tiered) && Lists(ruleOrder, tiered.rules) && Dedupe.Deduped(tiered, ruleOrder, db)
  }

  ghost predicate OnlyOneFor(db: Db, home: Id)
  {
    forall j, k :: j in db.rules && k in db.rules && db.rules[j].definition == home && db.rules[k].definition == home
                   ==> j == k
  }

  /** Each definition that had a rule, directly or through its ladder, ends up with exactly one, and it is live. */
  lemma OneLiveRule(before: Db, defOrder: seq<Id>, ruleOrder: seq<Id>, folded: Db, tiered: Db, db: Db, r: Id)
    requires Migrated(before, defOrder, ruleOrder, folded, tiered, db) && r in before.rules
    ensures before.rules[r].definition in before.defs
    ensures var home := Ladders.KeeperOf(before.defs, defOrder, before.rules[r].definition);
            && home in db.defs
            && (exists k :: k in db.rules && db.rules[k].definition == home)
            && OnlyOneFor(db, home)
  {
    hide Ladders.KeeperOf, Ladders.Siblings, Ladders.Rewritten, HealthyTier.Rebuilt, HealthyTier.OldMessage,
         Dedupe.MergedCompanions, Dedupe.IncidentsAfter, Dedupe.KeeperOf, Dedupe.Victims, Ladders.Losers, Sound;
    Dedupe.OneRulePerDefinition(tiered, ruleOrder, db, r);
  }

  /** No rule appears from nowhere or points at a deleted definition. */
  lemma RulesAreLive(before: Db, defOrder: seq<Id>, ruleOrder: seq<Id>, folded: Db, tiered: Db, db: Db, k: Id)
    requires Migrated(before, defOrder, ruleOrder, folded, tiered, db) && k in db.rules
    ensures k in before.rules && db.rules[k].definition in db.defs
    ensures db.rules[k].definition == Ladders.KeeperOf(before.defs, defOrder, before.rules[k].definition)
  {
    hide Ladders.KeeperOf, Ladders.Siblings, Ladders.Rewritten, HealthyTier.Rebuilt, HealthyTier.OldMessage,
         Dedupe.MergedCompanions, Dedupe.IncidentsAfter, Dedupe.KeeperOf, Dedupe.Victims, Ladders.Losers, Sound;
  }

  /** The thresholds of a ladder as (severity, expression) pairs, healthy ones left out. */
  function LadderPairs(defs: map<Id, Definition>, s: seq<Id>, n: nat): seq<HealthyTier.Pair>
    requires n <= |s| && forall i :: 0 <= i < |s| ==> s[i] in defs
  {
    if n == 0 then [] else
      var t := Ladders.ThresholdOf(defs[s[n - 1]]);
      LadderPairs(defs, s, n - 1) + if t.severity != "healthy" then [(Some(t.severity), Some(t.expression))] else []
  }

  lemma {:induction false} TiersArePairs(defs: map<Id, Definition>, s: seq<Id>, n: nat)
    requires n <= |s| && forall i :: 0 <= i < |s| ==> s[i] in defs
    ensures HealthyTier.FiringPairs(Ladders.TiersFor(defs, s), n) == LadderPairs(defs, s, n)
  {
    if n > 0 {
      TiersArePairs(defs, s, n - 1);
      assert Ladders.TiersFor(defs, s)[n - 1] == Ladders.TierFor(defs[s[n - 1]]);
    }
  }

  /** The surviving definition of a ladder carries every sibling's threshold, in rank order. */
  lemma ThresholdsKept(before: Db, defOrder: seq<Id>, ruleOrder: seq<Id>, folded: Db, tiered: Db, db: Db, x: Id)
    requires Migrated(before, defOrder, ruleOrder, folded, tiered, db) && x in before.defs
    ensures var s, home := Ladders.Siblings(before.defs, defOrder, x), Ladders.KeeperOf(before.defs, defOrder, x);
            && x in s && Ladders.Ascending(before.defs, s) && NoRepeats(s)
            && (forall y :: y in s ==> y in before.defs)
            && home in db.defs
            && HealthyTier.FiringPairs(db.defs[home].tiers, |db.defs[home].tiers|) == LadderPairs(before.defs, s, |s|)
  {
    hide Ladders.Siblings, HealthyTier.Rebuilt, HealthyTier.OldMessage, Ladders.Ascending, Ladders.MergedName,
         Ladders.InLadder, Ladders.LadderOf, Dedupe.MergedCompanions, Dedupe.IncidentsAfter, Dedupe.KeeperOf,
         Dedupe.Victims, Sound;
    var s, home := Ladders.Siblings(before.defs, defOrder, x), Ladders.KeeperOf(before.defs, defOrder, x);
    Ladders.SiblingFacts(before.defs, defOrder, x, x);
    Ladders.KeeperFacts(before.defs, defOrder, x, x);
    Ladders.SiblingFacts(before.defs, defOrder, x, home);
    HealthyTier.PairsKept(folded.defs[home].tiers, HealthyTier.OldMessage(folded.defs[home]));
    TiersArePairs(before.defs, s, |s|);
  }

  // ----- the severity the engine reports

  /** The tiers the engine evaluates: those that are not healthy. */
  function EngineThresholds(pairs: seq<HealthyTier.Pair>): (ts: seq<Threshold>)
    ensures |ts| == |pairs|
    ensures forall i :: 0 <= i < |pairs| ==> ts[i] == EngineThreshold(pairs[i])
  {
    seq(|pairs|, i requires 0 <= i < |pairs| => EngineThreshold(pairs[i]))
  }

  function EngineThreshold(p: HealthyTier.Pair): Threshold
  {
    Threshold(if p.0.Some? then p.0.value else "", if p.1.Some? then p.1.value else "")
  }

  function EngineReport(pairs: seq<HealthyTier.Pair>, env: Readings): Option<string>
  {
    Effective(EngineThresholds(pairs), |pairs|, env)
  }

  /** What the engine reports for a definition. */
  function Reported(d: Definition, env: Readings): Option<string>
  {
    EngineReport(HealthyTier.FiringPairs(d.tiers, |d.tiers|), env)
  }

  lemma {:induction false} EffectivePrefix(a: seq<Threshold>, b: seq<Threshold>, n: nat, env: Readings)
    requires n <= |a| && n <= |b| && forall i :: 0 <= i < n ==> a[i] == b[i]
    ensures Effective(a, n, env) == Effective(b, n, env)
  {
    hide Rank;
    if n > 0 {
      EffectivePrefix(a, b, n - 1, env);
    }
  }

  /** One more pair, one more step of the scan. */
  lemma ReportMore(pairs: seq<HealthyTier.Pair>, p: HealthyTier.Pair, env: Readings)
    ensures var sofar, t := EngineReport(pairs, env), EngineThreshold(p);
            EngineReport(pairs + [p], env) ==
            if && t.expression != "" && t.severity != "healthy"
               && env(t.expression) && Rank(Some(t.severity)) > Rank(sofar)
            then Some(t.severity) else sofar
  {
    hide Rank;
    var all := pairs + [p];
    EffectivePrefix(EngineThresholds(pairs), EngineThresholds(all), |pairs|, env);
  }

  /** Leaving the healthy thresholds out does not change what the engine reports. */
  lemma {:induction false} PairsReport(defs: map<Id, Definition>, s: seq<Id>, n: nat, env: Readings)
    requires n <= |s| && forall i :: 0 <= i < |s| ==> s[i] in defs
    ensures EngineReport(LadderPairs(defs, s, n), env) == Effective(Ladders.ThresholdsOf(defs, s), n, env)
  {
    hide Rank, EngineReport;
    if n == 0 {
      NoPairs(env);
    } else {
      PairsReport(defs, s, n - 1, env);
      var t := Ladders.ThresholdOf(defs[s[n - 1]]);
      var p: HealthyTier.Pair := (Some(t.severity), Some(t.expression));
      assert Ladders.ThresholdsOf(defs, s)[n - 1] == t && EngineThreshold(p) == t;
      var pairs := LadderPairs(defs, s, n - 1);
      ReportMore(pairs, p, env);
      if t.severity == "healthy" {
        assert LadderPairs(defs, s, n) == pairs + [] == pairs;
      } else {
        assert LadderPairs(defs, s, n) == pairs + [p];
      }
    }
  }

  lemma NoPairs(env: Readings)
    ensures EngineReport([], env) == None
  {
  }

  /** For every reading: the migrated definition reports what the engine's scan over the siblings' thresholds gives. */
  lemma ReportedIs(before: Db, defOrder: seq<Id>, ruleOrder: seq<Id>, folded: Db, tiered: Db, db: Db, x: Id,
                   env: Readings)
    requires Migrated(before, defOrder, ruleOrder, folded, tiered, db) && x in before.defs
    ensures var s, home := Ladders.Siblings(before.defs, defOrder, x), Ladders.KeeperOf(before.defs, defOrder, x);
            && (forall y :: y in s ==> y in before.defs)
            && home in db.defs
            && Reported(db.defs[home], env) == Effective(Ladders.ThresholdsOf(before.defs, s), |s|, env)
  {
    hide Migrated, Ladders.Siblings, Ladders.KeeperOf, HealthyTier.FiringPairs, Effective, Ladders.Ascending,
         EngineReport;
    var s := Ladders.Siblings(before.defs, defOrder, x);
    ThresholdsKept(before, defOrder, ruleOrder, folded, tiered, db, x);
    PairsReport(before.defs, s, |s|, env);
  }

  /**
   * For all readings the migrated definition reports the severity of the last firing threshold of its ladder, if and
   * only if the ladder's order agrees with the engine's severity order.
   */
  lemma MeaningPreservedIff(before: Db, defOrder: seq<Id>, ruleOrder: seq<Id>, folded: Db, tiered: Db, db: Db, x: Id)
    requires Migrated(before, defOrder, ruleOrder, folded, tiered, db) && x in before.defs
    ensures var s, home := Ladders.Siblings(before.defs, defOrder, x), Ladders.KeeperOf(before.defs, defOrder, x);
            && (forall y :: y in s ==> y in before.defs)
            && home in db.defs
            && (var ts := Ladders.ThresholdsOf(before.defs, s);
                (forall env: Readings :: Reported(db.defs[home], env) == LastFiring(ts, |ts|, env)) <==> Agreeing(ts))
  {
    hide Migrated, Ladders.Siblings, Ladders.KeeperOf, Effective, LastFiring, Agreeing, Reported;
    var s, home := Ladders.Siblings(before.defs, defOrder, x), Ladders.KeeperOf(before.defs, defOrder, x);
    ReportedIs(before, defOrder, ruleOrder, folded, tiered, db, x, (e: string) => false);
    var ts := Ladders.ThresholdsOf(before.defs, s);
    forall env: Readings
      ensures Reported(db.defs[home], env) == Effective(ts, |ts|, env)
    {
      ReportedIs(before, defOrder, ruleOrder, folded, tiered, db, x, env);
    }
    FoldingPreservesMeaning(ts);
  }

  /** For every reading: what the engine reports from the migrated tiers is the severity of
      the sibling that outranked all other firing siblings before. */
  lemma MeaningPreserved(before: Db, defOrder: seq<Id>, ruleOrder: seq<Id>, folded: Db, tiered: Db, db: Db,
                         x: Id, env: Readings, top: Id)
    requires Migrated(before, defOrder, ruleOrder, folded, tiered, db) && x in before.defs
    requires var s := Ladders.Siblings(before.defs, defOrder, x);
             && (forall y :: y in s ==> y in before.defs)
             && Agreeing(Ladders.ThresholdsOf(before.defs, s))
             && Ladders.IsTopFiring(before.defs, s, env, top)
    ensures var home := Ladders.KeeperOf(before.defs, defOrder, x);
            home in db.defs && Reported(db.defs[home], env) == Some(Ladders.ThresholdOf(before.defs[top]).severity)
  {
    hide Migrated, Ladders.Siblings, Ladders.KeeperOf, Effective, LastFiring, Agreeing, Reported;
    var s := Ladders.Siblings(before.defs, defOrder, x);
    ReportedIs(before, defOrder, ruleOrder, folded, tiered, db, x, env);
    SiblingsSorted(before, defOrder, ruleOrder, folded, tiered, db, x);
    var ts := Ladders.ThresholdsOf(before.defs, s);
    AgreeingMeaning(ts, env);
    assert s[..|s|] == s;
    Ladders.TopFiringIsLastTier(before.defs, s, env, top, |s|);
  }

  lemma SiblingsSorted(before: Db, defOrder: seq<Id>, ruleOrder: seq<Id>, folded: Db, tiered: Db, db: Db, x: Id)
    requires Migrated(before, defOrder, ruleOrder, folded, tiered, db) && x in before.defs
    ensures Ladders.Ascending(before.defs, Ladders.Siblings(before.defs, defOrder, x))
    ensures NoRepeats(Ladders.Siblings(before.defs, defOrder, x))
  {
    Ladders.SiblingFacts(before.defs, defOrder, x, x);
  }

  /** And when no sibling fired before, nothing is reported after. */
  lemma SilencePreserved(before: Db, defOrder: seq<Id>, ruleOrder: seq<Id>, folded: Db, tiered: Db, db: Db, x: Id,
                         env: Readings)
    requires Migrated(before, defOrder, ruleOrder, folded, tiered, db) && x in before.defs
    requires forall y :: y in Ladders.Siblings(before.defs, defOrder, x) && y in before.defs ==>
               !env(before.defs[y].expression)
    ensures var home := Ladders.KeeperOf(before.defs, defOrder, x);
            home in db.defs && Reported(db.defs[home], env) == None
  {
    hide Migrated, Ladders.Siblings, Ladders.KeeperOf, Effective, Reported;
    ReportedIs(before, defOrder, ruleOrder, folded, tiered, db, x, env);
    var s := Ladders.Siblings(before.defs, defOrder, x);
    var ts := Ladders.ThresholdsOf(before.defs, s);
    forall i | 0 <= i < |ts|
      ensures !Fires(ts, i, env)
    {
      assert s[i] in s;
    }
    QuietMeansNone(ts, |ts|, env);
  }

  // ----- messages

  /** The tier that sibling `y` of a ladder kept under definition `d`, now named `name`, has become. */
  ghost predicate SiblingTier(d: Definition, name: string, y: Definition, t: TierItem)
  {
    var severity := if y.severity != "" then y.severity else "warning";
    && t.Tier? && t.severity == Some(severity)
    && (severity == "healthy" ==>
          t.expression == None && t.message == Some("{definition_name} on {device_name} recovered"))
    && (severity != "healthy" ==>
          && t.expression == Some(y.expression)
          && t.message == if HealthyTier.NonEmpty(d.message) then d.message else Some(name + " on {device_name}"))
  }

  lemma SettledSibling(folded: Definition, d: Definition, y: Definition, t: TierItem)
    requires folded.message == d.message && HealthyTier.MessageSettled(folded, Ladders.TierFor(y), t)
    ensures SiblingTier(d, folded.name, y, t)
  {
  }

  /** What the surviving definition of a ladder is called. */
  function NewName(d: Definition): string
  {
    if d.ladderKey.Some? && d.ladderKey.value != "" then Ladders.MergedName(d.name) else d.name
  }

  lemma FoldedDefinition(before: Db, defOrder: seq<Id>, ruleOrder: seq<Id>, folded: Db, tiered: Db, db: Db, x: Id)
    requires Migrated(before, defOrder, ruleOrder, folded, tiered, db) && x in before.defs
    ensures var s, home := Ladders.Siblings(before.defs, defOrder, x), Ladders.KeeperOf(before.defs, defOrder, x);
            && (forall y :: y in s ==> y in before.defs)
            && home in before.defs && home in folded.defs && home in db.defs
            && folded.defs[home].message == before.defs[home].message
            && folded.defs[home].name == NewName(before.defs[home])
            && folded.defs[home].tiers == Ladders.TiersFor(before.defs, s)
            && HealthyTier.TiersSettled(folded.defs[home], db.defs[home].tiers)
            && db.defs[home] == before.defs[home].(tiers := db.defs[home].tiers, name := NewName(before.defs[home]))
  {
    hide Ladders.Siblings, HealthyTier.Rebuilt, HealthyTier.OldMessage, Ladders.Ascending, Ladders.MergedName,
         Dedupe.MergedCompanions, Dedupe.IncidentsAfter, Dedupe.KeeperOf, Dedupe.Victims, Sound, Ladders.LadderOf,
         HealthyTier.TiersSettled, Ladders.TiersFor;
    var home := Ladders.KeeperOf(before.defs, defOrder, x);
    Ladders.SiblingFacts(before.defs, defOrder, x, x);
    Ladders.KeeperFacts(before.defs, defOrder, x, x);
    Ladders.SiblingFacts(before.defs, defOrder, x, home);
    HealthyTier.NoMessageLost(folded, tiered, home);
  }

  ghost predicate HasHealthy(defs: map<Id, Definition>, s: seq<Id>)
  {
    exists i :: 0 <= i < |s| && s[i] in defs && defs[s[i]].severity == "healthy"
  }

  /** One tier for each sibling in `s`, in that order, behind a recovery tier unless one of them is healthy itself. */
  ghost predicate LadderTiers(defs: map<Id, Definition>, s: seq<Id>, d: Definition, name: string, ts: seq<TierItem>)
  {
    var added := if HasHealthy(defs, s) then 0 else 1;
    && |ts| == added + |s|
    && (added == 1 ==> ts[0] == Tier(Some("healthy"), None, Some("{definition_name} on {device_name} recovered")))
    && forall i :: 0 <= i < |s| ==> s[i] in defs && SiblingTier(d, name, defs[s[i]], ts[added + i])
  }

  lemma SettledLadder(defs: map<Id, Definition>, s: seq<Id>, folded: Definition, d: Definition, ts: seq<TierItem>)
    requires forall y :: y in s ==> y in defs
    requires folded.message == d.message && folded.tiers == Ladders.TiersFor(defs, s)
    requires HealthyTier.TiersSettled(folded, ts)
    ensures LadderTiers(defs, s, d, folded.name, ts)
  {
    hide SiblingTier, HealthyTier.MessageSettled, HealthyTier.SomeHealthy, HasHealthy, HealthyTier.ProperTiers;
    var given := folded.tiers;
    assert forall i :: 0 <= i < |given| ==> s[i] in s && given[i] == Ladders.TierFor(defs[s[i]]);
    HealthyTier.AllProper(given, |given|);
    assert given[..|given|] == given;
    HealthyAmong(defs, s);
    var added := if HasHealthy(defs, s) then 0 else 1;
    forall i | 0 <= i < |s|
      ensures SiblingTier(d, folded.name, defs[s[i]], ts[added + i])
    {
      assert HealthyTier.MessageSettled(folded, given[i], ts[added + i]);
      SettledSibling(folded, d, defs[s[i]], ts[added + i]);
    }
  }

  /**
   * After all three migrations the surviving definition has one tier for each sibling in rank order, with its own text,
   * or one made of its merged name. The texts of the other siblings went with their definitions.
   */
  lemma MessagesAfter(before: Db, defOrder: seq<Id>, ruleOrder: seq<Id>, folded: Db, tiered: Db, db: Db, x: Id)
    requires Migrated(before, defOrder, ruleOrder, folded, tiered, db) && x in before.defs
    ensures var s, home := Ladders.Siblings(before.defs, defOrder, x), Ladders.KeeperOf(before.defs, defOrder, x);
            && home in before.defs && home in db.defs
            && LadderTiers(before.defs, s, before.defs[home], NewName(before.defs[home]), db.defs[home].tiers)
    ensures var home := Ladders.KeeperOf(before.defs, defOrder, x);
            db.defs[home] == before.defs[home].(tiers := db.defs[home].tiers, name := NewName(before.defs[home]))
  {
    hide Migrated, Ladders.Siblings, Ladders.KeeperOf, LadderTiers, NewName, HealthyTier.TiersSettled, Ladders.TiersFor;
    FoldedDefinition(before, defOrder, ruleOrder, folded, tiered, db, x);
    var s, home := Ladders.Siblings(before.defs, defOrder, x), Ladders.KeeperOf(before.defs, defOrder, x);
    SettledLadder(before.defs, s, folded.defs[home], before.defs[home], db.defs[home].tiers);
  }

  lemma HealthyAmong(defs: map<Id, Definition>, s: seq<Id>)
    requires forall y :: y in s ==> y in defs
    ensures HealthyTier.SomeHealthy(Ladders.TiersFor(defs, s)) <==> HasHealthy(defs, s)
  {
    var ts := Ladders.TiersFor(defs, s);
    forall i | 0 <= i < |s|
      ensures ts[i].Tier? && (ts[i].severity == Some("healthy") <==> defs[s[i]].severity == "healthy")
    {
    }
  }
}
