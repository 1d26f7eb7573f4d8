/** The zx4y5z6a7b8c migration: a message for every tier and an explicit healthy tier. */
module HealthyTier {
  import opened Text
  import opened Schema
  import opened Grouping

  const DEFAULT_HEALTHY := "{definition_name} on {device_name} recovered"

  predicate IsHealthy(t: TierItem)
  {
    t.Tier? && t.severity == Some("healthy")
  }

  /** `text or default`: NULL and the empty string fall through. */
  function OrElse(text: Option<string>, default: string): string
  {
    if text.Some? && text.value != "" then text.value else default
  }

  function RebuiltTier(t: TierItem, oldMessage: string): TierItem
    requires t.Tier?
  {
    if IsHealthy(t) then Tier(Some("healthy"), None, Some(OrElse(t.message, DEFAULT_HEALTHY)))
    else Tier(t.severity, t.expression, Some(OrElse(t.message, oldMessage)))
  }

  function RebuiltList(ts: seq<TierItem>, n: nat, oldMessage: string): seq<TierItem>
    requires n <= |ts|
  {
    if n == 0 then [] else
      RebuiltList(ts, n - 1, oldMessage) + if ts[n - 1].Tier? then [RebuiltTier(ts[n - 1], oldMessage)] else []
  }

  predicate AnyHealthy(ts: seq<TierItem>, n: nat)
    requires n <= |ts|
  {
    exists i :: 0 <= i < n && IsHealthy(ts[i])
  }

  const HEALTHY_TIER := Tier(Some("healthy"), None, Some(DEFAULT_HEALTHY))

  function Rebuilt(ts: seq<TierItem>, oldMessage: string): seq<TierItem>
  {
    (if AnyHealthy(ts, |ts|) then [] else [HEALTHY_TIER]) + RebuiltList(ts, |ts|, oldMessage)
  }

  method RebuildTiers(ts: seq<TierItem>, oldMessage: string) returns (rebuilt: seq<TierItem>)
    ensures rebuilt == Rebuilt(ts, oldMessage)
  {
    hide IsHealthy, RebuiltTier;
    rebuilt := [];
    var hasHealthy := false;
    for i := 0 to |ts|
      invariant rebuilt == RebuiltList(ts, i, oldMessage)
      invariant hasHealthy <==> AnyHealthy(ts, i)
    {
      var t := ts[i];
      if t.Tier? {
        if IsHealthy(t) {
          hasHealthy := true;
        }
        rebuilt := rebuilt + [RebuiltTier(t, oldMessage)];
      }
      assert IsHealthy(t) ==> t.Tier? by { HealthyIsTier(t); }
    }
    if !hasHealthy {
      rebuilt := [HEALTHY_TIER] + rebuilt;
    }
  }

  lemma HealthyIsTier(t: TierItem)
    ensures IsHealthy(t) ==> t.Tier?
  {
  }

  // ----- what is preserved

  type Pair = (Option<string>, Option<string>)

  /** The (severity, expression) pairs that can fire, in order. */
  function FiringPairs(ts: seq<TierItem>, n: nat): seq<Pair>
    requires n <= |ts|
  {
    if n == 0 then [] else
      FiringPairs(ts, n - 1)
      + if ts[n - 1].Tier? && !IsHealthy(ts[n - 1]) then [(ts[n - 1].severity, ts[n - 1].expression)] else []
  }

  lemma {:induction false} FiringPairsAppend(a: seq<TierItem>, b: seq<TierItem>, n: nat)
    requires n <= |b|
    ensures FiringPairs(a + b, |a| + n) == FiringPairs(a, |a|) + FiringPairs(b, n)
  {
    hide IsHealthy;
    if n == 0 {
      FiringPairsPrefix(a, b, |a|);
    } else {
      FiringPairsAppend(a, b, n - 1);
    }
  }

  lemma {:induction false} FiringPairsPrefix(a: seq<TierItem>, b: seq<TierItem>, n: nat)
    requires n <= |a|
    ensures FiringPairs(a + b, n) == FiringPairs(a, n)
  {
    hide IsHealthy;
    if n > 0 {
      FiringPairsPrefix(a, b, n - 1);
    }
  }

  lemma {:induction false} RebuiltListPairs(ts: seq<TierItem>, n: nat, oldMessage: string)
    requires n <= |ts|
    ensures var r := RebuiltList(ts, n, oldMessage); FiringPairs(r, |r|) == FiringPairs(ts, n)
  {
    hide OrElse;
    if n > 0 {
      RebuiltListPairs(ts, n - 1, oldMessage);
      var before := RebuiltList(ts, n - 1, oldMessage);
      if ts[n - 1].Tier? {
        var t := RebuiltTier(ts[n - 1], oldMessage);
        FiringPairsAppend(before, [t], 1);
        assert RebuiltList(ts, n, oldMessage) == before + [t];
        assert FiringPairs([t], 0) == [];
        assert IsHealthy(t) <==> IsHealthy(ts[n - 1]);
      } else {
        assert RebuiltList(ts, n, oldMessage) == before;
      }
    }
  }

  /** Every pair that can fire survives, in order. */
  lemma PairsKept(ts: seq<TierItem>, oldMessage: string)
    ensures FiringPairs(Rebuilt(ts, oldMessage), |Rebuilt(ts, oldMessage)|) == FiringPairs(ts, |ts|)
  {
    hide OrElse, RebuiltTier;
    RebuiltListPairs(ts, |ts|, oldMessage);
    var r := RebuiltList(ts, |ts|, oldMessage);
    FiringPairsAppend([HEALTHY_TIER], r, |r|);
    assert FiringPairs([HEALTHY_TIER], 0) == [];
    assert FiringPairs([HEALTHY_TIER], 1) == [];
    assert Rebuilt(ts, oldMessage) == if AnyHealthy(ts, |ts|) then r else [HEALTHY_TIER] + r;
  }

  /** Every rebuilt element is a tier with a message, and healthy tiers carry no expression. */
  ghost predicate WellFormed(ts: seq<TierItem>)
  {
    forall i :: 0 <= i < |ts| ==>
      && ts[i].Tier? && ts[i].message.Some? && ts[i].message.value != ""
      && (IsHealthy(ts[i]) ==> ts[i].expression == None)
  }

  lemma {:induction false} RebuiltListWellFormed(ts: seq<TierItem>, n: nat, oldMessage: string)
    requires n <= |ts| && oldMessage != ""
    ensures WellFormed(RebuiltList(ts, n, oldMessage))
    ensures AnyHealthy(RebuiltList(ts, n, oldMessage), |RebuiltList(ts, n, oldMessage)|) <==> AnyHealthy(ts, n)
  {
    if n > 0 {
      RebuiltListWellFormed(ts, n - 1, oldMessage);
      var before, r := RebuiltList(ts, n - 1, oldMessage), RebuiltList(ts, n, oldMessage);
      assert forall i :: 0 <= i < |before| ==> r[i] == before[i];
      if ts[n - 1].Tier? {
        assert r[|r| - 1] == RebuiltTier(ts[n - 1], oldMessage);
      }
    }
  }

  lemma RebuiltIsWellFormed(ts: seq<TierItem>, oldMessage: string)
    requires oldMessage != ""
    ensures WellFormed(Rebuilt(ts, oldMessage))
    ensures AnyHealthy(Rebuilt(ts, oldMessage), |Rebuilt(ts, oldMessage)|)
    ensures !AnyHealthy(ts, |ts|) ==> Rebuilt(ts, oldMessage)[0] == HEALTHY_TIER
  {
    RebuiltListWellFormed(ts, |ts|, oldMessage);
    var l, r := RebuiltList(ts, |ts|, oldMessage), Rebuilt(ts, oldMessage);
    if AnyHealthy(ts, |ts|) {
      assert r == l;
    } else {
      assert r[0] == HEALTHY_TIER && IsHealthy(r[0]);
    }
  }

  lemma {:induction false} RebuiltListIdentity(ts: seq<TierItem>, n: nat, oldMessage: string)
    requires n <= |ts| && WellFormed(ts)
    ensures RebuiltList(ts, n, oldMessage) == ts[..n]
  {
    if n > 0 {
      RebuiltListIdentity(ts, n - 1, oldMessage);
      assert ts[..n] == ts[..n - 1] + [ts[n - 1]];
      assert RebuiltTier(ts[n - 1], oldMessage) == ts[n - 1];
    }
  }

  /** Running the rewrite again changes nothing. */
  lemma RebuildIsIdempotent(ts: seq<TierItem>, oldMessage: string, other: string)
    requires oldMessage != ""
    ensures Rebuilt(Rebuilt(ts, oldMessage), other) == Rebuilt(ts, oldMessage)
  {
    var r := Rebuilt(ts, oldMessage);
    RebuiltIsWellFormed(ts, oldMessage);
    RebuiltListIdentity(r, |r|, other);
    assert r[..|r|] == r;
  }

  // ----- the migration

  function OldMessage(d: Definition): (m: string)
    ensures m != ""
  {
    OrElse(d.message, d.name + " on {device_name}")
  }

  ghost predicate WithHealthy(before: Db, db: Db)
  {
    && db.rules == before.rules && db.incidents == before.incidents && db.defs.Keys == before.defs.Keys
    && forall x :: x in db.defs ==>
         && x in before.defs
         && db.defs[x] == before.defs[x].(tiers := Rebuilt(before.defs[x].tiers, OldMessage(before.defs[x])))
  }

  method Upgrade(before: Db, order: seq<Id>) returns (db: Db)
    requires Lists(order, before.defs)
    ensures WithHealthy(before, db)
  {
    hide Rebuilt, OldMessage;
    db := before;
    for k := 0 to |order|
      invariant db.rules == before.rules && db.incidents == before.incidents && db.defs.Keys == before.defs.Keys
      invariant forall x :: x in db.defs ==>
        db.defs[x] ==
          if x in order[..k] then before.defs[x].(tiers := Rebuilt(before.defs[x].tiers, OldMessage(before.defs[x])))
                      else before.defs[x]
    {
      var x := order[k];
      assert order[..k + 1] == order[..k] + [x];
      assert x !in order[..k];
      var rebuilt := RebuildTiers(db.defs[x].tiers, OldMessage(db.defs[x]));
      db := UpdateDefinition(db, x, db.defs[x].(tiers := rebuilt));
    }
    assert order[..|order|] == order;
  }

  // ----- what every tier ends with, on the tables themselves

  /** The proper tiers of a list, in order. */
  function ProperTiers(ts: seq<TierItem>, n: nat): seq<TierItem>
    requires n <= |ts|
  {
    if n == 0 then [] else ProperTiers(ts, n - 1) + if ts[n - 1].Tier? then [ts[n - 1]] else []
  }

  predicate NonEmpty(text: Option<string>)
  {
    text.Some? && text.value != ""
  }

  /** Tier `t` of definition `d` has become `t'`: its own text, else the definition's, else one made of the name. */
  ghost predicate MessageSettled(d: Definition, t: TierItem, t': TierItem)
  {
    && t.Tier? && t'.Tier? && t'.severity == t.severity
    && (t.severity == Some("healthy") ==>
          && t'.expression == None
          && (NonEmpty(t.message) ==> t'.message == t.message)
          && (!NonEmpty(t.message) ==> t'.message == Some("{definition_name} on {device_name} recovered")))
    && (t.severity != Some("healthy") ==>
          && t'.expression == t.expression
          && (NonEmpty(t.message) ==> t'.message == t.message)
          && (!NonEmpty(t.message) && NonEmpty(d.message) ==> t'.message == d.message)
          && (!NonEmpty(t.message) && !NonEmpty(d.message) ==> t'.message == Some(d.name + " on {device_name}")))
  }

  ghost predicate SomeHealthy(ts: seq<TierItem>)
  {
    exists i :: 0 <= i < |ts| && ts[i].Tier? && ts[i].severity == Some("healthy")
  }

  /**
   * The list `after` is the proper tiers of `d` with their messages settled, behind a healthy tier if there was none.
   */
  ghost predicate TiersSettled(d: Definition, after: seq<TierItem>)
  {
    var ts := ProperTiers(d.tiers, |d.tiers|);
    var added := if SomeHealthy(ts) then 0 else 1;
    && |after| == added + |ts|
    && (added == 1 ==> after[0] == Tier(Some("healthy"), None, Some("{definition_name} on {device_name} recovered")))
    && forall i :: 0 <= i < |ts| ==> MessageSettled(d, ts[i], after[added + i])
  }

  lemma SomeHealthyMore(ts: seq<TierItem>, t: TierItem)
    ensures SomeHealthy(ts + [t]) <==> SomeHealthy(ts) || IsHealthy(t)
  {
    var all := ts + [t];
    assert forall i :: 0 <= i < |ts| ==> all[i] == ts[i];
    assert all[|ts|] == t;
  }

  lemma {:induction false} ProperTiersAre(ts: seq<TierItem>, n: nat)
    requires n <= |ts|
    ensures SomeHealthy(ProperTiers(ts, n)) <==> AnyHealthy(ts, n)
  {
    if n > 0 {
      ProperTiersAre(ts, n - 1);
      SomeHealthyMore(ProperTiers(ts, n - 1), ts[n - 1]);
      assert ProperTiers(ts, n - 1) + [] == ProperTiers(ts, n - 1);
    }
  }

  lemma {:induction false} RebuiltListSettles(d: Definition, n: nat)
    requires n <= |d.tiers|
    ensures var ts, rs := ProperTiers(d.tiers, n), RebuiltList(d.tiers, n, OldMessage(d));
            |rs| == |ts| && forall i :: 0 <= i < |ts| ==> MessageSettled(d, ts[i], rs[i])
  {
    if n > 0 {
      RebuiltListSettles(d, n - 1);
      var t := d.tiers[n - 1];
      if t.Tier? {
        TierSettles(d, t);
      }
      hide MessageSettled, RebuiltTier, OldMessage;
    }
  }

  lemma TierSettles(d: Definition, t: TierItem)
    requires t.Tier?
    ensures MessageSettled(d, t, RebuiltTier(t, OldMessage(d)))
  {
  }

  lemma DefinitionSettles(d: Definition)
    ensures TiersSettled(d, Rebuilt(d.tiers, OldMessage(d)))
  {
    ProperTiersAre(d.tiers, |d.tiers|);
    RebuiltListSettles(d, |d.tiers|);
    hide MessageSettled, RebuiltList, OldMessage, ProperTiers, SomeHealthy, AnyHealthy;
  }

  /**
   * No message text of a definition is lost: every tier of every definition ends with the text the migration
   * promises.
   */
  lemma NoMessageLost(before: Db, db: Db, x: Id)
    requires WithHealthy(before, db) && x in before.defs
    ensures x in db.defs && TiersSettled(before.defs[x], db.defs[x].tiers)
    ensures db.defs[x] == before.defs[x].(tiers := db.defs[x].tiers)
  {
    hide TiersSettled, Rebuilt, OldMessage;
    DefinitionSettles(before.defs[x]);
  }

  lemma {:induction false} AllProper(ts: seq<TierItem>, n: nat)
    requires n <= |ts| && forall i :: 0 <= i < |ts| ==> ts[i].Tier?
    ensures ProperTiers(ts, n) == ts[..n]
  {
    if n > 0 {
      AllProper(ts, n - 1);
      assert ts[..n] == ts[..n - 1] + [ts[n - 1]];
    }
  }
}
