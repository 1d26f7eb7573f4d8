/** The zw3x4y5z6a7b migration: ladder siblings become one definition with severity tiers. */
module Ladders {
  import opened Text
  import opened Schema
  import opened Grouping
  import opened Severity

  type Ladder = (Id, string)

  predicate InLadder(d: Definition)
  {
    d.ladderKey.Some? && d.ladderKey.value != ""
  }

  /** The ladder of every definition that is on one. */
  function LadderOf(defs: map<Id, Definition>): map<Id, Ladder>
  {
    map x | x in defs && InLadder(defs[x]) :: (defs[x].app, defs[x].ladderKey.value)
  }

  // ----- sorting siblings

  function RankAt(defs: map<Id, Definition>, x: Id): int
  {
    if x in defs && defs[x].ladderRank.Some? then defs[x].ladderRank.value else 0
  }

  /** Stable insertion: after every sibling of lower or equal rank. */
  function InsertByRank(defs: map<Id, Definition>, s: seq<Id>, x: Id): (r: seq<Id>)
    ensures |r| == |s| + 1
    ensures forall y :: y in r <==> y in s || y == x
    decreases |s|
  {
    if s == [] then [x] else
      var n := |s| - 1;
      assert s == s[..n] + [s[n]];
      if RankAt(defs, s[n]) <= RankAt(defs, x) then s + [x] else InsertByRank(defs, s[..n], x) + [s[n]]
  }

  /** `siblings.sort(key=rank)` on the first `n` siblings. */
  function SortByRank(defs: map<Id, Definition>, g: seq<Id>, n: nat): (r: seq<Id>)
    requires n <= |g|
    ensures |r| == n
    ensures forall y :: y in r <==> y in g[..n]
  {
    if n == 0 then [] else
      assert g[..n] == g[..n - 1] + [g[n - 1]];
      InsertByRank(defs, SortByRank(defs, g, n - 1), g[n - 1])
  }

  ghost predicate Ascending(defs: map<Id, Definition>, s: seq<Id>)
  {
    forall i, j :: 0 <= i < j < |s| ==> RankAt(defs, s[i]) <= RankAt(defs, s[j])
  }

  lemma {:induction false} InsertAscending(defs: map<Id, Definition>, s: seq<Id>, x: Id)
    requires Ascending(defs, s) && NoRepeats(s) && x !in s
    ensures Ascending(defs, InsertByRank(defs, s, x)) && NoRepeats(InsertByRank(defs, s, x))
    decreases |s|
  {
    hide RankAt;
    if s != [] {
      var n := |s| - 1;
      if RankAt(defs, s[n]) > RankAt(defs, x) {
        InsertAscending(defs, s[..n], x);
        var r := InsertByRank(defs, s[..n], x);
        forall i | 0 <= i < |r|
          ensures RankAt(defs, r[i]) <= RankAt(defs, s[n]) && r[i] != s[n]
        {
          assert r[i] in r;
        }
      }
    }
  }

  lemma {:induction false} SortAscending(defs: map<Id, Definition>, g: seq<Id>, n: nat)
    requires n <= |g| && NoRepeats(g)
    ensures Ascending(defs, SortByRank(defs, g, n)) && NoRepeats(SortByRank(defs, g, n))
  {
    if n > 0 {
      SortAscending(defs, g, n - 1);
      assert g[n - 1] !in g[..n - 1];
      InsertAscending(defs, SortByRank(defs, g, n - 1), g[n - 1]);
    }
  }

  /** `a` is read before `b`. */
  ghost predicate Precedes(g: seq<Id>, a: Id, b: Id)
  {
    exists u, v :: 0 <= u < v < |g| && g[u] == a && g[v] == b
  }

  /** Siblings of the same rank stay in reading order. */
  ghost predicate Stable(defs: map<Id, Definition>, g: seq<Id>, s: seq<Id>)
  {
    forall i, j :: 0 <= i < j < |s| && RankAt(defs, s[i]) == RankAt(defs, s[j]) ==> Precedes(g, s[i], s[j])
  }

  lemma StableMore(defs: map<Id, Definition>, g: seq<Id>, s: seq<Id>, z: Id)
    requires Stable(defs, g, s)
    requires forall i :: 0 <= i < |s| && RankAt(defs, s[i]) == RankAt(defs, z) ==> Precedes(g, s[i], z)
    ensures Stable(defs, g, s + [z])
  {
    hide RankAt, Precedes;
  }

  lemma StablePrefix(defs: map<Id, Definition>, g: seq<Id>, s: seq<Id>, n: nat)
    requires Stable(defs, g, s) && n <= |s|
    ensures Stable(defs, g, s[..n])
  {
    hide RankAt, Precedes;
  }

  lemma {:induction false} InsertStable(defs: map<Id, Definition>, g: seq<Id>, s: seq<Id>, x: Id)
    requires Stable(defs, g, s) && forall i :: 0 <= i < |s| ==> Precedes(g, s[i], x)
    ensures Stable(defs, g, InsertByRank(defs, s, x))
    decreases |s|
  {
    hide RankAt, Precedes;
    if s != [] {
      var n := |s| - 1;
      if RankAt(defs, s[n]) <= RankAt(defs, x) {
        StableMore(defs, g, s, x);
      } else {
        StablePrefix(defs, g, s, n);
        InsertStable(defs, g, s[..n], x);
        var r := InsertByRank(defs, s[..n], x);
        forall i | 0 <= i < |r| && RankAt(defs, r[i]) == RankAt(defs, s[n])
          ensures Precedes(g, r[i], s[n])
        {
          assert r[i] in r;
          var j :| 0 <= j < n && s[j] == r[i];
        }
        StableMore(defs, g, r, s[n]);
      }
    }
  }

  lemma {:induction false} SortStable(defs: map<Id, Definition>, g: seq<Id>, n: nat)
    requires n <= |g|
    ensures Stable(defs, g, SortByRank(defs, g, n))
  {
    hide RankAt;
    if n > 0 {
      SortStable(defs, g, n - 1);
      var s := SortByRank(defs, g, n - 1);
      forall i | 0 <= i < |s|
        ensures Precedes(g, s[i], g[n - 1])
      {
        assert s[i] in s;
        var u :| 0 <= u < n - 1 && g[u] == s[i];
      }
      hide Stable, Precedes;
      InsertStable(defs, g, s, g[n - 1]);
    }
  }

  /** The siblings of a definition, lowest rank first; itself alone when it is on no ladder. */
  function Siblings(defs: map<Id, Definition>, order: seq<Id>, x: Id): seq<Id>
  {
    if x !in LadderOf(defs) then [x] else
      var g := GroupOf(LadderOf(defs), order, |order|, LadderOf(defs)[x]);
      SortByRank(defs, g, |g|)
  }

  /** The sibling that survives: the one of highest rank. */
  function KeeperOf(defs: map<Id, Definition>, order: seq<Id>, x: Id): Id
  {
    var s := Siblings(defs, order, x);
    if s == [] then x else s[|s| - 1]
  }

  lemma SiblingsAre(defs: map<Id, Definition>, order: seq<Id>, x: Id)
    requires Lists(order, defs) && x in defs
    ensures var lof, s := LadderOf(defs), Siblings(defs, order, x);
            && x in s && NoRepeats(s) && Ascending(defs, s)
            && forall z :: z in s <==> z == x || (x in lof && z in lof && lof[x] == lof[z])
  {
    hide SortByRank, Ascending, LadderOf;
    var lof := LadderOf(defs);
    assert order[..|order|] == order;
    if x in lof {
      InOwnGroup(lof, order, x);
      var g := GroupOf(lof, order, |order|, lof[x]);
      GroupNoRepeats(lof, order, |order|, lof[x]);
      SortAscending(defs, g, |g|);
      assert g[..|g|] == g;
      OnLadder(defs);
    } else {
      SingleAscending(defs, x);
    }
  }

  lemma OnLadder(defs: map<Id, Definition>)
    ensures forall x :: x in LadderOf(defs) ==> x in defs
  {
  }

  lemma SiblingFacts(defs: map<Id, Definition>, order: seq<Id>, x: Id, y: Id)
    requires Lists(order, defs) && x in defs && y in defs
    ensures x in Siblings(defs, order, x) && NoRepeats(Siblings(defs, order, x))
            && Ascending(defs, Siblings(defs, order, x))
    ensures y in Siblings(defs, order, x) <==> Siblings(defs, order, x) == Siblings(defs, order, y)
    ensures y in Siblings(defs, order, x) <==>
              y == x || (x in LadderOf(defs) && y in LadderOf(defs) && LadderOf(defs)[x] == LadderOf(defs)[y])
    ensures forall z :: z in Siblings(defs, order, x) ==> z in defs
  {
    hide Ascending, LadderOf, SortByRank, Lists, NoRepeats;
    SiblingsAre(defs, order, x);
    SiblingsAre(defs, order, y);
    OnLadder(defs);
  }

  lemma SingleAscending(defs: map<Id, Definition>, x: Id)
    ensures Ascending(defs, [x])
  {
  }

  lemma KeeperFacts(defs: map<Id, Definition>, order: seq<Id>, x: Id, y: Id)
    requires Lists(order, defs) && x in defs && y in defs
    ensures KeeperOf(defs, order, x) in defs && KeeperOf(defs, order, x) in Siblings(defs, order, x)
    ensures KeeperOf(defs, order, KeeperOf(defs, order, x)) == KeeperOf(defs, order, x)
    ensures KeeperOf(defs, order, x) == KeeperOf(defs, order, y) <==> y in Siblings(defs, order, x)
  {
    hide Siblings, LadderOf;
    SiblingFacts(defs, order, x, y);
    SiblingFacts(defs, order, y, x);
    SiblingFacts(defs, order, x, KeeperOf(defs, order, x));
    SiblingFacts(defs, order, y, KeeperOf(defs, order, y));
  }

  /** Siblings are the definitions of one app with the same non-empty ladder key; a definition without one is alone. */
  lemma SiblingsMean(defs: map<Id, Definition>, order: seq<Id>, x: Id, y: Id)
    requires Lists(order, defs) && x in defs
    ensures y in Siblings(defs, order, x) <==>
            || y == x
            || (&& y in defs && defs[y].app == defs[x].app
                && defs[x].ladderKey.Some? && defs[x].ladderKey.value != "" && defs[y].ladderKey == defs[x].ladderKey)
  {
    hide Siblings, Ascending, Lists;
    SiblingsAre(defs, order, x);
  }

  /** The survivor has the highest rank of its ladder, NULL counting as zero; among equals it was read last. */
  lemma KeeperIsHighest(defs: map<Id, Definition>, order: seq<Id>, x: Id, y: Id)
    requires Lists(order, defs) && x in defs && y in Siblings(defs, order, x) && y in defs
    ensures var k := KeeperOf(defs, order, x);
            && k in defs
            && (var high := if defs[k].ladderRank.Some? then defs[k].ladderRank.value else 0;
                var low := if defs[y].ladderRank.Some? then defs[y].ladderRank.value else 0;
                low <= high && (low == high && y != k ==> Precedes(order, y, k)))
  {
    var s, k := Siblings(defs, order, x), KeeperOf(defs, order, x);
    SiblingFacts(defs, order, x, x);
    SiblingsStable(defs, order, x);
    hide Siblings, Lists, LadderOf, NoRepeats, Precedes;
    assert s[|s| - 1] in s;
    var i :| 0 <= i < |s| && s[i] == y;
    assert i < |s| - 1 ==> RankAt(defs, s[i]) <= RankAt(defs, s[|s| - 1]);
  }

  lemma SiblingsStable(defs: map<Id, Definition>, order: seq<Id>, x: Id)
    ensures Stable(defs, order, Siblings(defs, order, x))
  {
    hide RankAt, SortByRank, LadderOf;
    var lof := LadderOf(defs);
    if x in lof {
      var g := GroupOf(lof, order, |order|, lof[x]);
      SortStable(defs, g, |g|);
      forall a, b | Precedes(g, a, b)
        ensures Precedes(order, a, b)
      {
        GroupInOrder(lof, order, |order|, lof[x], a, b);
      }
      hide Precedes;
    }
  }

  lemma {:induction false} GroupInOrder(lof: map<Id, Ladder>, order: seq<Id>, n: nat, l: Ladder, a: Id, b: Id)
    requires n <= |order| && Precedes(GroupOf(lof, order, n, l), a, b)
    ensures Precedes(order, a, b)
  {
    var g := GroupOf(lof, order, n, l);
    var u, v :| 0 <= u < v < |g| && g[u] == a && g[v] == b;
    var init := GroupOf(lof, order, n - 1, l);
    if v < |init| {
      assert init[u] == a && init[v] == b;
      GroupInOrder(lof, order, n - 1, l, a, b);
    } else {
      assert b == order[n - 1] && init[u] == a && a in init;
      var w :| 0 <= w < n - 1 && order[w] == a;
    }
  }

  // ----- the rewritten definition

  function TierFor(d: Definition): TierItem
  {
    Tier(Some(if d.severity != "" then d.severity else "warning"), Some(d.expression), None)
  }

  function TiersFor(defs: map<Id, Definition>, s: seq<Id>): (ts: seq<TierItem>)
    ensures |ts| == |s| && forall i :: 0 <= i < |s| && s[i] in defs ==> ts[i] == TierFor(defs[s[i]])
  {
    seq(|s|, i requires 0 <= i < |s| => if s[i] in defs then TierFor(defs[s[i]]) else NotATier)
  }

  const SUFFIXES: seq<string> := [" Critical", " Warning", " Warn", " Crit"]

  function StripSuffix(name: string, k: nat): string
    requires k <= |SUFFIXES|
    decreases |SUFFIXES| - k
  {
    if k == |SUFFIXES| then name
    else if |SUFFIXES[k]| <= |name| && name[|name| - |SUFFIXES[k]|..] == SUFFIXES[k] then name[..|name| - |SUFFIXES[k]|]
    else StripSuffix(name, k + 1)
  }

  /** The first matching severity suffix is dropped from the keeper's name. */
  function MergedName(name: string): string
  {
    StripSuffix(name, 0)
  }

  predicate EndsWith(name: string, suffix: string)
  {
    |suffix| <= |name| && name[|name| - |suffix|..] == suffix
  }

  /** One severity suffix goes, the first of the four that matches; any other name stays. */
  lemma MergedNameIs(name: string)
    ensures EndsWith(name, " Critical") ==> name == MergedName(name) + " Critical"
    ensures EndsWith(name, " Warning") ==> name == MergedName(name) + " Warning"
    ensures EndsWith(name, " Warn") ==> name == MergedName(name) + " Warn"
    ensures EndsWith(name, " Crit") ==> name == MergedName(name) + " Crit"
    ensures !EndsWith(name, " Critical") && !EndsWith(name, " Warning") && !EndsWith(name, " Warn")
            && !EndsWith(name, " Crit")
            ==> MergedName(name) == name
  {
    LastLetters(name);
    SuffixSteps(name);
    hide StripSuffix, EndsWith;
  }

  predicate Drops(name: string, k: nat)
  {
    k < |SUFFIXES| && EndsWith(name, SUFFIXES[k])
  }

  lemma SuffixSteps(name: string)
    ensures Drops(name, 0) ==> name == StripSuffix(name, 0) + SUFFIXES[0]
    ensures !Drops(name, 0) && Drops(name, 1) ==> name == StripSuffix(name, 0) + SUFFIXES[1]
    ensures !Drops(name, 0) && !Drops(name, 1) && Drops(name, 2) ==> name == StripSuffix(name, 0) + SUFFIXES[2]
    ensures !Drops(name, 0) && !Drops(name, 1) && !Drops(name, 2) && Drops(name, 3) ==>
              name == StripSuffix(name, 0) + SUFFIXES[3]
    ensures !Drops(name, 0) && !Drops(name, 1) && !Drops(name, 2) && !Drops(name, 3) ==> StripSuffix(name, 0) == name
  {
    assert StripSuffix(name, 4) == name;
    SuffixStep(name, 3);
    SuffixStep(name, 2);
    SuffixStep(name, 1);
    SuffixStep(name, 0);
  }

  lemma SuffixStep(name: string, k: nat)
    requires k < |SUFFIXES|
    ensures if Drops(name, k) then name == StripSuffix(name, k) + SUFFIXES[k]
            else StripSuffix(name, k) == StripSuffix(name, k + 1)
  {
  }

  /** No two of the suffixes match the same name: their last letters, or those before, differ. */
  lemma LastLetters(name: string)
    ensures EndsWith(name, " Critical") ==>
              !EndsWith(name, " Warning") && !EndsWith(name, " Warn") && !EndsWith(name, " Crit")
    ensures EndsWith(name, " Warning") ==> !EndsWith(name, " Warn") && !EndsWith(name, " Crit")
    ensures EndsWith(name, " Warn") ==> !EndsWith(name, " Crit")
  {
    EndLetter(name, " Critical");
    EndLetter(name, " Warning");
    EndLetter(name, " Warn");
    EndLetter(name, " Crit");
  }

  lemma EndLetter(name: string, suffix: string)
    ensures suffix != "" && EndsWith(name, suffix) ==> name != "" && name[|name| - 1] == suffix[|suffix| - 1]
  {
    assert suffix != "" && EndsWith(name, suffix) ==> name[|name| - |suffix|..][|suffix| - 1] == name[|name| - 1];
  }

  /** The tiers of all siblings in rank order, under the merged name. */
  function Rewritten(defs: map<Id, Definition>, siblings: seq<Id>, x: Id): Definition
    requires x in defs
  {
    var d := defs[x];
    d.(tiers := TiersFor(defs, siblings), name := if InLadder(d) then MergedName(d.name) else d.name)
  }

  // ----- the tables on the way

  ghost predicate Redirected(before: Db, order: seq<Id>, gone: set<Id>, r: Id, rule: Rule)
    requires r in before.rules
  {
    var was := before.rules[r];
    rule == if was.definition in gone then was.(definition := KeeperOf(before.defs, order, was.definition)) else was
  }

  /** The definitions in `gone` are deleted, those in `done` rewritten, rules follow their keepers, incidents stay. */
  ghost predicate Progress(before: Db, order: seq<Id>, gone: set<Id>, done: set<Id>, db: Db)
  {
    && db.incidents == before.incidents
    && db.rules.Keys == before.rules.Keys
    && (forall r :: r in db.rules ==> r in before.rules && Redirected(before, order, gone, r, db.rules[r]))
    && db.defs.Keys == before.defs.Keys - gone
    && (forall x :: x in db.defs ==>
          && x in before.defs
          && db.defs[x] == if x in done then Rewritten(before.defs, Siblings(before.defs, order, x), x)
                           else before.defs[x])
  }

  ghost function Losers(defs: map<Id, Definition>, order: seq<Id>): (vs: set<Id>)
    ensures forall x :: x in vs ==> x in defs
  {
    set x | x in defs && KeeperOf(defs, order, x) != x
  }

  lemma KeeperIsNoLoser(defs: map<Id, Definition>, order: seq<Id>, x: Id)
    requires Lists(order, defs) && x in defs
    ensures KeeperOf(defs, order, x) in defs && KeeperOf(defs, order, x) !in Losers(defs, order)
  {
    KeeperFacts(defs, order, x, x);
  }

  /** Rules always point at a definition that is still there. */
  lemma ProgressIsSound(before: Db, order: seq<Id>, gone: set<Id>, db: Db)
    requires Sound(before) && Lists(order, before.defs) && gone <= Losers(before.defs, order)
    requires db.incidents == before.incidents && db.rules.Keys == before.rules.Keys
    requires forall r :: r in db.rules ==> r in before.rules && Redirected(before, order, gone, r, db.rules[r])
    requires before.defs.Keys - gone <= db.defs.Keys
    ensures Sound(db)
  {
    hide KeeperOf, Losers, Lists;
    forall r | r in db.rules
      ensures db.rules[r].definition in db.defs
    {
      if before.rules[r].definition in gone {
        KeeperIsNoLoser(before.defs, order, before.rules[r].definition);
      }
    }
  }

  lemma ProgressSound(before: Db, order: seq<Id>, gone: set<Id>, done: set<Id>, db: Db)
    requires Sound(before) && Lists(order, before.defs) && gone <= Losers(before.defs, order)
    requires Progress(before, order, gone, done, db)
    ensures Sound(db)
  {
    hide Sound, Losers, Lists, Redirected, Rewritten, KeeperOf, Siblings;
    ProgressIsSound(before, order, gone, db);
  }

  lemma RepointStep(before: Db, order: seq<Id>, gone: set<Id>, victims: set<Id>, keeper: Id, r: Id, rule: Rule)
    requires Lists(order, before.defs) && gone <= Losers(before.defs, order) && victims <= Losers(before.defs, order)
    requires victims !! gone && forall v :: v in victims ==> KeeperOf(before.defs, order, v) == keeper
    requires r in before.rules && Redirected(before, order, gone, r, rule)
    ensures Redirected(before, order, gone + victims, r,
                       if rule.definition in victims then rule.(definition := keeper) else rule)
    ensures (if rule.definition in victims then keeper else rule.definition) !in victims
  {
    hide KeeperOf, Losers, Lists;
    var was := before.rules[r].definition;
    if was in gone {
      KeeperIsNoLoser(before.defs, order, was);
    }
    if was in victims {
      KeeperIsNoLoser(before.defs, order, was);
    }
  }

  /** The three statements that fold one ladder keep the tables healthy and lose no rule and no incident. */
  lemma FoldStates(before: Db, order: seq<Id>, gone: set<Id>, done: set<Id>, db: Db, keeper: Id, victims: set<Id>)
    requires Sound(before) && Lists(order, before.defs) && gone <= Losers(before.defs, order)
    requires Progress(before, order, gone, done, db) && UniqueNames(db.defs)
    requires keeper in before.defs && keeper !in gone && keeper !in victims && victims !! gone && victims !! done
    requires victims <= Losers(before.defs, order) && forall v :: v in victims ==>
               KeeperOf(before.defs, order, v) == keeper
    requires !NameTaken(db.defs, keeper, Rewritten(before.defs, Siblings(before.defs, order, keeper), keeper))
    ensures var s1 := UpdateDefinition(db, keeper,
                                       Rewritten(before.defs, Siblings(before.defs, order, keeper), keeper));
            var s2 := RepointRules(s1, victims, keeper);
            var s3 := DeleteDefinitions(s2, victims);
            && Integral(true, s1) && Integral(true, s2) && Integral(true, s3)
            && Progress(before, order, gone + victims, done + {keeper}, s3)
            && s3.rules == s2.rules && s3.incidents == s2.incidents
  {
    hide KeeperOf, Losers, Lists, Siblings, Rewritten, Redirected, Sound;
    var s1 := UpdateDefinition(db, keeper, Rewritten(before.defs, Siblings(before.defs, order, keeper), keeper));
    var s2 := RepointRules(s1, victims, keeper);
    ProgressIsSound(before, order, gone, s1);
    RenameKeepsUnique(db.defs, keeper, s1.defs[keeper]);
    forall r | r in s2.rules
      ensures Redirected(before, order, gone + victims, r, s2.rules[r]) && s2.rules[r].definition !in victims
    {
      RepointStep(before, order, gone, victims, keeper, r, db.rules[r]);
    }
    ProgressIsSound(before, order, gone + victims, s2);
    DeleteUnused(s2, victims);
    ProgressIsSound(before, order, gone + victims, DeleteDefinitions(s2, victims));
  }

  lemma RenameKeepsUnique(defs: map<Id, Definition>, x: Id, d: Definition)
    requires UniqueNames(defs) && !NameTaken(defs, x, d)
    ensures UniqueNames(defs[x := d])
  {
  }

  /** No rule points at the definitions, so the cascade deletes nothing. */
  lemma DeleteUnused(db: Db, ids: set<Id>)
    requires forall r :: r in db.rules ==> db.rules[r].definition !in ids
    ensures DeleteDefinitions(db, ids) == db.(defs := db.defs - ids)
  {
    assert (set r | r in db.rules && db.rules[r].definition in ids) == {};
    var orphans := set r | r in db.rules && db.rules[r].definition in ids;
    assert (set i | i in db.incidents && db.incidents[i].rule in orphans) == {};
    assert DropIncidents(db.incidents, {}) == db.incidents;
  }

  // ----- bookkeeping over the loop

  /**
   * Once the ladders in `ls` were folded: their losers are gone, their keepers and all single definitions rewritten.
   */
  ghost predicate Handled(before: Db, order: seq<Id>, ls: set<Ladder>, gone: set<Id>, done: set<Id>)
  {
    var lof := LadderOf(before.defs);
    && (forall x :: x in gone <==> x in Losers(before.defs, order) && x in lof && lof[x] in ls)
    && (forall x :: x in done <==> x in before.defs && x !in Losers(before.defs, order) && (x in lof ==> lof[x] in ls))
  }

  ghost predicate IsLadder(before: Db, order: seq<Id>, l: Ladder, siblings: seq<Id>, keeper: Id)
  {
    var lof := LadderOf(before.defs);
    && siblings != [] && keeper == siblings[|siblings| - 1] && NoRepeats(siblings)
    && (forall x :: x in siblings <==> x in lof && lof[x] == l)
    && (forall x :: x in siblings ==> x in before.defs && Siblings(before.defs, order, x) == siblings
                                      && KeeperOf(before.defs, order, x) == keeper)
  }

  lemma LadderIs(before: Db, order: seq<Id>, l: Ladder, group: seq<Id>)
    requires Lists(order, before.defs) && group == GroupOf(LadderOf(before.defs), order, |order|, l) && group != []
    ensures var s := SortByRank(before.defs, group, |group|);
            s != [] && IsLadder(before, order, l, s, s[|s| - 1])
  {
    hide SortByRank, KeeperOf, Siblings, Lists, LadderOf, Ascending;
    var lof, s := LadderOf(before.defs), SortByRank(before.defs, group, |group|);
    assert group[..|group|] == group;
    GroupMembers(before, order, l, group);
    forall x | x in s
      ensures Siblings(before.defs, order, x) == s && KeeperOf(before.defs, order, x) == s[|s| - 1]
    {
      LadderMember(before, order, l, group, x);
    }
    assert s[0] in s;
    SiblingFacts(before.defs, order, s[0], s[0]);
  }

  lemma GroupMembers(before: Db, order: seq<Id>, l: Ladder, group: seq<Id>)
    requires Lists(order, before.defs) && group == GroupOf(LadderOf(before.defs), order, |order|, l)
    ensures forall x :: x in group <==> x in LadderOf(before.defs) && LadderOf(before.defs)[x] == l
    ensures forall x :: x in group ==> x in before.defs
  {
    assert order[..|order|] == order;
  }

  lemma LadderMember(before: Db, order: seq<Id>, l: Ladder, group: seq<Id>, x: Id)
    requires group == GroupOf(LadderOf(before.defs), order, |order|, l)
    requires x in LadderOf(before.defs) && LadderOf(before.defs)[x] == l
    requires group != []
    ensures var s := SortByRank(before.defs, group, |group|);
            Siblings(before.defs, order, x) == s && KeeperOf(before.defs, order, x) == s[|s| - 1]
  {
    hide SortByRank;
  }

  lemma HandledStep(before: Db, order: seq<Id>, ls: set<Ladder>, gone: set<Id>, done: set<Id>, l: Ladder,
                    siblings: seq<Id>, keeper: Id)
    requires Handled(before, order, ls, gone, done) && l !in ls && IsLadder(before, order, l, siblings, keeper)
    ensures var victims := set x | x in siblings && x != keeper;
            && Handled(before, order, ls + {l}, gone + victims, done + {keeper})
            && keeper in before.defs && keeper !in gone && victims !! gone && victims !! done
            && gone <= Losers(before.defs, order) && victims <= Losers(before.defs, order)
            && KeeperOf(before.defs, order, keeper) == keeper && InLadder(before.defs[keeper])
            && Siblings(before.defs, order, keeper) == siblings
            && (forall v :: v in victims ==> KeeperOf(before.defs, order, v) == keeper)
            && (forall y :: y in done ==> KeeperOf(before.defs, order, y) == y)
  {
    hide KeeperOf, Siblings;
    assert keeper in siblings;
  }

  // ----- merged names

  /** With the ladders in `ls` folded, definition `y` still exists under the name that `x` is about to take. */
  ghost predicate Clash(before: Db, order: seq<Id>, ls: set<Ladder>, x: Id, y: Id)
    requires x in before.defs
  {
    var lof := LadderOf(before.defs);
    && y in before.defs && y != x && before.defs[y].app == before.defs[x].app
    && if y in lof && lof[y] in ls
       then KeeperOf(before.defs, order, y) == y && MergedName(before.defs[y].name) == MergedName(before.defs[x].name)
       else before.defs[y].name == MergedName(before.defs[x].name)
  }

  /** Nothing is in the way of the merged name of ladder `l` once the ladders in `ls` are folded. */
  ghost predicate ClashFree(before: Db, order: seq<Id>, ls: set<Ladder>, l: Ladder)
  {
    var lof := LadderOf(before.defs);
    forall x, y :: x in lof && lof[x] == l && KeeperOf(before.defs, order, x) == x ==> !Clash(before, order, ls, x, y)
  }

  /** Every ladder, at its turn, finds its merged name free. */
  ghost predicate FoldsCleanly(before: Db, order: seq<Id>)
  {
    var keys := KeyOrder(LadderOf(before.defs), order, |order|);
    forall k :: 0 <= k < |keys| ==> ClashFree(before, order, Seen(keys, k), keys[k])
  }

  /** The unique index rejects the merged name exactly when some definition clashes. */
  lemma TakenMeansClash(before: Db, order: seq<Id>, ls: set<Ladder>, gone: set<Id>, done: set<Id>, db: Db, x: Id)
    requires Handled(before, order, ls, gone, done) && Progress(before, order, gone, done, db)
    requires x in before.defs && InLadder(before.defs[x])
    ensures NameTaken(db.defs, x, Rewritten(before.defs, Siblings(before.defs, order, x), x)) <==>
            exists y :: Clash(before, order, ls, x, y)
  {
    hide KeeperOf, Siblings, MergedName, TiersFor, Redirected;
    forall y
      ensures Clash(before, order, ls, x, y) <==>
              && y in db.defs && y != x && db.defs[y].app == before.defs[x].app
              && db.defs[y].name == MergedName(before.defs[x].name)
    {
    }
  }

  /**
   * A ladder blocks itself when another sibling already bears the merged name: the siblings are deleted only after
   * the renaming.
   */
  lemma PlainSiblingBlocks(before: Db, order: seq<Id>, x: Id, y: Id)
    requires Lists(order, before.defs) && x in before.defs && y in Siblings(before.defs, order, x) && y != x
    requires InLadder(before.defs[x]) && KeeperOf(before.defs, order, x) == x
    requires y in before.defs && before.defs[y].name == MergedName(before.defs[x].name)
    ensures !FoldsCleanly(before, order)
  {
    hide KeeperOf, MergedName, Siblings;
    var lof := LadderOf(before.defs);
    SiblingFacts(before.defs, order, x, y);
    var keys := KeyOrder(lof, order, |order|);
    KeyOrderLists(lof, order, |order|);
    var i :| 0 <= i < |order| && order[i] == x;
    assert lof[order[i]] in keys;
    var k :| 0 <= k < |keys| && keys[k] == lof[x];
    SeenStep(keys, k);
    assert Clash(before, order, Seen(keys, k), x, y);
  }

  lemma CriticalSuffixDropped(name: string)
    ensures MergedName(name + " Critical") == name
  {
    var full := name + " Critical";
    assert full[|full| - |SUFFIXES[0]|..] == SUFFIXES[0] && full[..|full| - |SUFFIXES[0]|] == name;
  }

  /** Two definitions of one app on the same ladder, "X" at rank one and "X Critical" at rank two. */
  function PlainAndCritical(name: string): Db
  {
    Db(map[1 := Definition(7, name, "cpu > 80", "warning", Some("cpu"), Some(1), None, []),
           2 := Definition(7, name + " Critical", "cpu > 95", "critical", Some("cpu"), Some(2), None, [])],
       map[], map[])
  }

  lemma PairGrouped(lof: map<Id, Ladder>, x: Id, y: Id)
    requires x in lof && y in lof && lof[x] == lof[y]
    ensures GroupOf(lof, [x, y], 2, lof[x]) == [x, y]
  {
    assert GroupOf(lof, [x, y], 0, lof[x]) == [];
    assert GroupOf(lof, [x, y], 1, lof[x]) == [x];
  }

  lemma PairSorted(defs: map<Id, Definition>, x: Id, y: Id)
    requires RankAt(defs, x) <= RankAt(defs, y)
    ensures SortByRank(defs, [x, y], 2) == [x, y]
  {
    hide RankAt;
    assert SortByRank(defs, [x, y], 0) == [];
    assert SortByRank(defs, [x, y], 1) == [x];
  }

  lemma PlainAndCriticalSorted(name: string)
    ensures var defs := PlainAndCritical(name).defs;
            Siblings(defs, [1, 2], 2) == [1, 2] && KeeperOf(defs, [1, 2], 2) == 2
  {
    var defs := PlainAndCritical(name).defs;
    assert LadderOf(defs)[1] == LadderOf(defs)[2];
    PairGrouped(LadderOf(defs), 1, 2);
    PairSorted(defs, 1, 2);
  }

  lemma PlainAndCriticalInOrder(name: string)
    ensures var before := PlainAndCritical(name);
            Sound(before) && UniqueNames(before.defs) && Lists([1, 2], before.defs)
  {
    assert |name + " Critical"| == |name| + 9;
  }

  /** Tables in order, for any name X, that the migration cannot get through. */
  lemma PlainAndCriticalBlocks(name: string)
    ensures var before := PlainAndCritical(name);
            Sound(before) && UniqueNames(before.defs) && Lists([1, 2], before.defs) && !FoldsCleanly(before, [1, 2])
  {
    hide MergedName, Siblings, FoldsCleanly, KeeperOf, Sound, UniqueNames, Lists;
    PlainAndCriticalInOrder(name);
    PlainAndCriticalSorted(name);
    CriticalSuffixDropped(name);
    PlainSiblingBlocks(PlainAndCritical(name), [1, 2], 2, 1);
  }

  lemma LadderClash(before: Db, order: seq<Id>, ls: set<Ladder>, l: Ladder, siblings: seq<Id>, keeper: Id)
    requires IsLadder(before, order, l, siblings, keeper)
    ensures keeper in before.defs
    ensures ClashFree(before, order, ls, l) <==> !exists y :: Clash(before, order, ls, keeper, y)
  {
    hide KeeperOf, Siblings, MergedName, Clash;
    assert keeper in siblings;
  }

  // ----- the migration

  /** Rewrite the keeper and, if there are other siblings, move their rules over and delete them. */
  method FoldStatements(db: Db, keeper: Id, merged: Definition, victims: set<Id>) returns (db': Db, ghost log: seq<Sql>)
    requires var s1 := UpdateDefinition(db, keeper, merged);
             var s2 := RepointRules(s1, victims, keeper);
             Integral(true, db) && Integral(true, s1) && Integral(true, s2)
             && Integral(true, DeleteDefinitions(s2, victims))
    ensures db' == DeleteDefinitions(RepointRules(UpdateDefinition(db, keeper, merged), victims, keeper), victims)
    ensures log == [SaveDefinition(keeper, merged)] + if victims == {} then []
                                                      else [MoveRules(victims, keeper), DropDefinitions(victims)]
    ensures Leads(true, db, log, db')
  {
    hide UpdateDefinition, RepointRules, DeleteDefinitions, Integral, Leads;
    db' := UpdateDefinition(db, keeper, merged);
    log := [SaveDefinition(keeper, merged)];
    if victims == {} {
      NothingToFold(db', keeper);
      LeadsByOne(true, db, log[0]);
      assert log + [] == log;
    } else {
      db' := RepointRules(db', victims, keeper);
      db' := DeleteDefinitions(db', victims);
      log := [log[0], MoveRules(victims, keeper), DropDefinitions(victims)];
      LeadsByThree(true, db, log[0], log[1], log[2]);
    }
  }

  method FoldLadder(db: Db, defs: map<Id, Definition>, group: seq<Id>, l: Ladder,
                    ghost before: Db, ghost order: seq<Id>, ghost ls: set<Ladder>, ghost gone: set<Id>,
                    ghost done: set<Id>)
    returns (ok: bool, db': Db, ghost gone': set<Id>, ghost done': set<Id>, ghost log: seq<Sql>)
    requires Sound(before) && Lists(order, before.defs) && defs == before.defs
    requires group == GroupOf(LadderOf(defs), order, |order|, l) && group != [] && l !in ls
    requires Handled(before, order, ls, gone, done) && Progress(before, order, gone, done, db) && UniqueNames(db.defs)
    ensures Leads(true, db, log, db')
    ensures ok <==> ClashFree(before, order, ls, l)
    ensures ok ==> && Handled(before, order, ls + {l}, gone', done') && Progress(before, order, gone', done', db')
                   && UniqueNames(db'.defs)
  {
    hide Progress, Sound, Handled, IsLadder, KeeperOf, Lists, Siblings, Losers, ClashFree, Clash, Rewritten,
         NameTaken, UniqueNames, InLadder, UpdateDefinition, RepointRules, DeleteDefinitions, Leads;
    LadderIs(before, order, l, group);
    var siblings := SortByRank(defs, group, |group|);
    var keeper := siblings[|siblings| - 1];
    var victims := set x | x in siblings && x != keeper;
    HandledStep(before, order, ls, gone, done, l, siblings, keeper);
    db', gone', done', log := db, gone, done, [];
    ProgressSound(before, order, gone, done, db);
    LeadsNowhere(true, db);
    var merged := Rewritten(defs, siblings, keeper);
    LadderClash(before, order, ls, l, siblings, keeper);
    TakenMeansClash(before, order, ls, gone, done, db, keeper);
    ok := !NameTaken(db.defs, keeper, merged);
    if ok {
      FoldStates(before, order, gone, done, db, keeper, victims);
      db', log := FoldStatements(db, keeper, merged, victims);
      gone', done' := gone + victims, done + {keeper};
    }
  }

  lemma NothingToFold(db: Db, keeper: Id)
    ensures DeleteDefinitions(RepointRules(db, {}, keeper), {}) == db
  {
    assert RepointRules(db, {}, keeper).rules == db.rules;
    DeleteUnused(db, {});
  }

  /** Definitions on no ladder get a one-tier list. */
  method RewriteSingles(before: Db, order: seq<Id>) returns (db: Db, ghost done: set<Id>, ghost log: seq<Sql>)
    requires Sound(before) && UniqueNames(before.defs) && Lists(order, before.defs)
    ensures Handled(before, order, {}, {}, done) && Progress(before, order, {}, done, db) && UniqueNames(db.defs)
    ensures Leads(true, before, log, db)
  {
    hide Progress, Sound, Handled, UniqueNames, Leads;
    db, done, log := before, {}, [];
    LeadsNowhere(true, before);
    NothingDone(before, order);
    for k := 0 to |order|
      invariant SinglesDone(before, order, k, done)
      invariant Progress(before, order, {}, done, db) && UniqueNames(db.defs) && Leads(true, before, log, db)
    {
      var x := order[k];
      assert order[..k + 1] == order[..k] + [x];
      if !InLadder(before.defs[x]) {
        SingleStep(before, order, done, db, x);
        ghost var sql := SaveDefinition(x, Rewritten(before.defs, [x], x));
        LeadsByOne(true, db, sql);
        LeadsOn(true, before, log, db, [sql], Execute(db, sql));
        db := UpdateDefinition(db, x, Rewritten(before.defs, [x], x));
        log := log + [sql];
        done := done + {x};
      }
    }
    SinglesFinished(before, order, done);
  }

  ghost predicate SinglesDone(before: Db, order: seq<Id>, k: nat, done: set<Id>)
    requires k <= |order|
  {
    forall x :: x in done <==> x in order[..k] && x in before.defs && !InLadder(before.defs[x])
  }

  lemma NothingDone(before: Db, order: seq<Id>)
    ensures Progress(before, order, {}, {}, before)
  {
  }

  lemma SingleStep(before: Db, order: seq<Id>, done: set<Id>, db: Db, x: Id)
    requires Sound(before) && Lists(order, before.defs) && Progress(before, order, {}, done, db) && UniqueNames(db.defs)
    requires x in before.defs && !InLadder(before.defs[x])
    ensures var db' := UpdateDefinition(db, x, Rewritten(before.defs, [x], x));
            Progress(before, order, {}, done + {x}, db') && Integral(true, db) && Integral(true, db')
  {
    hide Sound, Lists, TiersFor, KeeperOf;
    ProgressIsSound(before, order, {}, db);
    ProgressIsSound(before, order, {}, UpdateDefinition(db, x, Rewritten(before.defs, [x], x)));
  }

  lemma SinglesFinished(before: Db, order: seq<Id>, done: set<Id>)
    requires Lists(order, before.defs) && SinglesDone(before, order, |order|, done)
    ensures Handled(before, order, {}, {}, done)
  {
    assert order[..|order|] == order;
    forall x | x in before.defs && x !in LadderOf(before.defs)
      ensures KeeperOf(before.defs, order, x) == x
    {
    }
    hide KeeperOf;
  }

  /** The folded tables: losers gone, everyone else rewritten, rules following their keepers, incidents untouched. */
  ghost predicate Folded(before: Db, order: seq<Id>, db: Db)
  {
    && db.incidents == before.incidents
    && db.rules.Keys == before.rules.Keys
    && (forall r :: r in db.rules ==>
          && r in before.rules && before.rules[r].definition in before.defs
          && db.rules[r] == before.rules[r].(definition := KeeperOf(before.defs, order, before.rules[r].definition))
          && db.rules[r].definition in db.defs)
    && db.defs.Keys == before.defs.Keys - Losers(before.defs, order)
    && (forall x :: x in db.defs ==>
          x in before.defs && db.defs[x] == Rewritten(before.defs, Siblings(before.defs, order, x), x))
  }

  /**
   * `upgrade`. None stands for the unique-name violation that aborts the transaction; integrity holds after every
   * statement.
   */
  method Upgrade(before: Db, order: seq<Id>) returns (res: Option<Db>, ghost log: seq<Sql>)
    requires Sound(before) && UniqueNames(before.defs) && Lists(order, before.defs)
    ensures Leads(true, before, log, if res.Some? then res.value else After(before, log, |log|))
    ensures res.Some? <==> FoldsCleanly(before, order)
    ensures res.Some? ==> Folded(before, order, res.value) && Sound(res.value)
  {
    hide Progress, Sound, Handled, Folded, Grouped, UniqueNames, ClashFree, LadderOf, KeyOrder, Leads, After;
    var keys, groups := GroupRows(LadderOf(before.defs), order);
    ghost var gone, done := {}, {};
    var db;
    db, done, log := RewriteSingles(before, order);
    SeenAll(keys);
    for k := 0 to |keys|
      invariant Leads(true, before, log, db) && forall j :: 0 <= j < k ==>
                  ClashFree(before, order, Seen(keys, j), keys[j])
      invariant Handled(before, order, Seen(keys, k), gone, done) && Progress(before, order, gone, done, db)
                && UniqueNames(db.defs)
    {
      GroupIs(LadderOf(before.defs), order, groups, keys[k]);
      SeenStep(keys, k);
      var ok;
      ghost var steps;
      ghost var was := db;
      ok, db, gone, done, steps := FoldLadder(db, before.defs, groups[keys[k]], keys[k], before, order, Seen(keys, k),
                                              gone, done);
      LeadsOn(true, before, log, was, steps, db);
      log := log + steps;
      if !ok {
        LeadsTo(true, before, log, db);
        return None, log;
      }
    }
    Finished(before, order, keys, groups, gone, done, db);
    res := Some(db);
  }

  lemma Finished(before: Db, order: seq<Id>, keys: seq<Ladder>, groups: map<Ladder, seq<Id>>, gone: set<Id>,
                 done: set<Id>, db: Db)
    requires Sound(before) && Lists(order, before.defs) && Grouped(LadderOf(before.defs), order, |order|, groups)
    requires forall l :: l in keys <==> l in groups
    requires Handled(before, order, Seen(keys, |keys|), gone, done) && Progress(before, order, gone, done, db)
    ensures Folded(before, order, db) && Sound(db)
  {
    hide KeeperOf, Siblings, Rewritten;
    AllLaddersSeen(before, order, keys, groups);
    LosersAreOnLadders(before, order);
    assert gone == Losers(before.defs, order);
    ProgressIsSound(before, order, gone, db);
    forall r | r in db.rules
      ensures db.rules[r] == before.rules[r].(definition := KeeperOf(before.defs, order, before.rules[r].definition))
    {
    }
  }

  lemma AllLaddersSeen(before: Db, order: seq<Id>, keys: seq<Ladder>, groups: map<Ladder, seq<Id>>)
    requires Lists(order, before.defs) && Grouped(LadderOf(before.defs), order, |order|, groups)
    requires forall l :: l in keys <==> l in groups
    ensures forall x :: x in LadderOf(before.defs) ==> LadderOf(before.defs)[x] in Seen(keys, |keys|)
  {
    SeenAll(keys);
    forall x | x in LadderOf(before.defs)
      ensures LadderOf(before.defs)[x] in keys
    {
      InOwnGroup(LadderOf(before.defs), order, x);
    }
  }

  lemma LosersAreOnLadders(before: Db, order: seq<Id>)
    ensures forall x :: x in Losers(before.defs, order) ==> x in LadderOf(before.defs)
  {
  }

  // ----- meaning

  function ThresholdOf(d: Definition): Threshold
  {
    Threshold(if d.severity != "" then d.severity else "warning", d.expression)
  }

  function ThresholdsOf(defs: map<Id, Definition>, s: seq<Id>): (ts: seq<Threshold>)
    requires forall i :: 0 <= i < |s| ==> s[i] in defs
    ensures |ts| == |s| && forall i :: 0 <= i < |s| ==> ts[i] == ThresholdOf(defs[s[i]])
  {
    seq(|s|, i requires 0 <= i < |s| => ThresholdOf(defs[s[i]]))
  }

  /** Sibling `x` fires and no firing sibling outranks it: the one alert the old engine lets through. */
  ghost predicate IsTopFiring(defs: map<Id, Definition>, s: seq<Id>, env: Readings, x: Id)
  {
    && x in s && x in defs && env(defs[x].expression)
    && forall y :: y in s && y in defs && y != x && env(defs[y].expression) ==> RankAt(defs, y) < RankAt(defs, x)
  }

  /** The severity of the highest-ranked firing sibling is that of the last tier that matches. */
  lemma {:induction false} TopFiringIsLastTier(defs: map<Id, Definition>, s: seq<Id>, env: Readings, x: Id, n: nat)
    requires Ascending(defs, s) && NoRepeats(s) && (forall i :: 0 <= i < |s| ==> s[i] in defs)
    requires IsTopFiring(defs, s, env, x) && n <= |s| && x in s[..n]
    ensures LastFiring(ThresholdsOf(defs, s), n, env) == Some(ThresholdOf(defs[x]).severity)
  {
    hide RankAt;
    var last := s[n - 1];
    assert s[..n] == s[..n - 1] + [last];
    if x != last {
      var i :| 0 <= i < n - 1 && s[i] == x;
      assert RankAt(defs, s[i]) <= RankAt(defs, last);
      TopFiringIsLastTier(defs, s, env, x, n - 1);
    }
  }
}
