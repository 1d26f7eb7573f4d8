/** The zy5z6a7b8c9d migration: at most one incident rule per alert definition. */
module Dedupe {
  import opened Text
  import opened Schema
  import opened Grouping

  // ----- the keeper of a group

  const SUFFIX := "Promote to Event"

  /** Lower wins: no suffix, then a ladder, then the oldest, then the lowest id. */
  datatype SortKey = SortKey(hasSuffix: bool, noLadder: bool, createdAt: int, id: Id)

  function KeyOf(rules: map<Id, Rule>, r: Id): SortKey
    requires r in rules
  {
    SortKey(Contains(if rules[r].name.Some? then rules[r].name.value else "", SUFFIX), !rules[r].hasLadder,
            rules[r].createdAt, r)
  }

  predicate Before(a: SortKey, b: SortKey)
  {
    if a.hasSuffix != b.hasSuffix then b.hasSuffix
    else if a.noLadder != b.noLadder then b.noLadder
    else if a.createdAt != b.createdAt then a.createdAt < b.createdAt
    else a.id < b.id
  }

  /** `_pick_keeper`: the first rule of the sorted group. */
  function PickKeeper(rules: map<Id, Rule>, group: seq<Id>, n: nat): (k: Id)
    requires 0 < n <= |group| && forall i :: 0 <= i < n ==> group[i] in rules
    ensures k in group[..n]
    ensures forall i :: 0 <= i < n ==> group[i] == k || Before(KeyOf(rules, k), KeyOf(rules, group[i]))
  {
    if n == 1 then group[0] else
      var k := PickKeeper(rules, group, n - 1);
      assert group[..n] == group[..n - 1] + [group[n - 1]];
      if Before(KeyOf(rules, group[n - 1]), KeyOf(rules, k)) then group[n - 1] else k
  }

  // ----- grouping

  /** Rules are grouped by the definition they point at. */
  function DefinitionOf(rules: map<Id, Rule>): map<Id, Id>
  {
    map r | r in rules :: rules[r].definition
  }

  function RulesOf(rules: map<Id, Rule>, order: seq<Id>, d: Id): (g: seq<Id>)
    ensures forall r :: r in g <==> r in order && r in rules && rules[r].definition == d
  {
    assert order[..|order|] == order;
    GroupOf(DefinitionOf(rules), order, |order|, d)
  }

  /** The rule that survives in `r`'s group. */
  ghost function KeeperOf(rules: map<Id, Rule>, order: seq<Id>, r: Id): Id
  {
    if r !in rules then r else
      var g := RulesOf(rules, order, rules[r].definition);
      if g == [] then r else PickKeeper(rules, g, |g|)
  }

  ghost function Victims(rules: map<Id, Rule>, order: seq<Id>): (vs: set<Id>)
    ensures forall r :: r in vs ==> r in rules
  {
    set r | r in rules && KeeperOf(rules, order, r) != r
  }

  /** A keeper keeps itself, and two rules share a keeper exactly when they share a definition. */
  lemma KeeperFacts(rules: map<Id, Rule>, order: seq<Id>, r: Id, s: Id)
    requires Lists(order, rules) && r in rules && s in rules
    ensures KeeperOf(rules, order, KeeperOf(rules, order, r)) == KeeperOf(rules, order, r)
    ensures KeeperOf(rules, order, r) == KeeperOf(rules, order, s) <==> rules[r].definition == rules[s].definition
    ensures KeeperOf(rules, order, r) in rules && rules[KeeperOf(rules, order, r)].definition == rules[r].definition
  {
    KeeperInGroup(rules, order, r);
    KeeperInGroup(rules, order, s);
  }

  lemma KeeperInGroup(rules: map<Id, Rule>, order: seq<Id>, r: Id)
    requires Lists(order, rules) && r in rules
    ensures KeeperOf(rules, order, r) in rules && rules[KeeperOf(rules, order, r)].definition == rules[r].definition
  {
    var g := RulesOf(rules, order, rules[r].definition);
    assert g[..|g|] == g;
  }

  // ----- companions

  predicate Mentions(companions: Companions, c: Id)
  {
    companions.Listed? && c in companions.ids
  }

  ghost predicate IsLiveCompanion(rules: map<Id, Rule>, defs: map<Id, Definition>, group: seq<Id>, n: nat, c: Id)
    requires n <= |group|
  {
    c in defs && exists i :: 0 <= i < n && group[i] in rules && Mentions(rules[group[i]].companions, c)
  }

  /** `union` after the first `m` ids of one rule's list. */
  function Scrubbed(union: seq<Id>, ids: seq<Id>, m: nat, defs: map<Id, Definition>): seq<Id>
    requires m <= |ids|
  {
    if m == 0 then union else
      var u, c := Scrubbed(union, ids, m - 1, defs), ids[m - 1];
      if c in u || c !in defs then u else u + [c]
  }

  /** The companions of the first `n` rules of a group, in order of first appearance. */
  function CompanionUnion(rules: map<Id, Rule>, defs: map<Id, Definition>, group: seq<Id>, n: nat): seq<Id>
    requires n <= |group|
  {
    if n == 0 then [] else
      var u, r := CompanionUnion(rules, defs, group, n - 1), group[n - 1];
      if r !in rules || rules[r].companions.NotAList? then u
      else Scrubbed(u, rules[r].companions.ids, |rules[r].companions.ids|, defs)
  }

  lemma {:induction false} ScrubbedMeans(union: seq<Id>, ids: seq<Id>, m: nat, defs: map<Id, Definition>)
    requires m <= |ids| && NoRepeats(union)
    ensures NoRepeats(Scrubbed(union, ids, m, defs))
    ensures forall c :: c in Scrubbed(union, ids, m, defs) <==> c in union || (c in defs && c in ids[..m])
  {
    if m > 0 {
      ScrubbedMeans(union, ids, m - 1, defs);
      assert ids[..m] == ids[..m - 1] + [ids[m - 1]];
    }
  }

  /** The union holds exactly the live ids some rule of the group lists, each once. */
  lemma {:induction false} CompanionUnionMeans(rules: map<Id, Rule>, defs: map<Id, Definition>, group: seq<Id>, n: nat)
    requires n <= |group|
    ensures NoRepeats(CompanionUnion(rules, defs, group, n))
    ensures forall c :: c in CompanionUnion(rules, defs, group, n) <==> IsLiveCompanion(rules, defs, group, n, c)
  {
    if n > 0 {
      CompanionUnionMeans(rules, defs, group, n - 1);
      var u, r := CompanionUnion(rules, defs, group, n - 1), group[n - 1];
      if r in rules && rules[r].companions.Listed? {
        var ids := rules[r].companions.ids;
        ScrubbedMeans(u, ids, |ids|, defs);
        assert ids[..|ids|] == ids;
      }
    }
  }

  method UnionCompanions(rules: map<Id, Rule>, defs: map<Id, Definition>, group: seq<Id>) returns (union: seq<Id>)
    requires forall i :: 0 <= i < |group| ==> group[i] in rules
    ensures union == CompanionUnion(rules, defs, group, |group|)
  {
    union := [];
    var seen: set<Id> := {};
    for n := 0 to |group|
      invariant union == CompanionUnion(rules, defs, group, n) && forall c :: c in union <==> c in seen
    {
      var raw := rules[group[n]].companions;
      if raw.Listed? {
        ghost var before := union;
        for m := 0 to |raw.ids|
          invariant union == Scrubbed(before, raw.ids, m, defs) && forall c :: c in union <==> c in seen
        {
          var c := raw.ids[m];
          if c !in seen && c in defs {
            seen := seen + {c};
            union := union + [c];
          }
        }
      }
    }
  }

  function Packed(union: seq<Id>): Companions
  {
    if union == [] then NotAList else Listed(union)
  }

  // ----- the incident table while victims are being removed

  predicate Doomed(incidents: map<Id, Incident>, gone: set<Id>, i: Id)
  {
    i in incidents && incidents[i].rule in gone && IsOpen(incidents[i])
  }

  /** An incident once the rules in `gone` are gone: moved to its group's keeper, its parent forgotten if deleted. */
  ghost function Moved(before: Db, order: seq<Id>, gone: set<Id>, inc: Incident): Incident
  {
    inc.(rule := if inc.rule in gone then KeeperOf(before.rules, order, inc.rule) else inc.rule,
         parent := if inc.parent.Some? && Doomed(before.incidents, gone, inc.parent.value) then None else inc.parent)
  }

  ghost function IncidentsAfter(before: Db, order: seq<Id>, gone: set<Id>): map<Id, Incident>
  {
    map i | i in before.incidents && !Doomed(before.incidents, gone, i) ::
      Moved(before, order, gone, before.incidents[i])
  }

  lemma MovedRule(before: Db, order: seq<Id>, gone: set<Id>, v: Id, inc: Incident)
    requires Lists(order, before.rules) && gone <= Victims(before.rules, order)
    requires v in Victims(before.rules, order) && v !in gone
    ensures Moved(before, order, gone, inc).rule == v <==> inc.rule == v
  {
    if inc.rule in gone {
      KeeperFacts(before.rules, order, inc.rule, inc.rule);
    }
  }

  /** Deleting a victim's open incidents and re-pointing the rest is one more step of `IncidentsAfter`. */
  lemma VictimStep(before: Db, order: seq<Id>, gone: set<Id>, v: Id)
    requires Lists(order, before.rules) && gone <= Victims(before.rules, order)
    requires v in Victims(before.rules, order) && v !in gone
    ensures var now := IncidentsAfter(before, order, gone);
            var cleared := DropIncidents(now, OpenOf(now, v));
            Redirect(cleared, v, KeeperOf(before.rules, order, v)) == IncidentsAfter(before, order, gone + {v})
  {
    hide KeeperOf, Victims, Lists, Moved;
    var inc0, now := before.incidents, IncidentsAfter(before, order, gone);
    forall i
      ensures i in OpenOf(now, v) <==> Doomed(inc0, {v}, i)
    {
      if i in inc0 && !Doomed(inc0, gone, i) {
        MovedRule(before, order, gone, v, inc0[i]);
        MovedKeeps(before, order, gone, inc0[i]);
      }
    }
    var cleared := DropIncidents(now, OpenOf(now, v));
    var after := IncidentsAfter(before, order, gone + {v});
    assert forall i :: i in cleared <==> i in after;
    var moved := Redirect(cleared, v, KeeperOf(before.rules, order, v));
    forall i | i in moved
      ensures moved[i] == after[i]
    {
      MovedRule(before, order, gone, v, inc0[i]);
      MovedTwice(before, order, gone, v, inc0[i]);
    }
  }

  lemma MovedKeeps(before: Db, order: seq<Id>, gone: set<Id>, inc: Incident)
    ensures Moved(before, order, gone, inc).entity == inc.entity
    ensures Moved(before, order, gone, inc).state == inc.state
  {
  }

  lemma MovedTwice(before: Db, order: seq<Id>, gone: set<Id>, v: Id, inc: Incident)
    requires Lists(order, before.rules) && gone <= Victims(before.rules, order)
    requires v in Victims(before.rules, order) && v !in gone
    ensures var m := Moved(before, order, gone, inc);
            var orphaned := m.parent.Some? && Doomed(before.incidents, {v}, m.parent.value);
            var unparented := if orphaned then m.(parent := None) else m;
            Moved(before, order, gone + {v}, inc)
            == if m.rule == v then unparented.(rule := KeeperOf(before.rules, order, v)) else unparented
  {
    MovedRule(before, order, gone, v, inc);
    hide KeeperOf;
  }

  // ----- every state on the way is sound

  lemma DropIsSound(db: Db, gone: set<Id>)
    requires Sound(db)
    ensures Sound(db.(incidents := DropIncidents(db.incidents, gone)))
  {
  }

  lemma KeeperIsNoVictim(before: Db, order: seq<Id>, r: Id)
    requires Lists(order, before.rules) && r in before.rules
    ensures KeeperOf(before.rules, order, r) !in Victims(before.rules, order)
    ensures KeeperOf(before.rules, order, r) in before.rules
  {
    KeeperFacts(before.rules, order, r, r);
  }

  /** Open incidents stay where they were, so they cannot collide; everything else keeps its references. */
  lemma AfterIsSound(before: Db, order: seq<Id>, gone: set<Id>, db: Db)
    requires Sound(before) && Lists(order, before.rules) && gone <= Victims(before.rules, order)
    requires db.incidents == IncidentsAfter(before, order, gone)
    requires before.rules.Keys - gone <= db.rules.Keys <= before.rules.Keys
    requires db.defs == before.defs && forall r :: r in db.rules ==>
               db.rules[r].definition == before.rules[r].definition
    ensures Sound(db)
  {
    hide KeeperOf, Victims, Lists;
    forall i | i in db.incidents
      ensures db.incidents[i].rule in db.rules
    {
      var r := before.incidents[i].rule;
      if r in gone {
        KeeperIsNoVictim(before, order, r);
      }
    }
  }

  ghost predicate MergedCompanions(before: Db, order: seq<Id>, d: Id, cs: Companions)
  {
    var g := RulesOf(before.rules, order, d);
    cs == Packed(CompanionUnion(before.rules, before.defs, g, |g|))
  }

  /** The tables while the rules in `gone` are gone and the keepers in `done` have their merged companions. */
  ghost predicate Progress(before: Db, order: seq<Id>, gone: set<Id>, done: set<Id>, db: Db)
  {
    && db.defs == before.defs
    && db.incidents == IncidentsAfter(before, order, gone)
    && db.rules.Keys == before.rules.Keys - gone
    && (forall r :: r in db.rules ==>
          && r in before.rules
          && if r in done then db.rules[r] == before.rules[r].(companions := db.rules[r].companions)
                               && MergedCompanions(before, order, before.rules[r].definition, db.rules[r].companions)
             else db.rules[r] == before.rules[r])
  }

  /** Three statements: drop the victim's open incidents, move the others, delete the rule. */
  method RemoveVictim(db: Db, v: Id, keeper: Id, ghost before: Db, ghost order: seq<Id>, ghost gone: set<Id>,
                      ghost done: set<Id>)
    returns (db': Db, ghost log: seq<Sql>)
    requires Sound(before) && Lists(order, before.rules) && gone <= Victims(before.rules, order)
    requires v in Victims(before.rules, order) && v !in gone && keeper == KeeperOf(before.rules, order, v)
    requires Progress(before, order, gone, done, db) && v !in done
    ensures Progress(before, order, gone + {v}, done, db')
    ensures log == [ClearOpen(v), MoveIncidents(v, keeper), DropRule(v)] && Leads(false, db, log, db')
    // the cascade finds nothing: the last statement deletes no incident
    ensures RepointIncidents(DeleteOpen(db, v), v, keeper).incidents == db'.incidents
  {
    hide Progress, Victims, Sound, IncidentsAfter, KeeperOf, Lists, DeleteOpen, RepointIncidents, DeleteRule, Leads;
    VictimStates(before, order, gone, done, db, v);
    db' := DeleteOpen(db, v);
    db' := RepointIncidents(db', v, keeper);
    db' := DeleteRule(db', v);
    log := [ClearOpen(v), MoveIncidents(v, keeper), DropRule(v)];
    LeadsByThree(false, db, log[0], log[1], log[2]);
  }

  lemma VictimStates(before: Db, order: seq<Id>, gone: set<Id>, done: set<Id>, db: Db, v: Id)
    requires Sound(before) && Lists(order, before.rules) && gone <= Victims(before.rules, order)
    requires v in Victims(before.rules, order) && v !in gone
    requires Progress(before, order, gone, done, db) && v !in done
    ensures var s1 := DeleteOpen(db, v);
            var s2 := RepointIncidents(s1, v, KeeperOf(before.rules, order, v));
            var s3 := DeleteRule(s2, v);
            && Sound(db) && Sound(s1) && Sound(s2) && Sound(s3)
            && s2.incidents == s3.incidents == IncidentsAfter(before, order, gone + {v})
            && Progress(before, order, gone + {v}, done, s3)
  {
    hide KeeperOf, Victims, Lists, IncidentsAfter, MergedCompanions, Sound, DropIncidents, OpenOf, Redirect, DeleteRule;
    AfterIsSound(before, order, gone, db);
    DropIsSound(db, OpenOf(db.incidents, v));
    VictimStep(before, order, gone, v);
    var s2 := RepointIncidents(DeleteOpen(db, v), v, KeeperOf(before.rules, order, v));
    AfterIsSound(before, order, gone + {v}, s2);
    NobodyLeft(before, order, gone + {v}, v);
    DeleteUnusedRule(s2, v);
    AfterIsSound(before, order, gone + {v}, DeleteRule(s2, v));
  }

  /** The cascade is a no-op on a rule no incident refers to. */
  lemma DeleteUnusedRule(db: Db, v: Id)
    requires forall i :: i in db.incidents ==> db.incidents[i].rule != v
    ensures DeleteRule(db, v) == db.(rules := db.rules - {v})
  {
    assert (set i | i in db.incidents && db.incidents[i].rule == v) == {};
    assert DropIncidents(db.incidents, {}) == db.incidents;
  }

  lemma NobodyLeft(before: Db, order: seq<Id>, gone: set<Id>, v: Id)
    requires Lists(order, before.rules) && gone <= Victims(before.rules, order) && v in gone
    ensures forall i :: i in IncidentsAfter(before, order, gone) ==> IncidentsAfter(before, order, gone)[i].rule != v
  {
    hide KeeperOf, Victims, Lists;
    forall i | i in IncidentsAfter(before, order, gone)
      ensures IncidentsAfter(before, order, gone)[i].rule != v
    {
      if before.incidents[i].rule in gone {
        KeeperIsNoVictim(before, order, before.incidents[i].rule);
      }
    }
  }

  // ----- the migration

  /** Every group is reduced to its keeper. */
  method RemoveVictims(db: Db, group: seq<Id>, keeper: Id, d: Id, ghost before: Db, ghost order: seq<Id>,
                       ghost gone: set<Id>, ghost done: set<Id>)
    returns (db': Db, ghost gone': set<Id>, ghost log: seq<Sql>)
    requires Sound(before) && Lists(order, before.rules) && gone <= Victims(before.rules, order)
    requires Progress(before, order, gone, done, db)
    requires group == RulesOf(before.rules, order, d) && NoRepeats(group)
    requires forall r :: r in group ==>
               r in before.rules && KeeperOf(before.rules, order, r) == keeper && r !in gone && r !in done
    ensures Progress(before, order, gone', done, db') && Leads(false, db, log, db')
    ensures gone' == gone + (set r | r in group && r != keeper)
    ensures gone' <= Victims(before.rules, order)
  {
    hide Progress, KeeperOf, Lists, Sound, Victims, Leads;
    db', gone', log := db, gone, [];
    ProgressIsSound(before, order, gone, done, db);
    LeadsNowhere(false, db);
    for i := 0 to |group|
      invariant gone' == gone + (set r | r in group[..i] && r != keeper)
      invariant gone' <= Victims(before.rules, order)
      invariant Progress(before, order, gone', done, db') && Leads(false, db, log, db')
    {
      var v := group[i];
      assert group[..i + 1] == group[..i] + [v];
      if v != keeper {
        IsVictim(before, order, v);
        var next;
        ghost var steps;
        next, steps := RemoveVictim(db', v, keeper, before, order, gone', done);
        LeadsOn(false, db, log, db', steps, next);
        log := log + steps;
        db', gone' := next, gone' + {v};
      }
    }
    assert group[..|group|] == group;
  }

  lemma ProgressIsSound(before: Db, order: seq<Id>, gone: set<Id>, done: set<Id>, db: Db)
    requires Sound(before) && Lists(order, before.rules) && gone <= Victims(before.rules, order)
    requires Progress(before, order, gone, done, db)
    ensures Sound(db)
  {
    hide Sound, IncidentsAfter, MergedCompanions, Victims, Lists;
    AfterIsSound(before, order, gone, db);
  }

  lemma IsVictim(before: Db, order: seq<Id>, v: Id)
    requires v in before.rules && KeeperOf(before.rules, order, v) != v
    ensures v in Victims(before.rules, order)
  {
  }

  /** The keeper of a definition's group. */
  ghost predicate IsKeeperOfGroup(before: Db, order: seq<Id>, d: Id, group: seq<Id>, keeper: Id)
  {
    && group == RulesOf(before.rules, order, d) && NoRepeats(group)
    && keeper in group && KeeperOf(before.rules, order, keeper) == keeper
    && forall r :: r in group ==>
         r in before.rules && before.rules[r].definition == d && KeeperOf(before.rules, order, r) == keeper
  }

  lemma GroupKeeper(before: Db, order: seq<Id>, d: Id, group: seq<Id>)
    requires Lists(order, before.rules) && group == RulesOf(before.rules, order, d) && group != []
    ensures IsKeeperOfGroup(before, order, d, group, PickKeeper(before.rules, group, |group|))
  {
    GroupNoRepeats(DefinitionOf(before.rules), order, |order|, d);
    assert group[..|group|] == group;
  }

  /** What is done once the groups of the definitions in `ds` were handled. */
  ghost predicate Handled(before: Db, order: seq<Id>, ds: set<Id>, gone: set<Id>, done: set<Id>)
  {
    && (forall r :: r in gone <==>
          r in before.rules && before.rules[r].definition in ds && r in Victims(before.rules, order))
    && (forall r :: r in done <==>
          r in before.rules && before.rules[r].definition in ds && r !in Victims(before.rules, order))
  }

  lemma HandledStep(before: Db, order: seq<Id>, ds: set<Id>, gone: set<Id>, done: set<Id>, d: Id, group: seq<Id>,
                    keeper: Id)
    requires Lists(order, before.rules) && Handled(before, order, ds, gone, done) && d !in ds
    requires IsKeeperOfGroup(before, order, d, group, keeper)
    ensures Handled(before, order, ds + {d}, gone + (set r | r in group && r != keeper), done + {keeper})
    ensures forall r :: r in group ==> r !in gone && r !in done
    ensures gone <= Victims(before.rules, order)
  {
    hide Victims, KeeperOf, RulesOf;
    forall r | r in before.rules && before.rules[r].definition == d
      ensures r in group && (r in Victims(before.rules, order) <==> r != keeper)
    {
      VictimInGroup(before, order, d, group, keeper, r);
    }
    hide Lists;
  }

  lemma VictimInGroup(before: Db, order: seq<Id>, d: Id, group: seq<Id>, keeper: Id, r: Id)
    requires Lists(order, before.rules) && IsKeeperOfGroup(before, order, d, group, keeper)
    requires r in before.rules && before.rules[r].definition == d
    ensures r in group && (r in Victims(before.rules, order) <==> r != keeper)
  {
  }

  lemma WriteCompanions(before: Db, order: seq<Id>, gone: set<Id>, done: set<Id>, db: Db, keeper: Id, cs: Companions)
    requires Sound(before) && Lists(order, before.rules) && gone <= Victims(before.rules, order)
    requires Progress(before, order, gone, done, db)
    requires keeper in before.rules && keeper !in gone
             && MergedCompanions(before, order, before.rules[keeper].definition, cs)
    ensures keeper in db.rules
    ensures Progress(before, order, gone, done + {keeper}, SetCompanions(db, keeper, cs))
            && Sound(SetCompanions(db, keeper, cs))
  {
    hide IncidentsAfter, MergedCompanions, Sound, Victims, Lists;
    AfterIsSound(before, order, gone, SetCompanions(db, keeper, cs));
  }

  /** The final tables: closed forms for the incidents, the surviving rules and their companions. */
  ghost predicate Deduped(before: Db, order: seq<Id>, db: Db)
  {
    && db.defs == before.defs
    && db.rules.Keys == before.rules.Keys - Victims(before.rules, order)
    && (forall r :: r in db.rules ==>
          && r in before.rules
          && db.rules[r] == before.rules[r].(companions := db.rules[r].companions)
          && MergedCompanions(before, order, before.rules[r].definition, db.rules[r].companions))
    && db.incidents == IncidentsAfter(before, order, Victims(before.rules, order))
  }

  /** One definition's group: merge the companions, remove the victims, write the keeper. */
  method HandleGroup(db: Db, defs: map<Id, Definition>, rules: map<Id, Rule>, group: seq<Id>, d: Id,
                     ghost before: Db, ghost order: seq<Id>, ghost ds: set<Id>, ghost gone: set<Id>,
                     ghost done: set<Id>)
    returns (db': Db, ghost gone': set<Id>, ghost done': set<Id>, ghost log: seq<Sql>)
    requires Sound(before) && Lists(order, before.rules) && defs == before.defs && rules == before.rules
    requires group == RulesOf(rules, order, d) && group != [] && d !in ds
    requires Handled(before, order, ds, gone, done) && Progress(before, order, gone, done, db)
    ensures Handled(before, order, ds + {d}, gone', done') && Progress(before, order, gone', done', db')
    ensures Leads(false, db, log, db')
  {
    hide Progress, Sound, Handled, IsKeeperOfGroup, Victims, KeeperOf, MergedCompanions, Lists, CompanionUnion, Leads;
    GroupKeeper(before, order, d, group);
    var keeper := PickKeeper(rules, group, |group|);
    KeeperGroupFacts(before, order, d, group, keeper);
    HandledStep(before, order, ds, gone, done, d, group, keeper);
    var union := UnionCompanions(rules, defs, group);
    MergedBy(before, order, d, union);
    ghost var steps;
    db', gone', steps := RemoveVictims(db, group, keeper, d, before, order, gone, done);
    WriteCompanions(before, order, gone', done, db', keeper, Packed(union));
    ProgressIsSound(before, order, gone', done, db');
    LeadsByOne(false, db', SaveCompanions(keeper, Packed(union)));
    log := steps + [SaveCompanions(keeper, Packed(union))];
    LeadsOn(false, db, steps, db', [SaveCompanions(keeper, Packed(union))], SetCompanions(db', keeper, Packed(union)));
    db' := SetCompanions(db', keeper, Packed(union));
    done' := done + {keeper};
  }

  /** `upgrade`. `log` lists its statements; integrity holds after every one of them. */
  method Upgrade(before: Db, order: seq<Id>) returns (db: Db, ghost log: seq<Sql>)
    requires Sound(before) && Lists(order, before.rules)
    ensures Deduped(before, order, db)
    ensures Leads(false, before, log, db)
  {
    hide Progress, Sound, Handled, Deduped, Grouped, Leads;
    var keys, groups := GroupRows(DefinitionOf(before.rules), order);
    db, log := before, [];
    LeadsNowhere(false, before);
    ghost var gone, done := {}, {};
    StartsSound(before, order);
    SeenAll(keys);
    for k := 0 to |keys|
      invariant Leads(false, before, log, db)
      invariant Handled(before, order, Seen(keys, k), gone, done) && Progress(before, order, gone, done, db)
    {
      GroupIs(DefinitionOf(before.rules), order, groups, keys[k]);
      SeenStep(keys, k);
      ghost var steps;
      ghost var was := db;
      db, gone, done, steps := HandleGroup(db, before.defs, before.rules, groups[keys[k]], keys[k],
                                           before, order, Seen(keys, k), gone, done);
      LeadsOn(false, before, log, was, steps, db);
      log := log + steps;
    }
    Finished(before, order, keys, groups, gone, done, db);
  }

  lemma StartsSound(before: Db, order: seq<Id>)
    ensures Handled(before, order, {}, {}, {}) && Progress(before, order, {}, {}, before)
  {
    assert IncidentsAfter(before, order, {}) == before.incidents;
  }

  lemma KeeperGroupFacts(before: Db, order: seq<Id>, d: Id, group: seq<Id>, keeper: Id)
    requires IsKeeperOfGroup(before, order, d, group, keeper)
    ensures NoRepeats(group) && keeper in group && keeper in before.rules && before.rules[keeper].definition == d
    ensures keeper !in Victims(before.rules, order)
    ensures forall r :: r in group ==> r in before.rules && KeeperOf(before.rules, order, r) == keeper
  {
  }

  lemma MergedBy(before: Db, order: seq<Id>, d: Id, union: seq<Id>)
    requires var g := RulesOf(before.rules, order, d); union == CompanionUnion(before.rules, before.defs, g, |g|)
    ensures MergedCompanions(before, order, d, Packed(union))
  {
  }

  lemma Finished(before: Db, order: seq<Id>, keys: seq<Id>, groups: map<Id, seq<Id>>, gone: set<Id>, done: set<Id>,
                 db: Db)
    requires Lists(order, before.rules) && Grouped(DefinitionOf(before.rules), order, |order|, groups)
    requires forall d :: d in keys <==> d in groups
    requires Handled(before, order, Seen(keys, |keys|), gone, done) && Progress(before, order, gone, done, db)
    ensures Deduped(before, order, db)
  {
    hide IncidentsAfter, MergedCompanions, KeeperOf;
    AllSeen(before, order, keys, groups);
    SplitByVictim(before, order, keys, gone, done);
  }

  lemma AllSeen(before: Db, order: seq<Id>, keys: seq<Id>, groups: map<Id, seq<Id>>)
    requires Lists(order, before.rules) && Grouped(DefinitionOf(before.rules), order, |order|, groups)
    requires forall d :: d in keys <==> d in groups
    ensures forall r :: r in before.rules ==> before.rules[r].definition in Seen(keys, |keys|)
  {
    assert keys[..|keys|] == keys;
    forall r | r in before.rules
      ensures before.rules[r].definition in keys
    {
      InOwnGroup(DefinitionOf(before.rules), order, r);
    }
  }

  lemma SplitByVictim(before: Db, order: seq<Id>, keys: seq<Id>, gone: set<Id>, done: set<Id>)
    requires forall r :: r in before.rules ==> before.rules[r].definition in Seen(keys, |keys|)
    requires Handled(before, order, Seen(keys, |keys|), gone, done)
    ensures gone == Victims(before.rules, order)
    ensures forall r :: r in before.rules && r !in gone ==> r in done
  {
    hide Victims, Seen;
  }

  // ----- what the final tables mean

  /** Exactly one rule is left for every definition that had any: the one that sorts first. */
  lemma OneRulePerDefinition(before: Db, order: seq<Id>, db: Db, r: Id)
    requires Lists(order, before.rules) && Deduped(before, order, db) && r in before.rules
    ensures var k := KeeperOf(before.rules, order, r);
            && k in db.rules && db.rules[k].definition == before.rules[r].definition
            && (forall s :: s in db.rules && db.rules[s].definition == before.rules[r].definition ==> s == k)
            && Preferred(before.rules[k], k, before.rules[r], r)
  {
    hide MergedCompanions, IncidentsAfter;
    var k := KeeperOf(before.rules, order, r);
    KeeperFacts(before.rules, order, r, r);
    forall s | s in db.rules && db.rules[s].definition == before.rules[r].definition
      ensures s == k
    {
      KeeperFacts(before.rules, order, s, r);
    }
    var g := RulesOf(before.rules, order, before.rules[r].definition);
    var i :| 0 <= i < |g| && g[i] == r;
    FirstIsPreferred(before.rules, k, r);
  }

  predicate Suffixed(rule: Rule)
  {
    rule.name.Some? && Contains(rule.name.value, "Promote to Event")
  }

  /**
   * Rule `a` with id `k` is preferred to rule `b` with id `r`: without the suffix if `b` is, then with a ladder if `b`
   * has one, then no younger, then with the lower id.
   */
  predicate Preferred(a: Rule, k: Id, b: Rule, r: Id)
  {
    && (!Suffixed(b) ==> !Suffixed(a))
    && (Suffixed(a) == Suffixed(b) ==>
          && (b.hasLadder ==> a.hasLadder)
          && (a.hasLadder == b.hasLadder ==> a.createdAt <= b.createdAt && (a.createdAt == b.createdAt ==> k <= r)))
  }

  lemma FirstIsPreferred(rules: map<Id, Rule>, k: Id, r: Id)
    requires k in rules && r in rules && (k == r || Before(KeyOf(rules, k), KeyOf(rules, r)))
    ensures Preferred(rules[k], k, rules[r], r)
  {
    NothingInEmpty();
    hide Contains;
  }

  lemma NothingInEmpty()
    ensures !Contains("", SUFFIX)
  {
  }

  /** A keeper's companions afterwards: the live ids its group listed, each once, or NULL when there is none. */
  lemma CompanionsMerged(before: Db, order: seq<Id>, db: Db, k: Id, c: Id)
    requires Deduped(before, order, db) && k in db.rules
    ensures k in before.rules
            && (db.rules[k].companions.Listed? ==>
                  db.rules[k].companions.ids != [] && NoRepeats(db.rules[k].companions.ids))
    ensures var g := RulesOf(before.rules, order, before.rules[k].definition);
            Mentions(db.rules[k].companions, c) <==> IsLiveCompanion(before.rules, db.defs, g, |g|, c)
  {
    hide IncidentsAfter, Victims, CompanionUnion, IsLiveCompanion, RulesOf;
    var g := RulesOf(before.rules, order, before.rules[k].definition);
    CompanionUnionMeans(before.rules, before.defs, g, |g|);
  }

  /** Incidents are conserved: only open incidents of removed rules disappear, every other one keeps its
      content under its group's keeper, and nothing new appears. */
  lemma IncidentsConserved(before: Db, order: seq<Id>, db: Db, i: Id)
    requires Lists(order, before.rules) && Sound(before) && Deduped(before, order, db)
    ensures i in db.incidents <==>
            i in before.incidents && !(IsOpen(before.incidents[i]) && before.incidents[i].rule !in db.rules)
    ensures i in db.incidents ==>
            var was, now := before.incidents[i], db.incidents[i];
            && now.rule == KeeperOf(before.rules, order, was.rule) && now.rule in db.rules
            && now == was.(rule := now.rule, parent := now.parent)
            && (IsOpen(was) ==> now.rule == was.rule)
            && now.parent == (if was.parent.Some? && was.parent.value !in db.incidents then None else was.parent)
  {
    hide MergedCompanions;
    if i in before.incidents {
      KeeperFacts(before.rules, order, before.incidents[i].rule, before.incidents[i].rule);
    }
  }
}
