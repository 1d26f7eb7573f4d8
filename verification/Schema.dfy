/** The alert and incident tables the data migrations rewrite, and the SQL statements they use. */
module Schema {
  import opened Text

  /** Row identifiers. UUIDs are compared as text; any total order will do. */
  type Id = nat

  /** One element of `severity_tiers`, a JSON list that may hold anything. */
  datatype TierItem =
    | NotATier
    | Tier(severity: Option<string>, expression: Option<string>, message: Option<string>)

  datatype Definition = Definition(
    app: Id, name: string, expression: string, severity: string,
    ladderKey: Option<string>, ladderRank: Option<int>, message: Option<string>, tiers: seq<TierItem>)

  /** `clear_on_companion_ids`: a JSON value that should be a list. */
  datatype Companions = NotAList | Listed(ids: seq<Id>)

  datatype Rule = Rule(definition: Id, name: Option<string>, hasLadder: bool, companions: Companions, createdAt: int)

  datatype Incident = Incident(rule: Id, entity: string, state: string, parent: Option<Id>, message: string)

  datatype Db = Db(defs: map<Id, Definition>, rules: map<Id, Rule>, incidents: map<Id, Incident>)

  predicate IsOpen(i: Incident)
  {
    i.state == "open"
  }

  // ----- integrity

  /** `uq_incidents_rule_entity_open`: one open incident per rule and entity. */
  ghost predicate UniqueOpen(incidents: map<Id, Incident>)
  {
    forall i, j :: i in incidents && j in incidents && i != j && IsOpen(incidents[i]) && IsOpen(incidents[j])
                   ==> incidents[i].rule != incidents[j].rule || incidents[i].entity != incidents[j].entity
  }

  ghost predicate ForeignKeys(db: Db)
  {
    && (forall r :: r in db.rules ==> db.rules[r].definition in db.defs)
    && (forall i :: i in db.incidents ==> db.incidents[i].rule in db.rules)
    && (forall i :: i in db.incidents && db.incidents[i].parent.Some? ==> db.incidents[i].parent.value in db.incidents)
  }

  ghost predicate Sound(db: Db)
  {
    ForeignKeys(db) && UniqueOpen(db.incidents)
  }

  // ----- statements

  /** Deleting incidents sets the parent reference of their children to NULL. */
  function DropIncidents(incidents: map<Id, Incident>, gone: set<Id>): map<Id, Incident>
  {
    map i | i in incidents && i !in gone ::
      if incidents[i].parent.Some? && incidents[i].parent.value in gone then incidents[i].(parent := None)
      else incidents[i]
  }

  function OpenOf(incidents: map<Id, Incident>, rule: Id): set<Id>
  {
    set i | i in incidents && incidents[i].rule == rule && IsOpen(incidents[i])
  }

  /** DELETE FROM incidents WHERE rule_id = :rid AND state = 'open' */
  function DeleteOpen(db: Db, rule: Id): Db
  {
    db.(incidents := DropIncidents(db.incidents, OpenOf(db.incidents, rule)))
  }

  function Redirect(incidents: map<Id, Incident>, from: Id, to: Id): map<Id, Incident>
  {
    map i | i in incidents :: if incidents[i].rule == from then incidents[i].(rule := to) else incidents[i]
  }

  /** UPDATE incidents SET rule_id = :to WHERE rule_id = :from */
  function RepointIncidents(db: Db, from: Id, to: Id): Db
  {
    db.(incidents := Redirect(db.incidents, from, to))
  }

  /** DELETE FROM incident_rules WHERE id = :id, cascading into incidents */
  function DeleteRule(db: Db, rule: Id): Db
  {
    db.(rules := db.rules - {rule},
        incidents := DropIncidents(db.incidents, set i | i in db.incidents && db.incidents[i].rule == rule))
  }

  /** UPDATE incident_rules SET clear_on_companion_ids = :ids WHERE id = :id */
  function SetCompanions(db: Db, rule: Id, companions: Companions): Db
    requires rule in db.rules
  {
    db.(rules := db.rules[rule := db.rules[rule].(companions := companions)])
  }

  /** UPDATE alert_definitions SET ... WHERE id = :id */
  function UpdateDefinition(db: Db, x: Id, d: Definition): Db
  {
    db.(defs := db.defs[x := d])
  }

  /** UPDATE incident_rules SET definition_id = :keeper WHERE definition_id = ANY(:victims) */
  function RepointRules(db: Db, victims: set<Id>, keeper: Id): Db
  {
    db.(rules := map r | r in db.rules ::
      if db.rules[r].definition in victims then db.rules[r].(definition := keeper) else db.rules[r])
  }

  /** DELETE FROM alert_definitions WHERE id = ANY(:ids), cascading into rules and from there into incidents */
  function DeleteDefinitions(db: Db, ids: set<Id>): Db
  {
    var orphans := set r | r in db.rules && db.rules[r].definition in ids;
    db.(defs := db.defs - ids,
        rules := db.rules - orphans,
        incidents := DropIncidents(db.incidents, set i | i in db.incidents && db.incidents[i].rule in orphans))
  }

  /** `uq_alert_def_app_name`: names are unique within an app. */
  ghost predicate UniqueNames(defs: map<Id, Definition>)
  {
    forall x, y :: x in defs && y in defs && x != y ==> defs[x].app != defs[y].app || defs[x].name != defs[y].name
  }

  /** Writing `d` to row `x` would break `uq_alert_def_app_name`. */
  predicate NameTaken(defs: map<Id, Definition>, x: Id, d: Definition)
  {
    exists y :: y in defs && y != x && defs[y].app == d.app && defs[y].name == d.name
  }

  /** Why rules are emptied before they are deleted: the cascade takes every incident still on them, and no other. */
  lemma RuleCascade(db: Db, rule: Id, i: Id)
    ensures i in DeleteRule(db, rule).incidents <==> i in db.incidents && db.incidents[i].rule != rule
    ensures DeleteRule(db, rule).rules == db.rules - {rule} && DeleteRule(db, rule).defs == db.defs
  {
  }

  /** Why rules are re-pointed before definitions are deleted: the cascade takes rules, and incidents with them. */
  lemma DefinitionCascade(db: Db, ids: set<Id>, r: Id, i: Id)
    ensures var after := DeleteDefinitions(db, ids);
            && (r in after.rules <==> r in db.rules && db.rules[r].definition !in ids)
            && (i in after.incidents <==>
                  i in db.incidents
                  && !(db.incidents[i].rule in db.rules && db.rules[db.incidents[i].rule].definition in ids))
  {
  }

  // ----- sequences of statements

  datatype Sql =
    | ClearOpen(rule: Id)
    | MoveIncidents(fromRule: Id, toRule: Id)
    | DropRule(rule: Id)
    | SaveCompanions(rule: Id, companions: Companions)
    | SaveDefinition(x: Id, d: Definition)
    | MoveRules(victims: set<Id>, keeper: Id)
    | DropDefinitions(ids: set<Id>)

  function Execute(db: Db, sql: Sql): Db
  {
    match sql
    case ClearOpen(rule) => DeleteOpen(db, rule)
    case MoveIncidents(from, to) => RepointIncidents(db, from, to)
    case DropRule(rule) => DeleteRule(db, rule)
    case SaveCompanions(rule, companions) => if rule in db.rules then SetCompanions(db, rule, companions) else db
    case SaveDefinition(x, d) => UpdateDefinition(db, x, d)
    case MoveRules(victims, keeper) => RepointRules(db, victims, keeper)
    case DropDefinitions(ids) => DeleteDefinitions(db, ids)
  }

  /** The database after the first `n` statements of `log`. */
  function After(db: Db, log: seq<Sql>, n: nat): Db
    requires n <= |log|
  {
    if n == 0 then db else Execute(After(db, log, n - 1), log[n - 1])
  }

  /** Foreign keys and the open-incident index hold, and if `named` so does the name index. */
  ghost predicate Integral(named: bool, db: Db)
  {
    Sound(db) && (named ==> UniqueNames(db.defs))
  }

  /** The statements of `log` turn `db` into `db'`, and integrity holds before, between and after them. */
  ghost predicate Leads(named: bool, db: Db, log: seq<Sql>, db': Db)
  {
    db' == After(db, log, |log|) && forall k :: 0 <= k <= |log| ==> Integral(named, After(db, log, k))
  }

  lemma {:induction false} AfterBoth(db: Db, log: seq<Sql>, more: seq<Sql>, n: nat)
    requires n <= |log| + |more|
    ensures After(db, log + more, n) == if n <= |log| then After(db, log, n)
                                        else After(After(db, log, |log|), more, n - |log|)
  {
    hide Execute;
    if n > 0 {
      AfterBoth(db, log, more, n - 1);
    }
  }

  lemma LeadsOn(named: bool, db: Db, log: seq<Sql>, mid: Db, more: seq<Sql>, db': Db)
    requires Leads(named, db, log, mid) && Leads(named, mid, more, db')
    ensures Leads(named, db, log + more, db')
  {
    hide Integral, After;
    forall k | 0 <= k <= |log + more|
      ensures Integral(named, After(db, log + more, k))
    {
      AfterBoth(db, log, more, k);
    }
    AfterBoth(db, log, more, |log + more|);
    if more == [] {
      NoStatements(mid);
    }
  }

  lemma NoStatements(db: Db)
    ensures After(db, [], 0) == db
  {
  }

  lemma LeadsNowhere(named: bool, db: Db)
    requires Integral(named, db)
    ensures Leads(named, db, [], db)
  {
  }

  lemma LeadsTo(named: bool, db: Db, log: seq<Sql>, db': Db)
    requires Leads(named, db, log, db')
    ensures db' == After(db, log, |log|)
  {
  }

  lemma LeadsByOne(named: bool, db: Db, sql: Sql)
    requires Integral(named, db) && Integral(named, Execute(db, sql))
    ensures Leads(named, db, [sql], Execute(db, sql))
  {
    hide Execute, Integral;
    assert After(db, [sql], 0) == db;
    assert After(db, [sql], 1) == Execute(db, sql);
  }

  lemma LeadsByThree(named: bool, db: Db, a: Sql, b: Sql, c: Sql)
    requires Integral(named, db) && Integral(named, Execute(db, a)) && Integral(named, Execute(Execute(db, a), b))
    requires Integral(named, Execute(Execute(Execute(db, a), b), c))
    ensures Leads(named, db, [a, b, c], Execute(Execute(Execute(db, a), b), c))
  {
    hide Execute, Integral, Leads;
    var s1, s2 := Execute(db, a), Execute(Execute(db, a), b);
    LeadsByOne(named, db, a);
    LeadsByOne(named, s1, b);
    LeadsByOne(named, s2, c);
    LeadsOn(named, s1, [b], s2, [c], Execute(s2, c));
    LeadsOn(named, db, [a], s1, [b] + [c], Execute(s2, c));
    assert [a] + ([b] + [c]) == [a, b, c];
  }
}
