/** Walk mode of the interface poller: eighteen walks, then one row per interface. */
module PollWalk {
  import opened Oids
  import opened Mib
  import opened DeviceMib
  import opened InterfaceRows
  import Walk

  /** `_IF_OIDS` followed by `_IFX_OIDS`. */
  const POLL_COLUMNS: seq<Column> := [
    IfIndex, IfDescr, IfSpeed, IfAdminStatus, IfOperStatus,
    IfInOctets, IfOutOctets, IfInErrors, IfOutErrors, IfInDiscards, IfOutDiscards, IfInUcastPkts, IfOutUcastPkts,
    IfName, IfAlias, IfHighSpeed, IfHCInOctets, IfHCOutOctets]

  // ----- rows to index tables

  function LastOf(o: Oid): nat
    requires o != []
  {
    o[|o| - 1]
  }

  /** Later rows overwrite earlier ones with the same last component. */
  function IndexRows(rows: seq<Row>, n: nat): map<nat, string>
    requires n <= |rows| && forall j :: 0 <= j < |rows| ==> rows[j].0 != []
  {
    if n == 0 then map[] else IndexRows(rows, n - 1)[LastOf(rows[n - 1].0) := rows[n - 1].1]
  }

  method Tabulate(rows: seq<Row>) returns (table: map<nat, string>)
    requires forall j :: 0 <= j < |rows| ==> rows[j].0 != []
    ensures table == IndexRows(rows, |rows|)
  {
    table := map[];
    for j := 0 to |rows|
      invariant table == IndexRows(rows, j)
    {
      table := table[LastOf(rows[j].0) := rows[j].1];
    }
  }

  /** An agent for each of the eighteen walks. */
  type Agents = (nat, nat, seq<Oid>) -> Response

  function ColumnAgent(agents: Agents, i: nat): Agent
  {
    (r: nat, cs: seq<Oid>) => agents(i, r, cs)
  }

  lemma UnderColumnNonEmpty(c: Column, o: Oid)
    requires Under(BaseOid(c), o)
    ensures o != []
  {
    BaseOidShape(c);
  }

  ghost predicate TableFrom(c: Column, walked: Walk.WalkResult, table: map<nat, string>)
  {
    match walked
    case Exception => table == map[]
    case Rows(rows) => (forall j :: 0 <= j < |rows| ==> rows[j].0 != []) && table == IndexRows(rows, |rows|)
  }

  /** Every table comes from a walk of its own column, under the agent of that column's turn. */
  ghost predicate Tabulated(agents: Agents, keys: seq<Oid>, vals: Content, raw: Raw, walks: seq<Walk.WalkResult>,
                            n: nat)
    requires n <= |POLL_COLUMNS| && n <= |walks|
  {
    forall i :: 0 <= i < n ==>
      && Walk.WalkPromise(ColumnAgent(agents, i), BaseOid(POLL_COLUMNS[i]), keys, vals, walks[i])
      && POLL_COLUMNS[i] in raw && TableFrom(POLL_COLUMNS[i], walks[i], raw[POLL_COLUMNS[i]])
  }

  lemma PollColumnsDistinct(i: nat, j: nat)
    requires i < j < |POLL_COLUMNS|
    ensures POLL_COLUMNS[i] != POLL_COLUMNS[j]
  {
  }

  method WalkColumn(agent: Agent, c: Column, ghost keys: seq<Oid>, ghost vals: Content)
    returns (table: map<nat, string>, ghost walked: Walk.WalkResult)
    ensures Walk.WalkPromise(agent, BaseOid(c), keys, vals, walked) && TableFrom(c, walked, table)
  {
    hide BaseOid;
    var w := Walk.Walk(agent, BaseOid(c), keys, vals);
    walked := w;
    if w.Exception? {
      table := map[];
    } else {
      forall j | 0 <= j < |w.rows|
        ensures w.rows[j].0 != []
      {
        UnderColumnNonEmpty(c, w.rows[j].0);
      }
      table := Tabulate(w.rows);
    }
  }

  method CollectColumns(agents: Agents, ghost keys: seq<Oid>, ghost vals: Content)
    returns (raw: Raw, ghost walks: seq<Walk.WalkResult>)
    ensures |walks| == |POLL_COLUMNS| && Tabulated(agents, keys, vals, raw, walks, |POLL_COLUMNS|)
  {
    hide Walk.WalkPromise, TableFrom, BaseOid;
    raw, walks := map[], [];
    for i := 0 to |POLL_COLUMNS|
      invariant |walks| == i
      invariant Tabulated(agents, keys, vals, raw, walks, i)
    {
      ghost var raw0, walks0 := raw, walks;
      var c := POLL_COLUMNS[i];
      var table;
      ghost var walked;
      table, walked := WalkColumn(ColumnAgent(agents, i), c, keys, vals);
      raw := raw[c := table];
      walks := walks + [walked];
      forall j | 0 <= j < i
        ensures POLL_COLUMNS[j] != c
      {
        PollColumnsDistinct(j, i);
      }
    }
  }

  /** Walk mode: eighteen walks, then one row per index found in the ifIndex column. */
  method PollWalk(agents: Agents, filters: Filters, interval: nat, ghost keys: seq<Oid>, ghost vals: Content)
    returns (raw: Raw, rows: seq<InterfaceRow>, ghost walks: seq<Walk.WalkResult>, ghost idxs: seq<nat>)
    ensures |walks| == |POLL_COLUMNS| && Tabulated(agents, keys, vals, raw, walks, |POLL_COLUMNS|)
    ensures IfIndex in raw && IsSorting(idxs, raw[IfIndex].Keys)
    ensures rows == SelectRows(raw, idxs, |idxs|, filters, interval)
  {
    hide Walk.WalkPromise, BuildRow, Kept, TableFrom;
    raw, walks := CollectColumns(agents, keys, vals);
    assert POLL_COLUMNS[0] == IfIndex;
    var sorted := SortIndexes(raw[IfIndex].Keys);
    idxs := sorted;
    rows := [];
    for i := 0 to |sorted|
      invariant rows == SelectRows(raw, sorted, i, filters, interval)
    {
      if Kept(raw, sorted[i], filters) {
        rows := rows + [BuildRow(raw, sorted[i], "", "all", interval)];
      }
    }
  }
}
