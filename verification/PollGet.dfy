/** Targeted mode of the interface poller: GET requests in batches of twenty. */
module PollGet {
  import opened Oids
  import opened Mib
  import opened Text
  import opened DeviceMib
  import opened Handler
  import opened InterfaceRows
  import opened PollWalk
  import opened EndToEnd

  datatype Monitored = Monitored(index: nat, name: string, metrics: string)

  /** One (column, index) cell to fetch. */
  type Request = (Column, nat)

  const BATCH_SIZE: nat := 20

  // ----- which columns a metrics mode asks for

  const IDENTITY_COLUMNS: set<Column> :=
    {IfIndex, IfDescr, IfName, IfAlias, IfOperStatus, IfAdminStatus, IfHighSpeed, IfSpeed}

  function MetricColumns(part: string): set<Column>
  {
    match part
    case "all" => set c: Column | c in POLL_COLUMNS
    case "traffic" => {IfHCInOctets, IfHCOutOctets, IfInOctets, IfOutOctets}
    case "errors" => {IfInErrors, IfOutErrors}
    case "discards" => {IfInDiscards, IfOutDiscards}
    case _ => {}
  }

  function PartsColumns(parts: seq<string>, n: nat): set<Column>
    requires n <= |parts|
  {
    if n == 0 then IDENTITY_COLUMNS else PartsColumns(parts, n - 1) + MetricColumns(Strip(parts[n - 1], WHITESPACE))
  }

  function Listed(wanted: set<Column>, n: nat): (r: seq<Column>)
    requires n <= |POLL_COLUMNS|
    ensures forall c :: c in r <==> c in POLL_COLUMNS[..n] && c in wanted
  {
    if n == 0 then [] else
      assert POLL_COLUMNS[..n] == POLL_COLUMNS[..n - 1] + [POLL_COLUMNS[n - 1]];
      Listed(wanted, n - 1) + if POLL_COLUMNS[n - 1] in wanted then [POLL_COLUMNS[n - 1]] else []
  }

  /** `_resolve_poll_metrics`; a set is listed in column order. */
  function ResolvePollMetrics(mode: string): seq<Column>
  {
    if mode == "all" then POLL_COLUMNS
    else Listed(PartsColumns(Split(mode, ','), |Split(mode, ',')|), |POLL_COLUMNS|)
  }

  // ----- requests and batches

  function Cells(cols: seq<Column>, idx: nat): (r: seq<Request>)
    ensures |r| == |cols| && forall i :: 0 <= i < |cols| ==> r[i] == (cols[i], idx)
  {
    seq(|cols|, i requires 0 <= i < |cols| => (cols[i], idx))
  }

  function Requests(ms: seq<Monitored>, n: nat): seq<Request>
    requires n <= |ms|
  {
    if n == 0 then [] else Requests(ms, n - 1) + Cells(ResolvePollMetrics(ms[n - 1].metrics), ms[n - 1].index)
  }

  lemma {:induction false} RequestsCover(ms: seq<Monitored>, n: nat, m: Monitored, c: Column)
    requires n <= |ms| && m in ms[..n] && c in ResolvePollMetrics(m.metrics)
    ensures (c, m.index) in Requests(ms, n)
  {
    hide ResolvePollMetrics;
    assert ms[..n] == ms[..n - 1] + [ms[n - 1]];
    if m == ms[n - 1] {
      var cols := ResolvePollMetrics(m.metrics);
      var i :| 0 <= i < |cols| && cols[i] == c;
      assert Cells(cols, m.index)[i] == (c, m.index);
    } else {
      RequestsCover(ms, n - 1, m, c);
    }
  }

  function Flatten(batches: seq<seq<Request>>, n: nat): seq<Request>
    requires n <= |batches|
  {
    if n == 0 then [] else Flatten(batches, n - 1) + batches[n - 1]
  }

  /** Cutting the requests into batches loses, repeats and reorders nothing. */
  method MakeBatches(reqs: seq<Request>) returns (batches: seq<seq<Request>>)
    ensures Flatten(batches, |batches|) == reqs
    ensures forall b :: 0 <= b < |batches| ==> 0 < |batches[b]| <= BATCH_SIZE
  {
    batches := [];
    var i := 0;
    while i < |reqs|
      invariant 0 <= i <= |reqs|
      invariant Flatten(batches, |batches|) == reqs[..i]
      invariant forall b :: 0 <= b < |batches| ==> 0 < |batches[b]| <= BATCH_SIZE
    {
      var end := if i + BATCH_SIZE < |reqs| then i + BATCH_SIZE else |reqs|;
      ghost var before := batches;
      batches := batches + [reqs[i..end]];
      FlattenPrefix(before, batches, |before|);
      assert reqs[..end] == reqs[..i] + reqs[i..end];
      i := end;
    }
    assert reqs[..|reqs|] == reqs;
  }

  lemma {:induction false} FlattenPrefix(a: seq<seq<Request>>, b: seq<seq<Request>>, n: nat)
    requires n <= |a| <= |b| && forall i :: 0 <= i < |a| ==> a[i] == b[i]
    ensures Flatten(a, n) == Flatten(b, n)
  {
    if n > 0 {
      FlattenPrefix(a, b, n - 1);
    }
  }

  lemma {:induction false} FlattenMember(batches: seq<seq<Request>>, n: nat, q: Request)
    requires n <= |batches|
    ensures q in Flatten(batches, n) <==> exists b :: 0 <= b < n && q in batches[b]
  {
    if n > 0 {
      FlattenMember(batches, n - 1, q);
    }
  }

  function OidsOf(batch: seq<Request>): (oids: seq<Oid>)
    ensures |oids| == |batch| && forall i :: 0 <= i < |batch| ==> oids[i] == Instance(batch[i].0, batch[i].1)
  {
    seq(|batch|, i requires 0 <= i < |batch| => Instance(batch[i].0, batch[i].1))
  }

  // ----- the device's answers

  /** Every batch that is answered is answered from `vals`. */
  ghost predicate GetConforming(vals: Content, agent: Agent, batches: seq<seq<Request>>)
  {
    forall b :: 0 <= b < |batches| && agent(b, OidsOf(batches[b])).Binds? ==>
      agent(b, OidsOf(batches[b])).binds == GetAnswer(vals, OidsOf(batches[b]))
  }

  ghost predicate Answered(agent: Agent, batches: seq<seq<Request>>, n: nat, q: Request)
    requires n <= |batches|
  {
    exists b :: 0 <= b < n && q in batches[b] && agent(b, OidsOf(batches[b])).Binds?
  }

  function ShownCell(vals: Content, q: Request): string
  {
    Pretty(GetOne(vals, Instance(q.0, q.1)).val)
  }

  function Put(raw: Raw, q: Request, v: string): Raw
  {
    raw[q.0 := (if q.0 in raw then raw[q.0] else map[])[q.1 := v]]
  }

  lemma LookupPut(raw: Raw, q: Request, v: string, c: Column, idx: nat)
    ensures Lookup(Put(raw, q, v), c, idx) == if (c, idx) == q then Some(v) else Lookup(raw, c, idx)
  {
  }

  /** The table holds exactly the cells some answered batch asked for, each with the device's value. */
  ghost predicate Fetched(vals: Content, agent: Agent, batches: seq<seq<Request>>, n: nat, raw: Raw)
    requires n <= |batches|
  {
    forall c: Column, idx: nat ::
      Lookup(raw, c, idx) == if Answered(agent, batches, n, (c, idx)) then Some(ShownCell(vals, (c, idx))) else None
  }

  // ----- get_many

  ghost predicate GotMany(vals: Content, agent: Agent, batches: seq<seq<Request>>, n: nat, result: map<Oid, string>)
    requires n <= |batches|
  {
    forall c: Column, idx: nat ::
      && (Instance(c, idx) in result <==> Answered(agent, batches, n, (c, idx)))
      && (Instance(c, idx) in result ==> result[Instance(c, idx)] == ShownCell(vals, (c, idx)))
  }

  /** The dictionary after storing the first `n` bindings of an answer. */
  function Stored(result: map<Oid, string>, binds: seq<VarBind>, n: nat): map<Oid, string>
    requires n <= |binds|
  {
    if n == 0 then result else Stored(result, binds, n - 1)[binds[n - 1].name := Pretty(binds[n - 1].val)]
  }

  lemma {:induction false} StoredAnswer(result: map<Oid, string>, vals: Content, oids: seq<Oid>, n: nat, o: Oid)
    requires n <= |oids|
    ensures var result' := Stored(result, GetAnswer(vals, oids), n);
            && (o in result' <==> o in result || o in oids[..n])
            && (o in result' ==> result'[o] == if o in oids[..n] then Pretty(GetOne(vals, o).val) else result[o])
  {
    hide Pretty;
    if n > 0 {
      StoredAnswer(result, vals, oids, n - 1, o);
      assert oids[..n] == oids[..n - 1] + [oids[n - 1]];
    }
  }

  lemma OidInBatch(batch: seq<Request>, c: Column, idx: nat)
    ensures Instance(c, idx) in OidsOf(batch) <==> (c, idx) in batch
  {
    hide Instance;
    if i :| 0 <= i < |batch| && OidsOf(batch)[i] == Instance(c, idx) {
      InstanceInjective(batch[i].0, batch[i].1, c, idx);
      assert batch[i] == (c, idx);
    }
    if i :| 0 <= i < |batch| && batch[i] == (c, idx) {
      assert OidsOf(batch)[i] == Instance(c, idx);
    }
  }

  lemma AnsweredStep(agent: Agent, batches: seq<seq<Request>>, n: nat, q: Request)
    requires n < |batches|
    ensures Answered(agent, batches, n + 1, q) <==>
            Answered(agent, batches, n, q) || (q in batches[n] && agent(n, OidsOf(batches[n])).Binds?)
  {
  }

  lemma GotManyStep(vals: Content, agent: Agent, batches: seq<seq<Request>>, n: nat, result: map<Oid, string>)
    requires n < |batches| && GetConforming(vals, agent, batches) && GotMany(vals, agent, batches, n, result)
    ensures var resp := agent(n, OidsOf(batches[n]));
            GotMany(vals, agent, batches, n + 1,
                    if resp.Binds? then Stored(result, resp.binds, |resp.binds|) else result)
  {
    hide Answered, Stored, Instance, ShownCell, Pretty, GetOne;
    var oids := OidsOf(batches[n]);
    var resp := agent(n, oids);
    var result' := if resp.Binds? then Stored(result, resp.binds, |resp.binds|) else result;
    forall c: Column, idx: nat
      ensures Instance(c, idx) in result' <==> Answered(agent, batches, n + 1, (c, idx))
      ensures Instance(c, idx) in result' ==> result'[Instance(c, idx)] == ShownCell(vals, (c, idx))
    {
      AnsweredStep(agent, batches, n, (c, idx));
      OidInBatch(batches[n], c, idx);
      ShownCellIs(vals, c, idx);
      if resp.Binds? {
        StoredAnswer(result, vals, oids, |oids|, Instance(c, idx));
        assert oids[..|oids|] == oids;
      }
    }
  }

  lemma ShownCellIs(vals: Content, c: Column, idx: nat)
    ensures ShownCell(vals, (c, idx)) == Pretty(GetOne(vals, Instance(c, idx)).val)
  {
  }

  /** `get_many`: a failed or raising batch is skipped silently. */
  method GetMany(agent: Agent, batches: seq<seq<Request>>, ghost vals: Content) returns (result: map<Oid, string>)
    ensures GetConforming(vals, agent, batches) ==> GotMany(vals, agent, batches, |batches|, result)
  {
    hide GotMany, GetConforming, Pretty;
    result := map[];
    NothingGot(vals, agent, batches);
    for b := 0 to |batches|
      invariant GetConforming(vals, agent, batches) ==> GotMany(vals, agent, batches, b, result)
    {
      var resp := agent(b, OidsOf(batches[b]));
      if GetConforming(vals, agent, batches) {
        GotManyStep(vals, agent, batches, b, result);
      }
      if resp.Binds? {
        ghost var before := result;
        for i := 0 to |resp.binds|
          invariant result == Stored(before, resp.binds, i)
        {
          result := result[resp.binds[i].name := Pretty(resp.binds[i].val)];
        }
      }
    }
  }

  lemma NothingGot(vals: Content, agent: Agent, batches: seq<seq<Request>>)
    ensures GotMany(vals, agent, batches, 0, map[]) && Fetched(vals, agent, batches, 0, map[])
  {
  }

  // ----- filling the raw table

  /** The table after copying the first `n` cells of a batch out of a GET result. */
  function Filled(raw: Raw, batch: seq<Request>, result: map<Oid, string>, n: nat): Raw
    requires n <= |batch|
  {
    if n == 0 then raw else
      var before, q := Filled(raw, batch, result, n - 1), batch[n - 1];
      var o := Instance(q.0, q.1);
      if o in result then Put(before, q, result[o]) else before
  }

  method FillBatch(raw: Raw, batch: seq<Request>, result: map<Oid, string>) returns (raw': Raw)
    ensures raw' == Filled(raw, batch, result, |batch|)
  {
    raw' := raw;
    for i := 0 to |batch|
      invariant raw' == Filled(raw, batch, result, i)
    {
      var q := batch[i];
      var o := Instance(q.0, q.1);
      if o in result {
        raw' := Put(raw', q, result[o]);
      }
    }
  }

  lemma {:induction false} FilledLookup(raw: Raw, batch: seq<Request>, result: map<Oid, string>, n: nat, c: Column,
                                        idx: nat)
    requires n <= |batch|
    ensures Lookup(Filled(raw, batch, result, n), c, idx) ==
            if (c, idx) in batch[..n] && Instance(c, idx) in result then Some(result[Instance(c, idx)])
            else Lookup(raw, c, idx)
  {
    hide Instance, Put, Lookup;
    if n > 0 {
      FilledLookup(raw, batch, result, n - 1, c, idx);
      var before, q := Filled(raw, batch, result, n - 1), batch[n - 1];
      assert batch[..n] == batch[..n - 1] + [q];
      assert q == (q.0, q.1);
      if Instance(q.0, q.1) in result {
        LookupPut(before, q, result[Instance(q.0, q.1)], c, idx);
      }
    }
  }

  /** Copying every batch out of a complete `get_many` result. */
  method FillAll(batches: seq<seq<Request>>, result: map<Oid, string>, ghost vals: Content, ghost agent: Agent)
    returns (raw: Raw)
    ensures GotMany(vals, agent, batches, |batches|, result) ==> Fetched(vals, agent, batches, |batches|, raw)
  {
    hide GotMany, Fetched;
    raw := map[];
    for b := 0 to |batches|
      invariant forall c: Column, idx: nat ::
        Lookup(raw, c, idx) == if (exists k :: 0 <= k < b && (c, idx) in batches[k]) && Instance(c, idx) in result
                               then Some(result[Instance(c, idx)]) else None
    {
      ghost var before := raw;
      raw := FillBatch(raw, batches[b], result);
      forall c: Column, idx: nat
        ensures Lookup(raw, c, idx) ==
                if (exists k :: 0 <= k < b + 1 && (c, idx) in batches[k]) && Instance(c, idx) in result
                                       then Some(result[Instance(c, idx)]) else None
      {
        FilledLookup(before, batches[b], result, |batches[b]|, c, idx);
        assert batches[b][..|batches[b]|] == batches[b];
      }
    }
    if GotMany(vals, agent, batches, |batches|, result) {
      FilledIsFetched(vals, agent, batches, result, raw);
    }
  }

  lemma FilledIsFetched(vals: Content, agent: Agent, batches: seq<seq<Request>>, result: map<Oid, string>, raw: Raw)
    requires GotMany(vals, agent, batches, |batches|, result)
    requires forall c: Column, idx: nat ::
               Lookup(raw, c, idx) ==
                 if (exists k :: 0 <= k < |batches| && (c, idx) in batches[k]) && Instance(c, idx) in result
                                      then Some(result[Instance(c, idx)]) else None
    ensures Fetched(vals, agent, batches, |batches|, raw)
  {
    hide ShownCell, Lookup, Instance;
  }

  /** One `get` per batch; the first failures are reported, the rest of the batches still run. */
  method GetEach(agent: Agent, batches: seq<seq<Request>>, ghost vals: Content) returns (raw: Raw, failed: bool)
    ensures GetConforming(vals, agent, batches) ==> Fetched(vals, agent, batches, |batches|, raw)
    ensures failed <==> SomeFailed(agent, batches)
  {
    hide GetConforming, Fetched, Filled, Stored;
    raw, failed := map[], false;
    NothingGot(vals, agent, batches);
    for b := 0 to |batches|
      invariant GetConforming(vals, agent, batches) ==> Fetched(vals, agent, batches, b, raw)
      invariant failed <==> exists k :: 0 <= k < b && !agent(k, OidsOf(batches[k])).Binds?
    {
      var resp := agent(b, OidsOf(batches[b]));
      if GetConforming(vals, agent, batches) {
        FetchedStep(vals, agent, batches, b, raw);
      }
      if resp.Binds? {
        var result := Collect(resp.binds);
        raw := FillBatch(raw, batches[b], result);
      } else {
        failed := true;
      }
    }
  }

  /** The dictionary `get` returns. */
  method Collect(binds: seq<VarBind>) returns (result: map<Oid, string>)
    ensures result == Stored(map[], binds, |binds|)
  {
    hide Pretty;
    result := map[];
    for i := 0 to |binds|
      invariant result == Stored(map[], binds, i)
    {
      result := result[binds[i].name := Pretty(binds[i].val)];
    }
  }

  lemma FetchedStep(vals: Content, agent: Agent, batches: seq<seq<Request>>, n: nat, raw: Raw)
    requires n < |batches| && GetConforming(vals, agent, batches) && Fetched(vals, agent, batches, n, raw)
    ensures var resp := agent(n, OidsOf(batches[n]));
            Fetched(vals, agent, batches, n + 1,
              if resp.Binds? then Filled(raw, batches[n], Stored(map[], resp.binds, |resp.binds|), |batches[n]|)
              else raw)
  {
    hide Answered, Stored, Instance, ShownCell, Pretty, GetOne, Lookup, Filled;
    var oids, batch := OidsOf(batches[n]), batches[n];
    var resp := agent(n, oids);
    var raw' := if resp.Binds? then Filled(raw, batch, Stored(map[], resp.binds, |resp.binds|), |batch|) else raw;
    forall c: Column, idx: nat
      ensures Lookup(raw', c, idx) ==
              if Answered(agent, batches, n + 1, (c, idx)) then Some(ShownCell(vals, (c, idx))) else None
    {
      AnsweredStep(agent, batches, n, (c, idx));
      if resp.Binds? {
        var result := Stored(map[], resp.binds, |resp.binds|);
        FilledLookup(raw, batch, result, |batch|, c, idx);
        assert batch[..|batch|] == batch && oids[..|oids|] == oids;
        OidInBatch(batch, c, idx);
        StoredAnswer(map[], vals, oids, |oids|, Instance(c, idx));
        ShownCellIs(vals, c, idx);
      }
    }
  }

  /** When every batch is answered, how the requests were cut no longer shows: the table is the one a
      single GET of everything would give. */
  lemma BatchingInvisible(vals: Content, agent: Agent, reqs: seq<Request>, batches: seq<seq<Request>>, raw: Raw,
                          c: Column, idx: nat)
    requires Flatten(batches, |batches|) == reqs
    requires Fetched(vals, agent, batches, |batches|, raw)
    requires forall b :: 0 <= b < |batches| ==> agent(b, OidsOf(batches[b])).Binds?
    ensures Lookup(raw, c, idx) == if (c, idx) in reqs then Some(ShownCell(vals, (c, idx))) else None
  {
    hide Lookup, ShownCell;
    FlattenMember(batches, |batches|, (c, idx));
  }

  // ----- rows

  /** The last monitored entry for an index is the one whose name and mode count. */
  function EntryAt(ms: seq<Monitored>, n: nat, idx: nat): (r: nat)
    requires n <= |ms|
    ensures r <= n && (r > 0 ==> ms[r - 1].index == idx)
    ensures forall k :: r <= k < n ==> ms[k].index != idx
  {
    if n == 0 then 0 else if ms[n - 1].index == idx then n else EntryAt(ms, n - 1, idx)
  }

  function Entry(ms: seq<Monitored>, j: nat): (e: Monitored)
    requires j < |ms|
    ensures e in ms && e.index == ms[j].index
  {
    ms[EntryAt(ms, |ms|, ms[j].index) - 1]
  }

  /** The connector's `get_many`: usable, raising when called, or not there. */
  datatype GetManySupport = Works | Raises | Missing

  method ListRequests(ms: seq<Monitored>) returns (reqs: seq<Request>)
    ensures reqs == Requests(ms, |ms|)
  {
    hide ResolvePollMetrics;
    reqs := [];
    for i := 0 to |ms|
      invariant reqs == Requests(ms, i)
    {
      reqs := reqs + Cells(ResolvePollMetrics(ms[i].metrics), ms[i].index);
    }
  }

  /** The row of monitored entry `j`. */
  function TargetedRowAt(raw: Raw, ms: seq<Monitored>, j: nat, interval: nat): InterfaceRow
    requires j < |ms|
  {
    BuildRow(raw, ms[j].index, Entry(ms, j).name, Entry(ms, j).metrics, interval)
  }

  method BuildRows(raw: Raw, ms: seq<Monitored>, interval: nat) returns (rows: seq<InterfaceRow>)
    ensures |rows| == |ms| && forall j :: 0 <= j < |ms| ==> rows[j] == TargetedRowAt(raw, ms, j, interval)
  {
    hide BuildRow, Entry;
    rows := [];
    for j := 0 to |ms|
      invariant |rows| == j && forall k :: 0 <= k < j ==> rows[k] == TargetedRowAt(raw, ms, k, interval)
    {
      var e := Entry(ms, j);
      rows := rows + [BuildRow(raw, ms[j].index, e.name, e.metrics, interval)];
    }
  }

  ghost predicate SomeFailed(agent: Agent, batches: seq<seq<Request>>)
  {
    exists b :: 0 <= b < |batches| && !agent(b, OidsOf(batches[b])).Binds?
  }

  /** A connector without a working `get_many` is asked batch by batch. An empty list would mean walk mode. */
  method PollTargeted(agent: Agent, ms: seq<Monitored>, support: GetManySupport, interval: nat, ghost vals: Content)
    returns (raw: Raw, rows: seq<InterfaceRow>, failed: bool, ghost batches: seq<seq<Request>>)
    requires ms != []
    ensures Flatten(batches, |batches|) == Requests(ms, |ms|)
    ensures GetConforming(vals, agent, batches) ==> Fetched(vals, agent, batches, |batches|, raw)
    ensures match support
            case Works => !failed
            case Raises => failed
            case Missing => failed <==> SomeFailed(agent, batches)
    ensures |rows| == |ms| && forall j :: 0 <= j < |ms| ==> rows[j] == TargetedRowAt(raw, ms, j, interval)
  {
    hide GetConforming, Fetched, GotMany, TargetedRowAt, ResolvePollMetrics, Requests, Flatten;
    var reqs := ListRequests(ms);
    var made := MakeBatches(reqs);
    batches := made;
    if support.Works? {
      var result := GetMany(agent, made, vals);
      raw := FillAll(made, result, vals, agent);
      failed := false;
    } else {
      raw, failed := GetEach(agent, made, vals);
      failed := failed || support.Raises?;
    }
    rows := BuildRows(raw, ms, interval);
  }

  // ----- targeted mode against a device

  lemma ShownCellOfDevice(d: Device, c: Column, idx: nat)
    requires idx in Indexes(d)
    ensures ProfileAt(d.interfaces, |d.interfaces|, idx) > 0
    ensures ShownCell(Exposed(d), (c, idx)) == Shown(c, Profile(d, idx))
  {
    hide LiveValue, Instance, Refreshed, Populated, Pretty, Indexes, ProfileAt;
    ExposedAt(d, c, idx);
  }

  /** The uptime aside, a refreshed tree answers alike at any time. */
  lemma SameCell(d: Device, uptime: int, c: Column, idx: nat)
    ensures GetOne(Refreshed(Populated(d), d, uptime), Instance(c, idx)) == GetOne(Exposed(d), Instance(c, idx))
  {
    hide LiveValue, Instance, Refreshed, Populated, ProfileAt;
    RefreshedAt(d, uptime, c, idx);
    RefreshedAt(d, 0, c, idx);
  }

  /** The simulator's GET handler, whatever its clock shows and whichever batches it fails on, is such an agent. */
  lemma SimulatorGets(d: Device, agent: Agent, batches: seq<seq<Request>>, uptime: nat -> int)
    requires forall b :: 0 <= b < |batches| && agent(b, OidsOf(batches[b])).Binds? ==>
               agent(b, OidsOf(batches[b])).binds ==
                 GetAnswer(Refreshed(Populated(d), d, uptime(b)), OidsOf(batches[b]))
    ensures GetConforming(Exposed(d), agent, batches)
  {
    hide Refreshed, Populated, GetOne, Instance, Exposed;
    forall b | 0 <= b < |batches| && agent(b, OidsOf(batches[b])).Binds?
      ensures agent(b, OidsOf(batches[b])).binds == GetAnswer(Exposed(d), OidsOf(batches[b]))
    {
      var oids := OidsOf(batches[b]);
      forall i | 0 <= i < |oids|
        ensures GetOne(Refreshed(Populated(d), d, uptime(b)), oids[i]) == GetOne(Exposed(d), oids[i])
      {
        SameCell(d, uptime(b), batches[b][i].0, batches[b][i].1);
      }
    }
  }

  lemma EveryColumnPolled(c: Column)
    ensures c in POLL_COLUMNS
  {
    var i := PollColumnIndex(c);
  }

  lemma AllResolves(c: Column)
    ensures c in ResolvePollMetrics("all")
  {
    EveryColumnPolled(c);
  }

  /** When every batch is answered, an interface monitored with "all" gets its profile's row, alias included. */
  lemma TargetedRow(d: Device, agent: Agent, ms: seq<Monitored>, batches: seq<seq<Request>>, raw: Raw, j: nat,
                    interval: nat)
    requires j < |ms| && ms[j].index in Indexes(d) && Entry(ms, j).metrics == "all"
    requires Flatten(batches, |batches|) == Requests(ms, |ms|)
    requires Fetched(Exposed(d), agent, batches, |batches|, raw)
    requires forall b :: 0 <= b < |batches| ==> agent(b, OidsOf(batches[b])).Binds?
    ensures ProfileAt(d.interfaces, |d.interfaces|, ms[j].index) > 0
    ensures var f, e := Profile(d, ms[j].index), Entry(ms, j);
            BuildRow(raw, ms[j].index, e.name, "all", interval)
            == ProfileRow(f, f.alias, interval).(ifName := if e.name != "" then e.name else f.name)
  {
    hide Fetched, Indexes, Exposed, BuildRow, ProfileRow, Shown, Lookup, Requests, Flatten;
    var e, idx := Entry(ms, j), ms[j].index;
    TargetedLookups(d, agent, ms, batches, raw, j);
    var f := Profile(d, idx);
    RowFromProfile(raw, f, interval);
    ProfileRowFields(f, f.alias, interval);
    OverrideName(raw, idx, e.name, interval);
  }

  lemma TargetedLookup(d: Device, agent: Agent, ms: seq<Monitored>, batches: seq<seq<Request>>, raw: Raw,
                       e: Monitored, c: Column)
    requires e in ms && e.index in Indexes(d) && c in ResolvePollMetrics(e.metrics)
    requires Flatten(batches, |batches|) == Requests(ms, |ms|)
    requires Fetched(Exposed(d), agent, batches, |batches|, raw)
    requires forall b :: 0 <= b < |batches| ==> agent(b, OidsOf(batches[b])).Binds?
    ensures ProfileAt(d.interfaces, |d.interfaces|, e.index) > 0
    ensures Lookup(raw, c, e.index) == Some(Shown(c, Profile(d, e.index)))
  {
    hide Fetched, Indexes, Exposed, Shown, ShownCell, Lookup, Requests, Flatten, ResolvePollMetrics, ProfileAt;
    assert ms[..|ms|] == ms;
    RequestsCover(ms, |ms|, e, c);
    BatchingInvisible(Exposed(d), agent, Requests(ms, |ms|), batches, raw, c, e.index);
    ShownCellOfDevice(d, c, e.index);
  }

  lemma TargetedLookups(d: Device, agent: Agent, ms: seq<Monitored>, batches: seq<seq<Request>>, raw: Raw, j: nat)
    requires j < |ms| && ms[j].index in Indexes(d) && Entry(ms, j).metrics == "all"
    requires Flatten(batches, |batches|) == Requests(ms, |ms|)
    requires Fetched(Exposed(d), agent, batches, |batches|, raw)
    requires forall b :: 0 <= b < |batches| ==> agent(b, OidsOf(batches[b])).Binds?
    ensures ProfileAt(d.interfaces, |d.interfaces|, ms[j].index) > 0 && Profile(d, ms[j].index).index == ms[j].index
    ensures forall c: Column :: Lookup(raw, c, ms[j].index) == Some(Shown(c, Profile(d, ms[j].index)))
  {
    hide Fetched, Indexes, Exposed, Shown, Lookup, Requests, Flatten, ProfileAt, Entry, ResolvePollMetrics;
    var e := Entry(ms, j);
    IndexesHaveProfiles(d, e.index);
    forall c: Column
      ensures Lookup(raw, c, e.index) == Some(Shown(c, Profile(d, e.index)))
    {
      AllResolves(c);
      TargetedLookup(d, agent, ms, batches, raw, e, c);
    }
  }

  lemma OverrideName(raw: Raw, idx: nat, name: string, interval: nat)
    ensures name != "" ==>
              BuildRow(raw, idx, name, "all", interval) == BuildRow(raw, idx, "", "all", interval).(ifName := name)
  {
    hide HasMetric, SpeedOf, OperOf, AdminStatusName, Octets, SafeInt, Lookup;
  }

  /** Targeted mode and walk mode build the same row, up to the name override and the alias of the
      highest index, which only targeted mode gets right. */
  lemma TargetedMatchesWalk(d: Device, agent: Agent, ms: seq<Monitored>, batches: seq<seq<Request>>, raw: Raw,
                            walkRows: seq<InterfaceRow>, j: nat, k: nat, interval: nat)
    requires j < |ms| && ms[j].index in Indexes(d) && Entry(ms, j).metrics == "all"
    requires Flatten(batches, |batches|) == Requests(ms, |ms|)
    requires Fetched(Exposed(d), agent, batches, |batches|, raw)
    requires forall b :: 0 <= b < |batches| ==> agent(b, OidsOf(batches[b])).Binds?
    requires DeviceRows(d, walkRows, interval) && k < |walkRows| && walkRows[k].ifIndex == ms[j].index
    ensures var targeted, walked := BuildRow(raw, ms[j].index, Entry(ms, j).name, "all", interval), walkRows[k];
            && targeted == walked.(ifName := targeted.ifName, ifAlias := targeted.ifAlias)
            && (Entry(ms, j).name == "" ==> targeted.ifName == walked.ifName)
            && (k < |walkRows| - 1 ==> targeted.ifAlias == walked.ifAlias)
  {
    hide Fetched, Indexes, Exposed, BuildRow, Requests, Flatten, AdminStatusName, OperStatusName, ProfileAt, EntryAt;
    TargetedRow(d, agent, ms, batches, raw, j, interval);
  }

  /** The row the targeted poll gives for entry `j`, against the walk's row for the same interface. */
  ghost predicate SameInterface(e: Monitored, targeted: InterfaceRow, walked: InterfaceRow, highest: bool)
  {
    && targeted == walked.(ifName := targeted.ifName, ifAlias := targeted.ifAlias)
    && targeted.ifName == (if e.name != "" then e.name else walked.ifName)
    && (!highest ==> targeted.ifAlias == walked.ifAlias)
  }

  lemma RowsMatch(d: Device, agent: Agent, ms: seq<Monitored>, batches: seq<seq<Request>>, raw: Raw,
                  walkRows: seq<InterfaceRow>, j: nat, k: nat, interval: nat)
    requires j < |ms| && ms[j].index in Indexes(d) && Entry(ms, j).metrics == "all"
    requires Flatten(batches, |batches|) == Requests(ms, |ms|)
    requires Fetched(Exposed(d), agent, batches, |batches|, raw)
    requires forall b :: 0 <= b < |batches| ==> agent(b, OidsOf(batches[b])).Binds?
    requires DeviceRows(d, walkRows, interval) && k < |walkRows| && walkRows[k].ifIndex == ms[j].index
    ensures SameInterface(Entry(ms, j), TargetedRowAt(raw, ms, j, interval), walkRows[k], k == |walkRows| - 1)
  {
    hide Fetched, Indexes, Exposed, BuildRow, Requests, Flatten, DeviceRows, Entry;
    TargetedMatchesWalk(d, agent, ms, batches, raw, walkRows, j, k, interval);
    NameWins(raw, ms[j].index, Entry(ms, j).name, "all", interval);
  }

  lemma NameWins(raw: Raw, idx: nat, name: string, mode: string, interval: nat)
    ensures name != "" ==> BuildRow(raw, idx, name, mode, interval).ifName == name
  {
  }

  /** Both modes on one device, every request answered: the monitored interfaces get the rows the walk gives them. */
  method PollBothWays(agents: Agents, agent: Agent, ms: seq<Monitored>, support: GetManySupport, interval: nat,
                      ghost d: Device, ghost keys: seq<Oid>, ghost uptime: nat -> int)
    returns (targeted: seq<InterfaceRow>, walked: seq<InterfaceRow>)
    requires ms != [] && forall j :: 0 <= j < |ms| ==> ms[j].index in Indexes(d) && Entry(ms, j).metrics == "all"
    requires PollsDevice(d, keys, agents) && |Indexes(d)| <= Walk.ROW_CAP
    requires forall b, oids :: agent(b, oids) == Binds(GetAnswer(Refreshed(Populated(d), d, uptime(b)), oids))
    ensures |targeted| == |ms|
    ensures forall j :: 0 <= j < |ms| ==> Reports(walked, ms[j].index)
    ensures forall j, k :: 0 <= j < |ms| && 0 <= k < |walked| && walked[k].ifIndex == ms[j].index ==>
              SameInterface(Entry(ms, j), targeted[j], walked[k], k == |walked| - 1)
  {
    hide Indexes, Exposed, Fetched, GetConforming, DeviceRows, PollsDevice, BuildRow, Requests, Flatten, Refreshed,
         Populated,
         TargetedRowAt, Entry, SameInterface;
    var raw, failed;
    ghost var batches;
    raw, targeted, failed, batches := PollTargeted(agent, ms, support, interval, Exposed(d));
    SimulatorGets(d, agent, batches, uptime);
    SomeInterface(d, ms[0].index);
    walked := PollDevice(agents, interval, d, keys);
    forall j | 0 <= j < |ms|
      ensures Reports(walked, ms[j].index)
    {
      IndexReported(d, walked, interval, ms[j].index);
    }
    forall j, k | 0 <= j < |ms| && 0 <= k < |walked| && walked[k].ifIndex == ms[j].index
      ensures SameInterface(Entry(ms, j), targeted[j], walked[k], k == |walked| - 1)
    {
      RowsMatch(d, agent, ms, batches, raw, walked, j, k, interval);
    }
  }

  lemma IndexReported(d: Device, rows: seq<InterfaceRow>, interval: nat, idx: nat)
    requires DeviceRows(d, rows, interval) && idx in Indexes(d)
    ensures Reports(rows, idx)
  {
    hide Indexes;
  }

  /** `poll`: targeted mode when interfaces are monitored, walk mode when none is. */
  method Poll(agents: Agents, agent: Agent, ms: seq<Monitored>, support: GetManySupport, filters: Filters,
              interval: nat, 
              ghost keys: seq<Oid>, ghost vals: Content)
    returns (raw: Raw, rows: seq<InterfaceRow>)
    ensures ms != [] ==> |rows| == |ms| && forall j :: 0 <= j < |ms| ==> rows[j] == TargetedRowAt(raw, ms, j, interval)
    ensures ms == [] ==> WalkedRows(raw, rows, filters, interval)
  {
    hide TargetedRowAt;
    if ms != [] {
      var failed;
      ghost var batches;
      raw, rows, failed, batches := PollTargeted(agent, ms, support, interval, vals);
    } else {
      ghost var walks, idxs;
      raw, rows, walks, idxs := PollWalk.PollWalk(agents, filters, interval, keys, vals);
      assert IsSorting(idxs, raw[IfIndex].Keys);
    }
  }

  /** The kept indexes of the ifIndex table, ascending, each with its row. */
  ghost predicate WalkedRows(raw: Raw, rows: seq<InterfaceRow>, filters: Filters, interval: nat)
  {
    && IfIndex in raw
    && exists idxs ::
         IsSorting(idxs, raw[IfIndex].Keys) && rows == SelectRows(raw, idxs, |idxs|, filters, interval)
  }

  // ----- reported and fetched metrics

  /** Some part, stripped of white space, is `name`. */
  ghost predicate PartAsks(parts: seq<string>, name: string)
  {
    exists i :: 0 <= i < |parts| && Strip(parts[i], WHITESPACE) == name
  }

  ghost predicate Asks(mode: string, name: string)
  {
    PartAsks(Split(mode, ','), name)
  }

  /** Some part stands for a set of columns with `c` in it. */
  ghost predicate PartBrings(parts: seq<string>, n: nat, c: Column)
    requires n <= |parts|
  {
    exists i :: 0 <= i < n && c in MetricColumns(Strip(parts[i], WHITESPACE))
  }

  lemma {:induction false} PartsInclude(parts: seq<string>, n: nat, c: Column)
    requires n <= |parts|
    ensures c in PartsColumns(parts, n) <==> c in IDENTITY_COLUMNS || PartBrings(parts, n, c)
  {
    hide MetricColumns, Strip;
    if n > 0 {
      PartsInclude(parts, n - 1, c);
    }
  }

  /** The metrics a mode can name, with the columns they stand for. */
  predicate IsMetric(metric: string)
  {
    metric == "traffic" || metric == "errors" || metric == "discards"
  }

  /** A metric's columns come with its own name and with "all", and with no other part. */
  lemma MetricColumnsOf(metric: string, part: string, c: Column)
    requires IsMetric(metric) && c in MetricColumns(metric)
    ensures c !in IDENTITY_COLUMNS
    ensures c in MetricColumns(part) <==> part == metric || part == "all"
  {
    EveryColumnPolled(c);
    hide POLL_COLUMNS;
    if metric == "traffic" {
      assert c in {IfHCInOctets, IfHCOutOctets, IfInOctets, IfOutOctets};
    } else if metric == "errors" {
      assert c in {IfInErrors, IfOutErrors};
    } else {
      assert c in {IfInDiscards, IfOutDiscards};
    }
  }

  lemma UnicastColumnsOf(part: string, c: Column)
    requires c == IfInUcastPkts || c == IfOutUcastPkts
    ensures c !in IDENTITY_COLUMNS
    ensures c in MetricColumns(part) <==> part == "all"
  {
    EveryColumnPolled(c);
  }

  lemma ResolvesIff(mode: string, c: Column)
    ensures c in ResolvePollMetrics(mode) <==>
            mode == "all" || c in IDENTITY_COLUMNS || PartBrings(Split(mode, ','), |Split(mode, ',')|, c)
  {
    hide PartsColumns, Split, PartBrings;
    EveryColumnPolled(c);
    PartsInclude(Split(mode, ','), |Split(mode, ',')|, c);
    assert POLL_COLUMNS[..|POLL_COLUMNS|] == POLL_COLUMNS;
  }

  lemma MetricBrought(parts: seq<string>, metric: string, c: Column)
    requires IsMetric(metric) && c in MetricColumns(metric)
    ensures c !in IDENTITY_COLUMNS
    ensures PartBrings(parts, |parts|, c) <==> PartAsks(parts, metric) || PartAsks(parts, "all")
  {
    hide MetricColumns, Strip, IsMetric;
    MetricColumnsOf(metric, "", c);
    forall i | 0 <= i < |parts|
      ensures c in MetricColumns(Strip(parts[i], WHITESPACE)) <==>
              Strip(parts[i], WHITESPACE) == metric || Strip(parts[i], WHITESPACE) == "all"
    {
      MetricColumnsOf(metric, Strip(parts[i], WHITESPACE), c);
    }
  }

  lemma UnicastBrought(parts: seq<string>, c: Column)
    requires c == IfInUcastPkts || c == IfOutUcastPkts
    ensures c !in IDENTITY_COLUMNS
    ensures PartBrings(parts, |parts|, c) <==> PartAsks(parts, "all")
  {
    hide MetricColumns, Strip;
    UnicastColumnsOf("", c);
    forall i | 0 <= i < |parts|
      ensures c in MetricColumns(Strip(parts[i], WHITESPACE)) <==> Strip(parts[i], WHITESPACE) == "all"
    {
      UnicastColumnsOf(Strip(parts[i], WHITESPACE), c);
    }
  }

  /**
   * A metric's columns are requested exactly if the mode is "all" or asks, blanks aside, for the metric or for "all".
   */
  lemma FetchedIff(mode: string, metric: string, c: Column)
    requires IsMetric(metric) && c in MetricColumns(metric)
    ensures c in ResolvePollMetrics(mode) <==> mode == "all" || Asks(mode, metric) || Asks(mode, "all")
  {
    hide MetricColumns, Split, ResolvePollMetrics, IsMetric, PartBrings, PartAsks;
    ResolvesIff(mode, c);
    MetricBrought(Split(mode, ','), metric, c);
  }

  /** The unicast columns have no name of their own: only "all" requests them. */
  lemma UnicastFetchedIff(mode: string, c: Column)
    requires c == IfInUcastPkts || c == IfOutUcastPkts
    ensures c in ResolvePollMetrics(mode) <==> mode == "all" || Asks(mode, "all")
  {
    hide Split, ResolvePollMetrics, PartBrings, PartAsks;
    ResolvesIff(mode, c);
    UnicastBrought(Split(mode, ','), c);
  }

  /** The mode is "all", or some part of it is `metric` or "all", blanks aside. */
  ghost predicate Wants(mode: string, metric: string)
  {
    mode == "all" || Asks(mode, metric) || Asks(mode, "all")
  }

  /** Column by column, when it is requested: the identity columns under every mode. */
  lemma RequestedIff(mode: string, c: Column)
    ensures c in ResolvePollMetrics(mode) <==>
            match c
            case IfIndex => true case IfDescr => true case IfName => true case IfAlias => true
            case IfOperStatus => true case IfAdminStatus => true case IfHighSpeed => true case IfSpeed => true
            case IfHCInOctets => Wants(mode, "traffic") case IfHCOutOctets => Wants(mode, "traffic")
            case IfInOctets => Wants(mode, "traffic") case IfOutOctets => Wants(mode, "traffic")
            case IfInErrors => Wants(mode, "errors") case IfOutErrors => Wants(mode, "errors")
            case IfInDiscards => Wants(mode, "discards") case IfOutDiscards => Wants(mode, "discards")
            case IfInUcastPkts => Wants(mode, "all") case IfOutUcastPkts => Wants(mode, "all")
  {
    hide Split, PartBrings, PartAsks, Asks;
    ResolvesIff(mode, c);
    hide ResolvePollMetrics;
    match c {
      case IfIndex => case IfDescr => case IfName => case IfAlias =>
      case IfOperStatus => case IfAdminStatus => case IfHighSpeed => case IfSpeed =>
      case IfHCInOctets => FetchedIff(mode, "traffic", c);
      case IfHCOutOctets => FetchedIff(mode, "traffic", c);
      case IfInOctets => FetchedIff(mode, "traffic", c);
      case IfOutOctets => FetchedIff(mode, "traffic", c);
      case IfInErrors => FetchedIff(mode, "errors", c);
      case IfOutErrors => FetchedIff(mode, "errors", c);
      case IfInDiscards => FetchedIff(mode, "discards", c);
      case IfOutDiscards => FetchedIff(mode, "discards", c);
      case IfInUcastPkts => UnicastFetchedIff(mode, c);
      case IfOutUcastPkts => UnicastFetchedIff(mode, c);
    }
  }

  lemma NeededIsRequested(mode: string, c: Column)
    requires NeededFor(c, mode)
    ensures c in ResolvePollMetrics(mode)
  {
    RequestedIff(mode, c);
    hide ResolvePollMetrics, HasMetric, Asks;
    if HasMetric(mode, "traffic") {
      ListedIsWanted(mode, "traffic");
    }
    if HasMetric(mode, "errors") {
      ListedIsWanted(mode, "errors");
    }
    if HasMetric(mode, "discards") {
      ListedIsWanted(mode, "discards");
    }
  }

  lemma ListedIsWanted(mode: string, metric: string)
    requires IsMetric(metric) && HasMetric(mode, metric)
    ensures Wants(mode, metric)
  {
    hide Split, Strip, IsMetric;
    MetricHasNoBlanks(metric);
    if mode != "all" {
      var parts := Split(mode, ',');
      var i :| 0 <= i < |parts| && parts[i] == metric;
      assert PartAsks(parts, metric);
    }
  }

  /**
   * Under every mode, when all batches are answered, a device interface's row has the profile's name (or the override),
   * alias, speed and statuses, the profile's counters for the metrics the mode lists, and zero for the others.
   */
  lemma TargetedRowUnder(d: Device, agent: Agent, ms: seq<Monitored>, batches: seq<seq<Request>>, raw: Raw, j: nat,
                         interval: nat)
    requires j < |ms| && ms[j].index in Indexes(d)
    requires Flatten(batches, |batches|) == Requests(ms, |ms|)
    requires Fetched(Exposed(d), agent, batches, |batches|, raw)
    requires forall b :: 0 <= b < |batches| ==> agent(b, OidsOf(batches[b])).Binds?
    ensures ProfileAt(d.interfaces, |d.interfaces|, ms[j].index) > 0
    ensures RowUnder(Profile(d, ms[j].index), Entry(ms, j).name, Entry(ms, j).metrics, interval,
                     TargetedRowAt(raw, ms, j, interval))
  {
    hide Fetched, Indexes, Exposed, BuildRow, Shown, Lookup, Requests, Flatten, ProfileAt, Entry, RowUnder, NeededFor,
         ResolvePollMetrics;
    var e := Entry(ms, j);
    IndexesHaveProfiles(d, e.index);
    var f := Profile(d, e.index);
    forall c: Column | NeededFor(c, e.metrics)
      ensures Lookup(raw, c, f.index) == Some(Shown(c, f))
    {
      NeededIsRequested(e.metrics, c);
      TargetedLookup(d, agent, ms, batches, raw, e, c);
    }
    RowFromFetched(raw, f, e.name, e.metrics, interval);
  }

  // ----- an index the device does not have

  lemma NotANumber(text: string)
    requires text != "" && !IsSpace(text[0]) && !IsSpace(text[|text| - 1]) && !IsDigit(text[|text| - 1])
    requires text[0] != '-' && text[0] != '+'
    ensures ParseInt(text) == None
  {
    StripNothing(text, WHITESPACE);
  }

  lemma MissingCells(raw: Raw, idx: nat)
    requires forall c: Column :: Lookup(raw, c, idx) == Some(NO_SUCH_OBJECT_TEXT)
    ensures forall c: Column, missing, default :: SafeInt(Lookup(raw, c, idx), missing, default) == default
  {
    hide ParseInt;
    NotANumber(NO_SUCH_OBJECT_TEXT);
  }

  /** An index no profile has, all its cells fetched: a row of zeros, named and aliased by the agent's error text. */
  lemma MissingInterfaceRow(raw: Raw, idx: nat, name: string, interval: nat)
    requires forall c: Column :: Lookup(raw, c, idx) == Some("No Such Object currently exists at this OID")
    ensures var text := "No Such Object currently exists at this OID";
            BuildRow(raw, idx, name, "all", interval) ==
            InterfaceRow(idx, if name != "" then name else text, text, 0, "testing", "unknown",
                         0, 0, 0, 0, 0, 0, 0, 0, interval, 64)
  {
    MissingCells(raw, idx);
    StatusDefaults();
    AllHasEverything("traffic");
    AllHasEverything("errors");
    AllHasEverything("discards");
    hide SafeInt, Lookup, AdminStatusName, OperStatusName, HasMetric;
  }

  lemma UnknownIndexCell(d: Device, c: Column, idx: nat)
    requires idx !in Indexes(d)
    ensures ShownCell(Exposed(d), (c, idx)) == "No Such Object currently exists at this OID"
  {
    hide Indexes, Exposed, Instance;
    ExposedAt(d, c, idx);
  }

  /** A monitored index the device does not have is reported all the same. */
  lemma UnknownIndexReported(d: Device, agent: Agent, ms: seq<Monitored>, batches: seq<seq<Request>>, raw: Raw, j: nat,
                             interval: nat)
    requires j < |ms| && ms[j].index !in Indexes(d) && Entry(ms, j).metrics == "all"
    requires Flatten(batches, |batches|) == Requests(ms, |ms|)
    requires Fetched(Exposed(d), agent, batches, |batches|, raw)
    requires forall b :: 0 <= b < |batches| ==> agent(b, OidsOf(batches[b])).Binds?
    ensures var text, name := "No Such Object currently exists at this OID", Entry(ms, j).name;
            TargetedRowAt(raw, ms, j, interval) ==
            InterfaceRow(ms[j].index, if name != "" then name else text, text, 0, "testing", "unknown",
                         0, 0, 0, 0, 0, 0, 0, 0, interval, 64)
  {
    hide Fetched, Indexes, Exposed, BuildRow, Lookup, Requests, Flatten, Entry, ResolvePollMetrics, ShownCell;
    var e := Entry(ms, j);
    assert ms[..|ms|] == ms;
    forall c: Column
      ensures Lookup(raw, c, e.index) == Some("No Such Object currently exists at this OID")
    {
      AllResolves(c);
      RequestsCover(ms, |ms|, e, c);
      BatchingInvisible(Exposed(d), agent, Requests(ms, |ms|), batches, raw, c, e.index);
      UnknownIndexCell(d, c, e.index);
    }
    MissingInterfaceRow(raw, e.index, e.name, interval);
  }

  /** What a row says about a counter column. */
  function CounterIn(row: InterfaceRow, c: Column): int
  {
    match c
    case IfInOctets => row.inOctets case IfHCInOctets => row.inOctets
    case IfOutOctets => row.outOctets case IfHCOutOctets => row.outOctets
    case IfInErrors => row.inErrors case IfOutErrors => row.outErrors
    case IfInDiscards => row.inDiscards case IfOutDiscards => row.outDiscards
    case IfInUcastPkts => row.inUnicastPkts case IfOutUcastPkts => row.outUnicastPkts
    case _ => 0
  }

  /** The row under a mode shows a counter as the row under "all" does, or as zero if the metric is not reported. */
  lemma ReportedOrZero(raw: Raw, idx: nat, name: string, mode: string, interval: nat, metric: string, c: Column)
    requires IsMetric(metric) && c in MetricColumns(metric)
    ensures CounterIn(BuildRow(raw, idx, name, mode, interval), c) ==
            if HasMetric(mode, metric) then CounterIn(BuildRow(raw, idx, name, "all", interval), c) else 0
  {
    hide HasMetric, SafeInt, Lookup, Octets, NameOf, SpeedOf, OperOf, AdminStatusName;
    AllHasEverything(metric);
  }

  /**
   * A metric is fetched and then reported as zero, whatever was fetched, exactly if the mode is not "all", asks,
   * blanks aside, for the metric or for "all", and does not list the metric letter by letter.
   */
  lemma FetchedNotReportedIff(mode: string, metric: string, c: Column)
    requires IsMetric(metric) && c in MetricColumns(metric)
    ensures c in ResolvePollMetrics(mode) && !HasMetric(mode, metric) <==>
            && mode != "all" && metric !in Split(mode, ',')
            && (Asks(mode, metric) || Asks(mode, "all"))
    ensures !HasMetric(mode, metric) ==> forall raw, idx, name, interval ::
              CounterIn(BuildRow(raw, idx, name, mode, interval), c) == 0
  {
    hide MetricColumns, ResolvePollMetrics, Asks, BuildRow, CounterIn, Split, IsMetric;
    FetchedIff(mode, metric, c);
    forall raw, idx, name, interval
      ensures !HasMetric(mode, metric) ==> CounterIn(BuildRow(raw, idx, name, mode, interval), c) == 0
    {
      ReportedOrZero(raw, idx, name, mode, interval, metric, c);
    }
  }

  /**
   * The unicast counters are fetched and reported as zero exactly if "all" is one of several parts, or has blanks
   * around it.
   */
  lemma UnicastNotReportedIff(mode: string, c: Column)
    requires c == IfInUcastPkts || c == IfOutUcastPkts
    ensures (c in ResolvePollMetrics(mode) && forall raw, idx, name, interval ::
               CounterIn(BuildRow(raw, idx, name, mode, interval), c) == 0)
            <==> mode != "all" && Asks(mode, "all")
  {
    hide ResolvePollMetrics, Asks, Lookup, SafeInt, HasMetric, NameOf, SpeedOf, OperOf, Octets;
    UnicastFetchedIff(mode, c);
    if mode == "all" {
      UnicastShown(c);
    }
  }

  /** Under "all" a packet counter of one is shown as one. */
  lemma UnicastShown(c: Column)
    requires c == IfInUcastPkts || c == IfOutUcastPkts
    ensures CounterIn(BuildRow(map[c := map[0 := "1"]], 0, "", "all", 0), c) == 1
  {
    ParsePrintInt(1);
    assert PrintInt(1) == "1";
    hide ParseInt, HasMetric, NameOf, SpeedOf, OperOf, Octets, AdminStatusName;
  }

  /** A metric is only reported if it was fetched. */
  lemma ReportedIsFetched(mode: string, metric: string, c: Column)
    requires HasMetric(mode, metric) && IsMetric(metric) && c in MetricColumns(metric)
    ensures c in ResolvePollMetrics(mode)
  {
    hide MetricColumns, ResolvePollMetrics, Strip, Split, IsMetric;
    FetchedIff(mode, metric, c);
    MetricHasNoBlanks(metric);
    if mode != "all" {
      var parts := Split(mode, ',');
      var i :| 0 <= i < |parts| && parts[i] == metric;
      assert PartAsks(parts, metric);
    }
  }

  lemma MetricHasNoBlanks(metric: string)
    requires IsMetric(metric)
    ensures Strip(metric, WHITESPACE) == metric
  {
    assert !IsSpace(metric[0]) && !IsSpace(metric[|metric| - 1]);
    StripNothing(metric, WHITESPACE);
  }

  /** With a blank in front: fetched, reported as zero. */
  lemma SpacedMetricIsFetchedNotReported()
    ensures IfInErrors in ResolvePollMetrics(" errors") && !HasMetric(" errors", "errors")
  {
    hide MetricColumns, Strip, Split, ResolvePollMetrics;
    SpacedErrors();
    var parts := Split(" errors", ',');
    assert Strip(parts[0], WHITESPACE) == "errors";
    assert PartAsks(parts, "errors");
    FetchedIff(" errors", "errors", IfInErrors);
  }

  lemma SpacedErrors()
    ensures Split(" errors", ',') == [" errors"]
    ensures Strip(" errors", WHITESPACE) == "errors"
    ensures IfInErrors in MetricColumns("errors")
  {
    hide Split, Strip;
    SplitNone(" errors", ',');
    MetricHasNoBlanks("errors");
    assert IsSpace(' ');
    StripFront(' ', "errors", WHITESPACE);
    assert [' '] + "errors" == " errors";
  }

  /** With "all" among other parts: every column fetched, traffic reported as zero. */
  lemma AllAmongOthersIsFetchedNotReported()
    ensures IfHCInOctets in ResolvePollMetrics("all,errors") && !HasMetric("all,errors", "traffic")
  {
    hide MetricColumns, Strip, ResolvePollMetrics, Split;
    AllThenErrors();
    var parts := Split("all,errors", ',');
    assert Strip(parts[0], WHITESPACE) == "all";
    assert PartAsks(parts, "all");
    FetchedIff("all,errors", "traffic", IfHCInOctets);
  }

  lemma AllThenErrors()
    ensures Split("all,errors", ',') == ["all", "errors"]
    ensures Strip("all", WHITESPACE) == "all"
    ensures IfHCInOctets in MetricColumns("traffic")
  {
    hide Split, Strip;
    SplitTwo("all", "errors", ',');
    assert "all" + [','] + "errors" == "all,errors";
    var all := "all";
    assert !IsSpace(all[0]) && !IsSpace(all[2]);
    StripNothing(all, WHITESPACE);
  }
}
