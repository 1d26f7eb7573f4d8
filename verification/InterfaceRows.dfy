/** The parsing half of the interface poller: raw column tables to interface rows. */
module InterfaceRows {
  import opened Text
  import opened Mib
  import opened DeviceMib

  /** Column name to interface index to printed value. */
  type Raw = map<Column, map<nat, string>>

  datatype InterfaceRow = InterfaceRow(
    ifIndex: nat, ifName: string, ifAlias: string, speedMbps: int, adminStatus: string, operStatus: string,
    inOctets: int, outOctets: int, inErrors: int, outErrors: int, inDiscards: int, outDiscards: int,
    inUnicastPkts: int, outUnicastPkts: int, pollInterval: nat, counterBits: nat)

  /** `raw.get(c, {}).get(idx)`. */
  function Lookup(raw: Raw, c: Column, idx: nat): Option<string>
  {
    if c in raw && idx in raw[c] then Some(raw[c][idx]) else None
  }

  function TextOr(v: Option<string>, default: string): string
  {
    if v.Some? then v.value else default
  }

  /** `_safe_int(raw..get(idx, missing), default)`. */
  function SafeInt(v: Option<string>, missing: int, default: int): int
  {
    if v.None? then missing else
      match ParseInt(v.value)
      case Some(n) => n
      case None => default
  }

  function AdminStatusName(n: int): string
  {
    match n
    case 1 => "up" case 2 => "down" case 3 => "testing" case _ => "unknown"
  }

  function OperStatusName(n: int): string
  {
    match n
    case 1 => "up" case 2 => "down" case 3 => "testing" case 4 => "unknown"
    case 5 => "dormant" case 6 => "notPresent" case 7 => "lowerLayerDown" case _ => "unknown"
  }

  /** `_has_metric`: the parts are compared as they are, without stripping. */
  predicate HasMetric(mode: string, metric: string)
  {
    mode == "all" || metric in Split(mode, ',')
  }

  function NameOf(raw: Raw, idx: nat, override: string): string
  {
    if override != "" then override
    else TextOr(Lookup(raw, IfName, idx), TextOr(Lookup(raw, IfDescr, idx), "if" + PrintNat(idx)))
  }

  function OperOf(raw: Raw, idx: nat): string
  {
    OperStatusName(SafeInt(Lookup(raw, IfOperStatus, idx), 4, 4))
  }

  function Octets(hc: Option<string>, low: Option<string>): int
  {
    if hc.Some? then SafeInt(hc, 0, 0) else SafeInt(low, 0, 0)
  }

  function SpeedOf(raw: Raw, idx: nat): int
  {
    var high := SafeInt(Lookup(raw, IfHighSpeed, idx), 0, 0);
    if high > 0 then high else SafeInt(Lookup(raw, IfSpeed, idx), 0, 0) / 1_000_000
  }

  function Gate(on: bool, v: int): int
  {
    if on then v else 0
  }

  function BuildRow(raw: Raw, idx: nat, override: string, mode: string, interval: nat): InterfaceRow
  {
    var hcIn, hcOut := Lookup(raw, IfHCInOctets, idx), Lookup(raw, IfHCOutOctets, idx);
    InterfaceRow(
      idx,
      NameOf(raw, idx, override),
      TextOr(Lookup(raw, IfAlias, idx), ""),
      SpeedOf(raw, idx),
      AdminStatusName(SafeInt(Lookup(raw, IfAdminStatus, idx), 3, 3)),
      OperOf(raw, idx),
      Gate(HasMetric(mode, "traffic"), Octets(hcIn, Lookup(raw, IfInOctets, idx))),
      Gate(HasMetric(mode, "traffic"), Octets(hcOut, Lookup(raw, IfOutOctets, idx))),
      Gate(HasMetric(mode, "errors"), SafeInt(Lookup(raw, IfInErrors, idx), 0, 0)),
      Gate(HasMetric(mode, "errors"), SafeInt(Lookup(raw, IfOutErrors, idx), 0, 0)),
      Gate(HasMetric(mode, "discards"), SafeInt(Lookup(raw, IfInDiscards, idx), 0, 0)),
      Gate(HasMetric(mode, "discards"), SafeInt(Lookup(raw, IfOutDiscards, idx), 0, 0)),
      Gate(mode == "all", SafeInt(Lookup(raw, IfInUcastPkts, idx), 0, 0)),
      Gate(mode == "all", SafeInt(Lookup(raw, IfOutUcastPkts, idx), 0, 0)),
      interval,
      if hcIn.Some? || hcOut.Some? then 64 else 32)
  }

  /** What the interface profile itself says a row should be. */
  function ProfileRow(f: Interface, alias: string, interval: nat): InterfaceRow
  {
    InterfaceRow(
      f.index, f.name, alias, f.speedMbps, AdminStatusName(f.adminStatus), OperStatusName(f.operStatus),
      f.inOctets64, f.outOctets64, f.inErrors, f.outErrors, f.inDiscards, f.outDiscards,
      f.inUcastPkts, f.outUcastPkts, interval, 64)
  }

  function Shown(c: Column, f: Interface): string
  {
    Pretty(Bound(LiveValue(c, f)))
  }

  lemma ShownInt(c: Column, f: Interface, n: int, missing: int, default: int)
    requires LiveValue(c, f) == IntVal(n)
    ensures SafeInt(Some(Shown(c, f)), missing, default) == n
  {
    ParsePrintInt(n);
  }

  lemma ShownCounters(f: Interface)
    ensures SafeInt(Some(Shown(IfHCInOctets, f)), 0, 0) == f.inOctets64
    ensures SafeInt(Some(Shown(IfHCOutOctets, f)), 0, 0) == f.outOctets64
    ensures SafeInt(Some(Shown(IfInErrors, f)), 0, 0) == f.inErrors
    ensures SafeInt(Some(Shown(IfOutErrors, f)), 0, 0) == f.outErrors
    ensures SafeInt(Some(Shown(IfInDiscards, f)), 0, 0) == f.inDiscards
    ensures SafeInt(Some(Shown(IfOutDiscards, f)), 0, 0) == f.outDiscards
    ensures SafeInt(Some(Shown(IfInUcastPkts, f)), 0, 0) == f.inUcastPkts
    ensures SafeInt(Some(Shown(IfOutUcastPkts, f)), 0, 0) == f.outUcastPkts
  {
    hide SafeInt, Shown;
    ShownInt(IfHCInOctets, f, f.inOctets64, 0, 0);
    ShownInt(IfHCOutOctets, f, f.outOctets64, 0, 0);
    ShownInt(IfInErrors, f, f.inErrors, 0, 0);
    ShownInt(IfOutErrors, f, f.outErrors, 0, 0);
    ShownInt(IfInDiscards, f, f.inDiscards, 0, 0);
    ShownInt(IfOutDiscards, f, f.outDiscards, 0, 0);
    ShownInt(IfInUcastPkts, f, f.inUcastPkts, 0, 0);
    ShownInt(IfOutUcastPkts, f, f.outUcastPkts, 0, 0);
  }

  lemma ShownIdentity(f: Interface)
    ensures SafeInt(Some(Shown(IfOperStatus, f)), 4, 4) == f.operStatus
    ensures SafeInt(Some(Shown(IfAdminStatus, f)), 3, 3) == f.adminStatus
    ensures SafeInt(Some(Shown(IfHighSpeed, f)), 0, 0) == f.speedMbps
    ensures SafeInt(Some(Shown(IfSpeed, f)), 0, 0) == f.speedMbps * 1_000_000
    ensures Shown(IfName, f) == f.name
  {
    hide SafeInt;
    ShownInt(IfOperStatus, f, f.operStatus, 4, 4);
    ShownInt(IfAdminStatus, f, f.adminStatus, 3, 3);
    ShownInt(IfHighSpeed, f, f.speedMbps, 0, 0);
    ShownInt(IfSpeed, f, f.speedMbps * 1_000_000, 0, 0);
  }

  /** A raw table that shows every column of a profile, the alias aside, yields the profile's row. */
  lemma RowFromProfile(raw: Raw, f: Interface, interval: nat)
    requires forall c: Column :: c != IfAlias ==> Lookup(raw, c, f.index) == Some(Shown(c, f))
    ensures BuildRow(raw, f.index, "", "all", interval) ==
            ProfileRow(f, TextOr(Lookup(raw, IfAlias, f.index), ""), interval)
  {
    hide SafeInt, Lookup, AdminStatusName, OperStatusName, HasMetric, Shown;
    AllHasEverything("traffic");
    AllHasEverything("errors");
    AllHasEverything("discards");
    ShownCounters(f);
    ShownIdentity(f);
  }

  lemma AllHasEverything(metric: string)
    ensures HasMetric("all", metric)
  {
  }

  // ----- filters and row selection (walk mode)

  datatype Filters = Filters(wanted: seq<string>, unwanted: seq<string>, excludeOper: set<string>)

  const NO_FILTERS := Filters([], [], {})

  predicate MatchesAny(name: string, patterns: seq<string>)
  {
    exists i :: 0 <= i < |patterns| && Contains(name, patterns[i])
  }

  predicate Kept(raw: Raw, idx: nat, filters: Filters)
  {
    && OperOf(raw, idx) !in filters.excludeOper
    && (filters.wanted == [] || MatchesAny(NameOf(raw, idx, ""), filters.wanted))
    && !MatchesAny(NameOf(raw, idx, ""), filters.unwanted)
  }

  function SelectRows(raw: Raw, idxs: seq<nat>, n: nat, filters: Filters, interval: nat): (rows: seq<InterfaceRow>)
    requires n <= |idxs|
  {
    if n == 0 then [] else
      SelectRows(raw, idxs, n - 1, filters, interval)
      + if Kept(raw, idxs[n - 1], filters) then [BuildRow(raw, idxs[n - 1], "", "all", interval)] else []
  }

  lemma NothingFiltered(raw: Raw, idx: nat)
    ensures Kept(raw, idx, NO_FILTERS)
  {
  }

  /** Without filters every index gets its row, in order. */
  lemma {:induction false} UnfilteredRows(raw: Raw, idxs: seq<nat>, n: nat, interval: nat)
    requires n <= |idxs|
    ensures var rows := SelectRows(raw, idxs, n, NO_FILTERS, interval);
            |rows| == n && forall j :: 0 <= j < n ==> rows[j] == BuildRow(raw, idxs[j], "", "all", interval)
  {
    hide BuildRow, Kept;
    if n > 0 {
      UnfilteredRows(raw, idxs, n - 1, interval);
      NothingFiltered(raw, idxs[n - 1]);
    }
  }

  /** Some row is about the interface `idx`. */
  ghost predicate Reports(rows: seq<InterfaceRow>, idx: nat)
  {
    exists j :: 0 <= j < |rows| && rows[j].ifIndex == idx
  }

  lemma ReportsMore(rows: seq<InterfaceRow>, row: InterfaceRow, idx: nat)
    ensures Reports(rows + [row], idx) <==> Reports(rows, idx) || row.ifIndex == idx
  {
    var all := rows + [row];
    if j :| 0 <= j < |rows| && rows[j].ifIndex == idx {
      assert all[j].ifIndex == idx;
    }
    if row.ifIndex == idx {
      assert all[|rows|].ifIndex == idx;
    }
    if j :| 0 <= j < |all| && all[j].ifIndex == idx {
      if j < |rows| {
        assert rows[j].ifIndex == idx;
      }
    }
  }

  lemma {:induction false} SelectedIff(raw: Raw, idxs: seq<nat>, n: nat, filters: Filters, interval: nat, idx: nat)
    requires n <= |idxs|
    ensures Reports(SelectRows(raw, idxs, n, filters, interval), idx) <==> idx in idxs[..n] && Kept(raw, idx, filters)
  {
    hide Kept, BuildRow;
    if n == 0 {
      assert SelectRows(raw, idxs, 0, filters, interval) == [];
    } else {
      SelectedIff(raw, idxs, n - 1, filters, interval, idx);
      hide Reports;
      var before, row := SelectRows(raw, idxs, n - 1, filters, interval), BuildRow(raw, idxs[n - 1], "", "all",
                                    interval);
      assert idxs[..n] == idxs[..n - 1] + [idxs[n - 1]];
      RowIndex(raw, idxs[n - 1], interval);
      ReportsMore(before, row, idx);
      assert before + [] == before;
    }
  }

  lemma RowIndex(raw: Raw, idx: nat, interval: nat)
    ensures BuildRow(raw, idx, "", "all", interval).ifIndex == idx
  {
  }

  /**
   * An interface found is reported exactly if its status is not excluded, its name contains a wanted pattern (when any
   * is given) and contains no unwanted one.
   */
  lemma FilteredRows(raw: Raw, idxs: seq<nat>, n: nat, filters: Filters, interval: nat, idx: nat)
    requires n <= |idxs|
    ensures var row := BuildRow(raw, idx, "", "all", interval);
            Reports(SelectRows(raw, idxs, n, filters, interval), idx) <==>
              && idx in idxs[..n]
              && row.operStatus !in filters.excludeOper
              && (filters.wanted == [] ||
                  exists i :: 0 <= i < |filters.wanted| && Contains(row.ifName, filters.wanted[i]))
              && (forall i :: 0 <= i < |filters.unwanted| ==> !Contains(row.ifName, filters.unwanted[i]))
  {
    SelectedIff(raw, idxs, n, filters, interval, idx);
    RowText(raw, idx, interval);
    hide BuildRow, SelectRows, Reports, Contains;
  }

  lemma RowText(raw: Raw, idx: nat, interval: nat)
    ensures var row := BuildRow(raw, idx, "", "all", interval);
            row.ifName == NameOf(raw, idx, "") && row.operStatus == OperOf(raw, idx)
  {
  }

  // ----- statuses

  /** Which status each number stands for, and which numbers stand for none. */
  lemma StatusesTold(n: int)
    ensures (AdminStatusName(n) == "up" <==> n == 1) && (AdminStatusName(n) == "down" <==> n == 2)
    ensures (AdminStatusName(n) == "testing" <==> n == 3) && (AdminStatusName(n) == "unknown" <==> n < 1 || n > 3)
    ensures (OperStatusName(n) == "up" <==> n == 1) && (OperStatusName(n) == "down" <==> n == 2)
    ensures (OperStatusName(n) == "testing" <==> n == 3) && (OperStatusName(n) == "dormant" <==> n == 5)
    ensures (OperStatusName(n) == "notPresent" <==> n == 6) && (OperStatusName(n) == "lowerLayerDown" <==> n == 7)
    ensures OperStatusName(n) == "unknown" <==> n < 1 || n == 4 || n > 7
  {
  }

  // ----- a device without ifXTable

  lemma ShownOldCounters(f: Interface)
    ensures SafeInt(Some(Shown(IfInOctets, f)), 0, 0) == f.inOctets64 % 4_294_967_296
    ensures SafeInt(Some(Shown(IfOutOctets, f)), 0, 0) == f.outOctets64 % 4_294_967_296
    ensures SafeInt(Some(Shown(IfSpeed, f)), 0, 0) == f.speedMbps * 1_000_000
    ensures Shown(IfDescr, f) == f.descr
  {
    hide SafeInt;
    ShownInt(IfInOctets, f, f.inOctets64 % 4_294_967_296, 0, 0);
    ShownInt(IfOutOctets, f, f.outOctets64 % 4_294_967_296, 0, 0);
    ShownInt(IfSpeed, f, f.speedMbps * 1_000_000, 0, 0);
  }

  /** Without the extension table: the description for a name, the speed in bits, and counters modulo 2^32. */
  lemma RowFromOldTable(raw: Raw, f: Interface, interval: nat)
    requires forall c: Column :: Lookup(raw, c, f.index) == if InIfXTable(c) then None else Some(Shown(c, f))
    ensures BuildRow(raw, f.index, "", "all", interval) ==
            ProfileRow(f, "", interval).(
              ifName := f.descr, counterBits := 32,
              inOctets := f.inOctets64 % 4_294_967_296, outOctets := f.outOctets64 % 4_294_967_296)
  {
    hide SafeInt, Lookup, AdminStatusName, OperStatusName, HasMetric, Shown;
    AllHasEverything("traffic");
    AllHasEverything("errors");
    AllHasEverything("discards");
    ShownCounters(f);
    ShownIdentity(f);
    ShownOldCounters(f);
    Absent();
  }

  lemma Absent()
    ensures SafeInt(None, 0, 0) == 0
  {
  }

  /** An index with no cells at all still makes a row, named by its number. */
  lemma RowWithoutCells(raw: Raw, idx: nat, interval: nat)
    requires forall c: Column :: Lookup(raw, c, idx) == None
    ensures BuildRow(raw, idx, "", "all", interval) ==
            InterfaceRow(idx, "if" + PrintNat(idx), "", 0, "testing", "unknown", 0, 0, 0, 0, 0, 0, 0, 0, interval, 32)
  {
    hide Lookup, HasMetric;
  }

  // ----- rows under any metrics mode

  /**
   * The row of interface `f` under `mode`: identity always, counters of the metrics the mode lists, zero for the
   * others.
   */
  ghost predicate RowUnder(f: Interface, name: string, mode: string, interval: nat, row: InterfaceRow)
  {
    && row.ifIndex == f.index && row.ifName == (if name != "" then name else f.name) && row.ifAlias == f.alias
    && row.speedMbps == f.speedMbps && row.pollInterval == interval
    && row.adminStatus == AdminStatusName(f.adminStatus) && row.operStatus == OperStatusName(f.operStatus)
    && row.inOctets == (if HasMetric(mode, "traffic") then f.inOctets64 else 0)
    && row.outOctets == (if HasMetric(mode, "traffic") then f.outOctets64 else 0)
    && row.inErrors == (if HasMetric(mode, "errors") then f.inErrors else 0)
    && row.outErrors == (if HasMetric(mode, "errors") then f.outErrors else 0)
    && row.inDiscards == (if HasMetric(mode, "discards") then f.inDiscards else 0)
    && row.outDiscards == (if HasMetric(mode, "discards") then f.outDiscards else 0)
    && row.inUnicastPkts == (if mode == "all" then f.inUcastPkts else 0)
    && row.outUnicastPkts == (if mode == "all" then f.outUcastPkts else 0)
    && (HasMetric(mode, "traffic") ==> row.counterBits == 64)
  }

  /** Column `c` must have been fetched for a row under `mode`. */
  predicate NeededFor(c: Column, mode: string)
  {
    || c in {IfName, IfAlias, IfHighSpeed, IfSpeed, IfAdminStatus, IfOperStatus}
    || (c in {IfHCInOctets, IfHCOutOctets} && HasMetric(mode, "traffic"))
    || (c in {IfInErrors, IfOutErrors} && HasMetric(mode, "errors"))
    || (c in {IfInDiscards, IfOutDiscards} && HasMetric(mode, "discards"))
    || (c in {IfInUcastPkts, IfOutUcastPkts} && mode == "all")
  }

  lemma RowFromFetched(raw: Raw, f: Interface, name: string, mode: string, interval: nat)
    requires forall c: Column :: NeededFor(c, mode) ==> Lookup(raw, c, f.index) == Some(Shown(c, f))
    ensures RowUnder(f, name, mode, interval, BuildRow(raw, f.index, name, mode, interval))
  {
    hide SafeInt, Lookup, AdminStatusName, OperStatusName, HasMetric, Shown;
    ShownCounters(f);
    ShownIdentity(f);
    assert Shown(IfAlias, f) == f.alias by { ShownAlias(f); }
  }

  lemma ShownAlias(f: Interface)
    ensures Shown(IfAlias, f) == f.alias
  {
  }

  // ----- `sorted` on a set of indexes

  ghost predicate Ascending(s: seq<nat>)
  {
    forall i, j :: 0 <= i < j < |s| ==> s[i] < s[j]
  }

  ghost predicate IsSorting(r: seq<nat>, s: set<nat>)
  {
    Ascending(r) && forall x :: x in r <==> x in s
  }

  lemma InsertAscending(r: seq<nat>, x: nat, p: nat)
    requires Ascending(r) && p <= |r| && x !in r
    requires forall i :: 0 <= i < p ==> r[i] < x
    requires p < |r| ==> x < r[p]
    ensures Ascending(r[..p] + [x] + r[p..])
    ensures forall y :: y in r[..p] + [x] + r[p..] <==> y in r || y == x
  {
    var r' := r[..p] + [x] + r[p..];
    forall y | y in r
      ensures y in r'
    {
      var i :| 0 <= i < |r| && r[i] == y;
      assert r'[if i < p then i else i + 1] == y;
    }
    assert r'[p] == x;
  }

  method SortIndexes(s: set<nat>) returns (r: seq<nat>)
    ensures IsSorting(r, s)
  {
    r := [];
    var rest := s;
    while rest != {}
      invariant rest <= s && IsSorting(r, s - rest)
      decreases rest
    {
      var x :| x in rest;
      var p := 0;
      while p < |r| && r[p] < x
        invariant p <= |r| && forall i :: 0 <= i < p ==> r[i] < x
      {
        p := p + 1;
      }
      InsertAscending(r, x, p);
      r := r[..p] + [x] + r[p..];
      rest := rest - {x};
    }
    assert s - rest == s;
  }
}
