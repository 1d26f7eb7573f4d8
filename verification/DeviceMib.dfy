/** What a simulated device exposes: the columns of ifTable and ifXTable and the values of its interface profiles. */
module DeviceMib {
  import opened Oids
  import opened Mib

  datatype Interface = Interface(
    index: nat, name: string, descr: string, alias: string, speedMbps: nat, adminStatus: nat, operStatus: nat,
    inOctets64: nat, outOctets64: nat, inUcastPkts: nat, outUcastPkts: nat,
    inErrors: nat, outErrors: nat, inDiscards: nat, outDiscards: nat)

  datatype Device = Device(
    sysDescr: string, sysObjectId: string, sysContact: string, sysName: string, sysLocation: string,
    interfaces: seq<Interface>)

  const TWO_TO_THE_32 := 0x1_0000_0000

  // ----- columns

  datatype Column =
    | IfIndex | IfDescr | IfSpeed | IfAdminStatus | IfOperStatus
    | IfInOctets | IfInUcastPkts | IfInDiscards | IfInErrors
    | IfOutOctets | IfOutUcastPkts | IfOutDiscards | IfOutErrors
    | IfName | IfHCInOctets | IfHCOutOctets | IfHighSpeed | IfAlias

  const TREE_COLUMNS: seq<Column> := [
    IfIndex, IfDescr, IfSpeed, IfAdminStatus, IfOperStatus,
    IfInOctets, IfInUcastPkts, IfInDiscards, IfInErrors,
    IfOutOctets, IfOutUcastPkts, IfOutDiscards, IfOutErrors,
    IfName, IfHCInOctets, IfHCOutOctets, IfHighSpeed, IfAlias]

  const COUNTER_COLUMNS: seq<Column> := [
    IfInOctets, IfInUcastPkts, IfInDiscards, IfInErrors,
    IfOutOctets, IfOutUcastPkts, IfOutDiscards, IfOutErrors,
    IfHCInOctets, IfHCOutOctets]

  predicate InIfXTable(c: Column)
  {
    c in {IfName, IfHCInOctets, IfHCOutOctets, IfHighSpeed, IfAlias}
  }

  function SubId(c: Column): nat
  {
    match c
    case IfIndex => 1 case IfDescr => 2 case IfSpeed => 5 case IfAdminStatus => 7 case IfOperStatus => 8
    case IfInOctets => 10 case IfInUcastPkts => 11 case IfInDiscards => 13 case IfInErrors => 14
    case IfOutOctets => 16 case IfOutUcastPkts => 17 case IfOutDiscards => 19 case IfOutErrors => 20
    case IfName => 1 case IfHCInOctets => 6 case IfHCOutOctets => 10 case IfHighSpeed => 15 case IfAlias => 18
  }

  const IF_TABLE: Oid := [1, 3, 6, 1, 2, 1, 2, 2, 1]
  const IFX_TABLE: Oid := [1, 3, 6, 1, 2, 1, 31, 1, 1, 1]
  const SYSTEM: Oid := [1, 3, 6, 1, 2, 1, 1]

  function BaseOid(c: Column): Oid
  {
    (if InIfXTable(c) then IFX_TABLE else IF_TABLE) + [SubId(c)]
  }

  function Instance(c: Column, idx: nat): Oid
  {
    BaseOid(c) + [idx]
  }

  lemma SubIdInjective(c: Column, d: Column)
    requires SubId(c) == SubId(d) && InIfXTable(c) == InIfXTable(d)
    ensures c == d
  {
  }

  lemma BaseOidShape(c: Column)
    ensures |BaseOid(c)| == (if InIfXTable(c) then 11 else 10)
    ensures BaseOid(c)[6] == (if InIfXTable(c) then 31 else 2)
    ensures BaseOid(c)[|BaseOid(c)| - 1] == SubId(c)
  {
  }

  /** An instance of one column lies under another column's base only if the columns are the same. */
  lemma ColumnsDisjoint(c: Column, d: Column, idx: nat)
    requires Under(BaseOid(c), Instance(d, idx))
    ensures c == d && Instance(d, idx) == BaseOid(c) + [idx]
  {
    BaseOidShape(c);
    BaseOidShape(d);
    var o := Instance(d, idx);
    assert o[6] == BaseOid(d)[6];
    assert o[..|BaseOid(c)|][6] == BaseOid(c)[6];
    assert InIfXTable(c) == InIfXTable(d);
    assert o[..|BaseOid(c)|] == BaseOid(d);
    SubIdInjective(c, d);
  }

  /** Distinct (column, index) pairs give distinct request OIDs. */
  lemma InstanceInjective(c: Column, i: nat, d: Column, j: nat)
    ensures Instance(c, i) == Instance(d, j) <==> c == d && i == j
  {
    if Instance(c, i) == Instance(d, j) {
      assert Instance(c, i)[..|BaseOid(c)|] == BaseOid(c);
      ColumnsDisjoint(c, d, j);
      assert Instance(c, i)[|BaseOid(c)|] == i;
    }
  }

  function SystemOid(k: nat): Oid
  {
    SYSTEM + [k, 0]
  }

  const UPTIME: Oid := SystemOid(3)

  // ----- values

  /** What `_populate_interfaces` stores. */
  function InitialValue(c: Column, f: Interface): Value
  {
    if c in COUNTER_COLUMNS then IntVal(0) else LiveValue(c, f)
  }

  /** The value the interface profile holds for a column; the 32-bit octet counters wrap. */
  function LiveValue(c: Column, f: Interface): Value
  {
    match c
    case IfIndex => IntVal(f.index)
    case IfDescr => StrVal(f.descr)
    case IfSpeed => IntVal(f.speedMbps * 1_000_000)
    case IfAdminStatus => IntVal(f.adminStatus)
    case IfOperStatus => IntVal(f.operStatus)
    case IfInOctets => IntVal(f.inOctets64 % TWO_TO_THE_32)
    case IfInUcastPkts => IntVal(f.inUcastPkts)
    case IfInDiscards => IntVal(f.inDiscards)
    case IfInErrors => IntVal(f.inErrors)
    case IfOutOctets => IntVal(f.outOctets64 % TWO_TO_THE_32)
    case IfOutUcastPkts => IntVal(f.outUcastPkts)
    case IfOutDiscards => IntVal(f.outDiscards)
    case IfOutErrors => IntVal(f.outErrors)
    case IfName => StrVal(f.name)
    case IfHCInOctets => IntVal(f.inOctets64)
    case IfHCOutOctets => IntVal(f.outOctets64)
    case IfHighSpeed => IntVal(f.speedMbps)
    case IfAlias => StrVal(f.alias)
  }

  // ----- the tree's content as a map

  type Content = map<Oid, Value>

  function SystemContent(d: Device): Content
  {
    map[
      SystemOid(1) := StrVal(d.sysDescr),
      SystemOid(2) := StrVal(d.sysObjectId),
      SystemOid(3) := IntVal(0),
      SystemOid(4) := StrVal(d.sysContact),
      SystemOid(5) := StrVal(d.sysName),
      SystemOid(6) := StrVal(d.sysLocation)]
  }

  /** The first `n` columns of `cols` written for one interface. */
  function PutColumns(m: Content, cols: seq<Column>, n: nat, f: Interface, live: bool): Content
    requires n <= |cols|
  {
    if n == 0 then m else
      var c := cols[n - 1];
      PutColumns(m, cols, n - 1, f, live)[Instance(c, f.index) := if live then LiveValue(c, f) else InitialValue(c, f)]
  }

  function PutInterfaces(m: Content, cols: seq<Column>, fs: seq<Interface>, n: nat, live: bool): Content
    requires n <= |fs|
  {
    if n == 0 then m else
      PutColumns(PutInterfaces(m, cols, fs, n - 1, live), cols, |cols|, fs[n - 1], live)
  }

  function Populated(d: Device): Content
  {
    PutInterfaces(SystemContent(d), TREE_COLUMNS, d.interfaces, |d.interfaces|, false)
  }

  function Refreshed(m: Content, d: Device, uptime: int): Content
  {
    PutInterfaces(m, COUNTER_COLUMNS, d.interfaces, |d.interfaces|, true)[UPTIME := IntVal(uptime)]
  }

  /** The last profile listed with this index, if any. */
  function ProfileAt(fs: seq<Interface>, n: nat, idx: nat): (r: nat)
    requires n <= |fs|
    ensures r <= n && (r > 0 ==> fs[r - 1].index == idx)
    ensures forall k :: r <= k < n ==> fs[k].index != idx
  {
    if n == 0 then 0 else if fs[n - 1].index == idx then n else ProfileAt(fs, n - 1, idx)
  }

  lemma {:induction false} PutColumnsLookup(m: Content, cols: seq<Column>, n: nat, f: Interface, live: bool, o: Oid)
    requires n <= |cols|
    ensures var m' := PutColumns(m, cols, n, f, live);
            && (o in m ==> o in m')
            && (o in m' && o !in m ==> exists c :: c in cols[..n] && o == Instance(c, f.index))
            && ((forall c :: c in cols[..n] ==> o != Instance(c, f.index)) ==>
                  (o in m' <==> o in m) && (o in m ==> m'[o] == m[o]))
            && (forall c :: c in cols[..n] && o == Instance(c, f.index) ==>
                  o in m' && m'[o] == if live then LiveValue(c, f) else InitialValue(c, f))
  {
    hide Instance, LiveValue, InitialValue;
    if n > 0 {
      PutColumnsLookup(m, cols, n - 1, f, live, o);
      var last := cols[n - 1];
      assert cols[..n] == cols[..n - 1] + [last];
      forall c | c in cols[..n] && o == Instance(c, f.index)
        ensures o == Instance(last, f.index) ==> c == last
      {
        InstanceInjective(c, f.index, last, f.index);
      }
    }
  }

  lemma OneInterfaceAt(m: Content, cols: seq<Column>, f: Interface, live: bool, c: Column, idx: nat)
    ensures var m', o := PutColumns(m, cols, |cols|, f, live), Instance(c, idx);
            if c in cols && f.index == idx
            then o in m' && m'[o] == if live then LiveValue(c, f) else InitialValue(c, f)
            else (o in m' <==> o in m) && (o in m ==> m'[o] == m[o])
  {
    hide Instance, LiveValue, InitialValue, PutColumns;
    PutColumnsLookup(m, cols, |cols|, f, live, Instance(c, idx));
    assert cols[..|cols|] == cols;
    forall d | d in cols && Instance(c, idx) == Instance(d, f.index)
      ensures d == c && f.index == idx
    {
      InstanceInjective(c, idx, d, f.index);
    }
  }

  /** What each instance of a column holds after a pass over the interfaces: the last profile with its index. */
  lemma {:induction false} PutInterfacesAt(m: Content, cols: seq<Column>, fs: seq<Interface>, n: nat, live: bool,
                                           c: Column, idx: nat)
    requires n <= |fs|
    ensures var m', o, r := PutInterfaces(m, cols, fs, n, live), Instance(c, idx), ProfileAt(fs, n, idx);
            if c in cols && r > 0
            then o in m' && m'[o] == if live then LiveValue(c, fs[r - 1]) else InitialValue(c, fs[r - 1])
            else (o in m' <==> o in m) && (o in m ==> m'[o] == m[o])
  {
    hide Instance, LiveValue, InitialValue, PutColumns;
    if n > 0 {
      PutInterfacesAt(m, cols, fs, n - 1, live, c, idx);
      OneInterfaceAt(PutInterfaces(m, cols, fs, n - 1, live), cols, fs[n - 1], live, c, idx);
    }
  }

  /** A pass over the interfaces touches column instances only. */
  lemma {:induction false} PutInterfacesElsewhere(m: Content, cols: seq<Column>, fs: seq<Interface>, n: nat,
                                                  live: bool, o: Oid)
    requires n <= |fs|
    requires forall c: Column, idx: nat :: o != Instance(c, idx)
    ensures var m' := PutInterfaces(m, cols, fs, n, live);
            (o in m' <==> o in m) && (o in m ==> m'[o] == m[o])
  {
    hide Instance, PutColumns;
    if n > 0 {
      PutInterfacesElsewhere(m, cols, fs, n - 1, live, o);
      PutColumnsLookup(PutInterfaces(m, cols, fs, n - 1, live), cols, |cols|, fs[n - 1], live, o);
    }
  }

  lemma SystemIsNoColumn(k: nat, c: Column, idx: nat)
    ensures SystemOid(k) != Instance(c, idx)
  {
    BaseOidShape(c);
    assert Instance(c, idx)[6] == BaseOid(c)[6];
    assert SystemOid(k)[6] == 1;
  }

  lemma AllColumnsListed(c: Column)
    ensures c in TREE_COLUMNS
  {
    match c {
      case IfIndex => assert TREE_COLUMNS[0] == c;
      case IfDescr => assert TREE_COLUMNS[1] == c;
      case IfSpeed => assert TREE_COLUMNS[2] == c;
      case IfAdminStatus => assert TREE_COLUMNS[3] == c;
      case IfOperStatus => assert TREE_COLUMNS[4] == c;
      case IfInOctets => assert TREE_COLUMNS[5] == c;
      case IfInUcastPkts => assert TREE_COLUMNS[6] == c;
      case IfInDiscards => assert TREE_COLUMNS[7] == c;
      case IfInErrors => assert TREE_COLUMNS[8] == c;
      case IfOutOctets => assert TREE_COLUMNS[9] == c;
      case IfOutUcastPkts => assert TREE_COLUMNS[10] == c;
      case IfOutDiscards => assert TREE_COLUMNS[11] == c;
      case IfOutErrors => assert TREE_COLUMNS[12] == c;
      case IfName => assert TREE_COLUMNS[13] == c;
      case IfHCInOctets => assert TREE_COLUMNS[14] == c;
      case IfHCOutOctets => assert TREE_COLUMNS[15] == c;
      case IfHighSpeed => assert TREE_COLUMNS[16] == c;
      case IfAlias => assert TREE_COLUMNS[17] == c;
    }
  }

  /** The refreshed tree shows, for every column and index, the live value of the last profile with that index. */
  lemma RefreshedAt(d: Device, uptime: int, c: Column, idx: nat)
    ensures var r, m := ProfileAt(d.interfaces, |d.interfaces|, idx), Refreshed(Populated(d), d, uptime);
            && (Instance(c, idx) in m <==> r > 0)
            && (r > 0 ==> m[Instance(c, idx)] == LiveValue(c, d.interfaces[r - 1]))
  {
    AllColumnsListed(c);
    PutInterfacesAt(SystemContent(d), TREE_COLUMNS, d.interfaces, |d.interfaces|, false, c, idx);
    PutInterfacesAt(Populated(d), COUNTER_COLUMNS, d.interfaces, |d.interfaces|, true, c, idx);
    SystemIsNoColumn(1, c, idx);
    SystemIsNoColumn(2, c, idx);
    SystemIsNoColumn(3, c, idx);
    SystemIsNoColumn(4, c, idx);
    SystemIsNoColumn(5, c, idx);
    SystemIsNoColumn(6, c, idx);
  }

  /** Object `sub` of ifTable holds `v` for an index. */
  predicate InIfTable(m: Content, sub: nat, idx: nat, v: Value)
  {
    var o := [1, 3, 6, 1, 2, 1, 2, 2, 1, sub, idx];
    o in m && m[o] == v
  }

  /** Object `sub` of ifXTable holds `v` for an index. */
  predicate InXTable(m: Content, sub: nat, idx: nat, v: Value)
  {
    var o := [1, 3, 6, 1, 2, 1, 31, 1, 1, 1, sub, idx];
    o in m && m[o] == v
  }

  lemma HeldInIfTable(d: Device, uptime: int, c: Column, idx: nat, sub: nat)
    requires ProfileAt(d.interfaces, |d.interfaces|, idx) > 0 && !InIfXTable(c) && SubId(c) == sub
    ensures InIfTable(Refreshed(Populated(d), d, uptime), sub, idx,
                      LiveValue(c, d.interfaces[ProfileAt(d.interfaces, |d.interfaces|, idx) - 1]))
  {
    hide Refreshed, Populated, LiveValue, ProfileAt, SubId;
    RefreshedAt(d, uptime, c, idx);
    assert Instance(c, idx) == [1, 3, 6, 1, 2, 1, 2, 2, 1, sub, idx];
  }

  lemma HeldInXTable(d: Device, uptime: int, c: Column, idx: nat, sub: nat)
    requires ProfileAt(d.interfaces, |d.interfaces|, idx) > 0 && InIfXTable(c) && SubId(c) == sub
    ensures InXTable(Refreshed(Populated(d), d, uptime), sub, idx,
                     LiveValue(c, d.interfaces[ProfileAt(d.interfaces, |d.interfaces|, idx) - 1]))
  {
    hide Refreshed, Populated, LiveValue, ProfileAt, SubId;
    RefreshedAt(d, uptime, c, idx);
    assert Instance(c, idx) == [1, 3, 6, 1, 2, 1, 31, 1, 1, 1, sub, idx];
  }

  /** The refreshed tree, OID by OID: what each object of the two interface tables holds for an index. */
  lemma RefreshedIfTable(d: Device, uptime: int, idx: nat)
    requires ProfileAt(d.interfaces, |d.interfaces|, idx) > 0
    ensures var m, f := Refreshed(Populated(d), d,
                                  uptime), d.interfaces[ProfileAt(d.interfaces, |d.interfaces|, idx) - 1];
            && InIfTable(m, 1, idx, IntVal(f.index))
            && InIfTable(m, 2, idx, StrVal(f.descr))
            && InIfTable(m, 5, idx, IntVal(f.speedMbps * 1_000_000))
            && InIfTable(m, 7, idx, IntVal(f.adminStatus))
            && InIfTable(m, 8, idx, IntVal(f.operStatus))
  {
    hide Refreshed, Populated, InIfTable, InXTable, ProfileAt;
    HeldInIfTable(d, uptime, IfIndex, idx, 1);
    HeldInIfTable(d, uptime, IfDescr, idx, 2);
    HeldInIfTable(d, uptime, IfSpeed, idx, 5);
    HeldInIfTable(d, uptime, IfAdminStatus, idx, 7);
    HeldInIfTable(d, uptime, IfOperStatus, idx, 8);
  }

  lemma RefreshedCounters(d: Device, uptime: int, idx: nat)
    requires ProfileAt(d.interfaces, |d.interfaces|, idx) > 0
    ensures var m, f := Refreshed(Populated(d), d,
                                  uptime), d.interfaces[ProfileAt(d.interfaces, |d.interfaces|, idx) - 1];
            && InIfTable(m, 10, idx, IntVal(f.inOctets64 % 4_294_967_296))
            && InIfTable(m, 11, idx, IntVal(f.inUcastPkts))
            && InIfTable(m, 13, idx, IntVal(f.inDiscards))
            && InIfTable(m, 14, idx, IntVal(f.inErrors))
            && InIfTable(m, 16, idx, IntVal(f.outOctets64 % 4_294_967_296))
            && InIfTable(m, 17, idx, IntVal(f.outUcastPkts))
            && InIfTable(m, 19, idx, IntVal(f.outDiscards))
            && InIfTable(m, 20, idx, IntVal(f.outErrors))
  {
    hide Refreshed, Populated, InIfTable, InXTable, ProfileAt;
    HeldInIfTable(d, uptime, IfInOctets, idx, 10);
    HeldInIfTable(d, uptime, IfInUcastPkts, idx, 11);
    HeldInIfTable(d, uptime, IfInDiscards, idx, 13);
    HeldInIfTable(d, uptime, IfInErrors, idx, 14);
    HeldInIfTable(d, uptime, IfOutOctets, idx, 16);
    HeldInIfTable(d, uptime, IfOutUcastPkts, idx, 17);
    HeldInIfTable(d, uptime, IfOutDiscards, idx, 19);
    HeldInIfTable(d, uptime, IfOutErrors, idx, 20);
  }

  lemma RefreshedIfXTable(d: Device, uptime: int, idx: nat)
    requires ProfileAt(d.interfaces, |d.interfaces|, idx) > 0
    ensures var m, f := Refreshed(Populated(d), d,
                                  uptime), d.interfaces[ProfileAt(d.interfaces, |d.interfaces|, idx) - 1];
            && InXTable(m, 1, idx, StrVal(f.name))
            && InXTable(m, 6, idx, IntVal(f.inOctets64))
            && InXTable(m, 10, idx, IntVal(f.outOctets64))
            && InXTable(m, 15, idx, IntVal(f.speedMbps))
            && InXTable(m, 18, idx, StrVal(f.alias))
  {
    hide Refreshed, Populated, InIfTable, InXTable, ProfileAt;
    HeldInXTable(d, uptime, IfName, idx, 1);
    HeldInXTable(d, uptime, IfHCInOctets, idx, 6);
    HeldInXTable(d, uptime, IfHCOutOctets, idx, 10);
    HeldInXTable(d, uptime, IfHighSpeed, idx, 15);
    HeldInXTable(d, uptime, IfAlias, idx, 18);
  }

  /** Every other instance of the refreshed tree is a system scalar. */
  lemma RefreshedElsewhere(d: Device, uptime: int, o: Oid)
    requires forall c: Column, idx: nat :: o != Instance(c, idx)
    ensures o in Refreshed(Populated(d), d, uptime) <==> exists k :: 1 <= k <= 6 && o == SystemOid(k)
  {
    PutInterfacesElsewhere(SystemContent(d), TREE_COLUMNS, d.interfaces, |d.interfaces|, false, o);
    PutInterfacesElsewhere(Populated(d), COUNTER_COLUMNS, d.interfaces, |d.interfaces|, true, o);
  }

  lemma {:induction false} PutColumnsKeepsKeys(m: Content, cols: seq<Column>, n: nat, f: Interface, live: bool)
    requires n <= |cols| && forall c :: c in cols ==> Instance(c, f.index) in m
    ensures PutColumns(m, cols, n, f, live).Keys == m.Keys
  {
    hide Instance, LiveValue, InitialValue;
    if n > 0 {
      PutColumnsKeepsKeys(m, cols, n - 1, f, live);
    }
  }

  /** Rewriting existing column instances leaves the key set alone. */
  lemma {:induction false} PutInterfacesKeepsKeys(m: Content, cols: seq<Column>, fs: seq<Interface>, n: nat, live: bool)
    requires n <= |fs|
    requires forall c, k :: c in cols && 0 <= k < |fs| ==> Instance(c, fs[k].index) in m
    ensures PutInterfaces(m, cols, fs, n, live).Keys == m.Keys
  {
    hide Instance, LiveValue, InitialValue, PutColumns;
    if n > 0 {
      PutInterfacesKeepsKeys(m, cols, fs, n - 1, live);
      PutColumnsKeepsKeys(PutInterfaces(m, cols, fs, n - 1, live), cols, |cols|, fs[n - 1], live);
    }
  }

  lemma PopulatedHas(d: Device)
    ensures forall c: Column, k :: 0 <= k < |d.interfaces| ==> Instance(c, d.interfaces[k].index) in Populated(d)
    ensures UPTIME in Populated(d)
  {
    forall c: Column, k | 0 <= k < |d.interfaces|
      ensures Instance(c, d.interfaces[k].index) in Populated(d)
    {
      AllColumnsListed(c);
      PutInterfacesAt(SystemContent(d), TREE_COLUMNS, d.interfaces, |d.interfaces|, false, c, d.interfaces[k].index);
    }
    forall c: Column, idx: nat
      ensures UPTIME != Instance(c, idx)
    {
      SystemIsNoColumn(3, c, idx);
    }
    PutInterfacesElsewhere(SystemContent(d), TREE_COLUMNS, d.interfaces, |d.interfaces|, false, UPTIME);
  }

  ghost predicate IsCounter(d: Device, o: Oid)
  {
    || o == UPTIME
    || exists c, k :: c in COUNTER_COLUMNS && 0 <= k < |d.interfaces| && o == Instance(c, d.interfaces[k].index)
  }

  /** `m` is the populated tree after some refreshes: same instances, static values untouched. */
  ghost predicate TreeOf(m: Content, d: Device)
  {
    m.Keys == Populated(d).Keys && forall o :: o in m && !IsCounter(d, o) ==> m[o] == Populated(d)[o]
  }

  /** `refresh_counters` never adds or removes an instance, and leaves static values alone. */
  lemma RefreshKeepsTree(m: Content, d: Device, uptime: int)
    requires TreeOf(m, d)
    ensures TreeOf(Refreshed(m, d, uptime), d)
  {
    PopulatedHas(d);
    PutInterfacesKeepsKeys(m, COUNTER_COLUMNS, d.interfaces, |d.interfaces|, true);
    forall o | o in m && !IsCounter(d, o)
      ensures Refreshed(m, d, uptime)[o] == Populated(d)[o]
    {
      PutInterfacesOff(m, d.interfaces, |d.interfaces|, o);
    }
  }

  /** Refreshing overwrites whatever an earlier refresh wrote: only the last one shows. */
  lemma RefreshForgets(m: Content, d: Device, uptime: int)
    requires TreeOf(m, d)
    ensures Refreshed(m, d, uptime) == Refreshed(Populated(d), d, uptime)
  {
    var a, b := Refreshed(m, d, uptime), Refreshed(Populated(d), d, uptime);
    RefreshKeepsTree(m, d, uptime);
    RefreshKeepsTree(Populated(d), d, uptime);
    forall o | o in a
      ensures a[o] == b[o]
    {
      if o != UPTIME {
        if c, k :| c in COUNTER_COLUMNS && 0 <= k < |d.interfaces| && o == Instance(c, d.interfaces[k].index) {
          PutInterfacesAt(m, COUNTER_COLUMNS, d.interfaces, |d.interfaces|, true, c, d.interfaces[k].index);
          PutInterfacesAt(Populated(d), COUNTER_COLUMNS, d.interfaces, |d.interfaces|, true, c, d.interfaces[k].index);
        } else {
          assert !IsCounter(d, o);
        }
      }
    }
  }

  lemma {:induction false} PutInterfacesOff(m: Content, fs: seq<Interface>, n: nat, o: Oid)
    requires n <= |fs| && o in m
    requires forall c, k :: c in COUNTER_COLUMNS && 0 <= k < n ==> o != Instance(c, fs[k].index)
    ensures var m' := PutInterfaces(m, COUNTER_COLUMNS, fs, n, true); o in m' && m'[o] == m[o]
  {
    hide Instance, PutColumns;
    if n > 0 {
      PutInterfacesOff(m, fs, n - 1, o);
      PutColumnsLookup(PutInterfaces(m, COUNTER_COLUMNS, fs, n - 1, true), COUNTER_COLUMNS, |COUNTER_COLUMNS|,
                       fs[n - 1], true, o);
      assert COUNTER_COLUMNS[..|COUNTER_COLUMNS|] == COUNTER_COLUMNS;
    }
  }
}
