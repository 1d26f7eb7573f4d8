/** Polling a simulated device in walk mode, from its interface profiles to the poller's rows. */
module EndToEnd {
  import opened Oids
  import opened Mib
  import opened Text
  import opened DeviceMib
  import opened Handler
  import opened InterfaceRows
  import opened PollWalk
  import Walk

  // ----- the device's MIB

  function Exposed(d: Device): Content
  {
    Refreshed(Populated(d), d, 0)
  }

  /** Everything but the clock: the instances whose value stays the same while no counter ticks. */
  function Stable(d: Device): Content
  {
    Exposed(d) - {UPTIME}
  }

  ghost function Indexes(d: Device): set<nat>
  {
    set k | 0 <= k < |d.interfaces| :: d.interfaces[k].index
  }

  function Profile(d: Device, idx: nat): Interface
    requires ProfileAt(d.interfaces, |d.interfaces|, idx) > 0
  {
    d.interfaces[ProfileAt(d.interfaces, |d.interfaces|, idx) - 1]
  }

  lemma IndexesHaveProfiles(d: Device, idx: nat)
    ensures idx in Indexes(d) <==> ProfileAt(d.interfaces, |d.interfaces|, idx) > 0
    ensures idx in Indexes(d) ==> Profile(d, idx).index == idx
  {
    var r := ProfileAt(d.interfaces, |d.interfaces|, idx);
    if r > 0 {
      assert d.interfaces[r - 1].index == idx;
    }
  }

  lemma ExposedAt(d: Device, c: Column, idx: nat)
    ensures Instance(c, idx) in Exposed(d) <==> idx in Indexes(d)
    ensures Instance(c, idx) in Stable(d) <==> idx in Indexes(d)
    ensures idx in Indexes(d) ==> ProfileAt(d.interfaces, |d.interfaces|, idx) > 0
                                  && Stable(d)[Instance(c, idx)] == LiveValue(c, Profile(d, idx))
  {
    hide Instance, LiveValue, Refreshed, Populated, ProfileAt;
    RefreshedAt(d, 0, c, idx);
    IndexesHaveProfiles(d, idx);
    SystemIsNoColumn(3, c, idx);
  }

  /** The instances below a column's base are that column's, one per interface index. */
  lemma BelowColumn(d: Device, c: Column, o: Oid)
    ensures o in Exposed(d) && Below(BaseOid(c), o) <==> exists idx :: idx in Indexes(d) && o == Instance(c, idx)
  {
    hide LiveValue, Refreshed, Populated, ProfileAt;
    if o in Exposed(d) && Below(BaseOid(c), o) {
      if e: Column, idx: nat :| o == Instance(e, idx) {
        ColumnsDisjoint(c, e, idx);
        ExposedAt(d, c, idx);
      } else {
        RefreshedElsewhere(d, 0, o);
        var k :| 1 <= k <= 6 && o == SystemOid(k);
        SystemUnderNoColumn(k, c);
      }
    }
    if idx :| idx in Indexes(d) && o == Instance(c, idx) {
      ExposedAt(d, c, idx);
      assert o[..|BaseOid(c)|] == BaseOid(c);
    }
  }

  lemma SystemUnderNoColumn(k: nat, c: Column)
    ensures !Under(BaseOid(c), SystemOid(k))
    ensures Less(SystemOid(k), BaseOid(c))
  {
    BaseOidShape(c);
    var o := SystemOid(k);
    assert o[6] == 1;
    assert o[..6] == BaseOid(c)[..6];
    LessDecided(o, BaseOid(c), 6);
  }

  /** Two sorted lists with the same members are the same list. */
  lemma {:induction false} SortedUnique(a: seq<Oid>, b: seq<Oid>)
    requires Sorted(a) && Sorted(b) && forall o :: o in a <==> o in b
    ensures a == b
    decreases |a|
  {
    if a == [] {
      NoMembers(a);
      NoMembers(b);
    } else {
      assert a[0] in b && b != [];
      assert b[0] in a;
      if a[0] != b[0] {
        LessAsymmetric(a[0], b[0]);
        assert false;
      }
      LessIrreflexive(a[0]);
      var a', b' := a[1..], b[1..];
      forall o
        ensures o in a' <==> o in b'
      {
        TailMembers(a, o);
        TailMembers(b, o);
      }
      SortedUnique(a', b');
      assert a == [a[0]] + a' && b == [b[0]] + b';
    }
  }

  lemma NoMembers(a: seq<Oid>)
    ensures a == [] <==> forall o :: o !in a
  {
    if a != [] {
      assert a[0] in a;
    }
  }

  lemma TailMembers(a: seq<Oid>, o: Oid)
    requires Sorted(a) && a != []
    ensures o in a[1..] <==> o in a && o != a[0]
  {
    LessIrreflexive(a[0]);
    assert a == [a[0]] + a[1..];
  }

  function ColumnKeys(c: Column, idxs: seq<nat>): (names: seq<Oid>)
    ensures |names| == |idxs| && forall j :: 0 <= j < |idxs| ==> names[j] == Instance(c, idxs[j])
  {
    seq(|idxs|, j requires 0 <= j < |idxs| => Instance(c, idxs[j]))
  }

  lemma InstanceOrder(c: Column, i: nat, j: nat)
    requires i < j
    ensures Less(Instance(c, i), Instance(c, j))
  {
    var a, b, n := Instance(c, i), Instance(c, j), |BaseOid(c)|;
    assert a[..n] == BaseOid(c) == b[..n];
    assert a[n] == i && b[n] == j;
    LessDecided(a, b, n);
  }

  lemma {:induction false} SubtreeFromMembers(keys: seq<Oid>, base: Oid, i: nat, o: Oid)
    requires i <= |keys|
    ensures o in SubtreeFrom(keys, base, i) <==> o in keys[i..] && Below(base, o)
    decreases |keys| - i
  {
    if i < |keys| {
      SubtreeFromMembers(keys, base, i + 1, o);
      assert keys[i..] == [keys[i]] + keys[i + 1..];
    }
  }

  lemma ColumnSubtree(d: Device, keys: seq<Oid>, c: Column, idxs: seq<nat>)
    requires KeysOf(keys, Exposed(d)) && IsSorting(idxs, Indexes(d))
    ensures SubtreeKeys(keys, BaseOid(c)) == ColumnKeys(c, idxs)
  {
    hide Exposed, Instance, Indexes;
    var a, b := SubtreeKeys(keys, BaseOid(c)), ColumnKeys(c, idxs);
    SubtreeIsInterval(keys, BaseOid(c));
    assert Sorted(a);
    forall i, j | 0 <= i < j < |b|
      ensures Less(b[i], b[j])
    {
      InstanceOrder(c, idxs[i], idxs[j]);
    }
    forall o
      ensures o in a <==> o in b
    {
      SubtreeFromMembers(keys, BaseOid(c), 0, o);
      assert keys[0..] == keys;
      BelowColumn(d, c, o);
      if idx :| idx in Indexes(d) && o == Instance(c, idx) {
        var j :| 0 <= j < |idxs| && idxs[j] == idx;
        assert b[j] == o;
      }
    }
    SortedUnique(a, b);
  }

  /** Every column but ifAlias, the last one, has an instance after it, provided there is any interface at all. */
  lemma ColumnFollowed(d: Device, keys: seq<Oid>, c: Column)
    requires KeysOf(keys, Exposed(d))
    ensures Followed(keys, BaseOid(c)) <==> d.interfaces != [] && c != IfAlias
  {
    hide Exposed, Indexes;
    if d.interfaces != [] && c != IfAlias {
      var idx := d.interfaces[0].index;
      assert idx in Indexes(d) by { IndexZero(d); }
      ExposedAt(d, IfAlias, idx);
      AliasIsLast(c, idx);
      if Under(BaseOid(c), Instance(IfAlias, idx)) {
        ColumnsDisjoint(c, IfAlias, idx);
      }
      var i :| 0 <= i < |keys| && keys[i] == Instance(IfAlias, idx);
    } else if i :| 0 <= i < |keys| && Less(BaseOid(c), keys[i]) && !Under(BaseOid(c), keys[i]) {
      NothingFollows(d, c, keys[i]);
    }
  }

  lemma IndexZero(d: Device)
    requires d.interfaces != []
    ensures d.interfaces[0].index in Indexes(d)
  {
  }

  lemma AliasIsLast(c: Column, idx: nat)
    requires c != IfAlias
    ensures Less(BaseOid(c), Instance(IfAlias, idx))
  {
    BaseOidShape(c);
    var o := Instance(IfAlias, idx);
    if InIfXTable(c) {
      assert o[..10] == IFX_TABLE == BaseOid(c)[..10];
      LessDecided(BaseOid(c), o, 10);
    } else {
      assert o[..6] == BaseOid(c)[..6];
      LessDecided(BaseOid(c), o, 6);
    }
  }

  lemma InstanceUnderBase(c: Column, idx: nat)
    ensures Under(BaseOid(c), Instance(c, idx))
  {
    assert Instance(c, idx)[..|BaseOid(c)|] == BaseOid(c);
  }

  lemma NothingFollows(d: Device, c: Column, o: Oid)
    requires o in Exposed(d) && Less(BaseOid(c), o) && !Under(BaseOid(c), o)
    ensures d.interfaces != [] && c != IfAlias
  {
    hide LiveValue, Refreshed, Populated, ProfileAt;
    if e: Column, idx: nat :| o == Instance(e, idx) {
      ExposedAt(d, e, idx);
      if c == IfAlias {
        InstanceUnderBase(e, idx);
        assert e != IfAlias;
        InstanceBeforeAlias(e, idx);
        LessAsymmetric(o, BaseOid(c));
      }
    } else {
      RefreshedElsewhere(d, 0, o);
      var k :| 1 <= k <= 6 && o == SystemOid(k);
      SystemUnderNoColumn(k, c);
      LessAsymmetric(o, BaseOid(c));
    }
  }

  lemma InstanceBeforeAlias(e: Column, idx: nat)
    requires e != IfAlias
    ensures Less(Instance(e, idx), BaseOid(IfAlias))
  {
    BaseOidShape(e);
    var o := Instance(e, idx);
    if InIfXTable(e) {
      assert o[..10] == IFX_TABLE == BaseOid(IfAlias)[..10];
      LessDecided(o, BaseOid(IfAlias), 10);
    } else {
      assert o[..6] == BaseOid(IfAlias)[..6];
      LessDecided(o, BaseOid(IfAlias), 6);
    }
  }

  // ----- from walked rows to column tables

  /** A column of `n` instances, possibly followed by repeats of the last one that read `tail`. */
  ghost predicate ColumnShape(rows: seq<Row>, idxs: seq<nat>, tail: string)
  {
    && 0 < |idxs| <= |rows| && Ascending(idxs)
    && (forall j :: 0 <= j < |rows| ==> rows[j].0 != [])
    && (forall j :: 0 <= j < |idxs| ==> LastOf(rows[j].0) == idxs[j])
    && (forall j :: |idxs| <= j < |rows| ==> LastOf(rows[j].0) == idxs[|idxs| - 1] && rows[j].1 == tail)
  }

  lemma {:induction false} TableOfInstances(rows: seq<Row>, idxs: seq<nat>, tail: string, m: nat)
    requires ColumnShape(rows, idxs, tail) && m <= |idxs|
    ensures forall x :: x in IndexRows(rows, m) <==> x in idxs[..m]
    ensures forall j :: 0 <= j < m ==> idxs[j] in IndexRows(rows, m) && IndexRows(rows, m)[idxs[j]] == rows[j].1
  {
    if m > 0 {
      TableOfInstances(rows, idxs, tail, m - 1);
      var before, x := IndexRows(rows, m - 1), idxs[m - 1];
      assert IndexRows(rows, m) == before[x := rows[m - 1].1];
      assert idxs[..m] == idxs[..m - 1] + [x];
      assert forall j :: 0 <= j < m - 1 ==> idxs[j] < x;
      hide ColumnShape, IndexRows;
    }
  }

  lemma {:induction false} TableOfColumn(rows: seq<Row>, idxs: seq<nat>, tail: string, m: nat)
    requires ColumnShape(rows, idxs, tail) && |idxs| <= m <= |rows|
    ensures forall x :: x in IndexRows(rows, m) <==> x in idxs
    ensures forall j :: 0 <= j < |idxs| ==>
              idxs[j] in IndexRows(rows, m)
              && IndexRows(rows, m)[idxs[j]] == if j == |idxs| - 1 && m > |idxs| then tail else rows[j].1
  {
    if m == |idxs| {
      TableOfInstances(rows, idxs, tail, m);
      assert idxs[..m] == idxs;
    } else {
      TableOfColumn(rows, idxs, tail, m - 1);
      var before, x := IndexRows(rows, m - 1), idxs[|idxs| - 1];
      assert IndexRows(rows, m) == before[x := tail];
      assert x in idxs && forall j :: 0 <= j < |idxs| - 1 ==> idxs[j] < x;
      hide ColumnShape, IndexRows;
    }
  }

  /** What a conforming walk of a device column looks like. */
  lemma WalkedColumn(d: Device, keys: seq<Oid>, c: Column, idxs: seq<nat>, rows: seq<Row>)
    requires KeysOf(keys, Exposed(d)) && IsSorting(idxs, Indexes(d)) && idxs != []
    requires ColumnPrefix(keys, Stable(d), BaseOid(c), rows) && |idxs| <= |rows|
    requires Followed(keys, BaseOid(c)) ==> |rows| == |idxs|
    ensures ColumnShape(rows, idxs, END_OF_MIB_TEXT)
    ensures forall j :: 0 <= j < |idxs| ==>
              ProfileAt(d.interfaces, |d.interfaces|, idxs[j]) > 0 && rows[j].1 == Shown(c, Profile(d, idxs[j]))
  {
    hide Exposed, Stable, Indexes, BaseOid, ProfileAt, Shown, LiveValue, Ended, StreamName;
    var base, n := BaseOid(c), |idxs|;
    ColumnSubtree(d, keys, c, idxs);
    forall j | 0 <= j < |rows|
      ensures rows[j].0 != []
      ensures j < n ==> LastOf(rows[j].0) == idxs[j]
      ensures j < n ==>
                ProfileAt(d.interfaces, |d.interfaces|, idxs[j]) > 0 && rows[j].1 == Shown(c, Profile(d, idxs[j]))
      ensures j >= n ==> LastOf(rows[j].0) == idxs[n - 1] && rows[j].1 == END_OF_MIB_TEXT
    {
      assert ColumnRow(keys, Stable(d), base, j, rows[j]);
      if j < n {
        StreamInSubtree(keys, base, j);
        assert rows[j].0 == Instance(c, idxs[j]);
        ExposedAt(d, c, idxs[j]);
        ShownIs(c, Profile(d, idxs[j]));
      } else {
        StreamPastSubtree(keys, base, j);
        assert rows[j].0 == Instance(c, idxs[n - 1]);
      }
    }
  }

  lemma ShownIs(c: Column, f: Interface)
    ensures Shown(c, f) == Pretty(Bound(LiveValue(c, f)))
  {
  }

  /** Past an unfollowed subtree the stream repeats the subtree's last name. */
  lemma StreamPastSubtree(keys: seq<Oid>, base: Oid, j: nat)
    requires Sorted(keys) && !Followed(keys, base) && |SubtreeKeys(keys, base)| <= j
    ensures Ended(keys, base, j)
    ensures StreamName(keys, base, j) ==
            if SubtreeKeys(keys, base) == [] then base else SubtreeKeys(keys, base)[|SubtreeKeys(keys, base)| - 1]
  {
    SubtreeIsInterval(keys, base);
  }

  // ----- the theorem

  /** Eighteen agents, each answering from the device's MIB; the clock may move between requests. */
  ghost predicate PollsDevice(d: Device, keys: seq<Oid>, agents: Agents)
  {
    && KeysOf(keys, Exposed(d))
    && forall i :: 0 <= i < |POLL_COLUMNS| ==>
         Conforming(keys, Stable(d), ColumnAgent(agents, i), 1) && Answers(keys, ColumnAgent(agents, i), 1, 1)
  }

  /** What the tables of a polled device look like: every cell is the profile's, except that ifAlias,
      the last column, loses the cell of the highest index to endOfMibView. */
  ghost predicate DeviceTables(d: Device, raw: Raw, idxs: seq<nat>)
  {
    forall c: Column :: c in raw && DeviceTable(d, c, raw[c], idxs)
  }

  ghost predicate DeviceTable(d: Device, c: Column, table: map<nat, string>, idxs: seq<nat>)
  {
    && (forall x :: x in table <==> x in idxs)
    && forall j :: 0 <= j < |idxs| ==>
         && idxs[j] in table && ProfileAt(d.interfaces, |d.interfaces|, idxs[j]) > 0
         && (c != IfAlias || j < |idxs| - 1 ==> table[idxs[j]] == Shown(c, Profile(d, idxs[j])))
         && (c == IfAlias && j == |idxs| - 1 && |idxs| < Walk.ROW_CAP ==> table[idxs[j]] == END_OF_MIB_TEXT)
  }

  lemma PollColumnIndex(c: Column) returns (i: nat)
    ensures i < |POLL_COLUMNS| && POLL_COLUMNS[i] == c
  {
    match c {
      case IfIndex => i := 0; case IfDescr => i := 1; case IfSpeed => i := 2; case IfAdminStatus => i := 3;
      case IfOperStatus => i := 4; case IfInOctets => i := 5; case IfOutOctets => i := 6; case IfInErrors => i := 7;
      case IfOutErrors => i := 8; case IfInDiscards => i := 9; case IfOutDiscards => i := 10;
      case IfInUcastPkts => i := 11; case IfOutUcastPkts => i := 12; case IfName => i := 13; case IfAlias => i := 14;
      case IfHighSpeed => i := 15; case IfHCInOctets => i := 16; case IfHCOutOctets => i := 17;
    }
  }

  lemma TableOfDevice(d: Device, keys: seq<Oid>, agent: Agent, c: Column, walked: Walk.WalkResult,
                      table: map<nat, string>, idxs: seq<nat>)
    requires KeysOf(keys, Exposed(d)) && Conforming(keys, Stable(d), agent, 1) && Answers(keys, agent, 1, 1)
    requires Walk.WalkPromise(agent, BaseOid(c), keys, Stable(d), walked) && TableFrom(c, walked, table)
    requires IsSorting(idxs, Indexes(d)) && 0 < |idxs| <= Walk.ROW_CAP
    ensures DeviceTable(d, c, table, idxs)
  {
    hide Exposed, Stable, Indexes, BaseOid, ProfileAt, Shown, IndexRows, ColumnShape, ColumnPrefix, ColumnKeys,
         Ascending;
    var rows := PromisedRows(d, keys, agent, c, walked, idxs);
    WalkedColumn(d, keys, c, idxs, rows);
    TableOfColumn(rows, idxs, END_OF_MIB_TEXT, |rows|);
  }

  /** The walk of a device column returns the whole column, and more exactly for ifAlias. */
  lemma PromisedRows(d: Device, keys: seq<Oid>, agent: Agent, c: Column, walked: Walk.WalkResult, idxs: seq<nat>)
    returns (rows: seq<Row>)
    requires KeysOf(keys, Exposed(d)) && Conforming(keys, Stable(d), agent, 1) && Answers(keys, agent, 1, 1)
    requires Walk.WalkPromise(agent, BaseOid(c), keys, Stable(d), walked)
    requires IsSorting(idxs, Indexes(d)) && 0 < |idxs| <= Walk.ROW_CAP
    ensures walked == Walk.Rows(rows) && ColumnPrefix(keys, Stable(d), BaseOid(c), rows)
    ensures |idxs| <= |rows|
    ensures c != IfAlias ==> |rows| == |idxs|
    ensures c == IfAlias && |idxs| < Walk.ROW_CAP ==> |idxs| < |rows|
    ensures Followed(keys, BaseOid(c)) ==> |rows| == |idxs|
  {
    hide Exposed, Stable, Indexes, BaseOid, Conforming, Answers, Followed, ColumnPrefix, SubtreeKeys, Ascending;
    ColumnSubtree(d, keys, c, idxs);
    ColumnFollowed(d, keys, c);
    SomeInterface(d, idxs[0]);
    rows := walked.rows;
  }

  lemma TablesOfDevice(d: Device, keys: seq<Oid>, agents: Agents, raw: Raw, walks: seq<Walk.WalkResult>, idxs: seq<nat>)
    requires PollsDevice(d, keys, agents)
    requires |walks| == |POLL_COLUMNS| && Tabulated(agents, keys, Stable(d), raw, walks, |POLL_COLUMNS|)
    requires IsSorting(idxs, Indexes(d)) && 0 < |idxs| <= Walk.ROW_CAP
    ensures DeviceTables(d, raw, idxs)
  {
    hide Exposed, Stable, Indexes, BaseOid, DeviceTable, Conforming, Answers, Walk.WalkPromise, TableFrom;
    forall c: Column
      ensures c in raw && DeviceTable(d, c, raw[c], idxs)
    {
      var i := PollColumnIndex(c);
      TableOfDevice(d, keys, ColumnAgent(agents, i), c, walks[i], raw[c], idxs);
    }
  }

  lemma SomeInterface(d: Device, idx: nat)
    requires idx in Indexes(d)
    ensures d.interfaces != []
  {
  }

  lemma {:induction false} SortingSize(r: seq<nat>, s: set<nat>)
    requires IsSorting(r, s)
    ensures |r| == |s|
    decreases |r|
  {
    if r == [] {
      assert s == {};
    } else {
      var r', x := r[..|r| - 1], r[|r| - 1];
      assert r == r' + [x];
      SortingSize(r', s - {x});
    }
  }

  /** The rows a device's profiles call for, except for the alias of the highest index. */
  ghost predicate DeviceRows(d: Device, rows: seq<InterfaceRow>, interval: nat)
  {
    && |rows| == |Indexes(d)|
    && (forall i, j :: 0 <= i < j < |rows| ==> rows[i].ifIndex < rows[j].ifIndex)
    && (forall x :: x in Indexes(d) <==> exists j :: 0 <= j < |rows| && rows[j].ifIndex == x)
    && (forall j :: 0 <= j < |rows| ==>
          && ProfileAt(d.interfaces, |d.interfaces|, rows[j].ifIndex) > 0
          && rows[j] == ProfileRow(Profile(d, rows[j].ifIndex), rows[j].ifAlias, interval)
          && (j < |rows| - 1 ==> rows[j].ifAlias == Profile(d, rows[j].ifIndex).alias)
          && (j == |rows| - 1 && |rows| < Walk.ROW_CAP ==> rows[j].ifAlias == END_OF_MIB_TEXT))
  }

  lemma RowsOfDevice(d: Device, raw: Raw, idxs: seq<nat>, interval: nat)
    requires IsSorting(idxs, Indexes(d)) && DeviceTables(d, raw, idxs)
    ensures DeviceRows(d, SelectRows(raw, idxs, |idxs|, NO_FILTERS, interval), interval)
  {
    hide Indexes, ProfileAt, SelectRows, BuildRow, ProfileRow, Shown;
    var rows := SelectRows(raw, idxs, |idxs|, NO_FILTERS, interval);
    UnfilteredRows(raw, idxs, |idxs|, interval);
    SortingSize(idxs, Indexes(d));
    forall j | 0 <= j < |rows|
      ensures rows[j].ifIndex == idxs[j]
      ensures ProfileAt(d.interfaces, |d.interfaces|, idxs[j]) > 0
      ensures rows[j] == ProfileRow(Profile(d, idxs[j]), rows[j].ifAlias, interval)
      ensures j < |rows| - 1 ==> rows[j].ifAlias == Profile(d, idxs[j]).alias
      ensures j == |rows| - 1 && |rows| < Walk.ROW_CAP ==> rows[j].ifAlias == END_OF_MIB_TEXT
    {
      RowOfDevice(d, raw, idxs, j, interval);
    }
    assert forall j :: 0 <= j < |rows| ==> rows[j].ifIndex == idxs[j];
    forall x | x in Indexes(d)
      ensures exists j :: 0 <= j < |rows| && rows[j].ifIndex == x
    {
      var j :| 0 <= j < |idxs| && idxs[j] == x;
      assert rows[j].ifIndex == x;
    }
  }

  lemma RowOfDevice(d: Device, raw: Raw, idxs: seq<nat>, j: nat, interval: nat)
    requires IsSorting(idxs, Indexes(d)) && DeviceTables(d, raw, idxs) && j < |idxs|
    ensures ProfileAt(d.interfaces, |d.interfaces|, idxs[j]) > 0
    ensures var row, f := BuildRow(raw, idxs[j], "", "all", interval), Profile(d, idxs[j]);
            && row.ifIndex == idxs[j] && row == ProfileRow(f, row.ifAlias, interval)
            && (j < |idxs| - 1 ==> row.ifAlias == f.alias)
            && (j == |idxs| - 1 && |idxs| < Walk.ROW_CAP ==> row.ifAlias == END_OF_MIB_TEXT)
  {
    hide Indexes, SelectRows, BuildRow, ProfileRow, Shown;
    IndexesHaveProfiles(d, idxs[j]);
    var f := Profile(d, idxs[j]);
    forall c: Column | c != IfAlias
      ensures Lookup(raw, c, f.index) == Some(Shown(c, f))
    {
      assert DeviceTable(d, c, raw[c], idxs);
    }
    assert DeviceTable(d, IfAlias, raw[IfAlias], idxs);
    RowFromProfile(raw, f, interval);
    ProfileRowFields(f, raw[IfAlias][idxs[j]], interval);
  }

  lemma ProfileRowFields(f: Interface, alias: string, interval: nat)
    ensures ProfileRow(f, alias, interval).ifIndex == f.index
    ensures ProfileRow(f, alias, interval).ifAlias == alias
    ensures ProfileRow(f, alias, interval).ifName == f.name
    ensures Shown(IfAlias, f) == f.alias
  {
  }

  // ----- a device without interfaces

  /** What the poller reports for a device that has no interface at all: the endOfMibView bindings of
      the empty ifIndex and ifName columns both end in .1 and pass for interface number one. */
  function PhantomRow(interval: nat): InterfaceRow
  {
    InterfaceRow(1, END_OF_MIB_TEXT, "", 0, "testing", "unknown", 0, 0, 0, 0, 0, 0, 0, 0, interval, 32)
  }

  lemma {:induction false} ConstantTable(rows: seq<Row>, m: nat, x: nat, t: string)
    requires 0 < m <= |rows| && forall j :: 0 <= j < |rows| ==> rows[j].0 != []
    requires forall j :: 0 <= j < |rows| ==> LastOf(rows[j].0) == x && rows[j].1 == t
    ensures IndexRows(rows, m) == map[x := t]
  {
    if m > 1 {
      ConstantTable(rows, m - 1, x, t);
    } else {
      assert IndexRows(rows, 0) == map[];
    }
  }

  lemma EmptyColumn(d: Device, keys: seq<Oid>, agent: Agent, c: Column, walked: Walk.WalkResult,
                    table: map<nat, string>)
    requires d.interfaces == [] && KeysOf(keys, Exposed(d))
    requires Conforming(keys, Stable(d), agent, 1) && Answers(keys, agent, 1, 1)
    requires Walk.WalkPromise(agent, BaseOid(c), keys, Stable(d), walked) && TableFrom(c, walked, table)
    ensures table == map[SubId(c) := END_OF_MIB_TEXT]
  {
    hide Exposed, Stable, Indexes, Conforming, Answers, Followed, StreamName, Ended, SubtreeKeys, BaseOid;
    assert IsSorting([], Indexes(d)) by { NoIndexes(d); }
    ColumnSubtree(d, keys, c, []);
    ColumnFollowed(d, keys, c);
    var rows := walked.rows;
    BaseOidShape(c);
    forall j | 0 <= j < |rows|
      ensures LastOf(rows[j].0) == SubId(c) && rows[j].1 == END_OF_MIB_TEXT
    {
      assert ColumnRow(keys, Stable(d), BaseOid(c), j, rows[j]);
      StreamPastSubtree(keys, BaseOid(c), j);
    }
    ConstantTable(rows, |rows|, SubId(c), END_OF_MIB_TEXT);
  }

  lemma NoIndexes(d: Device)
    requires d.interfaces == []
    ensures Indexes(d) == {}
  {
  }

  ghost predicate EmptyTables(raw: Raw)
  {
    forall c: Column :: c in raw && raw[c] == map[SubId(c) := END_OF_MIB_TEXT]
  }

  lemma TablesOfEmptyDevice(d: Device, keys: seq<Oid>, agents: Agents, raw: Raw, walks: seq<Walk.WalkResult>)
    requires PollsDevice(d, keys, agents) && d.interfaces == []
    requires |walks| == |POLL_COLUMNS| && Tabulated(agents, keys, Stable(d), raw, walks, |POLL_COLUMNS|)
    ensures EmptyTables(raw)
  {
    hide Exposed, Stable, BaseOid, Conforming, Answers, Walk.WalkPromise, TableFrom;
    forall c: Column
      ensures c in raw && raw[c] == map[SubId(c) := END_OF_MIB_TEXT]
    {
      var i := PollColumnIndex(c);
      EmptyColumn(d, keys, ColumnAgent(agents, i), c, walks[i], raw[c]);
    }
  }

  lemma EmptyLookups(raw: Raw)
    requires EmptyTables(raw)
    ensures forall c: Column :: Lookup(raw, c, 1) == if c == IfIndex || c == IfName then Some(END_OF_MIB_TEXT) else None
  {
    forall c: Column
      ensures Lookup(raw, c, 1) == if c == IfIndex || c == IfName then Some(END_OF_MIB_TEXT) else None
    {
      assert raw[c] == map[SubId(c) := END_OF_MIB_TEXT];
    }
  }

  lemma PhantomFromEmptyTables(raw: Raw, interval: nat)
    requires EmptyTables(raw)
    ensures BuildRow(raw, 1, "", "all", interval) == PhantomRow(interval)
  {
    hide HasMetric, Lookup, EmptyTables, AdminStatusName, OperStatusName;
    EmptyLookups(raw);
    AllHasEverything("traffic");
    AllHasEverything("errors");
    AllHasEverything("discards");
    StatusDefaults();
  }

  lemma StatusDefaults()
    ensures AdminStatusName(3) == "testing" && OperStatusName(4) == "unknown"
  {
  }

  // ----- the poll

  /** Walk mode without filters against a device: one row per interface index, and a phantom when there is none. */
  method PollDevice(agents: Agents, interval: nat, ghost d: Device, ghost keys: seq<Oid>)
    returns (rows: seq<InterfaceRow>)
    ensures PollsDevice(d, keys, agents) && d.interfaces != [] && |Indexes(d)| <= Walk.ROW_CAP ==>
              DeviceRows(d, rows, interval)
    ensures PollsDevice(d, keys, agents) && d.interfaces == [] ==> rows == [PhantomRow(interval)]
  {
    hide Tabulated, PollsDevice, Indexes, DeviceTables, DeviceRows, BuildRow, PhantomRow, SelectRows, EmptyTables,
         Stable;
    ghost var walks, idxs;
    var raw;
    raw, rows, walks, idxs := PollWalk.PollWalk(agents, NO_FILTERS, interval, keys, Stable(d));
    if PollsDevice(d, keys, agents) && d.interfaces != [] && |Indexes(d)| <= Walk.ROW_CAP {
      FullPoll(d, keys, agents, raw, walks, idxs, interval);
    }
    if PollsDevice(d, keys, agents) && d.interfaces == [] {
      EmptyPoll(d, keys, agents, raw, walks, idxs, interval);
    }
  }

  lemma FullPoll(d: Device, keys: seq<Oid>, agents: Agents, raw: Raw, walks: seq<Walk.WalkResult>, idxs: seq<nat>,
                 interval: nat)
    requires PollsDevice(d, keys, agents) && d.interfaces != [] && |Indexes(d)| <= Walk.ROW_CAP
    requires |walks| == |POLL_COLUMNS| && Tabulated(agents, keys, Stable(d), raw, walks, |POLL_COLUMNS|)
    requires IfIndex in raw && IsSorting(idxs, raw[IfIndex].Keys)
    ensures DeviceRows(d, SelectRows(raw, idxs, |idxs|, NO_FILTERS, interval), interval)
  {
    hide Tabulated, PollsDevice, Indexes, DeviceRows, SelectRows, Stable;
    var sorted := SortingExists(Indexes(d));
    SortingSize(sorted, Indexes(d));
    IndexZero(d);
    TablesOfDevice(d, keys, agents, raw, walks, sorted);
    assert DeviceTable(d, IfIndex, raw[IfIndex], sorted);
    assert IsSorting(idxs, Indexes(d));
    SortingUnique(idxs, sorted, Indexes(d));
    RowsOfDevice(d, raw, idxs, interval);
  }

  lemma EmptyPoll(d: Device, keys: seq<Oid>, agents: Agents, raw: Raw, walks: seq<Walk.WalkResult>, idxs: seq<nat>,
                  interval: nat)
    requires PollsDevice(d, keys, agents) && d.interfaces == []
    requires |walks| == |POLL_COLUMNS| && Tabulated(agents, keys, Stable(d), raw, walks, |POLL_COLUMNS|)
    requires IfIndex in raw && IsSorting(idxs, raw[IfIndex].Keys)
    ensures SelectRows(raw, idxs, |idxs|, NO_FILTERS, interval) == [PhantomRow(interval)]
  {
    hide Tabulated, PollsDevice, Stable, BuildRow, PhantomRow, SelectRows;
    TablesOfEmptyDevice(d, keys, agents, raw, walks);
    SortingSize(idxs, raw[IfIndex].Keys);
    assert raw[IfIndex].Keys == {1};
    assert idxs[0] in idxs;
    assert idxs == [1];
    UnfilteredRows(raw, idxs, 1, interval);
    PhantomFromEmptyTables(raw, interval);
  }

  lemma {:induction false} SortingExists(s: set<nat>) returns (r: seq<nat>)
    ensures IsSorting(r, s)
    decreases s
  {
    if s == {} {
      r := [];
    } else {
      var x :| x in s;
      var r' := SortingExists(s - {x});
      var p := 0;
      while p < |r'| && r'[p] < x
        invariant p <= |r'| && forall i :: 0 <= i < p ==> r'[i] < x
      {
        p := p + 1;
      }
      InsertAscending(r', x, p);
      r := r'[..p] + [x] + r'[p..];
    }
  }

  lemma {:induction false} SortingUnique(a: seq<nat>, b: seq<nat>, s: set<nat>)
    requires IsSorting(a, s) && IsSorting(b, s)
    ensures a == b
    decreases |a|
  {
    SortingSize(a, s);
    SortingSize(b, s);
    if a != [] {
      var n := |a| - 1;
      LastIsGreatest(a, s);
      LastIsGreatest(b, s);
      var x := a[n];
      assert a == a[..n] + [x] && b == b[..n] + [x];
      SortingWithoutLast(a, s);
      SortingWithoutLast(b, s);
      hide IsSorting;
      SortingUnique(a[..n], b[..n], s - {x});
    }
  }

  lemma LastIsGreatest(a: seq<nat>, s: set<nat>)
    requires IsSorting(a, s) && a != []
    ensures a[|a| - 1] in s && forall y :: y in s ==> y <= a[|a| - 1]
  {
  }

  lemma SortingWithoutLast(a: seq<nat>, s: set<nat>)
    requires IsSorting(a, s) && a != []
    ensures IsSorting(a[..|a| - 1], s - {a[|a| - 1]})
  {
    assert a == a[..|a| - 1] + [a[|a| - 1]];
  }

  /** The simulator's handler, asked for one column at a time, is such a set of agents, whatever its clock shows. */
  lemma SimulatorPolls(d: Device, keys: seq<Oid>, agents: Agents, uptime: (nat, nat) -> int)
    requires KeysOf(keys, Exposed(d))
    requires forall i, r, cs: seq<Oid> :: |cs| == 1 ==>
               && KeysOf(keys, Refreshed(Populated(d), d, uptime(i, r)))
               && agents(i, r, cs) ==
                    Binds(BulkAnswer(keys, Refreshed(Populated(d), d, uptime(i, r)), 0, MAX_REPETITIONS, cs, 1))
    ensures PollsDevice(d, keys, agents)
  {
    hide BulkAnswer, ConformingBinds, HasRepetitions, Refreshed, Populated;
    forall i: nat, r: nat, cs: seq<Oid> | |cs| == 1
      ensures var resp := ColumnAgent(agents, i)(r, cs);
              resp.Binds? && ConformingBinds(keys, Stable(d), cs, resp.binds) && HasRepetitions(keys, cs, resp.binds, 1)
    {
      var vals := Refreshed(Populated(d), d, uptime(i, r));
      ClockOnly(d, uptime(i, r));
      SingleCursorConforms(keys, vals, Stable(d), cs, MAX_REPETITIONS);
      FewerRepetitions(keys, cs, agents(i, r, cs).binds);
    }
  }

  lemma FewerRepetitions(keys: seq<Oid>, cs: seq<Oid>, binds: seq<VarBind>)
    requires cs != [] && HasRepetitions(keys, cs, binds, MAX_REPETITIONS)
    ensures HasRepetitions(keys, cs, binds, 1)
  {
    assert 1 * |cs| <= MAX_REPETITIONS * |cs|;
  }

  /** Refreshes at different times differ in the uptime scalar alone. */
  lemma ClockOnly(d: Device, uptime: int)
    ensures forall o :: o in Stable(d) && o in Refreshed(Populated(d), d, uptime) ==>
              Stable(d)[o] == Refreshed(Populated(d), d, uptime)[o]
  {
  }

  // ----- asking the simulator for two columns at once

  lemma ThreeAfter(keys: seq<Oid>, base: Oid, a: Oid, b: Oid, c: Oid)
    requires Sorted(keys) && a in keys && b in keys && c in keys && a != b && b != c && a != c
    requires Less(base, a) && Less(base, b) && Less(base, c)
    ensures BisectRight(keys, base) + 2 < |keys|
  {
    hide Less;
    var i :| 0 <= i < |keys| && keys[i] == a;
    var j :| 0 <= j < |keys| && keys[j] == b;
    var k :| 0 <= k < |keys| && keys[k] == c;
    BisectRightSplits(keys, base, i);
    BisectRightSplits(keys, base, j);
    BisectRightSplits(keys, base, k);
  }

  lemma FirstColumns(idx: nat)
    ensures Less(BaseOid(IfIndex), Instance(IfIndex, idx)) && Less(BaseOid(IfIndex), Instance(IfDescr, idx))
  {
    InstanceUnderBase(IfIndex, idx);
    UnderIsAfter(BaseOid(IfIndex), Instance(IfIndex, idx));
    var base, o := BaseOid(IfIndex), Instance(IfDescr, idx);
    assert base[..9] == o[..9] && base[9] == 1 && o[9] == 2;
    LessDecided(base, o, 9);
  }

  lemma InstanceExposed(d: Device, uptime: int, c: Column)
    requires d.interfaces != []
    ensures Instance(c, d.interfaces[0].index) in Refreshed(Populated(d), d, uptime)
  {
    hide Instance, LiveValue, Refreshed, Populated;
    RefreshedAt(d, uptime, c, d.interfaces[0].index);
  }

  /**
   * Any device with an interface: its answer to ifIndex together with a second column, at the 25
   * repetitions the client asks for, is never in RFC order.
   */
  lemma DeviceMisordersColumns(d: Device, uptime: int, keys: seq<Oid>, second: Oid)
    requires d.interfaces != [] && KeysOf(keys, Refreshed(Populated(d), d, uptime))
    ensures var vals, cursors := Refreshed(Populated(d), d, uptime), [BaseOid(IfIndex), second];
            !ConformingBinds(keys, map[], cursors, BulkAnswer(keys, vals, 0, MAX_REPETITIONS, cursors, 2))
  {
    hide BulkAnswer, ConformingBinds, Refreshed, Populated, BaseOid, Instance, Less;
    var idx := d.interfaces[0].index;
    InstanceExposed(d, uptime, IfIndex);
    InstanceExposed(d, uptime, IfDescr);
    InstanceExposed(d, uptime, IfAlias);
    FirstColumns(idx);
    AliasIsLast(IfIndex, idx);
    InstanceInjective(IfIndex, idx, IfDescr, idx);
    InstanceInjective(IfIndex, idx, IfAlias, idx);
    InstanceInjective(IfDescr, idx, IfAlias, idx);
    ThreeAfter(keys, BaseOid(IfIndex), Instance(IfIndex, idx), Instance(IfDescr, idx), Instance(IfAlias, idx));
    TwoCursorsConformIff(keys, Refreshed(Populated(d), d, uptime), map[], BaseOid(IfIndex), second, MAX_REPETITIONS);
  }

  const ONE_PORT := Device("switch", "1.3.6.1.4.1.9", "", "sw1", "",
                           [Interface(1, "Gi1/0/1", "Gi1/0/1", "", 1000, 1, 1, 0, 0, 0, 0, 0, 0, 0, 0)])

  /** The handler of a one-port switch gives such an answer. */
  method MisorderedAnswer() returns (handler: SnmpDeviceHandler, results: seq<VarBind>)
    ensures handler.tree.Valid() && handler.tree.device == ONE_PORT
    ensures !ConformingBinds(handler.tree.keys, map[], [BaseOid(IfIndex), BaseOid(IfDescr)], results)
  {
    hide BulkAnswer, ConformingBinds, Refreshed, Populated, BaseOid;
    handler := new SnmpDeviceHandler(ONE_PORT);
    results := handler.HandleGetBulk(0, MAX_REPETITIONS, [BaseOid(IfIndex), BaseOid(IfDescr)], 0);
    DeviceMisordersColumns(ONE_PORT, 0, handler.tree.keys, BaseOid(IfDescr));
  }
}
