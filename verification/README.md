# Models and proofs for the monitoring stack

This project models the parts of the monitoring platform where a fast or long-running
procedure has to agree with something simple, and proves that it does, or exactly when it does.

- **SNMP reads.** `Oids`, `Text`, `Mib`, `Walk`, `WalkMulti`: OID order and text, the stream of
  bindings a conforming GETBULK agent may send (sections 4.2.2 and 4.2.3 of RFC 3416), and the two
  client walks over it. `DeviceMib`, `Simulator`, `Handler`: the simulated device, its `OidTree` and
  its request handlers. `InterfaceRows`, `PollWalk`, `EndToEnd`, `PollGet`: the interface poller, in
  walk mode and in targeted mode, down to the rows it reports.
- **Alert and incident migrations.** `Schema`, `Grouping`, `Severity`, `Ladders`, `HealthyTier`,
  `Dedupe`, `Migrations`: three chained table rewrites as sequences of SQL statements under foreign
  keys, cascades and unique indexes.
- **Protocols and caches.** `InstallJob` (OS-install jobs), `ApiKeyCache` (shared Redis and local
  caches), `CounterBatch` (batched counter lookup), `LogRelay` (docker log push), `SingleFlight`
  (browser token refresh): step relations over every interleaving, and the loops they contain.

An agent is an arbitrary function of the request number and the cursors, so one statement covers
stateful, truncating and failing agents. `Conforming` restricts what an answer may contain, never
whether or where it is cut; `Answers` says that no request fails and at least a given number of
repetitions arrives.

Where the code and what is written about it differ, the model follows the code:

- Past the end of the MIB an agent repeats the last name with endOfMibView, and both walks keep
  such bindings as rows. A walk is exact if and only if some instance follows the subtree
  (`Walk.Walk`). For the interface poller this costs the alias of the highest interface index, and a
  device without interfaces is reported with one phantom interface (`EndToEnd.PollDevice`).
- The simulator answers GETBULK column after column, not interleaved. With one cursor that conforms
  (`Handler.SingleCursorConforms`); with two it conforms exactly when the two orders happen to coincide
  (`Handler.TwoCursorsConformIff`), and never for a device with an interface asked for ifIndex and a second
  column with 25 repetitions (`EndToEnd.DeviceMisordersColumns`).
- A metrics mode is split and stripped when the columns are chosen, and compared as it is when the row is
  built. A metric is fetched and then reported as zero exactly if the mode is not "all", asks, blanks aside,
  for the metric or for "all", and does not list the metric letter by letter: " errors" loses the errors and
  "all,errors" the traffic (`PollGet.FetchedNotReportedIff`, `PollGet.UnicastNotReportedIff`).
- A ladder is renamed before its other siblings are deleted, so a ladder whose top sibling is
  "X Critical" and that also has a sibling "X" violates the name index and aborts the migration
  (`Ladders.PlainSiblingBlocks`, `Ladders.PlainAndCriticalBlocks`). The comment that rules of deleted
  siblings are dropped by the cascade is outdated: they are re-pointed first, and none is lost.
- Merging a ladder keeps the reported severity exactly when the ladder order agrees with the
  engine's severity order (`Severity.FoldingPreservesMeaning`, `Migrations.MeaningPreservedIff`); a critical
  threshold below a warning, or an unknown severity, loses it.
- An install reported as failed may have succeeded, with code -1 only, and exactly if the unit query behind
  the verdict missed a code written since that poll's first read, followed a kill before the code was written,
  or came before systemd had started the queued unit (`InstallJob.FailedThoughInstalledIff`). A timeout,
  reported as failed too, says nothing about apt-get; it means that every poll that began after the code was
  written lost its connection (`InstallJob.TimedOutUnheard`, `InstallJob.TimedOutDespiteZero`).
- The log relay compares buffer lengths. Once a push has seen the deque full it never sends another line
  (`LogRelay.SilentOnceFull`), and since the tail thread takes no lock, a line appended between the two reads
  of a push is sent again by the next sending push, unless the deque has discarded as many lines by then
  (`LogRelay.NeverTwiceIff`, `LogRelay.CompleteIff`).
- Monitoring an index the device does not have gives a row of zeros named after the agent's error text, with
  64 counter bits (`PollGet.UnknownIndexReported`).
- The message texts of folded siblings go with their definitions; the later migration keeps the survivor's
  (`HealthyTier.NoMessageLost`, `Migrations.MessagesAfter`).
- One cache entry that does not parse sends the whole batch of counters to ClickHouse, where the
  single lookup would not go (`CounterBatch.GetBatch`, `CounterBatch.PoisonedBatch`).

## Model

| member | source | states |
|---|---|---|
| `Text.ParsePrintInt` | apps/snmp_interface_poller.py:90-97 | parsing the decimal text of any integer gives the integer back |
| `Text.StripPadded` | apps/snmp_interface_poller.py:79 | stripping takes the white space off both ends, however much, and nothing else |
| `Text.ParsePrintOid` | simulator/snmp_oid_tree.py:17-22 | printing and parsing an OID undo each other exactly for non-empty tuples; the empty one does not parse |
| `Text.PrintOidInjective` | simulator/snmp_oid_tree.py:21-22 | distinct OIDs have distinct texts, so dictionaries keyed by text do not confuse them |
| `Text.LastComponentInverts` | apps/snmp_interface_poller.py:223 | the last dotted component of `base.idx` parses to idx, for every base |
| `Text.PrintOidOfChild` | apps/snmp_interface_poller.py:157-158 | the request text built from a column text, a dot and the index is the text of the instance's OID |
| `Oids.SubtreeConvex` | connectors/snmp.py:216-217 | whatever lies in numeric order between two members of a subtree is in the subtree |
| `Mib.StreamResumes` | connectors/snmp.py:205-228 | asking again from any name of the successor stream continues that stream, also past its end |
| `Mib.SubtreeIsInterval` | simulator/snmp_oid_tree.py:115-125 | in a sorted MIB the instances below a base are one run after it, and something sorts after them exactly if that run ends before the MIB |
| `Mib.StreamLeavesBase` | connectors/snmp.py:214-219 | the stream leaves the base right after the subtree if and only if some instance follows it; otherwise never |
| `Mib.ColumnWithinSubtree` | connectors/snmp.py:258-300 | with an instance after the subtree, collected rows are the subtree's own first rows: nothing skipped, repeated or foreign |
| `Mib.ColumnIsSubtree` | connectors/snmp.py:197-229 | rows as many as the subtree's instances are exactly its names and printed values, in order |
| `Walk.TakeUnder` | connectors/snmp.py:212-224 | the answer's bindings are kept up to the first one outside the base, and kept bindings continue the column |
| `Walk.Walk` | connectors/snmp.py:197-229 | ends for every agent; rows always under the base, fewer than 10,025 with 25 bindings an answer; an initial piece of the subtree's stream for any conforming agent that cuts or fails anywhere, and with all the repetitions that the requests answered before brought; complete when answered, and exact if and only if an instance follows the subtree |
| `WalkMulti.Demux` | connectors/snmp.py:266-283 | dividing the flat answer by position modulo the number of active columns credits each binding to the column it continues, and the row total stays the sum over distinct columns |
| `WalkMulti.Advance` | connectors/snmp.py:285-294 | exactly the columns that neither left their base nor stood still go on, each from its last name |
| `WalkMulti.RoundProgress` | connectors/snmp.py:258-294 | in an answered round a followed column either is complete or has grown by the answered repetitions and moved its cursor |
| `WalkMulti.RoundOnTrack` | connectors/snmp.py:258-294 | an answered round keeps any column on track: with nothing after its subtree it goes on only if it was incomplete, stops only when complete, and gets at most two answers of endOfMibView beyond its subtree |
| `WalkMulti.RunComplete` | connectors/snmp.py:256-298 | whether all columns ended, 20,000 rows were reached or a request failed, every column has its whole subtree or all the repetitions the answered requests brought |
| `WalkMulti.WalkMulti` | connectors/snmp.py:231-300 | with any truncation and any failure each column of distinct bases is an initial piece of its own stream; whatever follows the first k requests, no repetition they brought is missing; if all are answered every column has its whole subtree, and exactly that where an instance follows it |
| `WalkMulti.CompareWithWalk` | connectors/snmp.py:231-300 | for every base with an instance after its subtree the correlated walk returns the very list the single-column walk returns, and it is the subtree's rows; if all bases are such, the two tables are equal |
| `WalkMulti.RfcAgentServes` | connectors/snmp.py:234-245 | an agent that interleaves 25 repetitions of every cursor's stream conforms and answers in full for any number of columns, so the comparison has agents to be about |
| `DeviceMib.InstanceInjective` | apps/snmp_interface_poller.py:33-55 | distinct (column, index) pairs have distinct OIDs |
| `DeviceMib.ColumnsDisjoint` | apps/snmp_interface_poller.py:33-55 | an instance lies under a column's base only if it is that column's |
| `DeviceMib.RefreshedAt` | simulator/snmp_oid_tree.py:47-86 | after populate and refresh an instance exists exactly for the configured indexes and holds the live value of the last profile with that index, with the 32-bit octets reduced modulo 2^32 |
| `DeviceMib.RefreshedIfTable` | simulator/snmp_oid_tree.py:51-55 | OID by OID, the index, description, speed in bits and statuses of the profile |
| `DeviceMib.RefreshedCounters` | simulator/snmp_oid_tree.py:75-82 | OID by OID, the packet, error and discard counters, and the octets modulo 2^32, each under its own number |
| `DeviceMib.RefreshedIfXTable` | simulator/snmp_oid_tree.py:65-84 | OID by OID, the name, 64-bit octets, speed and alias |
| `DeviceMib.RefreshedElsewhere` | simulator/snmp_oid_tree.py:37-45 | every other instance is one of the six system scalars |
| `DeviceMib.RefreshForgets` | simulator/snmp_oid_tree.py:71-86 | a refresh depends on the profiles and the clock, not on earlier refreshes |
| `Simulator.OidTree.constructor` | simulator/snmp_oid_tree.py:28-69 | the new tree is in numeric order and holds the populated content |
| `Simulator.OidTree.Set` | simulator/snmp_oid_tree.py:34-35 | assignment changes one cell, keeps the keys in order, and leaves the key list alone for an existing key |
| `Simulator.OidTree.RefreshCounters` | simulator/snmp_oid_tree.py:71-86 | the content becomes the refreshed profiles, the key set does not change |
| `Simulator.OidTree.Get` | simulator/snmp_oid_tree.py:88-94 | the instance if it exists, nothing otherwise |
| `Simulator.OidTree.GetNext` | simulator/snmp_oid_tree.py:96-103 | the least key strictly greater in numeric order with its value, and nothing exactly if no key is greater |
| `Simulator.OidTree.GetBulk` | simulator/snmp_oid_tree.py:105-113 | the bindings of GETNEXT iterated that many times, cut at the end of the tree |
| `Simulator.OidTree.Walk` | simulator/snmp_oid_tree.py:115-125 | the base itself if it is an instance, then every instance below it, in order |
| `Simulator.NextIsLeast` | simulator/snmp_oid_tree.py:96-103 | the bisection finds the least greater key, or no key is greater |
| `Simulator.BulkIsIteratedNext` | simulator/snmp_oid_tree.py:105-113 | the bulk slice is n-fold iterated GETNEXT, for every tree, start and count |
| `Simulator.NextEnumerates` | simulator/snmp_oid_tree.py:96-103 | iterating GETNEXT from below all keys lists each key once, in order |
| `Simulator.InsertKeepsOrder` | simulator/snmp_oid_tree.py:34-35 | inserting a new key at its bisection point keeps the order and adds that key only |
| `Handler.SnmpDeviceHandler.HandleGet` | simulator/snmp_simulator.py:106-116 | one binding per requested OID in order, from the freshly refreshed content, noSuchObject where there is none |
| `Handler.SnmpDeviceHandler.HandleGetBulk` | simulator/snmp_simulator.py:130-148 | the concatenation of each cursor's successors (one for non-repeaters), or its endOfMibView, from the refreshed tree |
| `Handler.SingleCursorConforms` | simulator/snmp_simulator.py:130-148 | with one cursor every answer conforms to RFC 3416 order and carries all repetitions up to the end of the MIB |
| `Handler.TwoCursorsConformIff` | simulator/snmp_simulator.py:135-147 | with two cursors the answer conforms if and only if both shares are single bindings, or the second cursor stands one instance further on and the first has two bindings only |
| `Handler.ManyCursorsDoNotConform` | simulator/snmp_simulator.py:135-147 | with two or more cursors, the first having more successors than there are cursors, the answer never conforms |
| `EndToEnd.DeviceMisordersColumns` | simulator/snmp_simulator.py:130-148 | a device with any interface, asked for ifIndex and a second column with 25 repetitions, never answers in RFC order |
| `EndToEnd.MisorderedAnswer` | simulator/snmp_simulator.py:130-148 | the handler of a one-port switch gives such an answer |
| `Handler.WalkBoth` | connectors/snmp.py:197-229 | for a followed subtree of at most 10,000 rows whose own values stand still the client's walk prints what the tree's own walk lists, minus the base itself, while the rest of the tree, such as the uptime, may change |
| `InterfaceRows.RowFromProfile` | apps/snmp_interface_poller.py:232-287 | tables that show an interface's values yield the row its profile calls for: statuses, speed, 64-bit counters, packets |
| `InterfaceRows.RowFromOldTable` | apps/snmp_interface_poller.py:252-266 | without ifXTable: the description for a name, ifSpeed over a million, 32-bit octets and 32 counter bits |
| `InterfaceRows.RowWithoutCells` | apps/snmp_interface_poller.py:232-287 | an index without any cell makes a row named by its number, with the default statuses and zeros |
| `InterfaceRows.RowFromFetched` | apps/snmp_interface_poller.py:232-287 | under any mode, fetched cells make the profile's identity, the counters of the listed metrics and zeros for the others |
| `InterfaceRows.StatusesTold` | apps/snmp_interface_poller.py:56-60 | which numbers mean up, down, testing, dormant, notPresent and lowerLayerDown, and that all others mean unknown |
| `InterfaceRows.UnfilteredRows` | apps/snmp_interface_poller.py:229-250 | without filters every index has its row, in order |
| `InterfaceRows.FilteredRows` | apps/snmp_interface_poller.py:244-250 | a found index is reported exactly if its row's status is not excluded, its name contains a wanted pattern when any is given, and no unwanted one |
| `PollWalk.PollWalk` | apps/snmp_interface_poller.py:214-287 | every table comes from the walk of its own column, a failed walk gives an empty one, and the rows are the kept indexes of ifIndex in ascending order |
| `EndToEnd.ColumnSubtree` | simulator/snmp_oid_tree.py:47-69 | the subtree of a column is its instances in ascending index order, one per configured index |
| `EndToEnd.ColumnFollowed` | connectors/snmp.py:218-225 | a column has an instance after it if and only if the device has an interface and the column is not ifAlias |
| `EndToEnd.SimulatorPolls` | simulator/snmp_simulator.py:130-148 | the simulator's handler, whatever its clock shows, is an agent as the end-to-end theorem asks for |
| `EndToEnd.PollDevice` | apps/snmp_interface_poller.py:214-287 | polling a device of up to 10,000 interfaces gives one row per index, ascending, equal to the profile in every field, with the alias right for all but the highest index; without interfaces it gives one phantom row |
| `PollGet.RequestsCover` | apps/snmp_interface_poller.py:150-158 | every column of every monitored interface's mode is requested |
| `PollGet.RequestedIff` | apps/snmp_interface_poller.py:62-83 | column by column, when it is requested: the eight identity columns under every mode, the four octet columns for traffic, two for errors, two for discards, the unicast columns for "all" only |
| `PollGet.MakeBatches` | apps/snmp_interface_poller.py:160-168 | batches of one to twenty whose concatenation is the request list: nothing lost, repeated or reordered |
| `PollGet.GetMany` | connectors/snmp.py:178-195 | the result holds exactly the cells of the batches that were answered, each with the device's value |
| `PollGet.GetEach` | apps/snmp_interface_poller.py:195-205 | the table is exactly the restriction to the batches that succeeded, and an error is reported exactly if one failed |
| `PollGet.BatchingInvisible` | apps/snmp_interface_poller.py:160-205 | when all batches are answered the table is the one a single GET of everything gives |
| `PollGet.PollTargeted` | apps/snmp_interface_poller.py:144-287 | targeted mode, which needs a monitored interface, for a working, raising or missing get_many alike: the table is the restriction to answered batches, one row per monitored entry in order, with the name and mode of the last entry for its index; a silent get_many failure is not reported |
| `PollGet.Poll` | apps/snmp_interface_poller.py:144-287 | rows of the monitored entries when there are any, and with an empty list the kept indexes of walk mode, ascending |
| `PollGet.SimulatorGets` | simulator/snmp_simulator.py:106-116 | the simulator's GET handler, at any uptime and failing on any batches, answers column batches from the device's content |
| `PollGet.TargetedRow` | apps/snmp_interface_poller.py:144-287 | a device interface monitored with "all" gets its profile's row, alias included, up to the name override |
| `PollGet.TargetedRowUnder` | apps/snmp_interface_poller.py:144-287 | the same for every mode: name or override, alias, speed and both statuses of the profile, its counters for each metric the mode lists, zero for the others |
| `PollGet.UnknownIndexReported` | apps/snmp_interface_poller.py:144-287 | a monitored index the device does not have is reported as a row of zeros whose name and alias are the agent's error text |
| `PollGet.TargetedMatchesWalk` | apps/snmp_interface_poller.py:144-287 | targeted and walk mode build the same row, up to the name override and the alias of the highest index |
| `PollGet.PollBothWays` | apps/snmp_interface_poller.py:144-287 | the two polls of one device, every request answered at any uptime: each monitored index is among the walked rows and its targeted row equals the walked one, up to the name override and the alias of the highest index |
| `PollGet.FetchedIff` | apps/snmp_interface_poller.py:76-83 | for every mode, the columns of traffic, errors or discards are requested if and only if the mode is "all" or some part strips to that metric or to "all" |
| `PollGet.UnicastFetchedIff` | apps/snmp_interface_poller.py:76-83 | the unicast columns are requested if and only if the mode is "all" or some part strips to "all" |
| `PollGet.ReportedIsFetched` | apps/snmp_interface_poller.py:76-87 | every column of a reported metric was requested |
| `PollGet.ReportedOrZero` | apps/snmp_interface_poller.py:86-87 | a row shows a counter as it does under "all", or as zero if the mode does not list its metric |
| `PollGet.FetchedNotReportedIff` | apps/snmp_interface_poller.py:76-87 | a metric is requested and yet zero in every row if and only if the mode is not "all", does not list the metric as it is, and has a part that strips to it or to "all" |
| `PollGet.UnicastNotReportedIff` | apps/snmp_interface_poller.py:76-87 | the unicast counters are requested and yet zero in every row if and only if the mode is not "all" and some part strips to "all" |
| `PollGet.SpacedMetricIsFetchedNotReported` | apps/snmp_interface_poller.py:76-87 | the mode " errors" fetches the errors and does not report them |
| `PollGet.AllAmongOthersIsFetchedNotReported` | apps/snmp_interface_poller.py:76-87 | the mode "all,errors" fetches the traffic and does not report it |
| `Grouping.GroupRows` | packages/central/alembic/versions/zw3x4y5z6a7b_alert_tiers.py:80-86 | the dictionary holds each key's rows in reading order, keys in order of first appearance |
| `Schema.RuleCascade` | packages/central/alembic/versions/zn4o5p6q7r8s_incident_tables.py:88-161 | deleting a rule takes exactly the incidents still on it |
| `Schema.DefinitionCascade` | packages/central/alembic/versions/zn4o5p6q7r8s_incident_tables.py:40-60 | deleting definitions takes exactly their rules and the incidents of those |
| `Severity.SeverityOrder` | packages/central/src/monctl_central/alerting/severity.py:15-26 | info below warning below critical; every other severity ranks with none |
| `Severity.AgreeingMeaning` | packages/central/src/monctl_central/alerting/engine.py:326-332 | when ladder order and severity order agree, the engine's highest matching tier is the last matching one, for every reading |
| `Severity.AgreeingDistinct` | packages/central/src/monctl_central/alerting/severity.py:15-26 | for distinct expressions, agreeing means that all are there and known severities ascend with the ladder |
| `Severity.FoldingPreservesMeaning` | packages/central/alembic/versions/zw3x4y5z6a7b_alert_tiers.py:100-124 | for any ladder, with repeated or missing expressions too: over all readings folding preserves the reported severity if and only if no expression is missing, the last threshold of each has a known severity, and none that can fire without a later one outranks it |
| `Severity.InvertedLadder` | packages/central/alembic/versions/zw3x4y5z6a7b_alert_tiers.py:100-124 | a critical threshold ranked below a warning does not keep its meaning |
| `Severity.UnknownSeverity` | packages/central/src/monctl_central/alerting/severity.py:23-26 | nor does a threshold of a severity the engine does not know |
| `Ladders.SortAscending` | packages/central/alembic/versions/zw3x4y5z6a7b_alert_tiers.py:101 | siblings end up in rank order, each once |
| `Ladders.SortStable` | packages/central/alembic/versions/zw3x4y5z6a7b_alert_tiers.py:101 | siblings of equal rank stay in reading order |
| `Ladders.SiblingsMean` | packages/central/alembic/versions/zw3x4y5z6a7b_alert_tiers.py:80-86 | siblings are exactly the definitions of one app with the same non-empty ladder key |
| `Ladders.KeeperIsHighest` | packages/central/alembic/versions/zw3x4y5z6a7b_alert_tiers.py:101-108 | the survivor has the highest rank, NULL counting as zero, and among equals was read last |
| `Ladders.MergedNameIs` | packages/central/alembic/versions/zw3x4y5z6a7b_alert_tiers.py:110-115 | a trailing " Critical", " Warning", " Warn" or " Crit" is dropped once, any other name stays |
| `Ladders.KeeperFacts` | packages/central/alembic/versions/zw3x4y5z6a7b_alert_tiers.py:107-108 | two definitions share a keeper exactly if they are siblings, and a keeper keeps itself |
| `Ladders.FoldStates` | packages/central/alembic/versions/zw3x4y5z6a7b_alert_tiers.py:117-139 | after each of the three statements that fold a ladder all keys and indexes hold, and the cascade takes no rule and no incident |
| `Ladders.TakenMeansClash` | packages/central/alembic/versions/zw3x4y5z6a7b_alert_tiers.py:110-124 | the name index rejects the merged name exactly if a definition still present at that turn bears it |
| `Ladders.PlainSiblingBlocks` | packages/central/alembic/versions/zw3x4y5z6a7b_alert_tiers.py:110-139 | a ladder with another sibling already bearing the merged name always aborts the migration |
| `Ladders.PlainAndCriticalBlocks` | packages/central/alembic/versions/zw3x4y5z6a7b_alert_tiers.py:110-139 | such tables, in order in every other way: "X" and "X Critical" on one ladder, for any X |
| `Ladders.Upgrade` | packages/central/alembic/versions/zw3x4y5z6a7b_alert_tiers.py:72-139 | succeeds if and only if every ladder finds its merged name free at its turn; then one definition per ladder with all siblings' tiers in rank order, rules re-pointed, incidents untouched; integrity after every statement |
| `Ladders.TopFiringIsLastTier` | packages/central/alembic/versions/zs9t0u1v2w3x_alert_severity_ladder.py:3-8 | the severity of the highest-ranked firing sibling is that of the last matching tier of the merged definition |
| `HealthyTier.RebuildTiers` | packages/central/alembic/versions/zx4y5z6a7b8c_alert_tier_messages.py:51-87 | the loop with its flag and front insertion computes the rebuilt list |
| `HealthyTier.PairsKept` | packages/central/alembic/versions/zx4y5z6a7b8c_alert_tier_messages.py:51-87 | every non-healthy (severity, expression) pair survives, in order |
| `HealthyTier.NoMessageLost` | packages/central/alembic/versions/zx4y5z6a7b8c_alert_tier_messages.py:3-18 | on the tables: a tier keeps its own text, else takes the definition's, else one made of the name; a healthy tier keeps its own or gets the recovery text; nothing else of a definition changes |
| `HealthyTier.RebuiltIsWellFormed` | packages/central/alembic/versions/zx4y5z6a7b8c_alert_tier_messages.py:55-87 | afterwards each element is a tier with a message, a healthy tier exists and carries no expression |
| `HealthyTier.RebuildIsIdempotent` | packages/central/alembic/versions/zx4y5z6a7b8c_alert_tier_messages.py:51-87 | rebuilding again changes nothing, whatever the message |
| `HealthyTier.Upgrade` | packages/central/alembic/versions/zx4y5z6a7b8c_alert_tier_messages.py:42-95 | every definition's tiers are rebuilt once from its own old values and nothing else changes |
| `Dedupe.PickKeeper` | packages/central/alembic/versions/zy5z6a7b8c9d_dedupe_incident_rules.py:45-55 | the keeper is in the group and sorts before every other rule: no suffix, ladder, oldest, lowest id |
| `Dedupe.UnionCompanions` | packages/central/alembic/versions/zy5z6a7b8c9d_dedupe_incident_rules.py:84-96 | the loop with its seen set lists the group's live companions in order of first appearance |
| `Dedupe.CompanionUnionMeans` | packages/central/alembic/versions/zy5z6a7b8c9d_dedupe_incident_rules.py:84-96 | that list holds exactly the live ids some rule of the group lists, each once |
| `Dedupe.VictimStep` | packages/central/alembic/versions/zy5z6a7b8c9d_dedupe_incident_rules.py:106-129 | deleting a victim's open incidents and moving the rest is one more step of a closed form over the original table |
| `Dedupe.RemoveVictim` | packages/central/alembic/versions/zy5z6a7b8c9d_dedupe_incident_rules.py:106-129 | the unique open-incident index and the foreign keys hold after each of its three statements, and deleting the rule cascades into no incident |
| `Dedupe.Upgrade` | packages/central/alembic/versions/zy5z6a7b8c9d_dedupe_incident_rules.py:58-143 | the final tables in closed form, reached by a log of statements after each of which integrity holds |
| `Dedupe.OneRulePerDefinition` | packages/central/alembic/versions/zy5z6a7b8c9d_dedupe_incident_rules.py:45-143 | exactly one rule remains for every definition that had any: one without the "Promote to Event" suffix if there is one, then with a severity ladder, then the oldest, then the lowest id |
| `Dedupe.CompanionsMerged` | packages/central/alembic/versions/zy5z6a7b8c9d_dedupe_incident_rules.py:131-143 | a keeper ends with the duplicate-free union of its group's live companions, NULL when empty |
| `Dedupe.IncidentsConserved` | packages/central/alembic/versions/zy5z6a7b8c9d_dedupe_incident_rules.py:98-129 | only open incidents of removed rules disappear; all others keep their content under their group's keeper, a keeper's open ones stay put, and a parent reference is cleared only if the parent went |
| `Migrations.MigrateAll` | packages/central/alembic/versions/zy5z6a7b8c9d_dedupe_incident_rules.py:58-143 | the three migrations in order succeed exactly if the ladders fold cleanly, each starting from tables its predecessor left intact |
| `Migrations.OneLiveRule` | packages/central/alembic/versions/zw3x4y5z6a7b_alert_tiers.py:126-139 | every definition that had a rule, directly or through its ladder, ends with exactly one, pointing at a live definition |
| `Migrations.RulesAreLive` | packages/central/alembic/versions/zw3x4y5z6a7b_alert_tiers.py:126-139 | every remaining rule existed before and points at the live keeper of its definition's ladder |
| `Migrations.ThresholdsKept` | packages/central/alembic/versions/zx4y5z6a7b8c_alert_tier_messages.py:51-97 | after all three migrations the keeper carries every sibling's non-healthy (severity, expression) pair in rank order |
| `Migrations.MessagesAfter` | packages/central/alembic/versions/zx4y5z6a7b8c_alert_tier_messages.py:51-97 | after all three migrations the survivor has one tier for each sibling in rank order, with the survivor's own text or one made of its merged name, behind a recovery tier; nothing else of it but the name has changed |
| `Migrations.MeaningPreservedIff` | packages/central/src/monctl_central/alerting/engine.py:326-332 | over all readings, what the engine reports from the migrated tiers is the severity of the ladder's last firing threshold if and only if the ladder's order agrees with the severity order |
| `Migrations.MeaningPreserved` | packages/central/src/monctl_central/alerting/engine.py:326-332 | for an agreeing ladder and every reading, the engine reports from the migrated tiers the severity of the sibling that outranked all firing siblings before |
| `Migrations.SilencePreserved` | packages/central/src/monctl_central/alerting/engine.py:326-332 | when no sibling's expression holds, the engine reports nothing from the migrated tiers either |
| `InstallJob.CompletedMeansZero` | packages/collector/src/monctl_collector/os_update_agent.py:232-254 | over every interleaving the agent reports completion only if apt-get exited zero |
| `InstallJob.PollsBounded` | packages/collector/src/monctl_collector/os_update_agent.py:229-256 | at most 360 polls, all over within 1845 seconds of the install request |
| `InstallJob.VerdictStable` | docker/docker-stats-server.py:338-361 | once the exit code is written, the file and the verdict read from it stay the same for 3600 seconds |
| `InstallJob.SweepNeverInterferes` | docker/docker-stats-server.py:656-718 | whenever the agent polls after the code was written, the handler's read gives that code's verdict |
| `InstallJob.AnsweredPollDecides` | packages/collector/src/monctl_collector/os_update_agent.py:232-254 | a poll whose read comes after the code was written, and whose reply arrives, ends the wait: completed for zero, failed with that code otherwise |
| `InstallJob.PollsAgain` | packages/collector/src/monctl_collector/os_update_agent.py:239-256 | a reply that the job runs, or a lost connection, means another poll five seconds later |
| `InstallJob.TimedOutLate` | packages/collector/src/monctl_collector/os_update_agent.py:229-260 | the agent gives up only after 1800 seconds of polling |
| `InstallJob.SweptAfterAnHour` | docker/docker-stats-server.py:338-361 | the sweep does remove a file older than 3600 seconds |
| `InstallJob.InstalledRun` | packages/collector/src/monctl_collector/os_update_agent.py:215-254 | a run that ends in a completed install |
| `InstallJob.FailedThoughInstalledIff` | docker/docker-stats-server.py:675-715 | for a run ending in "failed" with code rc: apt-get had exited zero if and only if rc is -1, it did exit zero, and the unit query behind the verdict missed a code written since that poll's first read, or followed a kill before any code was written, or preceded the unit's start; a code of zero or more is never wrong |
| `InstallJob.InactiveIff` | docker/docker-stats-server.py:699-715 | in any run, whatever apt-get did, a poll's unit query finds the unit inactive if and only if it is still queued, was killed before, or wrote its code and ended since that poll's first read |
| `InstallJob.MinusOneCauses` | docker/docker-stats-server.py:699-715 | behind every verdict -1 is a query of that same poll with one of these three causes |
| `InstallJob.FailedDespiteZero` | docker/docker-stats-server.py:675-715 | a run in which the code is written between the two reads: apt-get exits zero and the agent reports failure |
| `InstallJob.KilledAfterSuccess` | docker/docker-stats-server.py:699-715 | another in which the unit is killed after apt-get exited zero |
| `InstallJob.AskedBeforeStart` | docker/docker-stats-server.py:827-838 | a third in which the first poll asks before the queued unit has started |
| `InstallJob.TimedOutUnheard` | packages/collector/src/monctl_collector/os_update_agent.py:229-260 | if the agent timed out, every poll that began after the code was written lost its connection |
| `InstallJob.TimedOutDespiteZero` | packages/collector/src/monctl_collector/os_update_agent.py:229-260 | so it can time out although apt-get had exited zero and the code was written |
| `InstallJob.MissedCodeIsARace` | docker/docker-stats-server.py:675-715 | "ended without writing rc" is wrong about the job if and only if the code was written between that poll's two reads |
| `ApiKeyCache.PickEvicted` | packages/central/src/monctl_central/cache.py:117-125 | fifty entries, none younger than any that stays |
| `ApiKeyCache.NeverTooStale` | packages/central/src/monctl_central/cache.py:136-163 | in every run of any number of processes, with Redis up or down at each call, a value returned for a key was stored for that key at most 360 seconds earlier |
| `ApiKeyCache.LocalServes` | packages/central/src/monctl_central/cache.py:106-151 | what a process stored, or read from Redis, it answers for 60 seconds when Redis does not, unless it replaced, deleted or evicted the entry itself |
| `ApiKeyCache.RedisServes` | packages/central/src/monctl_central/cache.py:136-163 | for 300 seconds every process that reaches Redis gets the latest value that reached it |
| `ApiKeyCache.RevocationTakesEffect` | packages/central/src/monctl_central/cache.py:166-174 | after a successful delete with nothing stored since, no process returns a value more than 60 seconds later |
| `ApiKeyCache.DeleterForgets` | packages/central/src/monctl_central/cache.py:166-174 | the deleting process forgets at once, Redis up or down, until it stores or reads the key again |
| `CounterBatch.AnswerIndependent` | packages/central/src/monctl_central/cache.py:341-387 | a single lookup answers the same whatever lookups came before, repeats of its id included |
| `CounterBatch.ReadRedis` | packages/central/src/monctl_central/cache.py:420-438 | the ids left to ClickHouse are those without an entry, or all of them once an entry does not parse |
| `CounterBatch.FillFromClickHouse` | packages/central/src/monctl_central/cache.py:440-487 | exactly the misses with a row are answered from it and backfilled |
| `CounterBatch.GetBatch` | packages/central/src/monctl_central/cache.py:408-489 | answers every id, repeats included, as one lookup per id would if and only if all requested entries parse or the unparsed ones are harmless, and then leaves Redis as those lookups would |
| `CounterBatch.PoisonedBatch` | packages/central/src/monctl_central/cache.py:426-438 | one unparsable entry and a stale ClickHouse row make the batch disagree about another interface |
| `LogRelay.NeverLooksRestarted` | docker/docker-stats-server.py:1030-1032 | while the deque is not replaced its length never falls below the remembered count, wrapped or not |
| `LogRelay.SilentOnceFull` | docker/docker-stats-server.py:1023-1034 | once a push has found the deque full, no further line is ever sent |
| `LogRelay.BatchesAreSlices` | docker/docker-stats-server.py:1023-1034 | over every interleaving each batch is a run of consecutive lines whose ends follow from the step counts alone, and later batches start and end later |
| `LogRelay.NeverTwiceIff` | docker/docker-stats-server.py:1023-1034 | over every interleaving no line is sent twice if and only if each sending push was not overtaken, or the lines the next sending push read number at least 500 more than those that overtook it |
| `LogRelay.NeverRepeatsNorReorders` | docker/docker-stats-server.py:1023-1034 | the batches put together list lines at certain positions, which ascend strictly under that same condition and no other |
| `LogRelay.CompleteIff` | docker/docker-stats-server.py:1023-1034 | they are exactly the lines up to the last one a push looked at if and only if every batch starts where the one before ended and the last push sent; without overtaking appends that means at most 500 lines, and never more are sent |
| `LogRelay.OvertakenLineIsSentTwice` | docker/docker-stats-server.py:1025-1034 | a line appended between the two reads is sent by this push and by the next |
| `LogRelay.DiscardedMakesUp` | docker/docker-stats-server.py:1025-1034 | 499 lines, a push that ten lines overtake, ten more lines and a push: two batches, and no line sent twice |
| `LogRelay.MergeLogs` | packages/central/src/monctl_central/cache.py:768-773 | each container in the payload keeps the last 500 of its old and new lines, every other container is untouched |
| `LogRelay.CentralKeepsLast` | packages/central/src/monctl_central/cache.py:760-776 | after any payloads central holds the last 500 of all lines received for each container |
| `LogRelay.CentralHoldsAllSent` | packages/central/src/monctl_central/cache.py:760-776 | if every batch arrives, central's buffer is the last 500 lines sent, which is everything if and only if at most 500 were sent, as always without overtaking appends |
| `SingleFlight.AtMostOneRefresh` | packages/central/frontend/src/api/client.ts:73-95 | over every interleaving at most one refresh is in progress, and it is the newest |
| `SingleFlight.OverlappingShare` | packages/central/frontend/src/api/client.ts:73-76 | a 401 that arrives during a refresh joins it and starts none |
| `SingleFlight.JoinersShareOutcome` | packages/central/frontend/src/api/client.ts:73-95 | requests that waited on the same refresh got the same outcome |
| `SingleFlight.RefreshDecides` | packages/central/frontend/src/api/client.ts:73-119 | what the refresh answered is what every request that waited for it gets, and it is sent again exactly if the refresh succeeded |
| `SingleFlight.StartsOne` | packages/central/frontend/src/api/client.ts:77-95 | a 401 with no refresh in progress starts exactly one and waits on it |
| `SingleFlight.LoginIffUnauthorized` | packages/central/frontend/src/api/client.ts:99-130 | a finished request leads to the login page exactly if its last answer was a 401, and met a refresh exactly if its first was one on an endpoint outside /auth/ |
| `SingleFlight.SentAtMostTwice` | packages/central/frontend/src/api/client.ts:99-130 | a request is sent at most twice, awaits at most one refresh, is retried exactly when that refresh gave true, and never for /auth/ endpoints |
| `SingleFlight.RefreshesBounded` | packages/central/frontend/src/api/client.ts:64-130 | there are never more refreshes than requests that met a 401 |
| `SingleFlight.RunsEnd` | packages/central/frontend/src/api/client.ts:64-130 | a run has at most five steps for each request made |
| `SingleFlight.NeverStuck` | packages/central/frontend/src/api/client.ts:64-130 | while a request is unfinished some answer or resumption is outstanding and can arrive |

## Left out

- BER and ASN.1 encoding, UDP, retries, pysnmp objects and SNMPv3 authentication: agents are modelled at the level of bindings.
- The value ranges of ASN.1 types and the rendering of non-printable octet strings: values are integers or text.
- OIDs travel as tuples in the model; the text forms the code uses are covered by the round-trip and injectivity lemmas of `Text`.
- The simulator's random counter increments, failure injection, request statistics and `handle_get_next`: counters stand still during a poll, and GETNEXT is modelled on the tree.
- `walk_multi` with repeated bases, where one list would receive two columns.
- `WalkMulti.WalkMulti`: how many endOfMibView rows follow a subtree that ends the MIB is bounded, not determined, since it depends on where the agent cuts its answers.
- The poller's result envelope, error texts, error classification and logging; the order in which a set of column names is listed.
- `EndToEnd.PollDevice`: for exactly 10,000 interfaces the alias of the highest index is not determined, because the row cap may or may not leave room for an endOfMibView binding.
- The alert-entity wipe, dropped columns, `updated_at` and the downgrades of the migrations; UUIDs are numbers with an arbitrary order.
- Evaluation windows, positive clears and notification in the alert engine: only the choice of the effective severity is modelled.
- The inline install path of old sidecars, log output and post-install warnings; the sweep's whole-second arithmetic, which only ever deletes later than the model's.
- Concurrent Redis calls inside one cache call: each get, set and delete is one step, as are the lookups of `CounterBatch`, whose entries do not expire during a call.
- Redis failing in the middle of `CounterBatch.GetBatch`, and interface ids whose text differs from ClickHouse's rendering.
- Replacement of a container's deque when it restarts, failed pushes, and expiry of central's log entry; JSON is assumed to round-trip.
- In `ApiKeyCache`, `InstallJob`, `LogRelay` and `SingleFlight` the module-level variables are fields of a state value that every step replaces, because the properties are about interleavings of several processes.
- The error details the browser client reports for statuses other than 401.
- The other caches, queues and routes of central, the rebalancer, leader election, the user interface and the installer: plumbing around what is modelled here.
