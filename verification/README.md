# Verification model of the Hardware State Manager

A Dafny model of the parts of the Hardware State Manager (HSM) whose state and branching no
finite set of tests settles, with proofs of what they promise. Code that updates fields, tables
or slices is modelled by classes and methods proved against specification functions; threads and
service instances by state machines whose runs are arbitrary interleavings of atomic steps; the
query builders by functions and loops that produce text, which is read back with SQL's own
precedence and evaluated on rows. The database is a set of tables changed by serial transactions;
its replies, clocks, fresh identifiers and the outcome of network calls are parameters.

`dafny verify dfyconfig.toml` checks everything (Dafny 4.11).

## Components

- **ComponentEndpoint cache** (`CompEndpointCache`, `CacheProtocol`, `CacheOutcomes`, `Strings`): the
  numbered two-level cache and the lookups that check the table, sync on condition and look again.
- **Discovery** (`DiscoveryProtocol`, `DiscoveryRules`, `DiscoveryService`): the `LastStatus` lock,
  the reference counted discovery map, refreshes and takeovers by any number of instances.
- **Query compiler** (`SqlText`, `SqlPieces`, `WhereClause`, `Alternatives`, `ColumnFilter`,
  `NidQuery`, `NidRanges`, `SimilarTo`, `XnameTree`, `HierarchyQuery`): conditions as text, NID
  ranges, negated value lists, and hierarchy patterns (sections 4.1.6 and 9.7.2 of the PostgreSQL
  manual).
- **Groups and partitions** (`MembershipTables`, `GroupStore`, `GroupRules`, `MembershipQuery`,
  `Memberships`): the tables and their namespaces, the transactions on them, the joined queries and
  the listing.
- **State change notifications** (`ScnIndex`, `Subscriptions`, `ScnService`, `PatchRules`): the list
  of subscriptions and the reference counted index of URLs.
- **Locks and reservations** (`ComponentLocks`, `LockRules`), **polling jobs** (`JobProtocol`,
  `JobRules`, `JobService`), **hardware history** (`HardwareHistory`), **state updates**
  (`FilterFields`, `StateUpdates`, `StateRules`, and `PreparedQueries` and `UpdateQuery` for the text
  that is run).

The `...Rules` modules and `CacheOutcomes` state what the functions the code is proved against mean,
in terms of the columns, numbers and steps a caller sees.

## Where the code does not do what it seems to promise

Each is a theorem with its exact condition, or a concrete run, in the table below.

- Two rounds of a cache lookup suffice for every endpoint that the table can answer; a cabinet PDU
  controller passes the check by its children and is then not found, as it has no row of its own.
- Two instances that read the same orphaned discovery can both take it over; the second overrides
  a live discovery. The comment above `DiscoverySync` says as much.
- A post of NID ranges that holds only blank strings is accepted and selects every component, as
  no condition is generated. What is selected is right exactly if some string is neither blank nor
  negated.
- A post of NID ranges that also negates a NID passes every check of the service, but the database
  refuses the condition: beside a range the negated NID is compared as it stands.
- Of the function that merges posted NID ranges, not of the service: a filter that has ends but no
  start loses its floor at NID 0. Its only caller empties the NID lists of the filter first, so no
  request gets there.
- Deleting an endpoint does not look at its discovery: deleted while marked and posted again, it can
  be claimed a second time without force. And while it is missing, the instance that had it in its
  map refreshes none of its other discoveries.
- A hardware inventory request for an xname with its parents, its children and a partition finds
  what is under the xname in every partition: the alternative for the parents is written before the
  partition and not put in parentheses with what precedes it. The partition narrows a row exactly
  if it is not under the xname or is in the partition.
- Of the function that builds hardware inventory queries, not of the service: types and partitions
  follow several ids without parentheses and narrow the subtree of the last one only. Its callers
  pass at most one id, or several without types and partition.
- A hardware inventory request with children and types, for an xname or for the whole system, whose
  subquery finds no component selects every location, since empty parentheses match the empty
  string. It is right exactly if the subquery finds something.
- An empty but present group or partition list selects nothing, where an absent one selects all.
- A label that mentions `group_namespace` and is taken is reported as an exclusivity conflict.
- The comment in the subscription POST says that existing subscriptions are updated, but the
  insert refuses a known subscriber and URL; the branch for a listed id keeps the listed URL, so it
  is right exactly for an equal URL. PUT copies back only the states, so it is right exactly when
  nothing else changes. A remove patch that repeats a value can slice out of range.
- A negative reservation duration passes as expiring and is stored as not expiring. The handlers
  pass zero or a positive duration.
- A flexible (un)lock request fails when no component can be changed.
- An update of states reports a Locked row that is in the new state already although it keeps its
  flag; a bulk update with an invalid flag, which is stored as OK, reports every allowed row.
- The comment on the select of a bulk state update says that it locks its rows, but it does not
  ask for a lock: a component that another transaction empties before the update is made Ready.
- The transition table of the service's README differs from the one in the code in four
  transitions: Off, Standby and Halt to Ready happen though undocumented, Ready to On needs force
  though documented. The model follows the code.

## Model

| member | source | states |
|---|---|---|
| `CompEndpointCache.SyncMap.Rebuild` | cmd/smd/rfevent.go:1085-1117 | both indexes are replaced by the ones of the fetched table; a failed fetch changes nothing |
| `CompEndpointCache.SyncMap.TrySync` | cmd/smd/rfevent.go:1030-1042 | a rebuild happens only if nobody synced since the given number, adds one to it, and leaves everything alone when it fails |
| `CompEndpointCache.SyncMap.LookupKey` | cmd/smd/rfevent.go:1045-1053 | the stored primary key or the empty string, with the number of the sync it was read under |
| `CompEndpointCache.SyncMap.LookupValue` | cmd/smd/rfevent.go:1056-1064 | the stored row or none, with the number of the sync it was read under |
| `CompEndpointCache.KeysDisjoint` | cmd/smd/rfevent.go:1085-1117 | lookup keys by URI and keys of child lists never collide, whatever the capitalization |
| `CompEndpointCache.ValuesAgree` | cmd/smd/rfevent.go:1085-1117 | after a rebuild a lookup by id finds exactly the table row with that id |
| `CompEndpointCache.ChildrenAgree` | cmd/smd/rfevent.go:1085-1117 | the child list of an endpoint is the comma-joined list of the ids of its rows, present exactly when it has rows |
| `CompEndpointCache.ChildrenRoundTrip` | cmd/smd/rfevent.go:1219-1264 | splitting a stored child list at commas gives back exactly the ids, in order |
| `CompEndpointCache.UrisAgree` | cmd/smd/rfevent.go:1085-1117 | a lookup by URI gives the id of the last row with that endpoint and URI |
| `CacheProtocol.TwoRoundsSuffice` | cmd/smd/rfevent.go:1164-1212 | under any interleaving of readers, rebuilds and table changes, a lookup whose first check finds its endpoint ends with the answer or an error as long as the table can answer it, even when all rebuilds are other threads' |
| `CacheProtocol.MissesAreJustified` | cmd/smd/rfevent.go:1164-1327 | a lookup reports its endpoint missing only if the table could not answer it at some moment during the lookup |
| `CacheProtocol.AnswerableValue` | cmd/smd/rfevent.go:1164-1212 | for lookups by id, "the table can answer" is just "the row is in the table" |
| `CacheProtocol.AnswerableChildren` | cmd/smd/rfevent.go:1219-1264 | for child lists it is: the check finds the endpoint and some row names it |
| `CacheProtocol.AnswerableUri` | cmd/smd/rfevent.go:1124-1160 | for lookups by URI it is: the check finds the endpoint and some row has the URI |
| `CacheProtocol.PduControllersAreNotAnswerable` | cmd/smd/rfevent.go:1280-1297 | the exception: a cabinet PDU controller without a row of its own passes the check, yet no table answers a lookup of it |
| `CacheProtocol.AnswersWereTrue` | cmd/smd/rfevent.go:1164-1327 | every answer given is what the table said at some moment of the run |
| `CacheProtocol.SyncNumCountsRebuilds` | cmd/smd/rfevent.go:1030-1042 | the sync number equals the number of rebuilds so far, in every run |
| `CacheProtocol.OneRebuildPerNumber` | cmd/smd/rfevent.go:1030-1042 | of all threads that hold one sync number at most one rebuilds |
| `CacheProtocol.EachNumberIsRebuilt` | cmd/smd/rfevent.go:1030-1042 | for every number passed exactly one rebuild of the run started from it |
| `CacheProtocol.OneRoundIsNotEnough` | cmd/smd/rfevent.go:1164-1212 | a run in which the first round does not help although the endpoint was found and stays: the second round is needed |
| `CacheOutcomes.CallsEndRight` | cmd/smd/rfevent.go:1270-1327 | over every run, a lookup ends with an error exactly for a driver error or three database errors in a row, as missing only by its own check that found nothing or by a cached read without an answer, and with an answer only by a cached read |
| `CacheOutcomes.CallsEnd` | cmd/smd/rfevent.go:1164-1212 | no lookup takes more than 23 steps, whatever the others do |
| `CacheOutcomes.ChecksMean` | cmd/smd/rfevent.go:1280-1297 | the check asks for children of a cabinet PDU controller and for a row with the id otherwise |
| `CacheOutcomes.PduNames` | cmd/smd/rfevent.go:1280-1297 | cabinet PDU controllers are x, one to four digits, m and a digit from 0 to 3 |
| `CacheOutcomes.UriKeysMean` | cmd/smd/rfevent.go:1085-1117 | two lookups by URI share a key exactly if endpoint and URI agree but for the case of letters |
| `CacheOutcomes.SyncsAgree` | cmd/smd/rfevent.go:1030-1042 | what a sync returns is what the thread goes on with, step by step |
| `CacheOutcomes.AskedOfTable` | cmd/smd/rfevent.go:1085-1117 | a cache built from a table answers just the row with the id, the id of the last row at the URI, or the joined ids of the children |
| `CacheOutcomes.AnswersAreOfTables` | cmd/smd/rfevent.go:1164-1327 | every answer over a run is that row, id or list of a table there was |
| `DiscoveryProtocol.StartedOnlyWhileUnfinished` | cmd/smd/smd.go:412-508 | with any instances, forced claims, refreshes and takeovers, an endpoint is marked as being discovered only while some claim on it has not stored its result |
| `DiscoveryProtocol.RefreshMarksOnlyRunning` | cmd/smd/smd.go:480-508 | a refresh changes only endpoints whose discovery its own instance is running, so it never revives a finished one |
| `DiscoveryProtocol.InvHolds` | cmd/smd/smd.go:451-478 | in every run the discovery map counts exactly the local discoveries between their add and their remove |
| `DiscoveryProtocol.ClaimsAreExclusive` | internal/hmsds/hmsds-postgres.go:2295-2333 | throughout a run an endpoint is marked exactly while it has an unfinished claim and has at most one, if and only if no step claims by force, takes over or deletes an endpoint that is marked |
| `DiscoveryProtocol.DeletingBreaksTheLock` | cmd/smd/smd-api.go:2249-2274 | a run without force or takeover in which an endpoint under discovery is deleted, posted again and claimed a second time |
| `DiscoveryProtocol.DeletedEntryStopsRefreshes` | cmd/smd/smd.go:480-508 | while an endpoint in the map of an instance is missing from the table, that instance refreshes none of its discoveries |
| `DiscoveryProtocol.SyncSparesLiveDiscoveries` | cmd/smd/smd.go:412-446 | if the delays total under ten minutes, no pass of any instance decides to take over a discovery whose owner is alive |
| `DiscoveryProtocol.TakeOverHitsOnlyLaterClaims` | cmd/smd/smd.go:406-446 | a takeover that is carried out can only hit a live discovery claimed after the decision |
| `DiscoveryProtocol.TwoTakeoversCanRace` | cmd/smd/smd.go:406-411 | that case exists even without any delay: two instances read the same orphan and the second overrides the first |
| `DiscoveryRules.ClaimObtains` | internal/hmsds/hmsds-postgres.go:2295-2333 | a claim obtains just the endpoints not being discovered, or all by force, and marks them as of now |
| `DiscoveryRules.ResultStays` | cmd/smd/smd.go:412-508 | over any run, the result a discovery stores stays until a step writes the row again |
| `DiscoveryRules.OrphanIsRead` | cmd/smd/smd.go:412-446 | a marked endpoint that nobody has written for half an hour is read as an orphan |
| `DiscoveryRules.MarkedIsNotRead` | cmd/smd/smd.go:412-446 | one marked less than half an hour ago is not, whatever happened since |
| `DiscoveryRules.StoredIsNotRead` | cmd/smd/smd.go:412-446 | nor is one whose discovery has stored its result |
| `DiscoveryRules.TakenOverIsFinished` | cmd/smd/smd.go:406-508 | a run in which an instance crashes during a discovery and another one takes it over, refreshes it and stores its result |
| `DiscoveryService.Service.DiscoveryMapAdd` | cmd/smd/smd.go:451-460 | the count of the endpoint goes up by one |
| `DiscoveryService.Service.DiscoveryMapRemove` | cmd/smd/smd.go:464-474 | the count goes down by one and the entry goes at zero |
| `DiscoveryService.Service.UpdateRFEndpointForDiscover` | internal/hmsds/hmsds-postgres.go:2295-2333 | all ids exist once or nothing changes; otherwise exactly the endpoints not being discovered, or all if forced, are claimed and stamped |
| `DiscoveryService.Service.UpdateFromRfEndpoint` | cmd/smd/discover.go:210-410 | on every exit path the endpoint leaves the map exactly once, before any status is stored, and its row ends with the status of StoresEndRightly |
| `DiscoveryService.Service.DoDiscovery` | cmd/smd/discover.go:176-204 | a discovery leaves the map of its instance as it found it and the row with the status of StoresEndRightly |
| `DiscoveryService.LeavingUndoesEntering` | cmd/smd/smd.go:451-474 | removing after adding restores the map |
| `DiscoveryService.StoredStatusReleasesLock` | cmd/smd/discover.go:210-350 | if any store of a discovery succeeds, its endpoint is no longer marked as being discovered |
| `DiscoveryService.StoresEndRightly` | cmd/smd/discover.go:210-350 | the row ends as DiscoverOK if and only if the last status was that, no generator failed and the store succeeded; otherwise it gets its own status, the one for unexpected errors, or StoreFailed by the retry |
| `SqlText.ParsePrint` | internal/hmsds/query-shared-sq.go:1179-1233 | conditions whose parentheses respect precedence are read back as they were meant |
| `SqlText.LexAppend` | internal/hmsds/query-shared-sq.go:1179-1233 | pieces of text that meet at a delimiter can be put together without changing their tokens |
| `WhereClause.WhereIsConjunction` | internal/hmsds/query-shared-sq.go:981-1020 | a WHERE text whose parts have no bare OR parses, is accepted exactly when its parts are, and holds exactly when all hold |
| `ColumnFilter.SplitSliceWithNegations` | internal/hmsds/query-shared-sq.go:1025-1034 | plain values and negated values are separated, in order |
| `ColumnFilter.SplitKeepsAll` | internal/hmsds/query-shared-sq.go:1025-1034 | the two lists hold exactly the plain values and the trimmed negated ones, none lost |
| `ColumnFilter.WhereComponentCol` | internal/hmsds/query-shared-sq.go:1008-1020 | an IN and a NOT IN condition are added where there are values for them |
| `ColumnFilter.ColumnMeans` | internal/hmsds/query-shared-sq.go:1008-1020 | added to any query they select the rows with one of the plain values, if any are given, and none of the negated ones |
| `Alternatives.OrMeans` | internal/hmsds/query-shared-sq.go:1188-1227 | a list joined with OR holds when one of its alternatives does, each with its own arguments |
| `NidQuery.NidRangeClause` | internal/hmsds/query-shared-sq.go:1188-1227 | the text grown piece by piece reads as the parenthesized alternatives, with one argument per placeholder in order |
| `NidQuery.WhereComponentNIDCol` | internal/hmsds/query-shared-sq.go:1179-1233 | the condition is added for ranges, for plain lists, or not at all |
| `NidQuery.NidFilterSelects` | internal/hmsds/query-shared-sq.go:1179-1233 | the whole WHERE text parses, is accepted exactly when all values are bigints, and selects exactly the paired ranges, half-open leftovers and single NIDs, with NID >= 0 when no start is given, among what the other conditions select |
| `NidRanges.NidRangeToCompFilter` | cmd/smd/smd-api.go:237-277 | posted strings are refused exactly if one is malformed; else their starts, ends and singles precede those of the filter |
| `NidRanges.PostedTextReads` | cmd/smd/smd-api.go:248-270 | a string without a hyphen is read as a single NID, any other as the range from before its first hyphen to after its last, and is malformed if an end is empty |
| `NidRanges.MergeCovers` | cmd/smd/smd-api.go:229-236 | as many starts as ends put in front leave all existing pairs aligned |
| `NidRanges.MergedFilterSelects` | cmd/smd/smd-api.go:237-277 | merged into any filter, checked and turned into a condition: with a range, what the strings cover is added to what the filter asked for, with exactly the negative NIDs of LosesFloor; without, all NIDs asked for, or all if none is, less those negated |
| `NidRanges.PostedFilterSelects` | cmd/smd/smd-api.go:809-815 | merged into the empty filter of the service they select what they cover and do not exclude if any of them asks for NIDs, and otherwise all that they do not exclude |
| `NidRanges.PostedFilterIsExact` | cmd/smd/smd-api.go:809-815 | that is exactly what they cover and do not exclude if and only if one of them is neither blank nor negated |
| `NidRanges.BlankPostSelectsAll` | cmd/smd/smd-api.go:788-815 | a post of one blank string is accepted and selects every component |
| `NidRanges.MergingCanSelectMissingNids` | cmd/smd/smd-api.go:237-277 | of the function alone: a filter and a range that select NID -1 only when merged; the service merges into an empty filter only |
| `NidRanges.PostedRangesSelect` | internal/hmsds/query-shared-sq.go:1179-1233 | end to end for any filter: the text generated from the merged and checked filter among any other conditions is taken exactly if all NIDs are bigints, and finds the rows described by MergedFilterSelects that the other conditions select |
| `NidRanges.PostedQuerySelects` | cmd/smd/smd-api.go:809-821 | end to end for the request: the text finds the rows that the other conditions select and whose NID the posted strings cover, if one asks for NIDs, and do not exclude |
| `NidRanges.PostedNumbersSelect` | cmd/smd/smd-api.go:774-821 | end to end in numbers: a post of ranges lo-hi, single NIDs and negated NIDs, printed in decimal, is refused by the database exactly if it has both ranges and negated NIDs, and otherwise finds the rows with a NID between the ends of a range or equal to a single one, if any is asked for, and not negated, among what the other conditions select |
| `NidRanges.QueryByNid` | cmd/smd/smd-api.go:774-821 | a request is refused exactly if it posts nothing, a malformed range or something that is not a number; otherwise its conditions are those of the checked merged filter |
| `NidRanges.RefusedPost` | internal/hmsds/hmsds-api-filters.go:555-580 | the check refuses exactly a post in which some NID has anything but digits behind its negation |
| `MembershipQuery.RejectedMixes` | internal/hmsds/query-shared-sq.go:1065-1105 | exactly the other mixes of group and partition arguments are rejected |
| `MembershipQuery.RejectionReasons` | internal/hmsds/query-shared-sq.go:1065-1105 | each kind of rejected mix has its own error |
| `MembershipQuery.JoinedQuerySelects` | internal/hmsds/query-shared-sq.go:1040-1175 | the joined query returns each component at most once and exactly those in a named group or partition, in both, or without, as the arguments ask |
| `MembershipQuery.CountsBoth` | internal/hmsds/query-shared-sq.go:1134-1140 | under the keys of the tables two joined rows mean one group and one partition |
| `MembershipQuery.NullMode` | internal/hmsds/query-shared-sq.go:1075-1125 | a row of NULLs is left exactly for components without a membership of the kind looked for |
| `Memberships.SelectsAllMemberships` | internal/hmsds/query-shared-sq.go:851-877 | subquery and second join together return all memberships of exactly the components asked for |
| `Memberships.FoldRows` | internal/hmsds/hmsds-postgres.go:4118-4156 | one record per id of the rows, built from its rows in order |
| `Memberships.GetMemberships` | internal/hmsds/hmsds-postgres.go:4095-4162 | one record per component the filter matches, with all its groups, each once, and its single partition |
| `MembershipTables.NamespacesNeverCollide` | internal/hmsds/query-shared-sq.go:262-262 | namespaces are equal exactly for two partitions, two groups of one exclusive set, or the same plain group |
| `MembershipTables.MembershipIsExclusive` | internal/hmsds/hmsds-tx-postgres.go:4998-5045 | a component is in at most one partition and in at most one group of each exclusive set |
| `GroupStore.Store.InsertGroup` | internal/hmsds/hmsds-postgres.go:3628-3652 | succeeds exactly with valid fields, a free label and known, distinct members that nothing excludes; otherwise nothing changes and the error says which |
| `GroupStore.Store.InsertPartition` | internal/hmsds/hmsds-postgres.go:3874-3897 | the same for partitions, whose members may be in no other one |
| `GroupStore.Store.AddMember` | internal/hmsds/hmsds-postgres.go:3800-3837 | a new member is refused as already in, excluded or unknown, or is added; the tables stay valid |
| `GroupStore.Store.DeleteMember` | internal/hmsds/hmsds-postgres.go:3841-3864 | exactly the one membership goes, and the result says whether it was there |
| `GroupStore.Store.Delete` | internal/hmsds/hmsds-postgres.go:3766-3789 | exactly the group or partition of that name goes, with its members |
| `GroupStore.AddRowsOutcome` | internal/hmsds/hmsds-tx-postgres.go:5009-5045 | an insert of members succeeds exactly if the ids are distinct and none has an entry of the group or namespace |
| `GroupStore.TakenNameError` | internal/hmsds/hmsds-postgres.go:184-202 | a taken name is a duplicate key unless the name mentions the namespace column |
| `GroupRules.CreatableMeans` | internal/hmsds/hmsds-tx-postgres.go:4998-5045 | creating succeeds exactly with valid fields, a free name and known components, each given once, that are in no partition, or no group of the exclusive set, that the new one excludes |
| `GroupRules.FieldsMean` | internal/hmsds/query-shared-sq.go:262-262 | the characters of names |
| `GroupRules.FirstConflict` | internal/hmsds/hmsds-postgres.go:184-202 | the error of an insert of members is that of the first id in conflict |
| `GroupRules.CreatedMembers` | internal/hmsds/hmsds-tx-postgres.go:4998-5045 | the new group has exactly the given members and no other gains or loses one |
| `GroupRules.DeletingUndoesCreating` | internal/hmsds/hmsds-postgres.go:3766-3789 | deleting it leaves the tables as they were |
| `SimilarTo.HierarchyPattern` | internal/hmsds/query-shared-sq.go:917-918 | the pattern of an id matches the id, or the id followed by a letter and then letters and digits |
| `SimilarTo.AlternationPattern` | internal/hmsds/query-shared-sq.go:1377-1387 | the pattern of a list of ids matches one of them and a tail; of no ids, any tail |
| `XnameTree.PrefixIsAncestor` | internal/hmsds/query-shared-sq.go:902-928 | for printed xnames such matches are exactly the descendants in segments |
| `XnameTree.PatternIsSubtree` | internal/hmsds/query-shared-sq.go:902-928 | the pattern of an xname matches exactly its subtree |
| `XnameTree.AlternationIsUnion` | internal/hmsds/query-shared-sq.go:1377-1387 | the pattern of a list matches the union of the subtrees, or everything if the list is empty |
| `HierarchyQuery.SelectComponentsHierarchy` | internal/hmsds/query-shared-sq.go:882-930 | the text and the arguments of the outer condition |
| `HierarchyQuery.SubtreesAreSelected` | internal/hmsds/query-shared-sq.go:902-921 | with types, that text selects the union of the subtrees of the ids |
| `HierarchyQuery.IdsAreSelected` | internal/hmsds/query-shared-sq.go:921-928 | without types, it selects the ids |
| `HierarchyQuery.LocationFilter` | internal/hmsds/query-shared-sq.go:1286-1370 | the text of a hardware inventory filter: subtree patterns and then the types |
| `HierarchyQuery.TypedSubtreesAreSelected` | internal/hmsds/query-shared-sq.go:1286-1370 | that text finds what has one of the types and is at or under the id, or anywhere without ids, as the service asks; of the function alone: given several ids, everything under all but the last one |
| `HierarchyQuery.TypesNeedOneId` | internal/hmsds/query-shared-sq.go:1286-1370 | of the function: the types narrow what is at or under the ids if and only if there is at most one, which holds for its callers |
| `HierarchyQuery.PartitionNarrowsLastId` | internal/hmsds/query-shared-sq.go:1402-1416 | of the function: a partition added to ids narrows the subtree of the last one only; its callers pass one id, or several without a partition |
| `HierarchyQuery.PartitionNarrowsParents` | internal/hmsds/query-shared-sq.go:1388-1416 | a partition added after the ids of the parents narrows the parents only; a row is narrowed if and only if the condition before does not find it or it is in a partition asked for |
| `HierarchyQuery.ParentsAndChildren` | cmd/smd/smd-api.go:1719-1742 | a request for an xname with parents, children and a partition finds all that is at or under it in any partition, and its parents in the partition |
| `HierarchyQuery.PartitionIsEscaped` | cmd/smd/smd-api.go:1719-1742 | such a request, for partition p1, and a card of partition p2 that it finds |
| `HierarchyQuery.ChildrenOfTypes` | internal/hmsds/query-shared-sq.go:1244-1387 | both texts together, for ids or the whole system: the pattern built from the ids that the text of the subquery selects matches what lies at or under a location found, or every location if none is found |
| `HierarchyQuery.ChildrenOfTypesIsExact` | internal/hmsds/query-shared-sq.go:1244-1387 | the pattern matches just what lies at or under a location found, for all xnames, if and only if one is found |
| `HierarchyQuery.NothingFoundMatchesAll` | cmd/smd/smd-api.go:1667-1742 | two cabinets without nodes, asked for the nodes of one of them or of the whole system: the other one is matched |
| `ScnIndex.AddScnUrl` | cmd/smd/smd.go:204-218 | the count of the URL goes up by one, URLs stay unique |
| `ScnIndex.RemoveScnUrl` | cmd/smd/smd.go:222-233 | the count of the URL goes down by one and nothing else changes, although the list is cut while being ranged over |
| `ScnIndex.AddTriggers` | cmd/smd/smd.go:236-286 | a URL is counted once more per value of one kind of trigger |
| `ScnIndex.RemoveTriggers` | cmd/smd/smd.go:289-309 | and once less; no entry is missing if each value was entered |
| `Subscriptions.AddSubscription` | cmd/smd/smd.go:236-286 | the index grows by exactly what the subscription gives |
| `Subscriptions.RemoveSubscription` | cmd/smd/smd.go:289-309 | the index shrinks by exactly what the subscription gives |
| `Subscriptions.RemoveValues` | cmd/smd/smd-api.go:3954-3993 | the values removed from a list whose stale cells are still searched, or a slice out of range |
| `Subscriptions.RemoveEachConserves` | cmd/smd/smd-api.go:3954-3993 | what is kept and what is removed add up to the list |
| `Subscriptions.RemoveIsSafe` | cmd/smd/smd-api.go:3954-3993 | a remove patch is in range for every list exactly when it repeats no value |
| `ScnService.ListedIsIndexed` | cmd/smd/smd.go:289-309 | removing a listed subscription never meets a missing entry |
| `ScnService.ScnService.Post` | cmd/smd/smd-api.go:3586-3605 | the index stays right; if the id is listed already, exactly when the URL is the listed one |
| `ScnService.ScnService.Put` | cmd/smd/smd-api.go:3767-3777 | the index stays right exactly when URL and all triggers but states are the listed ones |
| `ScnService.ScnService.PatchAdd` | cmd/smd/smd-api.go:3891-3953 | the values not yet listed are added to list and index, as AddPatchMeans says |
| `ScnService.ScnService.PatchRemove` | cmd/smd/smd-api.go:3954-4000 | without repeated values it succeeds, and index and list lose the same |
| `ScnService.ScnService.PatchReplace` | cmd/smd/smd-api.go:4001-4018 | the given triggers are replaced in list and index |
| `ScnService.ScnService.Delete` | cmd/smd/smd-api.go:4061-4071 | the first subscription with the id leaves list and index |
| `ScnService.ScnService.DeleteAll` | cmd/smd/smd-api.go:3615-3629 | list and index are emptied |
| `ScnService.ScnService.Refresh` | cmd/smd/smd.go:312-334 | the index is built anew for the rows of the database, whatever it was |
| `ScnService.ScnService.ScnUrls` | cmd/smd/job-types.go:145-175 | an SCN goes exactly once to each URL with a subscription for its trigger |
| `PatchRules.AddPatchMeans` | cmd/smd/smd-api.go:3891-3953 | for each kind of trigger, an add patch keeps the old list in front; a value is in the new list if and only if it was in the old one or is in the patch, and none it had is added again |
| `PatchRules.AddPatchEnables` | cmd/smd/smd-api.go:3946-3951 | it can only switch the subscription on, if that was switched off |
| `PatchRules.RemovePatchMeans` | cmd/smd/smd-api.go:3954-4000 | for each kind of trigger, a remove patch without repetitions takes out one of each of its values that the list had, and nothing else |
| `PatchRules.RemovePatchDisables` | cmd/smd/smd-api.go:3954-4000 | it can only switch the subscription off, if that was switched on |
| `PatchRules.ReplacePatchMeans` | cmd/smd/smd-api.go:4001-4018 | a replace patch takes the place of each list it has values for, and of the switch if it has one |
| `PatchRules.FirstWithIdMeans` | cmd/smd/smd-api.go:3883-3884 | the subscription an operation finds is the first one with the id |
| `PatchRules.GivesMeans` | cmd/smd/smd.go:236-286 | a subscription enters its URL under a trigger once for each of its values that is the trigger in lower case |
| `PatchRules.TriggerMeans` | cmd/smd/job-types.go:145-175 | an SCN is sent for the first of its state, role, subrole, software status and switch |
| `ComponentLocks.LockStore.Reserve` | internal/hmsds/hmsds-postgres.go:4199-4314 | rigid is all or nothing and names the first problem, flexible reports each component once with its reason; the rules of the tables stay exactly if the duration is not negative or nothing was reserved |
| `ComponentLocks.LockStore.Release` | internal/hmsds/hmsds-postgres.go:4320-4425 | the matching reservations go or nothing does; each key is reported once |
| `ComponentLocks.LockStore.Renew` | internal/hmsds/hmsds-postgres.go:4496-4553 | exactly the matching expiring reservations get the new time or nothing changes |
| `ComponentLocks.LockStore.Expire` | internal/hmsds/hmsds-tx-postgres.go:5279-5310 | exactly the expired reservations go |
| `ComponentLocks.LockStore.SetDisabled` | internal/hmsds/hmsds-postgres.go:4662-4715 | all selected components are disabled, and lose their reservations first, or repaired |
| `ComponentLocks.LockStore.SetLocked` | internal/hmsds/hmsds-postgres.go:4716-4814 | rigid locks all or none; flexible locks those that can be and fails if none can |
| `ComponentLocks.ReserveKeepsTables` | internal/hmsds/hmsds-tx-postgres.go:5163-5220 | when reserving keeps the rules of the tables |
| `ComponentLocks.SortTwice` | internal/hmsds/hmsds-postgres.go:4222-4291 | a report sorted by one problem and then another lists every component once with the first that applies |
| `ComponentLocks.CountsAddUp` | internal/hmsds/hmsds-postgres.go:4362-4366 | the counts of success and failure add up to the number asked about |
| `LockRules.ReservedExactly` | internal/hmsds/hmsds-postgres.go:4199-4314 | a request reserves exactly the selected components that are enabled, unreserved, and locked if and only if the duration is 0; the others are reported, once each, as disabled, unlocked, locked or reserved |
| `LockRules.RigidReserves` | internal/hmsds/hmsds-postgres.go:4222-4260 | a rigid request succeeds exactly if all its components are so, and else reports the first one in the wrong state |
| `LockRules.LockedExactly` | internal/hmsds/hmsds-postgres.go:4716-4814 | a request locks, or unlocks, exactly the selected components that were not so, are enabled and unreserved, and reports the others with their reason |
| `LockRules.RigidLockError` | internal/hmsds/hmsds-postgres.go:4716-4814 | the error of a rigid request is that of the first component that was so already or is disabled |
| `LockRules.ReleaseUndoesReserve` | internal/hmsds/hmsds-postgres.go:4320-4425 | releasing with the keys a reservation returned takes back exactly that reservation |
| `LockRules.ReleaseReport` | internal/hmsds/hmsds-postgres.go:4362-4425 | a report of a release lists every key, as done or not found |
| `LockRules.RenewalMeans` | internal/hmsds/hmsds-postgres.go:4496-4553 | a renewal changes no key and only the times of the reservations renewed |
| `JobProtocol.AdoptedAtMostOnce` | cmd/smd/smd.go:358-403 | however many instances read an expired job, at most one adopts it, once |
| `JobProtocol.OneJobPerComponent` | migrations/postgres/6_create_version4.up.sql:27-39 | there is never more than one polling job for a component |
| `JobProtocol.WeightStep` | cmd/smd/smd.go:370-391 | no step of an adoption adds a job |
| `JobProtocol.JobsAreBounded` | cmd/smd/smd.go:358-403 | in every run the jobs never outnumber the polls that were started |
| `JobRules.KeptAliveIsNotRead` | cmd/smd/smd.go:358-366 | over any run, a job that gave a sign of life less than 20 seconds ago is not read as expired |
| `JobRules.IdleIsRead` | cmd/smd/smd.go:358-366 | one that nobody touched for 20 seconds is |
| `JobRules.FinishedIsReadAsSuch` | cmd/smd/smd.go:367-372 | one whose poll has finished is read as complete, if at all |
| `JobRules.DeletedOrAdopted` | cmd/smd/smd.go:367-392 | a job that was read is deleted, and adopted exactly by the instance whose delete found it incomplete |
| `JobRules.AdoptedIsRemade` | cmd/smd/state-change.go:362-381 | it is made anew for its component unless that has a poll by then |
| `JobRules.AdoptionHappens` | cmd/smd/smd.go:358-403 | a run in which an instance leaves and another one adopts its job |
| `JobRules.PollsAreCounted` | cmd/smd/state-change.go:362-381 | the polls started are counted by the steps that start one |
| `JobService.JobService.DoStateRFPoll` | cmd/smd/state-change.go:362-381 | a poll starts exactly if the component has none |
| `JobService.JobService.CancelStateRFPoll` | cmd/smd/state-change.go:588-607 | a poll this instance started leaves its lists and the table |
| `JobService.JobService.JobSync` | cmd/smd/smd.go:367-392 | a pass takes on each job it read |
| `JobService.PassReplaces` | cmd/smd/smd.go:367-392 | after a pass exactly the incomplete jobs still there are back under new ids, and no other job changed |
| `JobService.AdoptableCounts` | cmd/smd/smd.go:367-392 | the number a pass reports is that of the jobs it made anew |
| `HardwareHistory.History.Generate` | cmd/smd/discover.go:861-905 | the detections that differ from the last event of their location are added |
| `HardwareHistory.StoredIsCollapsed` | cmd/smd/discover.go:861-905 | over any run of scans the history of a location is the naive log with adjacent repeats collapsed, and ends with the FRU last seen |
| `HardwareHistory.RescanAddsNothing` | cmd/smd/discover.go:886-897 | an identical scan adds nothing |
| `HardwareHistory.LastSeen` | cmd/smd/discover.go:861-905 | after any run of scans the last event of a location is the detection of the FRU last scanned there |
| `HardwareHistory.UnseenStays` | cmd/smd/discover.go:868-877 | a scan without a FRU at a location adds nothing to its history |
| `HardwareHistory.DetectionsMean` | cmd/smd/discover.go:879-898 | a scan detects exactly the FRUs of its locations |
| `HardwareHistory.SafeScans` | cmd/smd/discover.go:879-898 | a scan is stored right after every history exactly when it detects no location twice |
| `FilterFields.CheckFilterField` | internal/hmsds/hmsds-api-filters.go:555-580 | values are normalized in place and refused exactly if one normalizes to nothing |
| `FilterFields.CheckedTwice` | internal/hmsds/hmsds-api-filters.go:555-580 | checking is idempotent |
| `FilterFields.NotStateOrFlagMeans` | internal/hmsds/hmsds-api-filters.go:257-273 | repeated negations count as one: both filters select the rows that do not have both values |
| `PreparedQueries.PreparedQuery.DoRound` | internal/hmsds/query-shared.go:1017-1140 | a round over the values of a column appends its clause with the right opening, or nothing, or refuses a value |
| `PreparedQueries.PreparedQuery.DoQueryArgSet` | internal/hmsds/query-shared.go:1002-1145 | a call appends the clauses of its columns to the WHERE text, one by one or as one group, and refuses exactly the values their functions refuse |
| `PreparedQueries.ClauseMeans` | internal/hmsds/query-shared.go:1017-1140 | a clause reads as one condition, quoted or with arguments, and holds when the column equals one of the values or, negated, none |
| `PreparedQueries.GroupedMeans` | internal/hmsds/query-shared.go:1053-1142 | conditions in parentheses hold when all do or one does, as they are joined, whatever surrounds them |
| `PreparedQueries.AddedMeans` | internal/hmsds/query-shared.go:989-1145 | what a call adds to any query selects the rows that pass all clauses or, with OR, one of them, among those the query selected |
| `PreparedQueries.CompilersAgree` | internal/hmsds/query-shared.go:976-984 | for one column, the clauses of a prepared query and the checked IN and NOT IN lists select the same rows |
| `StateUpdates.ComponentTable.UpdateCompStatesTx` | internal/hmsds/hmsds-tx-postgres.go:834-925 | the rows updated and how |
| `StateUpdates.ComponentTable.UpdateCompStates` | internal/hmsds/hmsds-postgres.go:659-749 | one id or several: the rows that may start and differ are updated and reported, or nothing changes |
| `StateUpdates.ReportedExactly` | internal/hmsds/hmsds-postgres.go:659-749 | the reported ids are the changed ones if and only if no allowed row among the ids is in the new state and keeps its flag, by being Locked or by an invalid flag |
| `StateUpdates.UnchangedCanBeReported` | internal/hmsds/hmsds-postgres.go:659-749 | two updates that change nothing and report rows: of a Locked row, and of two rows with an invalid flag |
| `StateUpdates.BulkIsSingles` | internal/hmsds/hmsds-postgres.go:659-749 | one update of several ids leaves the table that an update of each in turn leaves, and reports the same rows if the flag is valid, or else at least those |
| `StateUpdates.UndisturbedUpdate` | internal/hmsds/hmsds-postgres.go:724-742 | a bulk update, which selects without locking and then updates, is an update in one step if no row of its ids changes in between |
| `StateUpdates.UnlockedFollowsTable` | internal/hmsds/hmsds-postgres.go:724-742 | otherwise an unforced one keeps to the transition table if and only if every row selected with another state is still in one that the new state may follow |
| `StateUpdates.EmptiedCanBecomeReady` | internal/hmsds/hmsds-postgres.go:724-742 | a component emptied by force after the select is made Ready by an unforced update |
| `StateUpdates.LateWarningsReviveNothing` | internal/hmsds/hmsds-postgres.go:710-716 | over any run of updates, forced or not, in which Ready is only set with a warning, no component that is not Ready becomes Ready |
| `StateUpdates.InventoryStatesAreFixed` | vendor/github.com/Cray-HPE/hms-base/v2/hmstypes.go:103-115 | over any run of unforced updates no component enters or leaves Unknown, Empty and Populated |
| `StateUpdates.DocumentedTableDiffers` | README.md:334-344 | the documented table differs from the one used in exactly four transitions |
| `StateUpdates.UpdateFollowsDocs` | README.md:334-344 | an unforced update keeps to the documented table if and only if it does not make a component Ready, without a warning, that is Off, Standby or Halt |
| `StateUpdates.OffCanBecomeReady` | README.md:334-344 | an unforced update that does |
| `StateUpdates.RunFollowsDocs` | README.md:334-344 | over any run of unforced updates a component keeps to the documented table if and only if it never goes from Off, Standby or Halt to Ready |
| `StateRules.UpdateMeans` | vendor/github.com/Cray-HPE/hms-base/v2/hmstypes.go:103-115 | row by row: an update puts just the rows of its ids that may follow, by the table read the other way round, or by force, into the new state, keeps the flag Locked, and reports those that had another state or flag |
| `StateRules.RejectedMeans` | internal/hmsds/hmsds-tx-postgres.go:834-875 | a request is rejected exactly if its state is none, or follows no state and is not forced |
| `StateRules.StateIsNamed` | vendor/github.com/Cray-HPE/hms-base/v2/hmstypes.go:93-101 | a state is accepted under its name in any capitalization and under nothing else |
| `StateRules.FlagIsNamed` | vendor/github.com/Cray-HPE/hms-base/v2/hmstypes.go:218-226 | so is a flag, and Warning also as warn |
| `StateRules.FlagsMean` | vendor/github.com/Cray-HPE/hms-base/v2/hmstypes.go:230-235 | which flag is stored and which compared |
| `StateRules.ParsedMeans` | vendor/github.com/Cray-HPE/hms-base/v2/hmstypes.go:93-101 | what names no state or flag is normalized to nothing, all else to the name of the same one |
| `UpdateQuery.SetCompWhereQuery` | internal/hmsds/query-shared.go:729-765 | the conditions of a state update, in the order of the code |
| `UpdateQuery.SelectFindsAffected` | internal/hmsds/hmsds-postgres.go:705-738 | the text of the query that selects the components of a bulk update is read without error on every row and finds exactly the rows that may start and have not both values |
| `UpdateQuery.UpdateFindsAffected` | internal/hmsds/hmsds-tx-postgres.go:875-895 | so does the text of a checked update, with its ids as arguments and its states and flag quoted |

## Left out

- Aliasing of slices: a slice cut in place is an array of its own here (`RemoveScnUrl`,
  `RemoveValues`); that no two subscriptions share a backing array is assumed.
- Xname validation and normalization, role and software status validation, JSON and HTTP handling:
  ids are normalized when they reach the model, and requests have passed their handler's checks.
- Redfish, Vault, SLS, HBTD and SCN delivery: what they return is arbitrary, retries of a delivery
  are not modelled.
- Failed stores of a discovery's result: a claim that never stores stays unfinished in
  DiscoveryProtocol; DiscoveryService covers the failures of each store.
- Isolation anomalies of the database: transactions are serial, except that cache lookups,
  discovery and job adoption are interleaved statement by statement, and another transaction may
  come between the select of a bulk state update and the update.
- Reads of the notification index by a running SCN job without the lock: the lookup is one step.
- The squirrel library beyond `IN`, `NOT IN` and AND-joined parts: joins, GROUP BY and HAVING are
  planned as data instead of text.
- Bigint arguments with blanks or a plus sign, which the database also accepts.
- Digits of other scripts, which the check of NIDs lets through and the database refuses.
- Quoted values that are not words, where a condition is put into the text with its values: states
  and flags are words.
- The conditions of a prepared query on fields that a state update leaves empty, and its SET part.
- Which ids are parents of an id in a hardware inventory query, its ids without children, and rows
  without a partition or a type; which components a lock filter selects, which is a parameter of each lock
  request.
- Descriptions and tags of groups, their checks and updates, and fields of rows that no property
  mentions.
- Server errors in the middle of a lock request other than missing keys.
- `UpsertComponents`, Ethernet interfaces, node and power maps, boot parameters and the copying of
  hardware fields: each copies fields of a request into rows, with no rule that spans operations.
