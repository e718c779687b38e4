# NLSR-fs routing core in Dafny

This project models the routing core of NLSR-fs, the Named-data Link State
Routing daemon extended with service-function telemetry, and proves
properties of that model. It covers four parts.

- **Name advertisements** (`tlv.dfy`, `ieee.dfy`, `name_lsa_codec.dfy`,
  `name_lsa.dfy`).
  - The TLV layer of the NDN packet format: VAR-NUMBER types and lengths, and
    runs of elements.
  - The NameLsa record (module `NameAdvertisement`, class `NameLsa`). It holds
    the LSA header, the prefix list, the service-function records and the
    cached wire block.
  - Its encoder and decoder. Doubles are kept as the 8 raw bytes a `memcpy`
    copies.
  - Its `update` merge of a newer advertisement.
- **The name-prefix table** (`name_prefix_table.dfy`, module `PrefixTable`,
  class `NamePrefixTable`). This part covers:
  - the prefix entries;
  - the pool of per-origin routing entries, with their back-references;
  - the `(origin, prefix)` advertised-cost table;
  - a ghost FIB that records every `update` and `remove`;
  - `addEntry`, `removeEntry`, `updateWithNewRoute` and `updateFromLsdb`;
  - the service-function cost rule of `adjustNexthopCosts`.
- **Link-state routing** (`adj_matrix.dfy`, `shortest_path.dfy`,
  `link_state.dfy`). This part covers:
  - building and symmetrising the adjacency matrix;
  - the exchange sort and membership scan that serve as Dijkstra's queue;
  - Dijkstra's algorithm over arrays, proved to build a shortest-path tree;
  - next-hop extraction;
  - the single-path and multipath drivers.
- **The sidecar log reader** (`sidecar_log.dfy`). It covers the per-line
  key/value parser of `parseSidecarLog` and `getLatestStats`.

`ndn.dfy` holds the shared vocabulary: names, next hops, `Option`.

Where the source changes state in place, the model does too:
- `NameLsa` and `NamePrefixTable` are classes whose methods update their
  fields;
- the Dijkstra queue, costs and parents are arrays;
- the adjacency matrix is an `array2`.

Each such method is proved against a value-level function, and the
properties are lemmas about those functions. Examples:
- `AttachedTable`/`AttachedPool` for `addEntry`;
- `Decode` for `wireDecode`;
- `MergedNames`/`MergedServices` for `update`;
- `ShortestPathTree` for Dijkstra.

The main invariant of the prefix table is `NamePrefixTable.Valid`. It
says that:
- the pool holds an origin exactly when some prefix entry refers to it;
- back-references mirror RteLists;
- every entry's next hops are the merge of its origins' next hops;
- the FIB holds an entry for every prefix with next hops, and only for
  prefixes in the table, each over the same faces as the table entry. A
  FIB entry with no next hops can remain: `removeEntry` reinstalls a
  prefix that keeps other origins even when they have no next hops.

All the table's public operations keep it.

## Model

| member | source | states |
|---|---|---|
| Tlv.BigEndianRoundTrip | src/lsa/name-lsa.cpp:48-49 | The multi-byte body of a VAR-NUMBER reads back to the number written. |
| Tlv.EncodeVarNumber | src/lsa/name-lsa.cpp:48-49 | A VAR-NUMBER takes 1, 3, 5 or 9 bytes: below 253, below 2^16, below 2^32, or above. |
| Tlv.DecodeVarNumber | src/lsa/name-lsa.cpp:273-275 | A VAR-NUMBER that can be read consumes between 1 and all of the available bytes, and its value is below 2^64. |
| Tlv.VarNumberRoundTrip | src/lsa/name-lsa.cpp:48-49 | Reading an encoded VAR-NUMBER gives back the number and its length, whatever bytes follow. |
| Tlv.EncodeElement | src/lsa/name-lsa.cpp:46-49 | An encoded element is longer than its value. |
| Tlv.DecodeElement | src/lsa/name-lsa.cpp:190-192 | A decoded element consumes a non-empty prefix of the input, and it could be written again. |
| Tlv.ElementRoundTrip | src/lsa/name-lsa.cpp:40-52 | Decoding an encoded element gives back the element and its length, whatever bytes follow. |
| Tlv.ParseElements | src/lsa/name-lsa.cpp:190-208 | Every element parsed out of a block value can be written again. |
| Tlv.ElementsRoundTrip | src/lsa/name-lsa.cpp:190-208 | Parsing the concatenation of encoded elements gives back exactly those elements, in order. |
| Tlv.EncodeElementsAppend | src/lsa/name-lsa.cpp:113-158 | Encoding two runs of elements one after the other is the encoding of the joined run. |
| Ieee.Value | src/route/name-prefix-table.cpp:283-285 | A zero double is the number 0. A finite non-zero double is negative exactly when its sign bit is set. |
| Ieee.FloatEqValue | src/lsa/name-lsa.cpp:411-416 | Doubles equal under IEEE `==` stand for the same number, and the comparison is symmetric. |
| Ieee.FloatEqReflexive | src/lsa/name-lsa.cpp:411-416 | A double equals itself under IEEE `==` exactly when it is not a NaN. |
| Ieee.Constants | src/lsa/name-lsa.cpp:220-227 | The decoder's defaults are 0 (equal to -0), about 0.4 and about 0.2. |
| NameLsaCodec.ComponentElements | src/lsa/name-lsa.cpp:137 | A name is written as one element per component, with the component's type and bytes. |
| NameLsaCodec.NameElement | src/lsa/name-lsa.cpp:137 | A name is written as a writable element of type Name. |
| NameLsaCodec.DecodeName | src/lsa/name-lsa.cpp:241-243 | A decoded name has only valid components. |
| NameLsaCodec.NameRoundTrip | src/lsa/name-lsa.cpp:241-243 | Decoding the value of an encoded name gives back the name. |
| NameLsaCodec.PrefixElement | src/lsa/name-lsa.cpp:148-150 | A prefix is written as a writable PrefixInfo element. |
| NameLsaCodec.PrefixRoundTrip | src/lsa/name-lsa.cpp:209-210 | Decoding an encoded PrefixInfo gives back its name, cost and service flag. |
| NameLsaCodec.DoubleBlockRoundTrip | src/lsa/name-lsa.cpp:40-52 | A double block is the type, the length 8 and the 8 bytes of the double. It reads back to those bytes, and as a field it replaces the default. |
| NameLsaCodec.ServiceElement | src/lsa/name-lsa.cpp:125-142 | A service record is written as a writable ServiceFunction element. |
| NameLsaCodec.LittleEndian | src/lsa/name-lsa.cpp:279-282 | The raw-byte fallback for UsageCount reads a number below 256^(byte count). |
| NameLsaCodec.DecodeUsageCount | src/lsa/name-lsa.cpp:268-286 | A value that reads as a VAR-NUMBER gives it modulo 2^32. Otherwise a value of at most 4 bytes is copied little-endian, and a longer one keeps the current count. |
| NameLsaCodec.ServiceValueAsFields | src/lsa/name-lsa.cpp:128-137 | With a zero usage count, a service value is the run of fields in this order: name, UsageCount, Load, ProcessingTime, ProcessingWeight, LoadWeight, UsageWeight. |
| NameLsaCodec.ServiceFieldsApplied | src/lsa/name-lsa.cpp:220-319 | Applying those fields last-first to the defaults restores the name and every field, with the time stamp set to now. |
| NameLsaCodec.ServiceRoundTrip | src/lsa/name-lsa.cpp:212-333 | A service record with a non-empty name and a zero usage count decodes to itself, stamped with now. |
| NameLsaCodec.UnknownFieldSkipped | src/lsa/name-lsa.cpp:316-318 | A sub-element of a type the decoder does not read, inserted anywhere among the fields, leaves the applied result unchanged, failure included. |
| NameLsaCodec.UnknownSubElementSkipped | src/lsa/name-lsa.cpp:316-318 | Inserting an element of an unread type anywhere in a ServiceFunction value keeps it writable and leaves its decoding (record, skip or failure) unchanged. |
| NameLsaCodec.InServiceFields | src/lsa/name-lsa.cpp:128-137 | An element is one of a record's seven fields exactly when its type is one of the seven read types and it is the field of that type. |
| NameLsaCodec.FieldStep | src/lsa/name-lsa.cpp:238-315 | Applying one of a record's fields sets exactly the part of the draft its type selects, and never fails. |
| NameLsaCodec.FieldsAssigned | src/lsa/name-lsa.cpp:238-318 | Applying any run of a record's fields, in any order and with repeats, sets exactly the parts whose types occur in the run. |
| NameLsaCodec.FieldTypePresent | src/lsa/name-lsa.cpp:238-318 | Every read type occurs in a reordering of a record's seven fields. |
| NameLsaCodec.PermutedFieldsApplied | src/lsa/name-lsa.cpp:238-318 | The seven fields of a record with usage count 0, in any order, restore the name and the record, stamped with now. |
| NameLsaCodec.PermutedServiceRoundTrip | src/lsa/name-lsa.cpp:212-333 | A ServiceFunction value holding the seven fields of a record with a non-empty name and usage count 0, in any order, is writable and decodes to that record, stamped with now. |
| NameLsaCodec.EmptyServiceNameSkipped | src/lsa/name-lsa.cpp:321-333 | A service record whose name is empty is dropped. |
| NameLsaCodec.SwallowedLoadFails | src/lsa/name-lsa.cpp:133-134 | One fixed 10-byte opening never parses, whatever follows it: the Name of one empty type-8 component, a UsageCount of length 1, the Load header, then a 0 byte. |
| NameLsaCodec.UsageCountOneFails | src/lsa/name-lsa.cpp:133-134 | One record with usage count 1 fails to decode: the name of one empty type-8 component with the default metrics. |
| NameLsaCodec.UsageCountOneHead | src/lsa/name-lsa.cpp:128-137 | The bytes of that record begin with the name, the UsageCount type, the length 1 and then the Load element's header. |
| NameLsaCodec.SwallowedParse | src/lsa/name-lsa.cpp:128-137 | For any name and any non-zero usage count, the value parses only when the count is at most 50, the bytes of the five doubles. It then opens with the Name and a UsageCount whose value is the first `count` bytes of the doubles. |
| NameLsaCodec.SwallowedApplied | src/lsa/name-lsa.cpp:268-286 | Such a UsageCount reads its value as a VAR-NUMBER, which is the Load type byte, so a successful decode has that number as its count. |
| NameLsaCodec.UsageCountSwallows | src/lsa/name-lsa.cpp:128-286 | For any record with a non-zero usage count: a count above 50 makes the decode fail, and any decoded record has the Load type number as its count. |
| NameLsaCodec.UsageCountNeverRoundTrips | src/lsa/name-lsa.cpp:128-137 | A record whose usage count is not 0 never decodes back to itself. |
| NameAdvertisement.InsertFirst | src/lsa/name-lsa.cpp:378-382 | Inserting a prefix adds its name, leaves every other entry alone, and keeps an existing entry for that name. |
| NameAdvertisement.AbsorbAll | src/lsa/name-lsa.cpp:208-340 | The prefix list decoding builds is keyed by prefix name. |
| NameAdvertisement.FailedStays | src/lsa/name-lsa.cpp:208-210 | After an element fails to decode, later elements change nothing: decoding stops there. |
| NameAdvertisement.Decode | src/lsa/name-lsa.cpp:181-351 | Decoding caches the block. It fails with WrongType exactly when the outer type is not NameLsa. It fails with MissingLsa exactly when the block parses and has no first element, or its first element is not an Lsa. It fails with Malformed exactly when the block does not parse, or when an element after the Lsa header fails to decode. On any failure the prefix list is unchanged; on a type failure the service records are too. The result stays keyed. |
| NameAdvertisement.IgnoredAbsorbed | src/lsa/name-lsa.cpp:335-338 | A skipped element, anywhere in the element run, changes neither the prefix list, the service records nor the failure. |
| NameAdvertisement.IgnoredInserted | src/lsa/name-lsa.cpp:335-338 | An element that is neither a PrefixInfo nor a ServiceFunction, inserted anywhere after the header, rebuilds the same prefixes and services with the same failure. |
| NameAdvertisement.UnknownElementSkipped | src/lsa/name-lsa.cpp:335-338 | A block with such an element inserted anywhere after the Lsa header decodes to the same header, prefixes, services and error; only the cached block differs. |
| NameAdvertisement.EncodeRecord | src/lsa/name-lsa.cpp:109-159 | An encoded record is a NameLsa block. |
| NameAdvertisement.PrefixRunAbsorbed | src/lsa/name-lsa.cpp:209-210 | Decoding the encoded prefixes of a list rebuilds exactly that list, with no service records. |
| NameAdvertisement.ServiceRunAbsorbed | src/lsa/name-lsa.cpp:212-333 | Decoding the encoded service records adds exactly those records, each stamped with now. |
| NameAdvertisement.DecodeElementsBlock | src/lsa/name-lsa.cpp:194-203 | A block of an Lsa header and elements decodes to that header and to what the elements rebuild, without error. |
| NameAdvertisement.DecodeRoundTrip | src/lsa/name-lsa.cpp:109-351 | Decoding an encoded record gives back its header, its prefix list and its service records (stamped with now), in any iteration order, when every usage count is 0 and every service name is non-empty. |
| NameAdvertisement.MergedNamesSplit | src/lsa/name-lsa.cpp:371-392 | The added names are new and the removed names were present. The merged list is the old list minus the removed names plus the added ones, and it stays keyed. |
| NameAdvertisement.UnchangedMerge | src/lsa/name-lsa.cpp:365-447 | With nothing to add, nothing to remove and no service change, the merge changes nothing. |
| NameAdvertisement.MergeTwice | src/lsa/name-lsa.cpp:365-447 | Merging the same advertisement twice changes nothing the second time, unless an incoming double is a NaN. |
| NameAdvertisement.NaNAlwaysChanges | src/lsa/name-lsa.cpp:411-416 | An incoming record with a NaN processing time always counts as changed, even against the merge's own result. |
| NameAdvertisement.MergeAddRemove | src/lsa/name-lsa.cpp:378-392 | Adding the new names and then removing the stale ones, in that order, gives the merged list. |
| NameAdvertisement.NameLsa.constructor | src/lsa/name-lsa.cpp:58-66 | A new record holds the header and the prefixes, no service records and no cached block. |
| NameAdvertisement.NameLsa.SetServiceFunctionInfo | src/lsa/name-lsa.cpp:73-78 | The record for the name is set and the cached block is dropped. Nothing else changes. |
| NameLsaCodec.ServiceInfoFor | src/lsa/name-lsa.cpp:94-106 | A lookup gives the stored record for a present name and the value-initialised record `UNSET_INFO` for a missing one. |
| NameAdvertisement.NameLsa.GetServiceFunctionInfo | src/lsa/name-lsa.cpp:80-107 | The stored record for the name, or the value-initialised record `UNSET_INFO` when there is none. |
| NameAdvertisement.NameLsa.AddName | src/lsa/name-lsa.cpp:378-382 | The prefix is inserted (an existing entry for its name stays) and the cached block is dropped. |
| NameAdvertisement.NameLsa.RemoveName | src/lsa/name-lsa.cpp:388-392 | The prefix's name is removed and the cached block is dropped. |
| NameAdvertisement.NameLsa.WireEncode | src/lsa/name-lsa.cpp:163-179 | A cached block is returned as is. Otherwise the record is encoded in some enumeration of its prefixes and services, and the result is cached. |
| NameAdvertisement.EncodeBlock | src/lsa/name-lsa.cpp:109-159 | The block holds the header element, then every prefix, then every service record, each map in some enumeration of its keys, under the Name LSA type. |
| NameAdvertisement.NameLsa.WireDecode | src/lsa/name-lsa.cpp:181-351 | The new state and the error are those of `Decode` on the old state. |
| NameAdvertisement.NameLsa.AbsorbElements | src/lsa/name-lsa.cpp:208-339 | The element loop leaves the prefixes and service records that the elements rebuild. |
| NameAdvertisement.NameLsa.AbsorbElement | src/lsa/name-lsa.cpp:209-338 | One element is absorbed as a PrefixInfo, as a ServiceFunction, or skipped. |
| NameAdvertisement.NameLsa.AddNewNames | src/lsa/name-lsa.cpp:376-382 | Returns the incoming names not yet present and adds them. The cached block is dropped when there were any. |
| NameAdvertisement.NameLsa.RemoveStaleNames | src/lsa/name-lsa.cpp:384-392 | Returns the present names the incoming list lacks and removes them. The cached block is dropped when there were any. |
| NameAdvertisement.NameLsa.MergeServices | src/lsa/name-lsa.cpp:398-444 | The service records become their merge with the incoming ones, and the result says whether any was added, replaced or erased. |
| NameAdvertisement.NameLsa.MergeIncomingServices | src/lsa/name-lsa.cpp:398-426 | An incoming record that is new or differs in one of the six compared fields replaces the current one. The time stamp is not compared. The result says whether any did. |
| NameAdvertisement.NameLsa.EraseMissingServices | src/lsa/name-lsa.cpp:432-444 | Every record the incoming map lacks is erased, and the result says whether any was. (The caller skips this step for an empty incoming map.) |
| NameAdvertisement.NameLsa.Update | src/lsa/name-lsa.cpp:365-448 | Returns the added and removed names. The prefix list becomes the merged list and the service records the merged records. The header is kept. The result is true exactly when names or services changed. The cached block is dropped only when names change: after a change to the service records alone, a later `WireEncode` returns the block from before the update. |
| NameAdvertisement.EncodeServices | src/lsa/name-lsa.cpp:117-145 | The service loop writes the encoding of every service record, in some order of their names. |
| NameAdvertisement.EncodePrefixes | src/lsa/name-lsa.cpp:148-150 | The prefix loop writes the encoding of every prefix, in some order of their names. |
| NameAdvertisement.PrependService | src/lsa/name-lsa.cpp:125-142 | The prepends of one service record produce exactly its ServiceFunction element. |
| AdjMatrix.MakeAdjMatrix | src/route/routing-calculator-link-state.cpp:104-169 | The matrix is fresh and N×N. Every cell holds the corrected cost of its pair, and the matrix is symmetric. |
| AdjMatrix.LastWriteIsLast | src/route/routing-calculator-link-state.cpp:116-131 | A cell is set only by an adjacency that maps into the matrix, and the last such adjacency wins. |
| AdjMatrix.UnsetRawCost | src/route/routing-calculator-link-state.cpp:112 | A cell no adjacency sets keeps NON_ADJACENT_COST. |
| AdjMatrix.SetRawCost | src/route/routing-calculator-link-state.cpp:126-129 | A cell that some adjacency sets holds the link cost of one of the adjacencies that set it. |
| AdjMatrix.UnsetCellIsNonAdjacent | src/route/routing-calculator-link-state.cpp:144-166 | An unset cell stays NON_ADJACENT_COST after correction. |
| AdjMatrix.CorrectedPair | src/route/routing-calculator-link-state.cpp:144-166 | Correction makes the pair symmetric. Equal costs stay. Unequal non-negative costs become the larger. Unequal costs with a negative side become NON_ADJACENT_COST. |
| AdjMatrix.GatherLinks | src/route/routing-calculator-link-state.cpp:203-219 | Lists, in increasing index order, exactly the other routers whose cost from the source is at least 0, each with that cost. |
| AdjMatrix.SimulateOneNeighbor | src/route/routing-calculator-link-state.cpp:224-237 | Only the source row changes. It keeps the link's cost at the link's index and NON_ADJACENT_COST everywhere else. |
| ShortestPath.WeightNonNegative | src/route/routing-calculator-link-state.cpp:323 | A path over edges of non-negative cost has non-negative weight. |
| ShortestPath.WeightPrefix | src/route/routing-calculator-link-state.cpp:323 | A prefix of a path is a path and weighs no more. |
| ShortestPath.Exchange | src/route/routing-calculator-link-state.cpp:177 | The two slots trade their values and every other slot keeps its own. |
| ShortestPath.PlaceLeast | src/route/routing-calculator-link-state.cpp:175-179 | One pass of the inner loop leaves the sorted part one longer and permutes the tail. |
| ShortestPath.SortQueueByDistance | src/route/routing-calculator-link-state.cpp:172-181 | The prefix before start is unchanged. The tail is a permutation of itself, sorted by total cost. |
| ShortestPath.IsNotExplored | src/route/routing-calculator-link-state.cpp:184-192 | True exactly when u occurs in the queue from start on. |
| ShortestPath.QueueMembership | src/route/routing-calculator-link-state.cpp:323 | When the queue's tail holds the unexplored routers, scanning the tail finds exactly those. |
| ShortestPath.HeadIsLeast | src/route/routing-calculator-link-state.cpp:316-317 | After sorting, the head of the tail is an unexplored router of least total cost. |
| ShortestPath.RelaxNeighbors | src/route/routing-calculator-link-state.cpp:322-331 | Every unexplored neighbour reachable through u more cheaply takes that cost and parent u. No other cost or parent changes. |
| ShortestPath.InitQueue | src/route/routing-calculator-link-state.cpp:305-311 | The queue holds 0..N-1 in order. |
| ShortestPath.InitialInv | src/route/routing-calculator-link-state.cpp:303-311 | The initial costs, parents and queue satisfy the loop invariant. |
| ShortestPath.ExploreStep | src/route/routing-calculator-link-state.cpp:315-333 | Exploring a least-cost unexplored router and relaxing its neighbours keeps the loop invariant. |
| ShortestPath.ExploreRound | src/route/routing-calculator-link-state.cpp:316-332 | One round sorts the queue, takes the head and either stops (every unexplored cost at least INF_DISTANCE) or relaxes and keeps the invariant. |
| ShortestPath.LoopExit | src/route/routing-calculator-link-state.cpp:315-320 | When the loop ends, every path from the source is no cheaper than its end's cost. This holds when the path is finite or the sentinel never appears. |
| ShortestPath.ExploreAll | src/route/routing-calculator-link-state.cpp:314-333 | The main loop leaves a shortest-path tree whose costs are optimal. |
| ShortestPath.CalculateDijkstraPath | src/route/routing-calculator-link-state.cpp:299-336 | The result is a shortest-path tree from the source over edges of cost at least 0. Every reached cost is at most the weight of every path to that router. |
| ShortestPath.TreeIsRanked | src/route/routing-calculator-link-state.cpp:270-277 | Parent chains of the tree terminate. |
| ShortestPath.TreePath | src/route/routing-calculator-link-state.cpp:270-277 | The parent chain of u, root first, ends at u and stays in range. |
| ShortestPath.NextHopOnTreePath | src/route/routing-calculator-link-state.cpp:268-278 | The next hop is the second router of u's tree path when that path starts at the source, else NO_NEXT_HOP. |
| ShortestPath.GetNextHop | src/route/routing-calculator-link-state.cpp:268-278 | The parent-chain walk returns that next hop. |
| ShortestPath.TreePathWeight | src/route/routing-calculator-link-state.cpp:324-328 | A router's link cost is the cost at its path's root plus the path's weight. Its function cost is the root's. |
| ShortestPath.CostIsTreePathWeight | src/route/routing-calculator-link-state.cpp:308 | For a router reached from the source, the function cost stays 0 and the total cost is the weight of its tree path. |
| LinkState.RouterName | src/route/routing-calculator-link-state.cpp:358-366 | A router name exists exactly for a mapped index, and it is that index's name. |
| LinkState.FindAdjacent | src/route/routing-calculator-link-state.cpp:369-372 | The first adjacency with the name, or none when no adjacency has it. |
| LinkState.AddNextHop | src/route/routing-calculator-link-state.cpp:374-375 | Adds the next hop to the destination's set, creating it if needed. Other destinations are unchanged. |
| LinkState.Routes | src/route/routing-calculator-link-state.cpp:347-376 | One optional route per router index, as the loop computes it. |
| LinkState.AddAllContents | src/route/routing-calculator-link-state.cpp:347-376 | After adding the routes, a destination and next hop are in the table exactly when they were before or some route adds them. |
| LinkState.AddNextHopsToRoutingTable | src/route/routing-calculator-link-state.cpp:341-377 | The table gains exactly the routes of the Dijkstra result. |
| LinkState.RouteFollowsTree | src/route/routing-calculator-link-state.cpp:347-376 | A route exists exactly for a mapped non-source router whose tree path starts at the source and whose first hop is a mapped adjacent router. The route goes through that adjacency's face, costs the path's weight, and that cost is optimal. |
| LinkState.MaskedRouteUsesLink | src/route/routing-calculator-link-state.cpp:406-414 | On a matrix masked to one link of the source, every route's tree path runs from the source straight to that link's router, and the route goes through the face of that router's adjacency. |
| LinkState.AddRunsContents | src/route/routing-calculator-link-state.cpp:403-415 | After adding several runs' routes, every next hop was in the table already or is the route of one run to one destination. |
| LinkState.MultipathFaces | src/route/routing-calculator-link-state.cpp:403-415 | In multipath mode every run's routes use its own link's face, so every next hop added uses the face of one gathered link. |
| LinkState.RunAndAdd | src/route/routing-calculator-link-state.cpp:398-400 | One Dijkstra run over the matrix, and its routes added. |
| LinkState.RunOnLink | src/route/routing-calculator-link-state.cpp:406-414 | One multipath step: the matrix is masked to the link, then Dijkstra runs and its routes are added. Rows other than the source's keep the corrected costs. |
| LinkState.RunPerLink | src/route/routing-calculator-link-state.cpp:403-415 | The multipath loop runs Dijkstra once per gathered link, on the matrix masked to that link, and adds every run's routes. Every next hop it adds goes through the face of one gathered link. |
| LinkState.CalculateLinkStateRoutingPath | src/route/routing-calculator-link-state.cpp:381-416 | Nothing changes without a source. In single-path mode, one run on the adjacency matrix. Otherwise one run per link of the source, each masked to that link, and every added next hop goes through the face of one of those links. |
| SidecarLog.FirstNonBlank | src/publisher/sidecar-stats-handler.cpp:205 | The first character that is not a space or tab, or the length when there is none. |
| SidecarLog.EndOfNonBlank | src/publisher/sidecar-stats-handler.cpp:206 | The end of the last character that is not a space or tab. |
| SidecarLog.TrimSpec | src/publisher/sidecar-stats-handler.cpp:205-206 | The trimmed line is the slice between the leading and trailing blanks. It is empty exactly when the line is all blanks, and otherwise neither starts nor ends with a blank. |
| SidecarLog.StripBraces | src/publisher/sidecar-stats-handler.cpp:207-209 | Drops the outer braces only when the text both starts with `{` and ends with `}`. |
| SidecarLog.IndexOf | src/publisher/sidecar-stats-handler.cpp:215 | A position is at most the length, and a position before the end holds the character. |
| SidecarLog.IndexOfFirst | src/publisher/sidecar-stats-handler.cpp:215 | The character does not occur before that position: it is the first occurrence, and the length means it is absent. |
| SidecarLog.GetlineSplitNoComma | src/publisher/sidecar-stats-handler.cpp:214 | No piece getline yields holds a comma. |
| SidecarLog.SplitJoin | src/publisher/sidecar-stats-handler.cpp:212-214 | Without a trailing comma, joining the pieces with commas gives back the text. |
| SidecarLog.Unquote | src/publisher/sidecar-stats-handler.cpp:221-226 | Drops the quotes only when the text both starts and ends with `"`. A lone `"` becomes empty. |
| SidecarLog.KeyValue | src/publisher/sidecar-stats-handler.cpp:215-226 | A segment yields a pair exactly when it holds a colon. |
| SidecarLog.KeyValueAtFirstColon | src/publisher/sidecar-stats-handler.cpp:215-226 | For a segment with a colon, the key is the unquoted text before the first colon and the value is the unquoted rest, further colons included. |
| SidecarLog.InsertAt | src/publisher/sidecar-stats-handler.cpp:215-228 | A segment with a colon sets its key to its value in the entry. |
| SidecarLog.AddPairsKeys | src/publisher/sidecar-stats-handler.cpp:214-230 | A key is in the entry exactly when some segment gives it or it was there. An untouched key keeps its value. |
| SidecarLog.AddPairsLastWins | src/publisher/sidecar-stats-handler.cpp:228 | A repeated key keeps the value of its last segment. |
| SidecarLog.ParseLine | src/publisher/sidecar-stats-handler.cpp:202-231 | The per-line parser yields exactly the line's entry. |
| SidecarLog.LineEntryEmpty | src/publisher/sidecar-stats-handler.cpp:232-234 | A line yields an empty entry exactly when none of its pieces holds a colon. |
| SidecarLog.ParseSidecarLog | src/publisher/sidecar-stats-handler.cpp:198-239 | The line loop yields exactly the entries of the lines that yield pairs, in order. |
| SidecarLog.LogEntriesShape | src/publisher/sidecar-stats-handler.cpp:232-234 | There are no more entries than lines, and no entry is empty. |
| SidecarLog.LatestIsLastYieldingLine | src/publisher/sidecar-stats-handler.cpp:250-261 | The latest stats are the entry of the last line that yields pairs. |
| SidecarLog.LatestWhenNoLineYields | src/publisher/sidecar-stats-handler.cpp:255-257 | When no line yields a pair, there are no entries and the result is the "No log entries found" error map. |
| PrefixTable.LsaPrefixes | src/route/name-prefix-table.cpp:89-92 | Only a Name LSA contributes prefixes. |
| PrefixTable.PoolIffReferenced | src/route/name-prefix-table.cpp:443-444 | Under the link invariant, the pool holds an origin exactly when some prefix entry refers to it. |
| PrefixTable.UseCountIsReferrers | src/route/name-prefix-table.cpp:473-475 | A pool entry's use count is the number of prefix entries that refer to it, and it is positive. |
| PrefixTable.AttachUseCount | src/route/name-prefix-table.cpp:443-444 | addEntry raises the origin's use count by one exactly when the prefix did not yet refer to it. |
| PrefixTable.AttachLinked | src/route/name-prefix-table.cpp:362-445 | addEntry keeps the links. Afterwards the table holds the name once, referring to the origin, and the pool holds the origin, back-referencing the name. |
| PrefixTable.AttachSynced | src/route/name-prefix-table.cpp:401-440 | After addEntry, the added entry's next hops are current too. |
| PrefixTable.DetachLinked | src/route/name-prefix-table.cpp:447-509 | removeEntry keeps the links. The entry stays exactly when it has other origins, and then no longer refers to this one. The origin stays pooled exactly when another prefix still refers to it. |
| PrefixTable.DetachSynced | src/route/name-prefix-table.cpp:497-502 | After removeEntry, every remaining entry's next hops are current. |
| PrefixTable.AttachHops | src/route/name-prefix-table.cpp:370-397 | addEntry keeps every pooled origin with its next hops; a new origin takes its route's next hops, or none without a route. |
| PrefixTable.DetachHops | src/route/name-prefix-table.cpp:465-476 | removeEntry only deletes pool entries: every origin still pooled keeps its next hops. |
| PrefixTable.DetachUseCount | src/route/name-prefix-table.cpp:473-475 | removeEntry lowers a still-pooled origin's use count by one. |
| PrefixTable.IsServiceFunction | src/route/name-prefix-table.cpp:187-211 | True exactly when some contributing origin's Name LSA flags the prefix as a service function. |
| PrefixTable.WeightedSum | src/route/name-prefix-table.cpp:283-285 | The weighted telemetry is non-negative when all its terms are. |
| PrefixTable.FunctionCost | src/route/name-prefix-table.cpp:227-300 | functionCost is 0 without a Name LSA, without a record for the prefix (the lookup then gives `UNSET_INFO`), for a stale record (older than twice the window, wrapped to 32 bits) and for a record without metrics. |
| PrefixTable.FunctionCostNonnegative | src/route/name-prefix-table.cpp:283-285 | With non-negative telemetry and weights, functionCost is not negative. |
| PrefixTable.TouchedReads | src/route/name-prefix-table.cpp:305 | Reading the cost table with `[]` inserts 0 for a missing key and changes no value that is read. |
| PrefixTable.ResolveOrigin | src/route/name-prefix-table.cpp:302-342 | One origin's next hops each get a `(face, origin)` entry holding one of that origin's hops, adjusted by its advertised cost plus functionCost. The cost table gains the looked-up key. |
| PrefixTable.ResolveNext | src/route/name-prefix-table.cpp:222-343 | Processing one more origin keeps the map's resolution invariant. |
| PrefixTable.AdjustNexthopCosts | src/route/name-prefix-table.cpp:182-360 | Returns the input for a prefix no origin flags as a service. Otherwise returns the values of a map with one adjusted hop per `(face, origin)` of the origins' next hops, and the cost table gains 0 for each key looked up. |
| PrefixTable.ResolvedFaces | src/route/name-prefix-table.cpp:345-355 | The adjusted list uses exactly the faces of the merged next hops. |
| PrefixTable.ResolvedUnique | src/route/name-prefix-table.cpp:318-350 | When an origin has one hop per face, every `(face, origin)` entry holds that hop, adjusted. The same face through two origins stays as two entries. |
| PrefixTable.AdjustedFaces | src/route/name-prefix-table.cpp:345-355 | Whatever adjustNexthopCosts returns for an entry uses exactly the faces of the entry's next hops. |
| PrefixTable.TouchedGrows | src/route/name-prefix-table.cpp:305 | The lookups only add zero-cost keys, all for the prefix through its origins. |
| PrefixTable.FindRoute | src/route/name-prefix-table.cpp:519-522 | Finds a route for the destination exactly when one exists, and returns one of them. |
| PrefixTable.RehopSynced | src/route/name-prefix-table.cpp:527 | Giving a pool entry new next hops leaves stale only the entries that back-reference it. |
| PrefixTable.AttachExisting | src/route/name-prefix-table.cpp:425-430 | Re-adding a prefix that already refers to the origin leaves the pool alone and only recomputes the entry's next hops. |
| PrefixTable.AttachValid | src/route/name-prefix-table.cpp:362-445 | addEntry, followed by the FIB update or remove, keeps the links, the next hops and the FIB in step. |
| PrefixTable.DetachValid | src/route/name-prefix-table.cpp:447-509 | removeEntry, followed by the FIB remove or update, keeps the links, the next hops and the FIB in step. |
| PrefixTable.Rerouted | src/route/name-prefix-table.cpp:517-545 | updateWithNewRoute keeps the pool's origins. |
| PrefixTable.UnchangedRoute | src/route/name-prefix-table.cpp:541-544 | An origin whose new route has the same next hops is left as it was. |
| PrefixTable.RefreshWantedIffRecords | src/route/name-prefix-table.cpp:121-135 | The refresh test holds exactly when the origin has any service record, metrics or not. |
| PrefixTable.HasServiceInfo | src/route/name-prefix-table.cpp:121-131 | True exactly when some service record of the origin has a positive processing time or load, or a non-zero usage count. |
| PrefixTable.WithoutOrigin | src/route/name-prefix-table.cpp:161-179 | Removing names for an origin never adds prefixes. |
| PrefixTable.AttachShape | src/route/name-prefix-table.cpp:362-445 | After addEntry(name, r), the name is present and refers to r. Nothing else changes shape. |
| PrefixTable.DetachShape | src/route/name-prefix-table.cpp:447-509 | After removeEntry(name, r), the name no longer refers to r, and it is gone if r was its only origin. |
| PrefixTable.SkipShape | src/route/name-prefix-table.cpp:457-462 | removeEntry for an unpooled origin or a missing name changes nothing. |
| PrefixTable.AdvertisedCosts | src/route/name-prefix-table.cpp:92-96 | The costs recorded for an origin are keyed by exactly its non-own prefixes. |
| PrefixTable.AdvertisedCostsLast | src/route/name-prefix-table.cpp:154-158 | A prefix listed more than once records the cost of its last listing. |
| PrefixTable.NamePrefixTable.constructor | src/route/name-prefix-table.cpp:39-40 | A new table is empty, with an empty pool, cost table and FIB. |
| PrefixTable.NamePrefixTable.AddRtpeToPool | src/route/name-prefix-table.cpp:551-557 | An absent origin is added with the given next hops and no referrers. A present one is kept. |
| PrefixTable.NamePrefixTable.DeleteRtpeFromPool | src/route/name-prefix-table.cpp:565-573 | The origin is removed from the pool and nothing else changes. |
| PrefixTable.NamePrefixTable.AdjustEntry | src/route/name-prefix-table.cpp:412 | The entry's next hops are adjusted for the FIB. Costs only gain zero-cost keys for this prefix. |
| PrefixTable.NamePrefixTable.UpdateFib | src/route/name-prefix-table.cpp:409-413 | The FIB entry for the name becomes its adjusted next hops, over the same faces. Only that FIB entry changes. |
| PrefixTable.NamePrefixTable.ReferToRtpe | src/route/name-prefix-table.cpp:370-397 | The pool gains the origin (from the routing table's route, or empty) and the name as its back-reference. |
| PrefixTable.NamePrefixTable.AddEntry | src/route/name-prefix-table.cpp:362-445 | The table and pool become the attached ones. The FIB gets the adjusted hops when there are next hops, else the name is removed from it. The invariants are kept. |
| PrefixTable.NamePrefixTable.RemoveRoutingTableEntry | src/route/name-prefix-table.cpp:473-475 | Drops the back-reference and deletes the pool entry at use count 0. Returns the entry's remaining origins. |
| PrefixTable.NamePrefixTable.RemoveEntry | src/route/name-prefix-table.cpp:447-509 | Without the origin in the pool or the name in the table, nothing changes. Otherwise table and pool become the detached ones. A name left without origins is erased from the FIB; otherwise its FIB entry is reinstalled adjusted. The invariant is kept. |
| PrefixTable.NamePrefixTable.DetachEntry | src/route/name-prefix-table.cpp:464-503 | The found-entry branch of removeEntry, with the same outcome. |
| PrefixTable.NamePrefixTable.Reinstall | src/route/name-prefix-table.cpp:491-503 | With no origins left, the name leaves the table and the FIB. Otherwise the entry takes the merged hops and the FIB takes them adjusted. |
| PrefixTable.NamePrefixTable.ReAddReferrers | src/route/name-prefix-table.cpp:528-531 | Re-adding every referrer of an origin recomputes their next hops and FIB entries. No other entry changes. |
| PrefixTable.NamePrefixTable.RerouteOrigin | src/route/name-prefix-table.cpp:518-544 | One pool entry takes its new route's hops (none without a route). Its referrers are re-added only when that changed them. |
| PrefixTable.NamePrefixTable.UpdateWithNewRoute | src/route/name-prefix-table.cpp:511-546 | Every origin takes its new route's hops or none. The set of prefixes and their origins is unchanged. Entries with no changed origin keep their FIB entries; the others get their FIB entries recomputed. |
| PrefixTable.NamePrefixTable.RegenerateEntry | src/route/name-prefix-table.cpp:144 | Regenerating the next hops of a current entry changes nothing. |
| PrefixTable.NamePrefixTable.RefreshOne | src/route/name-prefix-table.cpp:141-148 | One refreshed entry's FIB entry is recomputed, and the invariants are kept. |
| PrefixTable.NamePrefixTable.RefreshReferrers | src/route/name-prefix-table.cpp:138-151 | Every entry that refers to the origin and has next hops gets its FIB entry recomputed. Every other FIB entry, the table and the pool are unchanged. |
| PrefixTable.NamePrefixTable.AddAdvertisedOne | src/route/name-prefix-table.cpp:155-158 | One non-own prefix records its cost and is attached to the origin. Pooled origins keep their next hops, and a newly pooled origin takes its route's next hops or none. |
| PrefixTable.NamePrefixTable.AddAdvertised | src/route/name-prefix-table.cpp:154-159 | Every non-own prefix comes to refer to the origin, and the cost table gains their advertised costs. No origin leaves the pool; pooled origins keep their next hops, and new ones take their route's next hops or none. |
| PrefixTable.NamePrefixTable.RemoveAdvertisedOne | src/route/name-prefix-table.cpp:162-165 | One non-own prefix erases its cost and is detached from the origin. Every origin still pooled was pooled before, with the same next hops. |
| PrefixTable.NamePrefixTable.RemoveAdvertised | src/route/name-prefix-table.cpp:161-166 | Every non-own prefix stops referring to the origin (and goes if it had no other), and its cost key is erased. Every origin still pooled was pooled before, with the same next hops. |
| PrefixTable.NamePrefixTable.RefreshIfServices | src/route/name-prefix-table.cpp:118-152 | The refresh runs exactly when the origin has any service record. It recomputes the FIB entries of the origin's referrers with next hops and nothing else. |
| PrefixTable.NamePrefixTable.InstallLsa | src/route/name-prefix-table.cpp:85-98 | The origin and every non-own advertised prefix come to refer to the origin, and the advertised costs are recorded. No origin leaves the pool; pooled origins keep their next hops, and new ones take their route's next hops or none. |
| PrefixTable.NamePrefixTable.UpdateLsa | src/route/name-prefix-table.cpp:100-167 | The added names come to refer to the origin, with their costs. Then the removed names stop referring to it, and their costs are erased. Every pooled origin has the next hops it had before, or, if newly pooled, its route's next hops or none. |
| PrefixTable.NamePrefixTable.RemoveLsa | src/route/name-prefix-table.cpp:168-179 | The origin and every non-own advertised prefix stop referring to the origin, and their costs are erased. Every origin still pooled was pooled before, with the same next hops. |
| PrefixTable.NamePrefixTable.UpdateFromLsdb | src/route/name-prefix-table.cpp:69-180 | An own LSA changes nothing. So does an UPDATED LSA that is not a Name LSA or is not in the LSDB. INSTALLED, UPDATED and REMOVED have the shapes, costs and pool next hops above, and the invariant is kept throughout. |

## Left out

- Floating point arithmetic. Costs, weights and telemetry values are real
  numbers. The codec and the merge comparison keep doubles as their 8 raw
  bytes, and an infinity or NaN counts as the number 0 where a cost is
  computed. Rounding is not modelled.
- Clock. Time is whole seconds, and the current time is a parameter
  (`now`) wherever `system_clock::now()` is read.
- Collaborators. The LSDB is a map from origin to Name LSA state. The
  routing table is a map from destination to next hops, and the FIB is a
  ghost map from prefix to next hops. `NexthopList` is a set of next hops;
  two next hops are equal when face and cost are equal.
- Pool ownership. The pool's `shared_ptr`/`weak_ptr` ownership is a map
  from origin to pool entry with a set of back-referenced prefix names. The
  use count is the number of back-references. A null `weak_ptr::lock()`
  cannot arise under `Valid`.
- `erase(find(...))` on a missing cost key in `updateFromLsdb` is undefined
  behaviour in C++. It is a precondition here (`ErasableFrom`): each removed
  non-own prefix has a recorded cost and is listed once.
- `front()`/`back()` on an empty string in the sidecar parser are
  preconditions (`LineWellFormed`). File opening and the `getline` loop
  over the file are left out; the log is a sequence of lines.
- Iteration order. The order in which pool entries, prefix entries, origins
  and service records are visited is left open (sets and maps). The
  encoder's prefix and service order is a ghost enumeration.
- The order of back-references in `addEntry` is not modelled.
- NameLsaCodec.SwallowedLoadFails, NameLsaCodec.UsageCountOneFails: each
  covers one fixed input. Another record with usage count 1 can decode
  (with count 202) when its swallowed load bytes parse again. The general
  statement is UsageCountSwallows and UsageCountNeverRoundTrips.
- PrefixTable.ResolveOrigin, PrefixTable.AdjustNexthopCosts: when an
  origin has several hops on one face, the contracts say only that the
  `(face, origin)` entry holds "one of that origin's hops, adjusted", not
  which one the map keeps.
- name-lsa.hpp, tlv-nlsr.hpp and the ndn-cxx `Name`, `Block` and
  `PrefixInfo` codecs are not part of this model. The NLSR TLV type numbers
  are chosen constants, distinct and each one byte long. Only their
  distinctness matters, except for what a non-zero usage count decodes to.
  That depends on the Load type's value, and whether the decode fails
  depends on the load bytes. With these constants a decoded record always
  gets the count 202, the Load type (UsageCountSwallows). A PrefixInfo
  uses a stand-in layout, and the common LSA header is opaque bytes.
  `UNSET_INFO`, the value-initialised record, is all zeros with the
  earliest time stamp.
- Logging, `print`, `writeLog` and the `operator<<` printers are left out.
  So are the signal wiring in the table's constructor and destructor, the
  unused `calculateCombinedCost`, hyperbolic routing and the stats
  publishers.
- PrefixTable.NamePrefixTable.AddAdvertisedOne, AddAdvertised,
  RemoveAdvertisedOne, RemoveAdvertised, InstallLsa, UpdateLsa, RemoveLsa:
  state the new table shape, the cost table, the pool's next hops and
  `Valid`. Together these fix every entry's next hops and keep the FIB on
  the same faces. They do not restate each touched prefix's adjusted FIB
  value, nor whether a prefix left without next hops is dropped from the
  FIB. `AddEntry` and `RemoveEntry` state both, call by call.
- PrefixTable.NamePrefixTable.UpdateFromLsdb: in the UPDATED case it does
  not restate the refresh's FIB effects. `RefreshIfServices` states them.
