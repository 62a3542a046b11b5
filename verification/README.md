# A verified model of the KadRTT distributed hash table

This project models the stateful cores of a Kademlia DHT with round-trip-time ("KadRTT") extensions and proves
what they keep over whole runs.

- **Routing table** (`Keyspace`, `Sorting`, `TableModel`, `TableProofs`, `TableSteps`, `Nearest`, `Buckets`, `KadRtt`,
  `Bookkeeping`, `Outcomes`, `RoutingTables`, `NearestQueries`, `TableRuns`, `TableCalls`, `Witnesses`): the k-bucket table over the XOR key space (Maymounkov and
  Mazières, "Kademlia: A Peer-to-peer Information System Based on the XOR Metric", sections 2.1, 2.2 and 2.4).
  `TableModel` gives the meaning of each operation on a table as a value; the classes `Bucket` and `RoutingTable`
  carry the operations out in place, and each method is proved to compute its value-level operation. `Bookkeeping` adds
  the notifications sent and the peers the diversity filter tracks, `Outcomes` says exactly when an add succeeds, `TableRuns` whole runs of both, and `Witnesses` concrete
  runs in which a property fails.
- **Diversity filter** (`GroupCounters`, `DiversityFilter`): group counters and the filter that maintains them.
- **Iterative lookup** (`QueryPeersets`, `Lookup`, `LookupProofs`, `Queries`): the coordinator, its workers and their
  channel as a step relation, and the coordinator's code as a class (section 2.3 of the same paper).
- **Provider store** (`ProviderStore`, `ProviderRuns`, `ProviderManagers`): a write-through cache over a datastore with an
  incremental garbage collection.
- **Wire codec** (`WireFormat`, `Messages`, `UnknownFields`, `WireCodec`): the back-to-front printer and the forward parser of the DHT's
  messages (Protocol Buffers Encoding guide, "Base 128 Varints" and "Length-Delimited Records").
- **Smaller protocols**: `PrefixMap` (identifiers for a wanted common prefix length), `Staging` (gradual start), `BestValue`
  (choice among received values). `Collections` and `Wrappers` hold what several modules share.

Conventions. SHA-256 is a function from peers to identifiers of the local identifier's length that is injective on the
finite set of peers of the network; the bucket size is at least two. Whether KadRTT is on is a field of the table's
configuration. Clocks, latencies, diversity addresses, tuning formulas, trim scores and answers of the datastore are
parameters. Every lemma that takes parameters turns Dafny's automatic induction off, so that each proof is the body one
reads.

Findings where the code does not do what one might expect, each with its exact condition:

- Under KadRTT `Find` can miss a peer that is in the table: it finds a peer for every order of equally fast peers exactly
  if that peer is strictly the fastest collected one, and for some order exactly if none is faster
  (`NearestQueries.FindUnderKadRtt`; a reachable table on which it fails: `Witnesses.FindMisses`).
- A KadRTT add leaves the notifications in agreement with the table exactly if it trims nobody, and the filter exactly if
  it survives: everybody else trimmed is whitelisted, and so is the newcomer if it is exchanged in, or refused after being
  trimmed (`Bookkeeping.KadAgreesIff`, over runs `TableRuns.RunEventsIff` and `TableRuns.RunFilterIff`; reachable tables on
  which they fail: `Witnesses.ExchangeForgets`, `Witnesses.TrimForgets`). A successful exchange is reported as lack of
  capacity.
- The limit per common prefix length is kept exactly if it is positive or the table limit is zero
  (`DiversityFilter.CplLimitIff`).
- A lookup that ended because its closest beta peers are queried is reported as completed under KadRTT exactly if the
  further peers up to the bucket's beta are queried too (`Queries.NormalEndIff`, `Queries.EndedIncomplete`).
- After tuning, a bucket's beta is always the bucket size, because the raw beta is the pool size (`TableModel.Tune`).
- The peer-picking loop treats a limit below one as no limit. Whenever peers are started the limit is at least one
  (`LookupProofs.SpawnLimitPositive`); a cancelled turn can reach the loop with a limit of zero and then picks every heard
  peer, but starts none (`LookupProofs.CancelledLimit`).
- The choice of the best value would go wrong if a nil value were preferred to a real one received before it
  (`BestValue.SoundIffDominated`, `BestValue.NilCanWin`). Such a stream lies outside what the search sends, where only the
  first value can be nil, and there the choice is right (`BestValue.SearchedIsBest`).

## Model

| member | source | states |
|---|---|---|
| `Keyspace.CommonPrefixRule` | dht/go-libp2p-kbucket/util.go:38-40 | with respect to a third identifier, unequal common prefix lengths determine that of the pair, and equal ones short of the whole extend it by at least a bit |
| `Keyspace.LongerPrefixIsCloser` | dht/go-libp2p-kbucket/keyspace/xor.go:37-59 | sharing a longer prefix with the target means a strictly smaller XOR distance |
| `Keyspace.LessIsNumeric` | dht/go-libp2p-kbucket/util.go:28-32 | the byte order of distances is the order of the numbers they denote, and equality agrees too |
| `Keyspace.LessIsStrictTotal` | dht/go-libp2p-kbucket/keyspace/xor.go:47-49 | the comparison is a strict total order on identifiers of one length |
| `Keyspace.XorMetric` | dht/go-libp2p-kbucket/keyspace/xor.go:37-44 | distance zero only to oneself, symmetry, one identifier per distance, full common prefix only with oneself |
| `TableModel.Tune` | dht/go-libp2p-kbucket/table.go:186-215 | whatever the formulas yield, `k` is the greatest of that, the bucket size and 2, alpha is clamped between 2 and the bucket size, beta equals the bucket size; the entries stay |
| `TableProofs.LookupByIndex` | dht/go-libp2p-kbucket/table.go:2277-2287 | a peer is anywhere in the table exactly if it is in the bucket its common prefix length points at |
| `TableProofs.NoPeerTwice` | dht/go-libp2p-kbucket/table.go:1688-1807 | two places of a partitioned table with the same peer are the same place |
| `TableProofs.RemoveKeeps` | dht/go-libp2p-kbucket/table.go:2005-2034 | removal with collapsing keeps the partition, takes out that peer alone and leaves no empty trailing bucket |
| `TableProofs.UnfoldKeeps` | dht/go-libp2p-kbucket/table.go:2036-2062 | unfolding ends, keeps the partition and all entries, and leaves the last bucket below the threshold it is compared with, within 8n+2 buckets |
| `TableProofs.LastBucketBound` | dht/go-libp2p-kbucket/bucket.go:225-243 | a non-empty last bucket proves a peer with that long a prefix, which bounds the number of buckets |
| `TableSteps.PlaceInv` | dht/go-libp2p-kbucket/table.go:1723-1769 | looking for room keeps the invariant and all peers; if there is none, the peer's bucket is full |
| `TableSteps.SwapInv` | dht/go-libp2p-kbucket/table.go:1781-1799 | evicting one entry of a bucket and pushing the newcomer into the bucket found before the removal keeps the invariant although the table may shrink in between |
| `TableSteps.AddInv` | dht/go-libp2p-kbucket/table.go:1688-1932 | every add keeps the invariant; refused adds change nothing or lose nobody; a successful one adds the peer, possibly for one replaceable peer |
| `TableSteps.AddEvictsIff` | dht/go-libp2p-kbucket/table.go:1781-1807 | an add past the checks that finds its bucket full succeeds iff that bucket holds a replaceable peer, and then exactly one such peer is exchanged for it |
| `Outcomes.AddOutcomes` | dht/go-libp2p-kbucket/table.go:1688-1932 | a plain add, for every table: present, too slow, filtered and added each exactly when; it is added past the checks iff the peer's bucket has room, or has after unfolding, or holds a replaceable peer; with room nobody leaves; the peer is in the table iff present or added |
| `Outcomes.KadOutcomes` | dht/go-libp2p-kbucket/table.go:1493-1685 | the same of a KadRTT add to its re-tuned bucket with tuned sizes and without eviction; otherwise the peer is in the table iff exchanged in |
| `Outcomes.ExchangesIff` | dht/go-libp2p-kbucket/table.go:1590-1652 | under KadRTT an exchange takes place iff there is no room and the peer chosen in the final bucket is replaceable |
| `Outcomes.PresentIsRefreshed` | dht/go-libp2p-kbucket/table.go:1698-1706 | an add of a present peer sets its time of first use if none is known and changes no other entry, field or size |
| `Outcomes.UnfoldsMinimally` | dht/go-libp2p-kbucket/table.go:2036-2062 | unfolding makes exactly as many buckets as first leave fewer than a bucket's size of peers, under KadRTT none, with so long a prefix |
| `Outcomes.UnfoldTunes` | dht/go-libp2p-kbucket/table.go:2040-2056 | each new bucket is tuned for its own index under KadRTT, a lone first bucket before it is split, and no other |
| `Buckets.LastReplaceableIsLast` | dht/go-libp2p-kbucket/bucket.go:143-159 | no replaceable entry comes after the one an add evicts |
| `TableSteps.RemoveAny` | dht/go-libp2p-kbucket/table.go:2005-2034 | removing any peer, present or not, keeps the invariant and leaves all other peers exactly |
| `Nearest.EarlierIsCloser` | dht/go-libp2p-kbucket/table.go:2109-2135 | every peer of a bucket read earlier is strictly closer to the target than every peer of one read later |
| `Nearest.CollectedDivides` | dht/go-libp2p-kbucket/table.go:2109-2135 | what is collected and what is not divide the table, with everything left out farther away, and collecting stops short only when the table is exhausted |
| `Nearest.NearestIsGlobal` | dht/go-libp2p-kbucket/table.go:2109-2143 | the first `count` of the sorted collection are the first `count` of the whole table sorted by distance |
| `Nearest.FindIff` | dht/go-libp2p-kbucket/table.go:2065-2071 | the nearest peer to a peer's own identifier is that peer iff it is in the table |
| `Nearest.KadRttCoversNearest` | dht/go-libp2p-kbucket/table.go:2145-2214 | the KadRTT answer contains every peer of the distance-only answer for beta peers |
| `Nearest.CollectedExactly` | dht/go-libp2p-kbucket/table.go:2109-2135 | the target's bucket alone if it holds enough, else exactly the buckets from the lowest read on, which is the highest that makes up enough with those above |
| `Nearest.KadRttReadsExactly` | dht/go-libp2p-kbucket/table.go:2145-2214 | so it is of every KadRTT answer for beta peers |
| `Nearest.ReadIff` | dht/go-libp2p-kbucket/table.go:2145-2214 | a peer of a bucket is in the answer iff that bucket is the target's, or the target's is short and the bucket lies above it or those above the bucket are short |
| `Nearest.AnswerIsRttOrder` | dht/go-libp2p-kbucket/table.go:2187-2214 | when the peer looked up is in the table, the KadRTT answers are exactly the orders of the collected peers by round-trip time |
| `NearestQueries.FindUnderKadRtt` | dht/go-libp2p-kbucket/table.go:2065-2071 | for every table and peer: every KadRTT answer finds the peer iff it is strictly the fastest collected one, and some answer does iff none is faster |
| `Witnesses.FindMisses` | dht/go-libp2p-kbucket/table.go:2065-2071 | a reachable table of two peers in which no KadRTT answer finds the slower one |
| `NearestQueries.Collect` | dht/go-libp2p-kbucket/table.go:2109-2135 | the three collecting loops gather exactly the specified buckets |
| `NearestQueries.NearestByDistance` | dht/go-libp2p-kbucket/table.go:2085-2139 | the sorted collection for the target's bucket |
| `NearestQueries.RttOf` | dht/go-libp2p-kbucket/table.go:2148-2151 | the nearest peer's entry is found in the bucket it is looked up in, so no missing entry is dereferenced |
| `NearestQueries.NearestByRtt` | dht/go-libp2p-kbucket/table.go:2145-2214 | preferred peers (closer than twice the minimum, no slower than the nearest) then the rest, each block by round-trip time, together the collected peers |
| `NearestQueries.NearestPeers` | dht/go-libp2p-kbucket/table.go:2085-2226 | without KadRTT the first `count` peers of any sort of the table by distance; with it the two blocks, naming exactly the peers of the buckets read; no peer twice in either |
| `NearestQueries.Find` | dht/go-libp2p-kbucket/table.go:2065-2071 | reports only peers in the table and, without KadRTT, all of them; with it only peers no collected peer is faster than, and surely one that is strictly fastest |
| `Buckets.MinIsLastReplaceable` | dht/go-libp2p-kbucket/bucket.go:143-159 | with the adds' comparator the minimum is the last replaceable entry, or the first entry if there is none |
| `Buckets.Bucket.GetPeer` | dht/go-libp2p-kbucket/bucket.go:183-191 | finds an entry of the peer iff there is one |
| `Buckets.Bucket.Remove` | dht/go-libp2p-kbucket/bucket.go:194-202 | removes the first entry for the peer and reports whether there was one |
| `Buckets.Bucket.Min` | dht/go-libp2p-kbucket/bucket.go:143-159 | the fold over the comparator, none for an empty bucket |
| `Buckets.Bucket.Freeze` | dht/go-libp2p-kbucket/bucket.go:164-169 | clears the mark on every entry and changes nothing else |
| `Buckets.Bucket.Split` | dht/go-libp2p-kbucket/bucket.go:225-243 | the entries with longer common prefixes, in order, are in a new bucket, the others, in order, stay |
| `KadRtt.VictimFacts` | dht/go-libp2p-kbucket/table.go:907-1082 | the chosen peer is in the bucket, strictly slower in milliseconds, scores no worse than the current bucket and is minimal among all slower candidates; nobody is chosen only if every candidate would be worse |
| `KadRtt.VictimIsBest` | dht/go-libp2p-kbucket/table.go:907-1082 | of all slower peers but the last in key order the chosen one gives the least score, no worse than the bucket's; nobody is chosen iff each would give a worse one |
| `KadRtt.VictimHasLeastKey` | dht/go-libp2p-kbucket/table.go:1012-1027 | among equal scores the peer with the least key is chosen |
| `KadRtt.SlowerBounds` | dht/go-libp2p-kbucket/table.go:931-940 | a peer a millisecond slower counts as slower, one no slower never does; an unmeasured peer is judged by its known latency |
| `KadRtt.ScoreExchange` | dht/go-libp2p-kbucket/table.go:1098-1166 | computes the deviation score of the bucket with one peer exchanged, in reals |
| `KadRtt.ChooseVictim` | dht/go-libp2p-kbucket/table.go:907-1082 | the loops over slower peers choose that peer |
| `KadRtt.ExchangeInv` | dht/go-libp2p-kbucket/table.go:1051-1072 | an exchange keeps the invariant and the bucket's size and evicts only a replaceable, strictly slower peer of that bucket |
| `KadRtt.TrimOrder` | dht/go-libp2p-kbucket/table.go:1429-1475 | dropping the first entries by descending score leaves exactly `k`, none of which scores above a dropped one |
| `KadRtt.RetunedInv` | dht/go-libp2p-kbucket/table.go:1410-1475 | re-tuning and trimming keep the invariant, and without KadRTT trim nobody |
| `RoutingTables.RoutingTable.SetOptValues` | dht/go-libp2p-kbucket/table.go:186-215 | tunes one bucket in place and leaves the others |
| `RoutingTables.RoutingTable.CollapseBuckets` | dht/go-libp2p-kbucket/table.go:2012-2027 | the loop that drops trailing empty buckets computes the collapse of the table |
| `RoutingTables.RoutingTable.NextBucket` | dht/go-libp2p-kbucket/table.go:2036-2062 | terminates and computes the unfolding; old buckets stay in place, new ones are fresh |
| `RoutingTables.RoutingTable.RemovePeer` | dht/go-libp2p-kbucket/table.go:2005-2034 | the table loses that peer, and notifications and filter stay in agreement with the table |
| `RoutingTables.RoutingTable.AddPeer` | dht/go-libp2p-kbucket/table.go:1688-1932 | both plain adds leave the specified table, notifications and tracked peers, keep the agreement of all three, and give each outcome exactly when it is due: with room in its bucket an admitted peer is added |
| `RoutingTables.RoutingTable.AddPeerKadRtt` | dht/go-libp2p-kbucket/table.go:1392-1685 | re-tunes, trims, then adds or exchanges with the specified table, notifications and tracked peers, each outcome exactly when it is due; from agreement, notifications agree afterwards iff nobody is trimmed and the filter iff it survives |
| `RoutingTables.RoutingTable.AdmitAndExchange` | dht/go-libp2p-kbucket/table.go:1515-1685 | after an exchange lack of capacity is reported, the newcomer is in the table and the filter does not track it; notifications agree, and the filter iff no exchange took place or the newcomer is whitelisted |
| `RoutingTables.RoutingTable.MarkAllPeersIrreplaceable` | dht/go-libp2p-kbucket/table.go:1937-1947 | freezes every entry of every bucket; notifications and filter stay in agreement |
| `Bookkeeping.EventsFollow` | dht/go-libp2p-kbucket/table.go:1785-1799 | announcing who left and who came keeps additions minus removals equal to presence in the table |
| `Bookkeeping.AddKeysFollow` | dht/go-libp2p-kbucket/table.go:1715-1806 | tracking the newcomer first and untracking the evicted peer, or the newcomer on failure, keeps the filter's peers those of the table that are not whitelisted |
| `Bookkeeping.AddAgrees` | dht/go-libp2p-kbucket/table.go:1688-1932 | whatever a plain add's outcome, notifications and filter stay in agreement with the table |
| `Bookkeeping.RemoveAgrees` | dht/go-libp2p-kbucket/table.go:2005-2034 | so they do through a removal of any peer |
| `Bookkeeping.ExchangedKeysIff` | dht/go-libp2p-kbucket/table.go:1680-1684 | forgetting a newcomer that was exchanged in leaves the filter right iff the newcomer is whitelisted |
| `Bookkeeping.ExchangeAgreesIff` | dht/go-libp2p-kbucket/table.go:1527-1685 | past the checks a KadRTT add keeps the notifications, and the filter iff no exchange took place or the newcomer is whitelisted |
| `Bookkeeping.EventsAfterTrim` | dht/go-libp2p-kbucket/table.go:1471-1475 | trimmed peers are not announced, so notifications agree afterwards iff there are none |
| `Bookkeeping.KadAgreesIff` | dht/go-libp2p-kbucket/table.go:1392-1685 | from agreement, after any KadRTT add the notifications agree iff the bucket had no more entries than its new size, and the filter iff it survives the trim and the exchange |
| `Witnesses.ExchangeForgets` | dht/go-libp2p-kbucket/table.go:1648-1684 | a reachable table and an add after which the newcomer is in the table and the filter does not track it |
| `Witnesses.TrimForgets` | dht/go-libp2p-kbucket/table.go:1471-1475 | a reachable table and an add of a present peer after which neither notifications nor filter agree with the table |
| `TableRuns.RunKeepsInv` | dht/go-libp2p-kbucket/table.go:1392-2062 | in every state of every run of all three adds, removals and freezes: the partition, no repeated peer, between one and 8n+2 buckets, and without KadRTT no bucket over the bucket size |
| `TableRuns.RunEventsIff` | dht/go-libp2p-kbucket/table.go:1392-2034 | over every run from the empty table, in all states a peer is in the table with exactly one more addition than removal announced iff no KadRTT add of the run trims |
| `TableRuns.RunFilterIff` | dht/go-libp2p-kbucket/table.go:1392-2034 | over every run from the empty table with a fixed whitelist, in all states the filter tracks exactly the table's non-whitelisted peers iff it survives every KadRTT add of the run |
| `TableRuns.PlainRunAgrees` | dht/go-libp2p-kbucket/table.go:1688-2034 | over every run of plain adds, removals and freezes both agreements hold in all states |
| `TableRuns.IrreplaceableStays` | dht/go-libp2p-kbucket/table.go:1392-1932 | along every run of all operations a peer marked as not replaceable stays in the table with its mark until it is removed or trimmed away |
| `TableRuns.PlainTakesOut` | dht/go-libp2p-kbucket/table.go:1429-1475 | without KadRTT only a removal takes a peer out, since nobody is ever trimmed |
| `TableCalls.CallOne` | dht/go-libp2p-kbucket/table.go:1392-2034 | every call on the object is the corresponding operation of a run, with the filter's own answer |
| `TableCalls.RunCalls` | dht/go-libp2p-kbucket/table.go:1392-2034 | after any sequence of calls the object's table, notifications and tracked peers are the last of a run over exactly these calls; plain calls keep the agreement |
| `GroupCounters.IncRecounts` | dht/go-libp2p-kad-dht/rt_diversity_filter.go:60-73 | incrementing keeps both counter maps the recount of the entries |
| `GroupCounters.DecRecounts` | dht/go-libp2p-kad-dht/rt_diversity_filter.go:75-94 | decrementing a counted entry finds its inner map, keeps the recount and leaves no zero and no empty map |
| `DiversityFilter.RtPeerIPGroupFilter.Allow` | dht/go-libp2p-kad-dht/rt_diversity_filter.go:43-58 | allowed iff below the table limit and, where the prefix length is counted at all, below its limit |
| `DiversityFilter.RtPeerIPGroupFilter.Decrement` | dht/go-libp2p-kad-dht/rt_diversity_filter.go:75-94 | counts down in both maps and drops what becomes empty |
| `DiversityFilter.AllowedIff` | dht/go-libp2p-kad-dht/rt_diversity_filter.go:43-58 | a group is allowed iff fewer than the table limit of the counted entries carry its key, and fewer than the limit within its common prefix length or none at all is counted there |
| `DiversityFilter.GrowDiverse` | dht/go-libp2p-kbucket/peerdiversity/filter.go:143-201 | letting in a peer after the checks keeps every group within its limit however many of its addresses share a group |
| `DiversityFilter.CplLimitIff` | dht/go-libp2p-kad-dht/rt_diversity_filter.go:43-58 | the limit per common prefix length is kept by every admission of a peer with all its groups iff it is positive or the table limit is zero |
| `DiversityFilter.SharersAreTracked` | dht/go-libp2p-kbucket/peerdiversity/filter.go:124-201 | the peers counted for a group are exactly the tracked peers with an address in it |
| `DiversityFilter.Filter.TryAdd` | dht/go-libp2p-kbucket/peerdiversity/filter.go:143-201 | succeeds iff whitelisted or every address has a group not yet full by the count of tracked entries; counters stay a recount of tracked groups, limits hold, and a refused or whitelisted peer changes nothing |
| `DiversityFilter.Filter.Remove` | dht/go-libp2p-kbucket/peerdiversity/filter.go:124-141 | forgets exactly that peer; counters stay a recount and no missing inner map is touched |
| `DiversityFilter.Filter.WhitelistPeers` | dht/go-libp2p-kbucket/peerdiversity/filter.go:204-211 | adds the peers to the whitelist and changes nothing else |
| `QueryPeersets.QueryPeerset.TryAdd` | dht/go-libp2p-kad-dht/qpeerset/qpeerset.go:87-96 | adds an unknown peer as heard, and leaves a known one alone |
| `QueryPeersets.QueryPeerset.SetState` | dht/go-libp2p-kad-dht/qpeerset/qpeerset.go:108-112 | sets that peer's state alone, keeping the lazily sorted order |
| `QueryPeersets.QueryPeerset.GetClosestNInStates` | dht/go-libp2p-kad-dht/qpeerset/qpeerset.go:127-145 | the `n` closest peers in the wanted states by ascending distance, all if there are fewer; nobody left out is closer |
| `QueryPeersets.SelectIsInOrder` | dht/go-libp2p-kad-dht/qpeerset/qpeerset.go:98-145 | filtering the sorted list gives the unique ascending list of the peers in those states |
| `Queries.SortClosestPeers` | dht/go-libp2p-kbucket/sorting.go:50-64 | a permutation ascending in distance, as bytes and as numbers |
| `Queries.Query.UpdateState` | dht/go-libp2p-kad-dht/query.go:498-547 | processes an update without panic when every peer reported on is waiting |
| `Queries.Query.IsLookupTermination` | dht/go-libp2p-kad-dht/query.go:386-412 | true iff the `n` closest peers not unreachable are all queried, that is iff every peer not yet queried has `n` closer ones |
| `Queries.Query.IsReadyToTerminate` | dht/go-libp2p-kad-dht/query.go:357-382 | ready iff stopped, starved or complete; otherwise as many heard peers as the limit allows, all for a limit below one, by ascending distance, none left out being closer |
| `Queries.Query.Turn` | dht/go-libp2p-kad-dht/query.go:301-331 | one turn of the loop ends the lookup or starts queries to exactly the closest heard peers that fit beside those waited for |
| `Queries.TurnIsReceive` | dht/go-libp2p-kad-dht/query.go:301-331 | a turn of the code is the coordinator's step of the state machine |
| `Queries.Query.CancelledTurn` | dht/go-libp2p-kad-dht/query.go:306-324 | a cancelled turn ends the lookup, still picks the peers the tests give for whatever limit, and starts none |
| `Queries.Query.ConstructLookupResult` | dht/go-libp2p-kad-dht/query.go:211-257 | exactly the closest peers not unreachable, ascending, states aligned; completed iff the `n` closest are queried or the lookup starved, which implies the same for beta; after a normal end exactly when |
| `Queries.NormalEndIff` | dht/go-libp2p-kad-dht/query.go:218-226 | with the closest beta peers queried, the closest `n` are too iff those from the beta-th on are |
| `Queries.EndedIncomplete` | dht/go-libp2p-kad-dht/query.go:218-226 | a lookup that ended by beta and is not completed by a larger number |
| `Queries.AlreadySorted` | dht/go-libp2p-kad-dht/query.go:239-243 | sorting by distance bytes does not change the order by numeric distance |
| `LookupProofs.StepInv` | dht/go-libp2p-kad-dht/query.go:268-547 | every step of coordinator or worker keeps the invariant |
| `LookupProofs.RunSafe` | dht/go-libp2p-kad-dht/query.go:296-331 | in every state of every run: workers plus queued updates fit the channel, so no worker blocks; no panic; something is in flight until the end; each peer is queried at most once; at most universe size plus one updates are processed |
| `LookupProofs.SpawnLimitPositive` | dht/go-libp2p-kad-dht/query.go:311-328 | whenever peers are started the limit they were picked with is at least one, in every run |
| `LookupProofs.CancelledLimit` | dht/go-libp2p-kad-dht/query.go:307-324 | in a cancelled turn the limit is alpha less the peers in flight; below one every heard peer is picked and nobody is started |
| `LookupProofs.ReadyIff` | dht/go-libp2p-kad-dht/query.go:357-418 | a turn ends the lookup iff it is told to stop, every known peer is settled, or every peer not yet queried has beta closer ones not found unreachable |
| `LookupProofs.PicksAreClosest` | dht/go-libp2p-kad-dht/query.go:369-381 | the peers picked are the closest heard ones, as many as the limit allows, or all for a limit below one |
| `LookupProofs.RunStartsClosest` | dht/go-libp2p-kad-dht/query.go:311-329 | in every run no peer left heard is closer than one a query is started to, and a lookup goes on only with alpha peers in flight or nobody left to query |
| `LookupProofs.ReportIsHeard` | dht/go-libp2p-kad-dht/query.go:498-547 | in every run, after a report is processed exactly the peers known before and those it names, except oneself, are known, and the peer reported on is settled as reported |
| `LookupProofs.RunIsBounded` | dht/go-libp2p-kad-dht/query.go:268-547 | every run among U peers takes at most 2U+2 steps |
| `LookupProofs.WaitDrains` | dht/go-libp2p-kad-dht/query.go:299-300 | after termination each running worker can report and every step reduces their number |
| `LookupProofs.RunMoves` | dht/go-libp2p-kad-dht/query.go:498-547 | along every run a peer only moves from heard to waiting to queried or unreachable |
| `ProviderStore.AnnounceInv` | dht/go-libp2p-kad-dht/providers/providers_manager.go:229-246 | an announcement keeps cached sets equal to the store |
| `ProviderStore.LoadMirrors` | dht/go-libp2p-kad-dht/providers/providers_manager.go:304-357 | loading drops exactly the stale and unreadable records of the key and yields exactly the rest |
| `ProviderStore.LoadOrder` | dht/go-libp2p-kad-dht/providers/providers_manager.go:313-354 | a loaded answer names the providers of the readable and valid records in listing order |
| `ProviderStore.LookupInv` | dht/go-libp2p-kad-dht/providers/providers_manager.go:285-301 | an answer is exactly what the store then holds for the key; only stale or unreadable records of that key are lost; failure only when uncached and the listing fails |
| `ProviderStore.CollectInv` | dht/go-libp2p-kad-dht/providers/providers_manager.go:154-190 | a collected record is stale since the round began, not refreshed since and not mirrored in the cache |
| `ProviderRuns.RunKeepsInv` | dht/go-libp2p-kad-dht/providers/providers_manager.go:133-214 | in every interleaving each cached set is exactly what the datastore holds for its key |
| `ProviderRuns.GcSparesRefreshed` | dht/go-libp2p-kad-dht/providers/providers_manager.go:141-176 | no round deletes a record announced since it began |
| `ProviderRuns.AnnouncedStays` | dht/go-libp2p-kad-dht/providers/providers_manager.go:133-214 | in every run an announced record stays in the store until its validity has passed |
| `ProviderRuns.AnnouncedIsFound` | dht/go-libp2p-kad-dht/providers/providers_manager.go:276-301 | in every run an announced provider is in each answer about its key while valid |
| `ProviderRuns.YieldedStaysIff` | dht/go-libp2p-kad-dht/providers/providers_manager.go:171-190 | a record a round yields stays iff it was refreshed since the round began or has a readable time valid then; nothing else is touched |
| `ProviderRuns.RoundCollects` | dht/go-libp2p-kad-dht/providers/providers_manager.go:154-209 | in every run, after a round that yielded all it listed, each record left was announced since the round began or was valid when it began |
| `ProviderRuns.LoadedStaysIff` | dht/go-libp2p-kad-dht/providers/providers_manager.go:323-349 | loading a key leaves exactly its records that name a provider and have a readable time not older than the validity |
| `ProviderManagers.ProviderManager.AddProvider` | dht/go-libp2p-kad-dht/providers/providers_manager.go:135-145 | carries out the announcement event in place |
| `ProviderManagers.ProviderManager.LoadProviderSet` | dht/go-libp2p-kad-dht/providers/providers_manager.go:304-357 | the loading loop computes the specified store and set |
| `ProviderManagers.ProviderManager.GetProviderSetForKey` | dht/go-libp2p-kad-dht/providers/providers_manager.go:285-301 | carries out the lookup event; an answer mirrors the store |
| `ProviderManagers.ProviderManager.CollectOne` | dht/go-libp2p-kad-dht/providers/providers_manager.go:171-190 | the yielded record stays iff it was refreshed since the round began or has a readable time valid then |
| `ProviderManagers.ProviderManager.BeginGc` | dht/go-libp2p-kad-dht/providers/providers_manager.go:192-209 | empties the cache and starts a round unless the listing fails |
| `WireFormat.SovIsLength` | dht/go-libp2p-kad-dht/pb/dht.pb.go:507-509 | the size from the bit length is the number of bytes of the varint |
| `WireFormat.VarintRoundTrip` | dht/go-libp2p-kad-dht/pb/dht.pb.go:435-445 | reading a written 64-bit number gives it back, whatever follows |
| `WireFormat.VarintSamples` | dht/go-libp2p-kad-dht/pb/dht.pb.go:435-445 | the bytes of 1, 150 and 300 |
| `WireFormat.Int32RoundTrip` | dht/go-libp2p-kad-dht/pb/dht.pb.go:546-560 | sign extension to 64 bits and truncation to 32 are inverse on 32-bit numbers |
| `WireFormat.ReadItemLocal` | dht/go-libp2p-kad-dht/pb/dht.pb.go:516-736 | a field, known or skipped, is read the same whatever follows it and wherever it lies |
| `WireFormat.LexConcat` | dht/go-libp2p-kad-dht/pb/dht.pb.go:516-736 | concatenating encodings concatenates their fields |
| `WireFormat.RawsAreUnknown` | dht/go-libp2p-kad-dht/pb/dht.pb.go:718-735 | the unknown fields of any byte string, put together, are again complete unknown fields |
| `UnknownFields.SkipsField` | dht/go-libp2p-kad-dht/pb/dht.pb.go:881-958 | a complete field of any wire type, groups nested to any depth included, is skipped exactly, wherever it stands and whatever follows |
| `UnknownFields.ReadsForeign` | dht/go-libp2p-kad-dht/pb/dht.pb.go:718-735 | a field with an unknown number is kept as exactly its bytes, whatever follows |
| `UnknownFields.ForeignIsKept` | dht/go-libp2p-kad-dht/pb/dht.pb.go:718-735 | unknown fields as any sender writes them decode into nothing but the unrecognized bytes |
| `UnknownFields.ForeignIsKeptInPeer` | dht/go-libp2p-kad-dht/pb/dht.pb.go:856-873 | so they do in a peer |
| `UnknownFields.VarintErrors` | dht/go-libp2p-kad-dht/pb/dht.pb.go:519-532 | a varint overflows iff its first ten bytes all announce another, and is cut off iff all of fewer do |
| `UnknownFields.TagErrors` | dht/go-libp2p-kad-dht/pb/dht.pb.go:533-545 | an end-group tag, number zero, a wrong wire type and an illegal one each give their error |
| `UnknownFields.PayloadErrors` | dht/go-libp2p-kad-dht/pb/dht.pb.go:580-589 | a payload shorter than announced is cut off, or its length invalid if it overflows |
| `Messages.PeerRoundTrip` | dht/go-libp2p-kad-dht/pb/dht.pb.go:399-880 | decoding an encoded peer gives it back |
| `Messages.RoundTrip` | dht/go-libp2p-kad-dht/pb/dht.pb.go:315-742 | decoding an encoded message gives it back, for every message without unrecognized bytes and more generally whenever those are complete unknown fields |
| `Messages.DecodedIsGood` | dht/go-libp2p-kad-dht/pb/dht.pb.go:513-742 | every message decoded from any bytes satisfies the condition of the round trip |
| `Messages.DecodeIsStable` | dht/go-libp2p-kad-dht/pb/dht.pb.go:315-742 | re-encoding a message decoded from arbitrary bytes and decoding it again changes nothing |
| `Messages.ConcatIsMerge` | dht/go-libp2p-kad-dht/pb/dht.pb.go:513-742 | decoding a concatenation is decoding the parts one after the other into the same message |
| `Messages.EncodedMerges` | dht/go-libp2p-kad-dht/pb/dht.pb.go:513-742 | decoding an encoding into any message: numbers and key replace unless absent, the record is merged, peers and unknown fields are added |
| `Messages.TwoEncodings` | dht/go-libp2p-kad-dht/pb/dht.pb.go:513-742 | two encodings one after the other decode into the second taken up into the first |
| `Messages.MessageLayout` | dht/go-libp2p-kad-dht/pb/dht.pb.go:315-382 | the bytes of a message, field by field with their tag bytes in the order written, absent fields left out |
| `Messages.PeerLayout` | dht/go-libp2p-kad-dht/pb/dht.pb.go:399-433 | the bytes of a peer, likewise, its identifier always written |
| `WireCodec.PeerSize` | dht/go-libp2p-kad-dht/pb/dht.pb.go:484-505 | the computed size is the length of the encoding |
| `WireCodec.Size` | dht/go-libp2p-kad-dht/pb/dht.pb.go:446-482 | the computed size is the length of the encoding |
| `WireCodec.EncodeVarint` | dht/go-libp2p-kad-dht/pb/dht.pb.go:435-445 | writes the varint just before the offset and nothing else |
| `WireCodec.MarshalPeer` | dht/go-libp2p-kad-dht/pb/dht.pb.go:399-433 | writes the encoding so that it ends at the given index, returns its length and leaves the rest of the buffer alone |
| `WireCodec.MarshalToSizedBuffer` | dht/go-libp2p-kad-dht/pb/dht.pb.go:315-382 | writes the encoding so that it ends at the given index, returns its length and leaves the rest of the buffer alone |
| `WireCodec.Marshal` | dht/go-libp2p-kad-dht/pb/dht.pb.go:300-308 | a buffer of the computed size is filled exactly and holds the encoding |
| `WireCodec.ReadVarintAt` | dht/go-libp2p-kad-dht/pb/dht.pb.go:519-532 | the shifting loop reads the number modulo 2^64, with the overflow and end-of-input errors |
| `WireCodec.SkipField` | dht/go-libp2p-kad-dht/pb/dht.pb.go:881-958 | the number of bytes of the field or balanced group, or the error |
| `WireCodec.UnmarshalPeer` | dht/go-libp2p-kad-dht/pb/dht.pb.go:743-880 | decodes any bytes, errors included, as specified |
| `WireCodec.Unmarshal` | dht/go-libp2p-kad-dht/pb/dht.pb.go:513-742 | decodes any bytes, errors included, as specified |
| `PrefixMap.TargetParts` | dht/go-libp2p-kbucket/table_refresh.go:55-64 | any random word gives a prefix that agrees with the local one on exactly the wanted number of bits |
| `PrefixMap.EveryTargetIsPicked` | dht/go-libp2p-kbucket/table_refresh.go:55-64 | every such prefix is given by some random word |
| `PrefixMap.GenRandPeerIdExact` | dht/go-libp2p-kbucket/table_refresh.go:45-71 | the generated peer's hash shares exactly the wanted number of leading bits with the local identifier; only lengths over fifteen are refused |
| `PrefixMap.Generate` | dht/go-libp2p-kbucket/generate/main.go:30-43 | terminates once every slot is reachable, and each slot holds the first counter that hashes to it |
| `Staging.TurnIsInterval` | dht/utils/staging.go:154-179 | the instances of a turn are an interval |
| `Staging.WaitsForPreviousTurn` | dht/utils/staging.go:154-179 | the number waited for is the size of the turn before, none for the first turn |
| `Staging.FullTurnSize` | dht/utils/staging.go:154-179 | a full turn has slope instances under linear staging, and 1, 1, 2, 4 and so on under exponential staging |
| `Staging.TurnsInOrder` | dht/utils/staging.go:118-137 | in every interleaving no instance starts before all of the turn before have |
| `Staging.NeverStuck` | dht/utils/staging.go:118-137 | some instance can always go on until all have started and announced it |
| `Staging.RunIsBounded` | dht/utils/staging.go:118-137 | every run takes exactly one pass and one announcement per instance at most |
| `BestValue.ProcessValues` | dht/go-libp2p-kad-dht/routing.go:184-268 | the loop computes the specified state over the stream |
| `BestValue.StopsOnceAtQuorum` | dht/go-libp2p-kad-dht/routing.go:184-204 | the query is stopped exactly at response `nvals + 1`, once, and never if no number was asked for |
| `BestValue.EveryValueCounts` | dht/go-libp2p-kad-dht/routing.go:227-268 | with a validator that never fails, every value received before the stop is a response |
| `BestValue.FinalIsBest` | dht/go-libp2p-kad-dht/routing.go:227-268 | the best value is maximal over all values weighed, and the peers kept are exactly its senders |
| `BestValue.SoundIffNilNeverWins` | dht/go-libp2p-kad-dht/routing.go:242-261 | that holds throughout a stream iff no nil value is ever preferred to the best so far |
| `BestValue.NilNeverWinsIff` | dht/go-libp2p-kad-dht/routing.go:242-261 | for a validator that never fails and any number asked for: no nil value is ever preferred iff each one received comes before all real values or after one that empty bytes do not beat |
| `BestValue.SoundIffDominated` | dht/go-libp2p-kad-dht/routing.go:227-268 | for such a validator the best value is right throughout the stream iff the stream meets that condition |
| `BestValue.SearchedIsBest` | dht/go-libp2p-kad-dht/routing.go:292-349 | on streams whose values after the first are real, the best value is maximal with exactly its senders and the emitted values improve strictly |
| `BestValue.NilCanWin` | dht/go-libp2p-kad-dht/routing.go:242-261 | a stream, outside those the search sends, on which the greatest value is lost |
| `BestValue.NilFirstNeverWins` | dht/go-libp2p-kad-dht/routing.go:292-349 | it holds on streams in which only the first value, the local record's, can be nil |
| `BestValue.EmittedImprove` | dht/go-libp2p-kad-dht/routing.go:184-204 | each emitted value is strictly better than all real ones before it, and the last is the best |
| `BestValue.EmittedAreBreakers` | dht/go-libp2p-kad-dht/routing.go:184-204 | the real values emitted are exactly those weighed that beat all weighed before them |
| `BestValue.AllAreWeighed` | dht/go-libp2p-kad-dht/routing.go:227-268 | with a validator that never fails all real values received before the stop are weighed |

## Left out

- The tuning formulas (Lambert W and its approximations, optimal `k` and alpha): floating-point numerics; their results are arbitrary integers that are then clamped as the code does.
- The trim score of a bucket entry: an arbitrary score per peer; what is proved holds for every score.
- KadRTT branches of `addPeerKadRTT` for tuned sizes 0 and 1: unreachable, since every tuned `k` is at least 2.
- A bucket size below two, and collisions of the hash among the network's peers.
- LookupProofs.RunSafe: a hash collision would only change which of two equally distant peers is listed first, so the run properties assume nothing about distances; the classes over the peer set require distinct distances.
- The follow-up phase after a lookup, dialing, message sending, and the recording of useful peers and query durations.
- ProviderRuns.RunKeepsInv: assumes that datastore writes and deletions succeed; after a failed write the cache would be ahead of the store.
- Datastore prefix queries, the encoding of record names and times, batching and the LRU order: a listing returns each record of a key once, and evictions happen at any time.
- Messages.RoundTrip: the codec of the record inside a message belongs to another package and is a parameter that must restore the record at hand; encodings are shorter than 2^63 bytes.
- WireCodec.Unmarshal: does not describe the half-filled message left behind by an error, and does not tell nil from empty byte strings.
- The or-ing of shifted seven-bit groups is modelled as addition, which is the same because the groups do not overlap.
- PrefixMap.Generate: does not model the counter's wrap-around at 2^32; termination assumes that every slot is reached by some counter.
- Staging: floating-point logarithms and powers are exact integers here; errors of the synchronisation service, and the batch and single-peer stagers.
- BestValue.ProcessValues: a value offered on the output channel counts as emitted even if the context is cancelled while it is offered; cancellation otherwise ends the stream.
- IP addresses, address groups and autonomous system lookup: an address is its group key or none.
- Locks, timers, event publishing, logging, metrics, refresh bookkeeping, diversity statistics and the dual DHT.
