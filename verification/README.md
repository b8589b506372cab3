# Faraday, modelled and proved in Dafny

This project models the logic of Faraday, a tool that reports on a Lightning node, and proves what that
logic promises. Its centre is the forwarding-uptime engine: a stored log of channel events is turned into
the effective uptime of every ordered pair of peers. The engine is incremental: it patches running sums of
balances, seeds a window from the latest earlier balance update, merges two streams in one walk and walks
a self pair over its stream merged with itself. Here each of these is proved to mean the simple thing: replay
the whole log and count the instants at which the pair qualifies.

The parts, each with the files that hold it:

- **Event log** (`ChannelEvents`, `EventTable`, `EventStore`, `ChannelMonitor`, `ChannelEventsRpc`): rows of the
  table as a sequence by id, the SQL statements by their text, the store and the monitor as classes whose
  methods change the table, and the paged query of the RPC server.
- **Analysis** (`UptimeMeaning`, `PeerEvents`, `UptimeWalk`, `Seeding`, `AllPairs`, `ForwardingData`,
  `EffectiveUptime`): uptime as a count of nanosecond instants, and the walk, the seeding, the paging and the
  enumeration of pairs that compute it. `EffectiveUptime.EffectiveUptime` is the end-to-end statement, and
  `ForwardingAbilityRpc.ResponseTellsTheLog` carries it over the wire to the client.
- **Wire codec** (`Hex`, `Bitmask`, `AbilityWire`, `AbilityLaws`, `AbilityCodec`, `AbilityMeaning`,
  `ForwardingAbilityRpc`): the sparse response with its entries, bits and absent pairs, what its bytes and
  indices say, and the call that produces it.
- **Block range** (`BlockRange`): a binary search over block times that are not sorted, and the buffer that
  makes up for it.
- **Revenue** (`FiniteSums`, `RevenueReport`, `ChannelInsights`), **outliers** (`StableSort`, `Dataset`, `Recommend`),
  **prices** (`CandlePaging`, `Prices`) and **on-chain accounting** (`OnChainReport`).

Times are whole nanoseconds, balances and amounts unbounded integers, the uptime threshold, dataset values and
prices exact reals. Clocks, the lnd and exchange answers, and lookups in other services are parameters.

Each main operation is proved against a specification, and the definitions that a specification shares with the
code are pinned by laws that do not use them: `ChannelEvents.OnlineIsLastStatus` and its neighbours say what
replaying means, `UptimeMeaning.UptimeCounts` what an uptime is, `AbilityMeaning` what a response says,
`ChannelMonitor.HandleTells` what an event does to its channel, `OnChainReport.ReportLines` what a report holds.

Where a promised property does not hold of the code on all inputs, the exact condition under which it does is
proved, with inputs that fail it:

- A timestamp exactly at the end of a price range is priced by its own bucket if and only if the range is
  not empty after truncation and the last page is not cut off by the candle cap (`Prices.OwnBucketAtEnd`,
  `Prices.PricesAreExact`). A lookup for a single timestamp that opens a bucket finds no prices
  (`Prices.LoneOpening`), and a full last page prices its end by the bucket before (`Prices.FullPageCutsEnd`).
- A fee split keeps lnd's amount under exactly these conditions (`OnChainReport.FeeSplitConserves`). An open
  keeps it unless it is a send whose fee is not zero and not smaller than the amount sent. A generic transaction
  keeps it unless it is a send whose fee is all of its amount and which is not wholly internal, or has amount
  zero, a fee, and is wholly internal. `OnChainReport.FeesGoAstray` gives an input for each exception.
- A fee passes through a float64 unchanged if and only if it is representable; every fee below 2^53 msat is,
  2^53 + 1 is not (`RevenueReport.Float64Exact`, `RevenueReport.LargeFeeRounds`).
- No value can be an outlier on both sides if and only if the multiplier is at least -1/2 or the quartiles
  coincide (`Dataset.OutlierOnOneSide`).
- The 24 hour buffer repairs all chains whose blocks are earlier than a preceding one by less than d seconds if
  and only if d is at most a day (`BlockRange.BufferRepairsADay`). `BlockRange.DisorderOfADay` is a chain
  with a block exactly a day early whose resolved range misses a block; other chains with as much disorder
  may still be covered.

- The initial sync records whether an open channel is active, but writes its balance after that, and a balance
  update counts as being online. So the log shows the availability of a channel as it was listed if and only if
  it is active (`ChannelMonitor.SyncShowsActive`); `ChannelMonitor.InactiveShownOnline` is an inactive channel
  that the log shows online until its next status event.

Where the code and its comments disagree the model follows the code: the comment of filterOnChain says that
unconfirmed transactions are excluded, but they are given the current time and excluded only when that lies
outside the range; the comment of findFirstBlockBeforeTimestamp promises a block before the timestamp, but a
block exactly at it is returned as soon as one is probed; rawPriceData says it pages past the last received
timestamp, but it pages from window end to window end.

## Model

| member | source | states |
|---|---|---|
| ChannelEvents.ReplayIsOverwrite | chanevents/analyzer.go:856-883 | Whatever a run of events does to a channel is one overwrite of some of its fields, the last write of each winning |
| ChannelEvents.ReplayIdempotent | chanevents/analyzer.go:516-541 | Replaying the same run a second time changes no state left by the first replay |
| ChannelEvents.ReplayPointwise | chanevents/analyzer.go:856-883 | Channels evolve independently: replaying a stream on many channels is replaying each channel's own events |
| ChannelEvents.ReplayForeign | chanevents/analyzer.go:710-777 | Events on channels outside the considered ones change nothing |
| ChannelEvents.OnlineIsLastStatus | chanevents/analyzer.go:856-883 | A channel is online unless its last event of a known type took it offline |
| ChannelEvents.LocalIsLastReport | chanevents/analyzer.go:856-883 | Its local balance is the last one that an update reported |
| ChannelEvents.RemoteIsLastReport | chanevents/analyzer.go:856-883 | Its remote balance is the last one that an update reported |
| ChannelEvents.NotReported | chanevents/analyzer.go:856-883 | What no event of the channel reports stays as it was |
| ChannelEvents.TotalsAreOnlineBalances | chanevents/analyzer.go:470-485 | A running sum is the balances of the online channels on its side, each counted once |
| ChannelEvents.UpToPrefix | chanevents/analyzer.go:710-777 | In a time-sorted stream the events up to an instant are a prefix, so a walk by position is a walk through time |
| ChannelEvents.TotalUpdate | chanevents/analyzer.go:732-770 | Removing a channel from a running sum, changing it and adding it back gives the sum over the new states |
| ChannelEvents.TotalSplit | chanevents/analyzer.go:470-485 | A sum over a peer's channels does not depend on the order in which the map is ranged over |
| ChannelEvents.AlikeReplay | chanevents/analyzer.go:856-883 | Applying events keeps two states alike that agree on balances, and on the online flag unless both balances are zero |
| ChannelEvents.AlikeTotal | chanevents/analyzer.go:470-485 | States that are alike channel by channel have equal running sums |
| UptimeMeaning.UptimeBound | chanevents/analyzer.go:618-794 | No pair is up for longer than the window |
| UptimeMeaning.UptimeCounts | chanevents/analyzer.go:675-708 | Uptime is the number of instants at which the remote balances of the one peer and the local balances of the other, offline channels not counted, are both positive and both at least the floor |
| UptimeMeaning.UptimeAdds | chanevents/analyzer.go:618-794 | For fixed facts the uptimes of adjacent windows add up |
| UptimeMeaning.UptimeConstant | chanevents/analyzer.go:675-708 | A stretch without a change of liquidity counts fully or not at all |
| UptimeMeaning.MergeMembers | chanevents/analyzer.go:800-836 | A merge holds exactly the events of both streams, with multiplicity |
| UptimeMeaning.MergeByTime | chanevents/analyzer.go:800-836 | Merging two time-sorted streams gives a time-sorted stream |
| UptimeMeaning.MergeReplay | chanevents/analyzer.go:800-836 | On one peer's channels, replaying a merge up to any instant is replaying that peer's own stream, so the A-first tie break never shows |
| UptimeMeaning.MergedUptime | chanevents/analyzer.go:516-541 | With disjoint channels the merged walk counts each direction's uptime as the two single streams define it |
| UptimeMeaning.SelfMergeGroup | chanevents/analyzer.go:800-836 | A stream merged with itself starts with its first timestamp group twice, each time in order |
| UptimeMeaning.SelfMergeReplay | chanevents/analyzer.go:516-541 | The doubled stream leaves every state where the single stream leaves it |
| UptimeMeaning.SelfUptime | chanevents/analyzer.go:516-541 | The self pair's doubled stream yields the single-stream uptime, in both directions |
| EventTable.LatestUpdateBefore | db/sqlc/chanevents.sql.go:136-141 | The latest-before query returns the newest matching update by (timestamp, id), and nothing exactly when there is none |
| EventTable.LatestUpdateMeans | db/sqlc/chanevents.sql.go:136-141 | The same in the terms of the rows: channel, type, time and id |
| EventTable.SelectMembers | db/sqlc/chanevents.sql.go:46-54 | The keyset query returns exactly the rows of the channel beyond the cursor and inside the half-open time range |
| EventTable.SelectIsTable | db/sqlc/chanevents.sql.go:46-54 | Its rows come in strictly ascending id order |
| EventTable.SelectResume | db/sqlc/chanevents.sql.go:46-54 | Resumed after its k-th result, the query returns exactly the results beyond the k-th |
| EventTable.NextPage | db/sqlc/chanevents.sql.go:46-54 | A full page followed by the query resumed at its last id is the whole query, with strictly fewer rows to come |
| EventStore.DeleteOlderMembers | db/sqlc/chanevents.sql.go:231-234 | The prune by age keeps exactly the rows at or after the cutoff |
| PeerEvents.WindowOfOne | chanevents/analyzer.go:557-595 | One channel's share of a peer's window is what its query returns from cursor 0 |
| PeerEvents.LoadChannelEvents | chanevents/analyzer.go:562-580 | The paging loop loses and repeats nothing, for every page size of at least one |
| PeerEvents.LoadPeerEvents | chanevents/analyzer.go:557-595 | The loaded stream is the one (timestamp, id)-sorted sequence of the peer's rows in the window, whatever the channel order |
| PeerEvents.SortUnique | chanevents/analyzer.go:583-592 | There is only one (timestamp, id)-sorted arrangement of rows with unique ids |
| PeerEvents.StreamOfLog | chanevents/analyzer.go:583-592 | On a log whose id order agrees with time order the sort changes nothing |
| UptimeWalk.ChannelState.Advance | chanevents/analyzer.go:856-883 | applyEvent writes the state that the event means, and is refused exactly for an unknown type |
| UptimeWalk.CopyChannelStates | chanevents/analyzer.go:840-851 | The copies show the same states and are fresh objects, so a walk leaves the caller's snapshot alone |
| UptimeWalk.InitialSums | chanevents/analyzer.go:470-485 | The seeded running sums are the totals of the online balances |
| UptimeWalk.MergeEventSlices | chanevents/analyzer.go:800-836 | The two-cursor loop computes the merge of two streams, the first stream going first on equal timestamps |
| UptimeWalk.ApplyToPeer | chanevents/analyzer.go:732-757 | Taking a channel out of the sums, applying the event in place and putting it back leaves the sums equal to the totals of the new states |
| UptimeWalk.ApplyToBoth | chanevents/analyzer.go:732-770 | A step keeps both peers' sums exact, also when both hold the channel, and fails exactly for an unknown type on a considered channel |
| UptimeWalk.WalkedMeaning | chanevents/analyzer.go:675-777 | After any number of events the walk's two totals are the uptimes up to its last timestamp |
| UptimeWalk.WalkCounts | chanevents/analyzer.go:669-777 | The sums and intervals of the walk count exactly the qualifying instants of the window |
| UptimeWalk.Walk | chanevents/analyzer.go:669-777 | The loop in place on the copied states computes the walk, or stops at the first unknown type |
| UptimeWalk.CalculateBothDirections | chanevents/analyzer.go:618-794 | uptimeAB and uptimeBA are the numbers of instants of the window at which, all events so far replayed, the balances on both sides of that direction are positive and reach the floor; the caller's states are unchanged; it fails exactly when an unknown type touches a considered channel |
| Seeding.GetInitialChannelState | chanevents/analyzer.go:342-424 | The seeding query, its residual replay and each of its error returns, on any table |
| Seeding.ResidualHasNoUpdate | chanevents/analyzer.go:342-424 | The residual query never returns an update |
| Seeding.SeedFailures | chanevents/analyzer.go:342-424 | errUnexpectedUpdateEvent is unreachable on any table; seeding fails exactly for too many residual events or an unknown type among them |
| Seeding.FullFromSeed | chanevents/analyzer.go:342-424 | Replay of the whole log splits at the seed update, which overwrites all that the earlier rows did to the balances |
| Seeding.SeedMatchesReplay | chanevents/analyzer.go:342-424 | A seeded state has the balances of the full replay, and its online flag unless both balances are zero |
| Seeding.SeededUptime | chanevents/analyzer.go:342-424 | The uptime of a seeded window is the uptime of a full replay of the log |
| Seeding.WindowsAddUp | chanevents/analyzer.go:342-424 | Uptime over [s, e) is uptime over [s, m) plus uptime over [m, e), the second window being seeded anew at m |
| Seeding.SeedSurvives | chanevents/store.go:350-399 | A prune that keeps a channel's seed update keeps its seeded state |
| Seeding.StreamSurvives | chanevents/store.go:350-399 | Such a prune keeps the loaded window events |
| Seeding.PrunePreservesAnalysis | chanevents/store.go:350-399 | Such a prune changes no seed, no window and no uptime |
| AllPairs.PairForwardedTotal | chanevents/analyzer.go:599-610 | A pair's volume is the sum of its recorded amounts, zero when none are recorded |
| AllPairs.MergedUnknown | chanevents/analyzer.go:524-536 | The walk of two different peers meets an unknown type exactly when one of their own streams does |
| AllPairs.WalkPair | chanevents/analyzer.go:505-541 | One walk gives both directions of a pair, and the self pair's walk gives its single-stream uptime |
| AllPairs.EnumeratePeers | chanevents/analyzer.go:460-463 | Every peer is enumerated exactly once, in any order |
| AllPairs.LoadPeer | chanevents/analyzer.go:440-458 | Loaded or cached, a peer's stream is its sorted window, and the cache holds nothing else |
| AllPairs.CalculateAllPairs | chanevents/analyzer.go:428-546 | Exactly one result for each ordered pair of peers, a function of that pair alone and so independent of the enumeration; it fails exactly when some peer's window holds an unknown type |
| ForwardingData.FetchedIsLog | chanevents/analyzer.go:178-207 | From a backend that serves a log the paging reads every forward exactly once, in order |
| ForwardingData.FetchForwards | chanevents/analyzer.go:178-207 | The paging loop ends for any backend, by its strictly rising offset, and returns what the pages hold |
| ForwardingData.AmountsAreMsats | chanevents/analyzer.go:209-250 | The recorded amounts of a pair are the msats that went from channels of the one peer to channels of the other, less a part of a sat for each forward |
| ForwardingData.GetForwardingData | chanevents/analyzer.go:170-250 | Every forward between known channels is filed under its pair in arrival order, in whole sats; all others are skipped; exactly the channels that took part are returned |
| EffectiveUptime.AddActiveChannels | chanevents/analyzer.go:255-288 | Open and closed channels are added to those with forwards, the last assignment winning; it fails exactly when a listing does |
| EffectiveUptime.ConsideredSays | chanevents/analyzer.go:170-288 | The last closed channel listed under a short channel id decides its peer, else the last open one, else the table for a channel of a forward with both ends known; no other channel is considered |
| EffectiveUptime.GetPeerChannelData | chanevents/analyzer.go:292-336 | Each considered channel that the store knows is seeded once and filed under its peer; it fails exactly when one cannot be seeded |
| EffectiveUptime.GroupedDisjoint | chanevents/analyzer.go:292-336 | No channel is filed under two peers |
| EffectiveUptime.AbilityFromLog | chanevents/analyzer.go:114-165 | The seeded, windowed ability of a pair is the one that replaying the whole log gives |
| EffectiveUptime.LogAbilitySays | chanevents/analyzer.go:114-165 | The ability that is answered: the number of instants at which the online balances that the log shows for the two peers reach the floor, and the msats forwarded from one to the other less a part of a sat for each forward |
| EffectiveUptime.PeersSay | chanevents/analyzer.go:292-336 | The peers answered for and their channels are those of the considered channels that the store knows |
| EffectiveUptime.LogAbilityBound | chanevents/analyzer.go:114-165 | Replaying the log never finds a pair up for longer than the window |
| EffectiveUptime.EffectiveUptime | chanevents/analyzer.go:114-165 | For exactly the ordered pairs of considered peers, the result is the uptime of a full replay and the exact forwarded volume; it fails exactly when the backend or a listing fails, a channel cannot be seeded or the window holds an unknown type |
| EventStore.PruneBySizeKeepsNewest | db/sqlc/chanevents.sql.go:247-254 | The delete below the id at an offset, COALESCEd to 0, keeps exactly the newest rows |
| EventStore.NewestMember | db/sqlc/chanevents.sql.go:247-254 | The rows kept by size are those with fewer than max rows of a higher id |
| EventStore.KeptExactly | chanevents/store.go:350-399 | A prune keeps exactly the rows among the newest max that are young enough |
| EventStore.InsertedChannel | chanevents/store.go:164-180 | A refused channel names a known channel point or short channel id; any other is added under a fresh id and all others stay |
| EventStore.PruneIdempotent | chanevents/store.go:350-399 | A prune repeated at the same clock deletes nothing |
| EventStore.PruneOfLog | chanevents/store.go:350-399 | On a log both limits together cut off a prefix |
| EventStore.PruneKeepsAnalysis | chanevents/store.go:350-399 | A prune by size and age that keeps the seeds changes no uptime |
| EventStore.Store.AddChannelEvent | chanevents/store.go:227-268 | The row is appended under an id above all present ones, stamped by the clock when it has no timestamp |
| EventStore.Store.PruneBySize | db/sqlc/chanevents.sql.go:247-254 | The statement leaves the newest rows and reports the number deleted |
| EventStore.Store.PruneByAge | db/sqlc/chanevents.sql.go:231-234 | The statement leaves the rows at or after the cutoff and reports the number deleted |
| EventStore.Store.PruneEvents | chanevents/store.go:350-399 | It is refused exactly for a maximum above int32, then deletes nothing; otherwise the kept rows remain and the count is exact |
| ChannelMonitor.LogAppend | chanevents/monitor.go:460-597 | An insert keeps ids and timestamps agreeing in order and both balances on each update |
| ChannelMonitor.LogPrune | chanevents/monitor.go:181-207 | A prune keeps them too |
| ChannelMonitor.MonitoredLogSeeds | chanevents/monitor.go:112-177 | On every log the monitor can write, seeding fails only for too many status events after the latest update |
| ChannelMonitor.HandleTells | chanevents/monitor.go:460-536 | After an inactive or closed event replaying the log leaves that channel offline, after an active or opened one online, after an opened or changed one at the reported balances; every other channel is left as it was |
| ChannelMonitor.SyncClosedTells | chanevents/monitor.go:294-345 | After the sync each closed channel that could be added is offline, and channels not listed are as they were |
| ChannelMonitor.SyncOpenTells | chanevents/monitor.go:347-411 | After the sync each open channel that could be added has the reported balances, and before that report its listed availability; channels not listed are as they were |
| ChannelMonitor.SyncShowsActive | chanevents/monitor.go:380-407 | After the sync the log shows a listed channel as active or not correctly exactly when it is active |
| ChannelMonitor.InactiveShownOnline | chanevents/monitor.go:380-407 | An inactive open channel is online in the log |
| ChannelMonitor.Monitor.constructor | chanevents/monitor.go:67-76 | A new monitor is neither synced nor warned, over a log in order |
| ChannelMonitor.Monitor.AddChannel | chanevents/monitor.go:414-457 | A channel is added once; a failed insert leaves the table of channels alone |
| ChannelMonitor.Monitor.AddStatusEvent | chanevents/monitor.go:539-572 | One online or offline row for a known channel, none for an unknown one |
| ChannelMonitor.Monitor.AddUpdateEvent | chanevents/monitor.go:575-597 | One update row with both balances for a known channel |
| ChannelMonitor.Monitor.HandleChannelEvent | chanevents/monitor.go:460-536 | Exactly the rows each event type writes, in order, also when a step fails half-way, and what the log says of every channel afterwards; types without a case write none |
| ChannelMonitor.Monitor.SyncClosedChannels | chanevents/monitor.go:294-411 | An offline row for each closed channel that could be added, skipping the others, and what the log says of every channel afterwards |
| ChannelMonitor.Monitor.SyncOpenChannels | chanevents/monitor.go:294-411 | A status row and an update row for each open channel that could be added, and what the log says of every channel afterwards |
| ChannelMonitor.Monitor.InitialSync | chanevents/monitor.go:294-411 | Closed channels are synced before open ones are listed; it succeeds exactly when both listings do, the rows written are exactly theirs, also when listing fails, and what the log says follows from the two syncs in turn |
| ChannelMonitor.Monitor.PruneEvents | chanevents/monitor.go:181-207 | The table holds at most max rows afterwards; the warning is remembered exactly from the first prune that deletes |
| ChannelMonitor.Monitor.Run | chanevents/monitor.go:112-177 | Every schedule of events, ticks and reconnections keeps the log in order; the ticker and the connection that completes the initial sync prune, nothing else does, and every prune leaves at most max rows |
| ChannelEventsRpc.LimitOf | frdrpcserver/getchanevents.go:75-78 | The clamped limit is between 1 and the maximum and never above what was asked for |
| ChannelEventsRpc.CursorAdvances | frdrpcserver/getchanevents.go:75-97 | While HasMore is set the rows past LastId strictly fall, and page and remainder are the whole answer |
| ChannelEventsRpc.FollowIsUnlimited | frdrpcserver/getchanevents.go:75-97 | A client following HasMore and LastId reads exactly one unlimited query |
| ChannelEventsRpc.PageSizeIrrelevant | frdrpcserver/getchanevents.go:75-97 | What it reads does not depend on the page size |
| ChannelEventsRpc.PageHolds | frdrpcserver/getchanevents.go:75-97 | A page holds rows of the channel beyond the cursor and in the window, ascending, none left out before its last; it leaves one out only when it has as many as were asked for, or 10,000 |
| ChannelEventsRpc.AnswerSays | frdrpcserver/getchanevents.go:80-100 | The response conveys the rows of the page, HasMore says whether it is full, LastId is the id of its last row or zero |
| ChannelEventsRpc.MarshalRPCChannelEvents | frdrpcserver/getchanevents.go:104-131 | Every event is converted, in order: its whole seconds, each balance in its own place, zero for one that is not set |
| ChannelEventsRpc.GetChannelEvents | frdrpcserver/getchanevents.go:23-100 | The call answers as the paging laws assume; it is refused exactly for an empty channel point, a negative number or a window that ends before it starts, and otherwise for an unknown channel |
| Hex.DecodeEncode | frdrpc/forwarding_ability_codec.go:132-147 | Decoding an encoded key gives the key back |
| Hex.EncodeDecode | frdrpc/forwarding_ability_codec.go:132-162 | Encoding what any string decodes to gives the string in lower case |
| Hex.DigitTable | frdrpc/forwarding_ability_codec.go:132-162 | Digits are written in lower case and read in either case |
| Hex.NoOtherDigit | frdrpc/forwarding_ability_codec.go:132-162 | No other character is read |
| Hex.EncodeByte | frdrpc/forwarding_ability_codec.go:132-162 | A byte is written with its high digit first |
| Hex.LessIsLexicographic | frdrpc/forwarding_ability_codec.go:142-147 | The order of keys is lexicographic by bytes, a proper prefix first |
| Bitmask.SetBit | frdrpc/forwarding_ability_codec.go:92-94 | In place, exactly the addressed bit is turned on |
| Bitmask.BitIsDigit | frdrpc/forwarding_ability_codec.go:92-101 | Bit k of a mask is the binary digit of weight 2^(k mod 8) of byte k / 8 |
| Bitmask.MaskOfBits | frdrpc/forwarding_ability_codec.go:99-101 | A mask is determined by what getBit reads from it |
| AbilityWire.QualifyingUptime | frdrpc/forwarding_ability_codec.go:77-88 | An uptime reaches MinQualifyingUptime exactly when it is positive and at least the threshold share of the window; for thresholds up to 1 the whole window always does |
| AbilityWire.NothingQualifies | frdrpc/forwarding_ability_codec.go:77-88 | Over an empty window no uptime short of the largest int64 qualifies |
| AbilityWire.PackInverse | frdrpc/forwarding_ability_codec.go:201-203 | Two 16-bit indices are recovered from packed_idx |
| AbilityWire.BitInverse | frdrpc/forwarding_ability_codec.go:349-354 | k/n and k%n recover the indices of bit i*n+j |
| AbilityWire.BitIndices | frdrpc/forwarding_ability_codec.go:342-354 | Every bit below n*n addresses two peers |
| AbilityWire.ResponseUnique | frdrpc/forwarding_ability_codec.go:110-250 | The facts determine the response: peers, entries and bitmask do not depend on map order |
| AbilityLaws.EntriesMean | frdrpc/forwarding_ability_codec.go:286-305 | Decoded entries are exactly the pairs the entries name, with their facts |
| AbilityLaws.BitsMean | frdrpc/forwarding_ability_codec.go:323-371 | A decoded pair is an entry's or a flagged one; an entry takes precedence, a flagged pair gets the whole window and no volume |
| AbilityLaws.RoundTrip | frdrpc/forwarding_ability_codec.go:56-374 | Decoding a response gives the lower-cased facts: forwarded pairs unchanged, idle pairs at the threshold as (window, 0), all others missing |
| AbilityLaws.LossyEncodes | frdrpc/forwarding_ability_codec.go:110-250 | What decoding leaves of an encodable map is encodable, with the same peers |
| AbilityLaws.CanonicalForm | frdrpc/forwarding_ability_codec.go:110-374 | Encode after Decode after Encode gives the first response again, for a threshold in [0, 1] and a positive window |
| AbilityMeaning.ClientLearns | frdrpc/forwarding_ability_codec.go:56-374 | A pair with volume decodes to its own facts, an idle pair with at least the minimum uptime to the whole window and no volume, and nothing else is decoded |
| AbilityMeaning.EntriesSay | frdrpc/forwarding_ability_codec.go:184-240 | There is an entry with packed_idx i * 65536 + j exactly for a pair with volume whose ends are the i-th and j-th peer, with its facts |
| AbilityMeaning.BitsSay | frdrpc/forwarding_ability_codec.go:207-230 | Bit i * n + j is set exactly for a pair without volume, of at least the minimum uptime, whose ends are the i-th and j-th of n peers; without any such pair there is no mask |
| AbilityMeaning.PeersSay | frdrpc/forwarding_ability_codec.go:119-147 | The peer list is strictly ascending and holds exactly the ends of pairs with volume or of at least the minimum uptime |
| AbilityMeaning.FailureSays | frdrpc/forwarding_ability_codec.go:110-250 | Encoding fails exactly for such a pair with an end that is not hex, more than 65535 ends, or two such pairs that differ only by case |
| AbilityMeaning.DecodedSays | frdrpc/forwarding_ability_codec.go:257-374 | A response is refused exactly for a key list, entry or mask of the wrong size or range; any other decodes to the pairs of entries, the last of a pair winning, and those of bits that no entry names |
| AbilityCodec.CollectPeers | frdrpc/forwarding_ability_codec.go:119-131 | The lower-cased endpoints of the pairs that get an entry or a bit |
| AbilityCodec.DecodePeers | frdrpc/forwarding_ability_codec.go:132-141 | The keys of all names, or a failure exactly when one is not hex |
| AbilityCodec.SortPeers | frdrpc/forwarding_ability_codec.go:142-147 | The keys strictly ascending by bytes, none lost |
| AbilityCodec.IndexPeers | frdrpc/forwarding_ability_codec.go:158-162 | Each name maps to its position |
| AbilityCodec.SortEntries | frdrpc/forwarding_ability_codec.go:234-240 | The entries strictly ascending by packed_idx, none lost |
| AbilityCodec.WritePairs | frdrpc/forwarding_ability_codec.go:184-232 | Entries and bits for exactly the relevant pairs, or a failure exactly when two of them differ only by hex case |
| AbilityCodec.FlagBit | frdrpc/forwarding_ability_codec.go:218-230 | The mask is allocated at the first idle pair and afterwards only gains bits |
| AbilityCodec.EncodeForwardingAbility | frdrpc/forwarding_ability_codec.go:110-250 | It fails exactly for a non-hex key, too many peers or a repeated pair, in this order, and otherwise returns the response of the facts |
| AbilityCodec.NestedByPairs | frdrpc/forwarding_ability_codec.go:257-374 | A nested map without empty inner maps is determined by its pairs |
| AbilityCodec.DecodeWireEntries | frdrpc/forwarding_ability_codec.go:286-305 | Entries within bounds are decoded; one out of bounds is refused |
| AbilityCodec.DecodeMask | frdrpc/forwarding_ability_codec.go:323-371 | The byte and bit loops, with their skips, decode every flagged pair |
| AbilityCodec.DecodeForwardingAbility | frdrpc/forwarding_ability_codec.go:257-374 | For any response, malformed ones included, the pairs it decodes to or the reason it is refused |
| ForwardingAbilityRpc.Nest | frdrpcserver/forwarding_ability.go:119-132 | The nested map holds exactly the pairs, truncated to whole seconds |
| ForwardingAbilityRpc.CountQualifying | frdrpcserver/forwarding_ability.go:134-148 | The count is the number of pairs at the threshold |
| ForwardingAbilityRpc.ForwardingAbility | frdrpcserver/forwarding_ability.go:32-169 | Each error status exactly when it is due, and a response, of the analysis' facts, exactly otherwise |
| ForwardingAbilityRpc.AnalysisWithinWindow | frdrpcserver/forwarding_ability.go:114-132 | Truncation keeps uptimes that fit the nanosecond window within the whole-second window |
| ForwardingAbilityRpc.ErrorBoundAt | frdrpc/forwarding_ability_codec.go:56-88 | A sent pair keeps its volume and overstates an idle uptime by at most window - MinQualifyingUptime; an unsent pair was below the threshold without volume |
| ForwardingAbilityRpc.GuardAndEncoderAgree | frdrpcserver/forwarding_ability.go:134-168 | When the guard passes, the response decodes to at least one pair and to exactly the pairs worth sending, each faithfully; all others were below the threshold without volume |
| ForwardingAbilityRpc.RequestSays | frdrpcserver/forwarding_ability.go:38-97 | Which times and thresholds are refused as invalid, with the defaults written out |
| ForwardingAbilityRpc.LongEnough | frdrpcserver/forwarding_ability.go:134-148 | A nanosecond uptime passes the guard exactly when its whole seconds are positive and the threshold's share of a window that is not empty |
| ForwardingAbilityRpc.GuardSays | frdrpcserver/forwarding_ability.go:134-156 | A valid request whose analysis answers is refused exactly when no pair was up that long |
| ForwardingAbilityRpc.PairIsTold | frdrpcserver/forwarding_ability.go:119-168 | What the client decodes for a pair of the analysis: its volume, and its uptime less a part of a second, or the whole window when it is idle and was up long enough |
| ForwardingAbilityRpc.OnlyPairsTold | frdrpcserver/forwarding_ability.go:119-168 | A decoded pair is one of the analysis that had volume or was up long enough |
| ForwardingAbilityRpc.ResponseTellsTheLog | frdrpcserver/forwarding_ability.go:32-169 | A successful response over an analysis of the log decodes, for every pair of considered peers, to what a replay of the whole log finds: with volume, to that volume and the nanosecond uptime less a part of a second; idle and up for the threshold's share of the window, to the whole window; and no pair is decoded that was neither |
| BlockRange.SearchFinds | frdrpcserver/node_audit.go:357-404 | On unsorted times a search stops at an exact match or at a block before the target whose successor is after it, and fails only for a target before genesis |
| BlockRange.MidpointFits | frdrpcserver/node_audit.go:368-370 | No midpoint of a search overflows in uint32 exactly up to height 2^31 - 1 |
| BlockRange.FindFirstBlockBeforeTimestamp | frdrpcserver/node_audit.go:357-404 | The uint32 loop computes the search over the integers, a wrap below genesis being a failed lookup; a search that succeeds probes only heights in [0, latest], at most floor(log2(latest + 1)) + 1 of them |
| BlockRange.ResolveBlockHeightRange | frdrpcserver/node_audit.go:309-353 | The two buffered searches, their errors and the swap to (0, 0) |
| BlockRange.ResolvedEnds | frdrpcserver/node_audit.go:309-353 | A range lies between a block where the chain passes the start less 24 hours, but not before 1970, and one where it passes the end plus 24 hours, or is (0, 0) when these cross; it fails only when genesis lies after one of the two instants |
| BlockRange.StopsOnce | frdrpcserver/node_audit.go:357-404 | On a chain in order of time such a block is the last one up to the instant |
| BlockRange.ResolvedCovers | frdrpcserver/node_audit.go:309-353 | With positive times and less than a day of disorder, a resolved range misses no block of the report |
| BlockRange.OnChainHeights | accounting/config.go:114-132 | The heights queried for cover every block of the report or are (0, 0), all history |
| BlockRange.DisorderOfADay | frdrpcserver/node_audit.go:309-353 | One block a full day earlier than its predecessor can make the range miss the first block of a report |
| BlockRange.BufferRepairsADay | frdrpcserver/node_audit.go:309-353 | The buffer repairs every chain of a given disorder exactly when that is at most a day |
| RevenueReport.Float64Exact | revenue/revenue.go:228-233 | A fee survives its float64 exactly when it is representable, as all below 2^53 are |
| RevenueReport.UlpScale | revenue/revenue.go:228-233 | The gap of a float64 is the power of two that leaves 53 bits |
| RevenueReport.Float64Nearest | revenue/revenue.go:228-233 | A float64 is a whole number of gaps, at most half a gap away, and of two equally near the even one |
| RevenueReport.Report.GetRevenue | revenue/revenue.go:150-167 | It reads the record, or an empty one, and creates only the target's own map |
| RevenueReport.Report.AddIncoming | revenue/revenue.go:180-192 | Incoming amount and fees are added to the target's record for the pair |
| RevenueReport.Report.AddOutgoing | revenue/revenue.go:197-209 | Outgoing amount and fees are added to the target's record for the pair |
| RevenueReport.GetReport | revenue/revenue.go:223-245 | A record for every two channels that met, in both directions, each field the exact sum over the forwards between them, also for forwards within one channel |
| RevenueReport.OneForward | revenue/revenue.go:223-245 | For one forward the record of the incoming channel shows what it took in, that of the outgoing channel what it paid out, and both its fee |
| RevenueReport.ReportsAdd | revenue/revenue.go:223-245 | The report of two lists of forwards is the sum of theirs, record by record and field by field |
| RevenueReport.FeesAgree | revenue/revenue.go:180-245 | FeesIncoming of a to b is FeesOutgoing of b to a, and what came in less what went out when every fee is representable |
| RevenueReport.LargeFeeRounds | revenue/revenue.go:228-233 | A fee of 2^53 + 1 msat loses one msat |
| RevenueReport.RecordsShowTotal | revenue/revenue.go:223-245 | The records of a report show every fee exactly twice |
| ChannelInsights.ChannelInfo.Accumulate | insights/insights.go:104-114 | The range adds volumes and half fees of all records of the channel |
| ChannelInsights.GetChannels | insights/insights.go:61-120 | One insight for each open channel, in order, with the totals of its records, or zeros when it has none |
| ChannelInsights.VolumesShown | insights/insights.go:99-114 | A channel's incoming volume is what the forwards took in on it, its outgoing volume what they paid out on it |
| ChannelInsights.EvenShares | insights/insights.go:104-114 | Two channels get equal shares of what they earned together, half of it each, rounded down |
| ChannelInsights.FeesConserved | insights/insights.go:104-114 | Over all channels of the report the split fees never exceed the fees of the forwards and fall short by at most half a msat for each record |
| ChannelInsights.InsightsSplitFees | insights/insights.go:99-114 | The same for the insights of any distinct open channels; those outside the report earn nothing |
| StableSort.Sort | dataset/dataset.go:57-58 | A sort is a sorted permutation |
| StableSort.SortOfSorted | fiat/prices.go:152-161 | Sorting a sorted series changes nothing |
| Dataset.RawValues | dataset/dataset.go:51-60 | The values of all labels, ascending, whatever the order of the range |
| Dataset.AscendingUnique | dataset/dataset.go:51-60 | Sorted values are determined by the dataset |
| Dataset.GetMedian | dataset/dataset.go:27-42 | It fails exactly for no values; of sorted values at most half lie below the median and at most half above |
| Dataset.MedianIndex | dataset/dataset.go:27-42 | It is the middle value, or the mean of the middle two |
| Dataset.Quartiles | dataset/dataset.go:65-99 | It fails exactly for fewer than three values; otherwise the medians of the two halves |
| Dataset.QuartilesOf | dataset/dataset.go:65-99 | The lower quartile is at most the upper |
| Dataset.QuartilesSay | dataset/dataset.go:65-99 | A quartile is the middle value, or the mean of the middle two, of the lowest or highest floor(n/2) values |
| Dataset.GetOutliers | dataset/dataset.go:179-217 | Every label is classified against the quartiles; no label of too small a dataset is an outlier |
| Dataset.OutlierMirror | dataset/dataset.go:119-140 | The lower fence is the upper fence of the mirrored values |
| Dataset.CriticalMultiplier | dataset/dataset.go:119-140 | A value is an outlier exactly when the multiplier is less than the number of quartile ranges by which it lies beyond its quartile |
| Dataset.OutliersSay | dataset/dataset.go:119-217 | The classification of every label by the sorted values themselves |
| Dataset.OutlierOnOneSide | dataset/dataset.go:119-140 | No value can be an outlier on both sides exactly when the multiplier is at least -1/2 or the quartiles coincide |
| Dataset.OutliersDisjoint | dataset/dataset.go:119-140 | So no label is both an upper and a lower outlier |
| Dataset.OutliersShrink | dataset/dataset.go:119-140 | Raising the multiplier never adds an outlier |
| Dataset.BelowLowerQuartile | dataset/dataset.go:27-99 | At most floor(n/4) labels lie strictly below the lower quartile |
| Dataset.FewLowerOutliers | dataset/dataset.go:119-140 | For a multiplier of at least 0 at most floor(n/4) labels are lower outliers |
| Recommend.FilterChannels | recommend/recommend.go:268-298 | Exactly the public channels that were monitored for long enough, in order |
| Recommend.FilteredAppend | recommend/recommend.go:268-298 | The filter works channel by channel, in order |
| Recommend.FilteredOne | recommend/recommend.go:268-298 | It drops a channel exactly when it is private or was monitored for less than the minimum |
| Recommend.MetricMeans | recommend/recommend.go:302-344 | Times the monitored time an uptime metric is the uptime; times the confirmations any other is the fees or volume that it is named for |
| Recommend.GetDataset | recommend/recommend.go:302-344 | A value for exactly the points of the eligible channels, each the metric of such a channel |
| Recommend.GetOutlierRecs | recommend/recommend.go:226-263 | A recommendation for every label, to close exactly the outliers of the chosen side |
| Recommend.GetThresholdRecs | recommend/recommend.go:200-219 | A recommendation for every label, to close exactly those at or below the threshold |
| Recommend.CloseRecommendations | recommend/recommend.go:141-196 | Both errors, both channel counts, and recommendations for exactly the eligible channels by the strategy |
| Recommend.ClosedSay | recommend/recommend.go:115-263 | A channel is closed exactly when there are three values or more and its own lies beneath the lower fence of the sorted values, or exactly when its value is at most the threshold |
| Recommend.FewAreClosed | recommend/recommend.go:115-123 | Outlier recommendations close at most a quarter of the considered channels, and no more of them under a larger multiplier |
| CandlePaging.AddUnseen | fiat/bitfinex_api.go:172-183 | The inner loop appends exactly the records of unseen times |
| CandlePaging.CandleMembers | fiat/bitfinex_api.go:68-86 | Candles open on the held buckets of a range and close at their prices |
| CandlePaging.QuerySays | fiat/bitfinex_api.go:68-86 | An answer holds the first candles that open in the window, both ends included, 10,000 at most |
| CandlePaging.PageOfBuckets | fiat/bitfinex_api.go:68-86 | A capped window answers all its candles, or all but its last |
| CandlePaging.UnseenOfPage | fiat/bitfinex_api.go:172-183 | A page adds exactly what lies beyond the candles collected so far, the shared boundary once |
| CandlePaging.RawPriceData | fiat/bitfinex_api.go:139-193 | Every held candle from the truncated start to the last bucket reached is collected exactly once, ascending, despite the cap and the shared boundaries |
| CandlePaging.ReachedExactly | fiat/bitfinex_api.go:139-193 | The last bucket reached is the end's own, unless the end opens a bucket a whole number of pages away and the last page is full |
| Prices.GetPriceRange | fiat/prices.go:136-162 | It fails exactly for an end before the start or after the current time; otherwise the collected candles in order |
| Prices.GetPrice | fiat/prices.go:334-364 | The last price before the series passes the timestamp, or which of the two errors |
| Prices.LastPriceMeans | fiat/prices.go:334-364 | The price found is the one before the first that lies after the timestamp, or the very last; none exactly when there is none or the first lies after it |
| Prices.LookupLatest | fiat/prices.go:334-364 | Among candles the lookup finds the latest held one up to the timestamp's own bucket |
| Prices.PricesWithin | fiat/prices.go:334-364 | Every timestamp from the start up to but excluding the end gets the latest candle the exchange holds for it, or an error when it holds none |
| Prices.OwnBucket | fiat/prices.go:334-364 | With its candle held, such a timestamp gets its own bucket |
| Prices.OwnBucketAtEnd | fiat/prices.go:334-364 | The end gets its own bucket exactly when the truncated start lies before it and its candle is not cut off |
| Prices.LoneOpening | fiat/prices.go:271-314 | A single timestamp that opens a bucket finds no prices |
| Prices.FullPageCutsEnd | fiat/bitfinex_api.go:139-193 | The end of one full page is priced by the bucket before its own |
| Prices.GetPrices | fiat/prices.go:271-314 | One query from the earliest to the latest timestamp, and a price for each of them or the error of one |
| Prices.PricesAreExact | fiat/prices.go:271-314 | With all candles held every timestamp is priced by its own bucket exactly under that condition on the latest |
| OnChainReport.NewHarmonyEntry | accounting/report.go:63-99 | The entry's signed amount is the given one, zero being a credit; it fails exactly when there is no fiat price |
| OnChainReport.ChannelOpenEntries | accounting/entries.go:56-111 | A local open books its amount and its fee, any other its amount only |
| OnChainReport.ClosedChannelEntries | accounting/entries.go:126-201 | A close books its amount, and the looked-up fee exactly when we opened the channel and can look fees up |
| OnChainReport.SweepEntries | accounting/entries.go:205-244 | A sweep books its amount, and its looked-up fee when fees can be looked up |
| OnChainReport.IsUtxoManagementTx | accounting/entries.go:247-264 | True exactly when all inputs and outputs are ours |
| OnChainReport.OnChainEntries | accounting/entries.go:295-360 | A generic transaction books its amount and fee, only a fee for a zero amount that is wholly ours, nothing for any other zero amount |
| OnChainReport.FilterOnChain | accounting/filter.go:39-85 | Exactly the transactions of the range, sends with their fee taken off; refused exactly when a receive of the range has a fee |
| OnChainReport.KeptAppend | accounting/filter.go:39-85 | The filter works transaction by transaction, in order |
| OnChainReport.KeptOne | accounting/filter.go:39-85 | A transaction is kept exactly when its time, or the current one while it is unconfirmed, is at least the start and before the end; a send has its fee taken off |
| OnChainReport.ReportOnChain | accounting/on_chain.go:263-330 | The entries of each transaction in turn, opens before closes before sweeps before generic ones; it fails exactly when one of them fails |
| OnChainReport.ReportLines | accounting/on_chain.go:263-330 | Every entry is a line of one of the transactions and every line that is due is there: its type, amount, sign, reference, time and price |
| OnChainReport.BooksLines | accounting/entries.go:56-360 | A transaction has exactly one entry of each type that is due, a fee last |
| OnChainReport.FailsExactly | accounting/entries.go:56-360 | A transaction cannot be reported exactly when an entry is due and has no price, or the fee of a close or sweep is not known |
| OnChainReport.SignShows | accounting/report.go:63-99 | Payments and local opens are debits, receipts and remote opens credits, of the amount of the transaction |
| OnChainReport.GroupedSums | accounting/on_chain.go:263-330 | The signed sum of a report and of its fee entries, from the transactions alone |
| OnChainReport.FeeSplitConserves | accounting/filter.go:59-79 | An accepted open's or generic transaction's entries sum to lnd's amount exactly when its fee is neither dropped nor booked without having been taken off |
| OnChainReport.FeesGoAstray | accounting/entries.go:56-360 | An open and a send that are all fee show nothing; a wholly internal zero amount shows its fee |
| OnChainReport.KeptBooked | accounting/filter.go:39-85 | What a filtered list books is what lnd reports less what is lost, transaction by transaction |
| OnChainReport.NothingLost | accounting/filter.go:39-85 | Opens and generic transactions that keep their fees lose nothing |
| OnChainReport.OnChainReport | accounting/on_chain.go:19-39 | The signed sum of the report is 1000 times lnd's amounts less an exact loss, which is zero for opens and generic transactions that keep their fees; it fails exactly when a transaction of the range cannot be reported |

## Left out

- Integer overflow of nanosecond times, msat sums, uptimes and a requested liquidity floor in 64 bits; the uint32 offsets and block heights and the int32 prune limit are modelled.
- Floating-point rounding of the uptime threshold, of dataset values and of prices, and NaN thresholds and dataset values: they are exact reals. Only the fee's float64 is modelled with its rounding.
- Ids that SQLite may reuse after the table drains: an inserted id lies above all ids present.
- Database failures, transactions and changes of the table between two queries of one call: each statement is atomic and the table stands still during an analysis.
- The peers table: a channel row carries its peer's public key, and a failed insert of a peer is not distinguished from one of a channel.
- Which of several errors of a call is returned where the caller treats them alike: EffectiveUptime and GetPeerChannelData return a failure without its text.
- The nested range over the codec's input map is one range over its pairs in any order, which every nested order is; upper-case hex digits outside ASCII are not lowered.
- Packed indices and bit positions are computed with integer multiplication instead of shifts; bytes of the mask are real 8-bit vectors.
- The library sorts are a sorted-permutation function on sequences instead of a sort in place.
- Several readings of the clock within one filter of unconfirmed transactions are one reading.
- The fiat value, note and category of an accounting entry, and the building of the open, closed and sweep tables in getOnChainInfo.
- OnChainReport.FeeSplitConserves: closes and sweeps are left to the general sum, because their fee is looked up elsewhere and is not part of lnd's amount.
- Exchange candles that are not aligned to their bucket, or with repeated times: the exchange holds at most one candle for each bucket.
- Recommend.CloseRecommendations: eligible channels whose monitored time or confirmations are zero, for which the float64 quotient is infinite or not a number, because values are reals.
- Recommend.GetDataset: the same zero divisors.
- BlockRange.FindFirstBlockBeforeTimestamp: chains of 2^31 blocks or more, where the uint32 midpoint of a search overflows and a search that wraps below genesis meets an existing height.
- BlockRange.ResolveBlockHeightRange: the same chains.
- BlockRange.OnChainHeights: the same chains.
- Other fiat backends, off-chain reports, close reports, the fee calculation of a transaction, outpoint parsing, event-type strings: they would only add easy members.
- Start-up, TLS, macaroons, servers, the command line, generated code, logging, contexts and cancellation, retries and timeouts.
