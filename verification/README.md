# Verified model of the ip.unt1.com service

A Dafny model of the in-memory machinery behind a "what is this IP address?" service: the VPN/Tor/proxy
verdict and the tables it is read from, the search index over published CIDR ranges, the bounded
single-flight caches that ASN and WHOIS lookups share, the token-bucket limiter, the set that deduplicates
log lines, and two small text scanners. `dafny verify dfyconfig.toml` verifies everything.

## How the model is laid out

| file | what it holds |
|---|---|
| `Bits.dfy`, `Netip.dfy`, `LastAddr.dfy` | addresses as (family, number), the canonical form, prefixes (section 3.1 of RFC 4632; IPv4-mapped IPv6 is section 2.5.5.2 of RFC 4291), the last address of a prefix by word mask and by byte loop |
| `RangeMerge.dfy`, `CidrIndex.dfy`, `IndexExactness.dfy` | sorting and in-place compaction of ranges, the index, its binary search, the linear scan it replaced, and exactly when the two agree |
| `TtlCache.dfy` | the bounded TTL cache as an object, one method per critical section |
| `SingleFlight.dfy`, `SingleFlightSafety.dfy`, `SingleFlightRuns.dfy`, `SingleFlightProgress.dfy` | any number of concurrent ASN lookups (origin cache, then organisation cache inside its computation) and WHOIS lookups (cache, then one of four permits), as threads that take one atomic step at a time |
| `SingleFlightSections.dfy`, `SingleFlightOutcomes.dfy`, `FailedOrgRun.dfy` | that the sections under a mutex act as the cache object's methods do, how long an entry lives given how its computation ended, and a run in which a failure is served for hours |
| `TokenBucket.dfy`, `RateLimiter.dfy` | bucket arithmetic over reals, the limiter object with eviction, and whole runs of it |
| `SeenSet.dfy` | the sliding TTL set, against the log of all calls |
| `Names.dfy`, `Feeds.dfy`, `Snapshot.dfy` | sorted feed names, what the raw feeds say of one address, and the tables derived from them |
| `Signals.dfy`, `Verdicts.dfy`, `VpnDb.dfy`, `Answers.dfy`, `Relay.dfy`, `RelayAnswers.dfy` | the Source field, the verdict from feeds to stamp, refreshes over whole runs, every field of an answer on what the feeds delivered, relay records, and which relay an address is said to belong to |
| `TopLevelSplit.dfy`, `CaddyBlock.dfy`, `CaddyTexts.dfy` | the quote-aware splitter, the brace matcher with the block swap built on it, and what the search finds in a text, piece by piece |

Iteration over a map is a nondeterministic choice of the next key throughout, so what is proved holds for
every order. Times are integer nanoseconds; each call is given the time it read, and nothing but what a
statement says is assumed of these times. DNS, WHOIS and feed downloads are arbitrary answers, failures or
cancellations.

## Where the code and its comments part

The model follows the code.

- cidrindex.go:138 relies on disjoint ranges, while cidrindex.go:108 merges only ranges of one provider. For
  any entries and any address, the index tells published addresses from others as the linear scan does, if
  and only if wherever an entry holding the address has an entry of another provider inside it that ends
  before the address, some entry inside it holds the address (`YesOrNoIsExact`). It names the publisher as
  the scan does if and only if, besides, the address has no two publishers (`ByWhomIsExact`).
  `NestedPrefixHidesOuter` is a family of addresses that are lost. The program is safe because one feed
  alone publishes ranges (`OneRangeFeed`).
- ua.go:10-12 calls the set bounded by `cap`. The loop takes the empty key for "no candidate yet", so a full
  set whose oldest entry is the empty key grows past the cap, and that is the only way
  (`CapFailsIffEmptyKeyIsOldest`); two calls suffice (`EmptyKeyOutgrowsTheCap`). Its one caller ignores
  empty strings (main.go:607).
- ratelimit.go:70-71 drops buckets that are indistinguishable from fresh ones, then arbitrary ones. Let t bound
  the stamps still to come, which may run back, as each call reads its time before it waits for the lock
  (ratelimit.go:44-45). Dropping buckets can be told from keeping them, by some calls stamped t or later, if
  and only if one of them would not be full at t (`EvictionIsUnobservableIffFull`). Arbitrary buckets need not
  be (`ArbitraryEvictionIsObservable` is a run). Nor need idle ones be when stamps run back far
  (`IdleEvictionCanShow` is a run with 2.5 s against an idle time of 2 s); they are when stamps run back by at
  most a quarter of the idle time (`IdleEvictionIsUnobservable`), 15 s as configured.
- asn.go:16-18 says that a failed lookup is cached only briefly. That holds of the address and of the
  organisation each in its own cache (`FailuresAreCachedBriefly`). An address answer keeps the organisation
  it was given for its own twelve hours: it serves a failed query past the minute if and only if the query
  behind it failed (`FailedOrgIsServedLongerIff`), and `FailedOrgIsServedForHours` is a run in which it does.
- vpn.go:430-432 speaks of Tor; the pass gives every address list precedence over every relay.
- vpn.go:49 lists four values of Source; there are seven signals, joined in the order of the steps.
- netutil.go:8-9 says that a zoned address is rejected by Prefix; the library drops the zone. Nothing
  depends on it, as the zone is gone before.

## Model

| member | source | states |
|---|---|---|
| Netip.CanonicalIPIsTheHostsOneForm | netutil.go:17-28 | canonical addresses are exactly the fixed points, and two addresses get one canonical form exactly when they name one host |
| Netip.MappedIsUnmapped | netutil.go:17-28 | an IPv4 address behind ::ffff:0:0/96 becomes itself; any other IPv6 address only loses its zone |
| Netip.ContainsIffBetween | cidrindex.go:37-64 | a prefix contains an address (equal top bits, one family, no zone) exactly when the address lies between the prefix's first and last |
| Netip.NestedOrDisjoint | cidrindex.go:37-64 | two prefixes of one family are nested or disjoint |
| Netip.NeighbourhoodIsContainment | vpn.go:94-109 | every valid address has a /24 or /64; another address has the same one exactly when that prefix contains it |
| LastAddr.LowBitsSetValue | cidrindex.go:55-62 | setting the low bits byte by byte rounds the whole number up to the end of its block, for host counts that are no multiple of 8 too |
| LastAddr.SetLowBits | cidrindex.go:53-63 | the byte loop, in place: every byte gets exactly its share of the low bits |
| LastAddr.WordMaskReachesTheEnd | cidrindex.go:40-51 | the IPv4 word mask, /0 included, yields the arithmetic end of the prefix |
| LastAddr.LastAddrOf | cidrindex.go:37-64 | the result is base + 2^host - 1 in the prefix's family, for every valid prefix |
| RangeMerge.SortSlice | cidrindex.go:98-104 | sorting in place: an ordered rearrangement |
| RangeMerge.MergeInto | cidrindex.go:106-121 | one round of the compaction loop: the merged part takes in one range, and no element beyond the read position changes |
| RangeMerge.SortMerge | cidrindex.go:94-123 | sorting and compacting in place leaves what merging an ordered rearrangement leaves; unread ranges are never overwritten |
| RangeMerge.MergedCovers | cidrindex.go:105-122 | merging changes nothing about which address belongs to which provider |
| RangeMerge.SortedMergeMeaning | cidrindex.go:94-123 | for every outcome of the sort: same coverage, and disjoint with a gap between neighbours of one provider when overlapping ranges agree |
| RangeMerge.CanonicalFormIsUnique | cidrindex.go:94-123 | a coverage has one canonical list |
| RangeMerge.SortedMergeIgnoresOrder | cidrindex.go:94-123 | the result depends on what is covered alone, not on order or duplicates |
| CidrIndex.CidrIndex.Build | cidrindex.go:73-92 | the index built from entries: the merged ranges of their valid prefixes, family by family |
| CidrIndex.SearchFirstAbove | cidrindex.go:140-142 | binary search finds the first range that starts above the address |
| CidrIndex.CidrIndex.Lookup | cidrindex.go:125-151 | a provider is found exactly when some entry of it contains the canonical address, given that overlapping entries agree |
| CidrIndex.IndexAgreesWithScan | ip_test.go:87-123 | the index and the linear scan give the same answer for all entries, outcomes of the sort and addresses |
| IndexExactness.ProbeIsSeen | cidrindex.go:105-150 | what a probe of the merged list finds is what the last ranges of one provider starting at or below the number hold, for every sorted list |
| IndexExactness.YesOrNoIsExact | cidrindex.go:94-151 | for all entries, addresses and orders of ties: the index answers yes or no as the scan, if and only if no entry of another provider hides the address inside an entry that holds it, unless an entry further inside holds it |
| IndexExactness.ByWhomIsExact | cidrindex.go:94-151 | it names the publisher as the scan, if and only if, besides, the address has no two publishers |
| CidrIndex.NestedPrefixHidesOuter | cidrindex.go:138-150 | beyond a nested prefix of another provider, an address is published and not found |
| TtlCache.TtlCache.Begin | cache.go:64-79 | first section of Do: what a section may do (Begins), which the protocol's step is shown to do too, and a call that is new |
| TtlCache.TtlCache.Finish | cache.go:83-90 | second section of Do: the value is published, stored only for a positive TTL, the map evicted (Stores), the key's call deleted |
| TtlCache.TtlCache.EvictLocked | cache.go:95-115 | eviction in any iteration order: a subset; unchanged within the cap; otherwise live entries only, as many as fit |
| TtlCache.EvictionIsExact | cache.go:95-115 | eviction obeys the cap, if there is one, and drops no entry that has yet to expire while these fit |
| TtlCache.StoredIsServed | cache.go:83-90 | nothing is stored for a lifetime of zero or less; else the value is there, to expire a lifetime later, unless more entries are live than fit; other entries may only go |
| SingleFlightRuns.InvKept | cache.go:64-93 | every step of every thread keeps the protocol's invariant, and recorded history only grows |
| SingleFlightRuns.OneComputationPerKey | cache.go:63-81 | in every reachable state at most one computation runs per cache and key |
| SingleFlightRuns.InFlightIsTheLeaders | cache.go:77-89 | the in-flight map holds exactly the current leaders' calls, so a delete never removes another's |
| SingleFlightRuns.WaitersReadTheLeadersValue | cache.go:70-75 | a waiter that wakes reads a written value, the one its call's computation returned |
| SingleFlightRuns.CoalescedCallersAgree | cache.go:70-92 | all callers of one call return one value for one key, whoever leads next |
| SingleFlightRuns.ReturnedValuesAreJustified | cache.go:57-93 | every returned value was computed for the caller's own key; a cached one was read within its lifetime |
| SingleFlightRuns.GetIsFresh | cache.go:45-55 | whatever Get would return was computed for that key and published less than its TTL ago |
| SingleFlightSections.LookBegins | cache.go:65-79 | the protocol's step admits a caller as Begin does, and a new call is one never used before |
| SingleFlightSections.OnlyTheHolderTouches | cache.go:65-90 | while a thread holds a cache's mutex no step of another changes that cache |
| SingleFlightSections.SectionFinishes | cache.go:83-90 | from taking the mutex to the delete, whatever other threads do in between, the second section stores, evicts and deletes as Finish does on the cache it found |
| SingleFlightOutcomes.EntriesFollowTheirOutcome | cache.go:57-61 | in every run each entry holds what its computation's outcome yields and expires as that outcome allows; no cancelled query stands behind an entry |
| SingleFlightOutcomes.EntriesInNumbers | asn.go:40-45 | the same in numbers: 12 hours for an answer about an address or an organisation and 60 s for a failed one, 24 hours and 300 s for WHOIS, nothing for a cancelled query, and the value each leaves |
| SingleFlightOutcomes.FailuresAreCachedBriefly | asn.go:80-86 | a live entry of a failed resolution was published less than a minute ago, of a failed WHOIS query less than five |
| SingleFlightOutcomes.OrgStemsFromItsOwnLookup | asn.go:121-142 | the organisation in a cached address answer came from a lookup of the organisation of that AS and no other, taken before the answer was published and within that lookup's own lifetime; it is the name the lookup ended with, or missing because the lookup failed |
| SingleFlightOutcomes.AsnKeysDiffer | asn.go:127-127 | different AS numbers have different cache keys |
| SingleFlightOutcomes.FailedOrgIsServedLongerIff | asn.go:84-86 | in every run a cached address answer serves a failed organisation query past that query's own lifetime if and only if the query behind the answer failed |
| FailedOrgRun.FailedOrgIsServedForHours | asn.go:119-131 | a reachable state that serves, eleven hours on, an address answer whose organisation query failed |
| SingleFlightRuns.BoundedWhileUnlocked | cache.go:81-115 | in every reachable state a cache whose mutex is free holds at most 50000 addresses, 8192 organisations or 20000 WHOIS answers |
| SingleFlightRuns.WhoisQueriesAreBounded | signals.go:145-173 | at most four WHOIS queries run at once |
| SingleFlightProgress.ActionUsesMeasure | asn.go:74-142 | every step of a thread uses up a measure |
| SingleFlightProgress.RunsAreShort | asn.go:74-142 | however n lookups interleave, they make at most 24 n steps |
| SingleFlightProgress.NoDeadlock | signals.go:155-171 | while a lookup has not returned, some thread can act without waiting for time to pass or a caller to give up |
| SingleFlightProgress.StoppedRunsAreFinished | asn.go:74-142 | a run no thread can extend has returned every lookup |
| TokenBucket.TokensAreTheLeastWindow | ratelimit.go:57-66 | the tokens before a call are the least, over all earlier calls, of burst plus earnings minus calls allowed since; times may run backwards |
| TokenBucket.AllowsIffNoWindowExceeded | ratelimit.go:43-68 | a call is allowed exactly when, with it, no window that ends at it holds more allowed calls than the burst plus the rate times its seconds |
| TokenBucket.WindowsAreBounded | ratelimit.go:43-68 | up to any allowed call, no window holds more calls than the burst plus the rate times its seconds |
| RateLimiter.RateLimiter.Allow | ratelimit.go:43-68 | one call: an existing bucket is refilled and drawn on; a new one is opened after making room |
| RateLimiter.RateLimiter.EvictLocked | ratelimit.go:70-85 | eviction in any iteration order: no idle bucket stays, the rest fits below the cap, nothing kept is changed |
| RateLimiter.EvictionWrittenOut | ratelimit.go:70-85 | bucket by bucket: none idle for longer than the idle time stays, and all others do, unchanged, unless max or more of these remain: then max - 1 of them |
| RateLimiter.IdleTimeIsTwiceTheFill | ratelimit.go:73-73 | the idle time is twice the seconds that fill an empty bucket, less what rounding to nanoseconds takes |
| RateLimiter.RunIsBounded | ratelimit.go:31-54 | in any run the table stays within max, for max of at least 1 |
| RateLimiter.IdleIsFull | ratelimit.go:70-78 | a bucket is full whenever it is idle exactly when it is full a nanosecond past the idle time, which it is unless it owes more than the time to fill an empty bucket earns |
| RateLimiter.IdleEvictionIsUnobservable | ratelimit.go:70-78 | while the idle pass makes room and stamps run back by at most a quarter of the idle time, every call on every key is answered as by a limiter that never evicts |
| RateLimiter.IdleEvictionCanShow | ratelimit.go:72-78 | with stamps that run back further it can be told: a run in which the idle pass makes room and an answer changes |
| RateLimiter.FullEvictionIsUnobservable | ratelimit.go:70-85 | in a run whose evictions drop only buckets that are full at the stamps of their key still to come, with stamps in any order, every call is answered as by a limiter that never evicts |
| RateLimiter.EvictionIsUnobservableIffFull | ratelimit.go:70-85 | for any table and any bound on the stamps still to come, in any order: dropping buckets changes no later answer if all of them would be full at that bound; and, for a whole burst, only if |
| RateLimiter.ArbitraryEvictionIsObservable | ratelimit.go:79-84 | the difference is reachable: a run in which evicting a bucket that is not full changes an answer |
| RateLimiter.LimiterIsExact | ratelimit.go:43-85 | on the log of calls and answers, with stamps in any order, while evictions drop only buckets that are full at the stamps of their key still to come: a call is allowed exactly when, with it, no window over all that key's calls holds more allowed ones than the burst plus the rate times its seconds |
| RateLimiter.BucketsHoldTheirLives | ratelimit.go:43-68 | in any run, with times in any order and any eviction, a bucket is what the calls on its key since it was opened made of it |
| RateLimiter.AnswersAreExactWithinLives | ratelimit.go:43-85 | on the log, in any run with any eviction: the same for the windows since the call that opened the key's bucket, which is shown to exist |
| SeenSet.SeenSet.FirstSeen | ua.go:24-55 | one call: a live key is refreshed; a new one is stored and, over the cap, the set trimmed |
| SeenSet.SeenSet.Evict | ua.go:39-52 | the loop, in any order: expired entries go, then what the loop remembers as oldest if still over the cap |
| SeenSet.OldestIsOldest | ua.go:46-48 | among nonempty keys the loop remembers an oldest live one |
| SeenSet.RunIsBounded | ua.go:26-55 | in any run on nonempty keys the set stays within its cap |
| SeenSet.AnswersAreJustified | ua.go:24-55 | a key called seen was seen within the TTL; one called new was not, unless cap other keys were seen since |
| SeenSet.FewKeysMeanExactAnswers | ua.go:24-55 | with no more distinct keys than the cap, every answer is that of a scan of the call log |
| SeenSet.CapFailsIffEmptyKeyIsOldest | ua.go:39-52 | one call can overgrow the cap if and only if a new key meets a full set, nothing expired, whose oldest entry is the empty key |
| SeenSet.EmptyKeyOutgrowsTheCap | ua.go:39-52 | such a call is reachable from an empty set |
| Names.SortedNames | vpn.go:408-412 | the names collected from a map in any order and sorted: ascending, each key once |
| Names.LeqIsByFirstDifference | vpn.go:408-412 | the order of names: at the first character that differs the smaller decides, and a name comes after what it starts with |
| Names.SortedKeysAreUnique | vpn.go:405-412 | there is one such list, so map order does not show |
| Feeds.LastRelayIsTheLast | vpn.go:416-422 | the relay an address resolves to within one feed is the last in the list that has it |
| Feeds.SortedPassesAreExact | vpn.go:414-439 | relays in ascending name order, then address lists, give exactly: an address list wins, else the greatest feed name with a relay for it |
| Feeds.ExactIsUnique | vpn.go:405-407 | the naive reading of the feeds has one answer for an address |
| Snapshot.Snapshot.AddRelays | vpn.go:416-422 | the relay loop: each address takes the tag and record of the last relay that has it |
| Snapshot.Snapshot.AddListed | vpn.go:433-439 | the address-list loop: each listed address is tagged with the feed's name and loses its relay |
| Snapshot.Snapshot.MarkNeighbourhoods | vpn.go:442-456 | for every iteration order: a prefix is marked with its one provider other than Tor, "multi" when it has several, not at all when it has none |
| Snapshot.BuildSnapshot | vpn.go:395-460 | the derived tables say of every address, prefix and range exactly what the raw feeds say; ready exactly when some feed holds a relay, an address or a range |
| Snapshot.DerivedTablesAreUnique | vpn.go:405-407 | two snapshots of the same feeds have the same tables, whatever the iteration orders were |
| Snapshot.RelaysArePublished | vpn.go:81-83 | an address with a relay carries that relay's provider, is one of its addresses, and is in no address list |
| Snapshot.EntriesSayWhatFeedsSay | vpn.go:423-425 | the entries handed to the range index publish what the range feeds publish |
| Signals.SplitOfJoin | vpn.go:258-268 | splitting a join on '+' recovers the parts |
| Signals.AppendSourceExtends | vpn.go:258-268 | appending a signal extends the reported list by it, unless it is there already |
| Signals.SourceSplitsIntoSignals | vpn.go:258-268 | splitting a reported Source recovers exactly the signals, in order |
| Verdicts.CheckSnapshot | vpn.go:140-210 | for any feeds, Check gives the verdict of a scan of the address feeds joined with what the range index answers; when the ranges of different feeds do not meet, that is the verdict of a scan of all feeds |
| Verdicts.VerdictIsUnique | vpn.go:140-210 | when the ranges of different feeds do not meet, that scan has one verdict |
| Verdicts.MarkIsSoleNeighbour | vpn.go:167-177 | the mark consulted is the sole provider, other than Tor, tagged on any address of the same /24 or /64 |
| Verdicts.Augment | vpn.go:212-247 | Tor and relay-proxy verdicts are untouched; WHOIS is asked exactly when neither, with a cache at hand, nobody named so far, and a rental network; what each signal adds, and that nothing else changes |
| Verdicts.SourceTellsTheVerdict | main.go:1065-1092 | Source is the join of the raised signals, in order and without repetition, and of no other list; the flags are those signals; each stamp says exactly which signals there are: Clean and Unknown none, Hosting a hosting network's alone, Private Relay a published range, VPN any other |
| VpnDb.TakeIn | vpn.go:352-379 | results as they arrive: a good one replaces its feed's data, a failed or empty one keeps it; an error is reported exactly when none is good |
| VpnDb.VpnDb.Refresh | vpn.go:304-393 | the new snapshot is that of the history extended by the round |
| VpnDb.VpnDb.Ready | vpn.go:134-138 | ready exactly when some result ever came without failing and with a relay, an address or a range |
| VpnDb.VpnDb.Check | vpn.go:140-210 | after any run, for every address and ASN, the verdict of a scan of every feed's latest good data |
| VpnDb.VpnDb.LookupRelay | vpn.go:249-256 | the relay that the raw feeds attribute the address to, if any |
| VpnDb.VpnDb.Gather | main.go:505-514 | the verdict is that of the scan for this address and ASN, augmented by these later answers; its stamp is the one the raised signals call for, and tells Clean from Unknown by whether some feed ever delivered |
| VpnDb.FeedsHoldLatestGood | vpn.go:21-23 | after any run each feed holds exactly its latest nonempty success |
| VpnDb.DeliveriesAreKept | vpn.go:360-379 | a result that did not fail and has a relay, an address or a range leaves exactly its three lists at its name, and the database ready, until the feed next delivers |
| VpnDb.HeldIffDelivered | vpn.go:360-379 | a feed holds something exactly when it ever delivered |
| Answers.TaggedVerdict | vpn.go:148-163 | an address is a Tor exit exactly when its tag is "tor", and then has neither provider nor relay; any other tag names provider and relay, and rules a relay proxy out |
| Answers.UntaggedVerdict | vpn.go:164-191 | without a tag, a relay proxy exactly when a published range holds the address; the provider is the range's feed, else the one provider nearby, else none |
| Answers.VerdictFlags | vpn.go:180-207 | the network is the known operator of the ASN; hosting exactly when that is not rented out to VPNs; vpn exactly when there is a tag, a range, a provider nearby or a rented network |
| Answers.AugmentedFields | vpn.go:222-246 | what a host name and a WHOIS answer do to the flag and to the provider |
| Answers.AugmentedSource | vpn.go:258-268 | the text of Source, to the letter, on what the feeds and the later lookups say |
| Answers.DeliveredRangeIsAnswered | vpn.go:180-191 | after any run, an address without a tag in a range that the range feed last delivered is a relay proxy of that feed |
| Answers.ListedExitIsAnswered | vpn.go:158-163 | after any run, an address in any form whose host the Tor feed last delivered is a Tor exit |
| VpnDb.ReadyNeverReverts | vpn.go:426-428 | once ready, ready after any further results |
| VpnDb.FailingRoundKeepsVerdicts | vpn.go:360-383 | a round in which every feed fails leaves every verdict unchanged |
| VpnDb.ArrivalOrderIsIrrelevant | vpn.go:360-379 | the order in which the feeds report does not matter |
| VpnDb.OneRangeFeed | vpn.go:308-319 | in every reachable state ranges of different feeds do not meet |
| Relay.RelayRecord.AddRelayAddr | relay.go:67-85 | an address is appended in canonical form, a text that names none changes nothing; the endpoint shown is the first of its family and never replaced |
| Relay.RecordedNamesTheHosts | relay.go:67-85 | after any number of calls, an address resolves to the record exactly when one of the texts named its host |
| RelayAnswers.PublishedRelayIsAnswered | vpn.go:140-166 | an address in any form, whose host no address list has, gets from Check and LookupRelay the last relay with a text naming that host, in the last feed by name that has one |
| RelayAnswers.RunsKeepRecords | relay.go:89-256 | relays recorded from texts are what the database holds after any run |
| TopLevelSplit.SplitTopLevel | main.go:414-434 | the pieces join to the input, every piece but the last has an even number of quotes, and none can be cut further |
| TopLevelSplit.CutsAreTopLevelSeparators | main.go:421-431 | cuts fall exactly at the separators that an even number of double quotes precedes |
| TopLevelSplit.SplitIsUnique | main.go:414-434 | a text has one such split |
| TopLevelSplit.PiecesAreFinal | main.go:414-434 | splitting a piece again returns it alone |
| CaddyBlock.MatchHeader | deploy/swap-caddy-block.py:28-31 | whether the header pattern matches at a place, and where its brace is |
| CaddyBlock.FindBlock | deploy/swap-caddy-block.py:27-50 | the first header decides; the block ends where its braces first balance, or the search reports that there is none or that they never do |
| CaddyTexts.NotFoundIffNoLineIsHeader | deploy/swap-caddy-block.py:30-33 | no block is found exactly when no line of the text reads: blanks, the site name, white space (line ends included), an opening brace |
| CaddyTexts.FirstHeaderDecides | deploy/swap-caddy-block.py:34-50 | else the earliest such line decides: the block ends after the character at which closing braces first equal opening ones, and one newline; it is unbalanced when they never do |
| CaddyTexts.SiteLineIsFound | deploy/swap-caddy-block.py:30-33 | a site after any newline and blanks is found, or a block before it is |
| CaddyBlock.OutcomeIsUnique | deploy/swap-caddy-block.py:27-50 | that describes one outcome for every text and site |
| CaddyBlock.RemovedSpanBalances | deploy/swap-caddy-block.py:34-49 | the removed span runs from the header to a closing brace where the depth returns to zero for the first time, and one newline if there is one |
| CaddyBlock.SpliceKeepsTheRest | deploy/swap-caddy-block.py:58-58 | text outside the span is kept |
| CaddyBlock.SwapIsIdempotent | deploy/swap-caddy-block.py:57-59 | in the new text the first match spans exactly the new block, and swapping again changes nothing |
| CaddyBlock.ScriptBlockQualifies | deploy/swap-caddy-block.py:9-24 | the block the script writes meets what the idempotence needs of it |

## Left out

- HTTP handlers, templates, cookies, logging, flags and output formatting: input, output and user interface.
- DNS, WHOIS and feed downloads, and parsing of their answers: arbitrary answers, failures or cancellations that return.
- User-Agent patterns, client-hint brand choice, country and colo tables: table lookups and library patterns.
- The contents of the ASN, rDNS and WHOIS tables: arbitrary maps and answers. Label texts shown with a stamp follow from them.
- The Reasons texts of a verdict, and the tone and wording around a stamp.
- YAML and JSON output: they rest on library encoders.
- Floating-point rounding in the limiter (reals are used), overflow of its idle duration, and jumps of the wall clock.
- A rate of zero or less, and a burst below one: the program configures neither.
- Panics inside a cache computation: every computation is taken to return.
- isRoutable, limiterKey and the printed form of addresses: each is settled by reading the branch. A relay's endpoints are kept as addresses.
- Calling Lookup on a nil index, which finds nothing: the index always exists.
- sort.Slice, sort.Strings, sort.Search and the address library are modelled by what they promise. sort.Slice may leave any ordered rearrangement.
- Sharing of relay records: the program points into the feed's slice, the model copies the record, which nobody changes afterwards.
- The goroutines of a refresh: their results arrive in an arbitrary order.
- Begin: as a method it is the first section of Do, run under the mutex; Finish is the second. Do itself, with its waiting, is the protocol of the SingleFlight modules, whose sections are shown to have the same effect.
- SplitTopLevel: reads characters where the program reads bytes. The two agree as both quote and separator are ASCII.
- SwapIsIdempotent: for a site name that starts with neither white space nor a brace and contains no newline, as the script's does.
- LimiterIsExact: while evictions drop only buckets that are full at the stamps of their key still to come; AnswersAreExactWithinLives needs no such condition.
- IdleEvictionIsUnobservable: for stamps that run back by at most a quarter of the idle time. Between that and the exact condition of EvictionIsUnobservableIffFull, whether an idle bucket shows depends on what it owes.
- EvictionIsUnobservableIffFull: "only if" is for a whole number of tokens as the burst, as the program configures. With a fraction, whether a bucket that is nearly full shows depends on whether a nanosecond earns a token.
