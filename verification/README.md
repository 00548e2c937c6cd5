# leng, modelled and proved in Dafny

leng is a blocking DNS proxy. A request is answered from custom records, a block list, a positive and a
negative cache, or an upstream lookup, and CNAMEs in the answer are followed. This project models the parts
of it that are hard to get right and proves what they promise. `dafny verify dfyconfig.toml` checks all of it.

| file | models | main results |
|---|---|---|
| `CacheProtocol.dfy` | the bounded cache as atomic steps of any number of callers | the map holds at most `maxSize + N - 1` keys with N `Set` calls in flight, the bound is attained for every `maxSize` and N, the counter is exact up to steps under way |
| `Lcache.dfy` | the same cache as an object, with int64 and uint32 arithmetic and shared records | what a history of calls leaves for a key, and the TTLs a `Get` leaves, for every history |
| `DecrementingCache.dfy` | the older cache, which subtracts instead of storing an expiry | telescoping under any polling pattern; both caches agree to within one second |
| `Questions.dfy` | questions and their cache keys | printing is injective, so keys identify questions |
| `Engine.dfy` | `responseFor` over whole runs: requests step by step through both caches, lookups, delayed inserts, clock | which source answers, and what following adds behind blocked and custom names |
| `Provenance.dfy` | where cached replies come from in those runs | provenance of every cached reply, blocked and custom names never cached |
| `Serving.dfy` | how long a reply stays in those runs | exactly when a stored answer is served until it expires |
| `Failures.dfy` | failed lookups over the same runs | when a question can fail twice, exactly |
| `Handler.dfy` | the event loop object | the code of `responseFor` takes the engine's steps, and a request with its follow-ups is one CNAME run |
| `CnameFollowing.dfy` | the CNAME loop | the reply is bounded reachability; chains, cycles, faults |
| `UpstreamRace.dfy` | the race of nameserver workers, DoH first | when a lookup may fail, where answers come from, at most `4n + 4` steps, no deadlock |
| `EventLoopProtocol.dfy` | senders, dispatch loop, workers, `Stop` | no send on a closed channel, nothing accepted is lost, at most 100 at once, everything accepted is finished, `Stop` gets the lock |
| `Glob.dfy` | the glob matcher | the greedy algorithm decides the meaning of a pattern; matching is transitive |
| `BlockList.dfy` | the two-table block list | it refines one set of rules, read off the history |
| `HostFile.dfy` | hosts-file lines and their loader | lines are read back exactly; which names the loader's shortcut keeps, exactly |
| `CustomRecords.dfy` | grouping of custom records | every accepted record is kept, once, in order |

Concurrent parts are transition systems: a state, a `Step` that is `None` where an action is not enabled, and
`Exec` over sequences of actions. A lemma about every sequence is one about every interleaving. Code that works
one call at a time is a class or a method with its loops, tied by its postcondition to a function on values
about which the lemmas are proved. What comes from outside (the clock, upstream outcomes, the regular
expression library, the record parser, the hash, the custom-record table) is a parameter.

Where a comment and the code differ, the model follows the code: `Lookup` says it starts a request every second,
while the ticker uses the configured interval (here any tick may come at any time); `canFollow` says "no A
records", while the code also looks for AAAA.

Five promises do not hold as one might expect; for each the model gives inputs that break it and the exact condition:

- Following a CNAME whose lookup fails reads a nil message (`LoneCnameFaults`). `FaultIffLookupFails` says when,
  in terms of the answers alone: a CNAME that does not resolve comes within reach before any address does.
- A regular expression that matches the text of an entry makes the loader pass over the entry although names it
  covers stay unblocked, whatever the library (`RegexMayHideALine`). `FileExact` and `UpdateExact` say which names
  end up blocked in every case where the lines are names and globs, `LoadExact` for any lines; `LoadMeaning` and
  `UpdateMeaning` are the case where nothing is hidden. That case is sufficient, not necessary
  (`UniversalRegexHidesNothing`).
- A question may fail upstream twice (`ConcurrentRequestsMayFailTwice`, `FullCacheLetsFailTwice`): exactly when a
  lookup of it is started while one is under way or after one has failed (`FailsTwiceIffRepeated`). The second needs
  a full negative cache that refuses the failure, or 2^32-1 seconds (`FailsTwiceIffOverlap`).
- An answer just stored may be removed at once: a `Get` removes its key because of the entry it loaded, not the one
  that is there by then (`FreshEntryMayBeLost`). `InsertedAnswerIsServed` says exactly when this can happen.
- A custom record text without a record, such as a comment, stops the program: the parser returns neither record nor
  error, and the code reads the nil record's header. `FromText` faults exactly then.

## Model

| member | source | states |
|---|---|---|
| Text.LowerFoldsCase | cache.go:338-345 | folding leaves no capital letter and identifies exactly the texts that differ in case alone |
| CacheProtocol.CapacityBound | lcache/cache.go:103-145 | in every interleaving with at most N `Set` calls in flight and any number of `Get` and `Remove` calls, the map never holds more than maxSize + N - 1 keys |
| CacheProtocol.CapacityAttained | lcache/cache.go:110-121 | for every maxSize and N some interleaving reaches exactly that many keys, so the bound cannot be improved |
| CacheProtocol.PassingNotFull | lcache/cache.go:110-121 | a `Set` that reads a counter below the capacity leaves the keys present or about to be inserted within the bound, however far the counter lags |
| CacheProtocol.ClaimsGrowOnlyAtTheGuard | lcache/cache.go:110-136 | no other step, the full-but-exists path included, adds to the keys present or about to be inserted |
| CacheProtocol.CounterInEveryRun | lcache/cache.go:118-141 | the counter is the number of keys plus deletions not yet subtracted minus insertions not yet added, exact when none is pending, never below -N |
| CacheProtocol.CounterMayBeNegative | lcache/cache.go:118-136 | a reachable state has the counter at -1 |
| Lcache.LengCache.Get | lcache/cache.go:56-88 | the table, every shared TTL and the result after a `Get`, with removal of an expired entry |
| Lcache.LengCache.MinTtlFor | lcache/cache.go:90-101 | the scan returns the smallest TTL |
| Lcache.LengCache.Set | lcache/cache.go:103-123 | refuses exactly a new key in a full cache; otherwise stores the entry with its expiry and counts a new key; a nil entry removes the key as given |
| Lcache.LengCache.Remove | lcache/cache.go:131-136 | removes the key as given and counts it |
| Lcache.MinTtlIsLeast | lcache/cache.go:90-101 | the smallest TTL is a lower bound, is attained, and is 2^32-1 for an empty answer |
| Lcache.ExpiryExact | lcache/cache.go:100-117 | no TTL, the 2^32-1 default included, overflows int64 nanoseconds |
| Lcache.NewTtlExact | lcache/cache.go:72-72 | from the `Set` to the expiry, the TTL written is the floor of the remaining time, without saturation or uint32 wrap-around |
| Lcache.HistoryExplainsTable | lcache/cache.go:56-136 | after any history a key is stored exactly when some accepted `Set` of it was not overwritten, removed or expired since, and then with the entry that `Set` made |
| Lcache.HitIffLive | lcache/cache.go:56-88 | a `Get` after any history hits exactly when such a `Set` exists and its expiry has not passed |
| Lcache.TtlAfterHistory | lcache/cache.go:64-87 | a hit leaves every record of the entry, shared or not, with floor(set time + smallest TTL at set - now) and changes no other record, however many `Get`s came between |
| Lcache.RefusedOnlyWhenFull | lcache/cache.go:110-112 | after any history a `Set` is refused exactly for a new key when a positive capacity is filled |
| Lcache.SizeIsExact | lcache/cache.go:103-145 | one call at a time, the counter is the number of keys and a positive capacity is never exceeded |
| Lcache.KeysFoldCase | lcache/cache.go:57-108 | `Get` and `Set` take a key in any spelling of its case |
| Lcache.OneRecordLifetime | lcache/cache.go:56-123 | a record set in an empty cache is served for its TTL, to the nanosecond, with the whole seconds left, and not after |
| DecrementingCache.MemoryCache.Get | cache.go:176-216 | the table and result after a `Get`: removal if any TTL is smaller than the elapsed seconds, else all TTLs reduced and the update time moved |
| DecrementingCache.MemoryCache.Set | cache.go:219-233 | refuses exactly a new key in a full cache, else stores the message with the current second |
| DecrementingCache.PollKeepsSum | cache.go:192-213 | one poll serves the entry exactly while every original TTL covers the time since the set, keeping each TTL plus last update |
| DecrementingCache.PollingTelescopes | cache.go:176-216 | under any polling pattern the entry survives exactly when no poll came too late, and each TTL plus last-update second stays what it was at the set |
| DecrementingCache.AbsoluteLiveness | lcache/cache.go:56-101 | in the absolute-expiry cache the same entry is live exactly until the smallest TTL has run out, whatever was polled |
| DecrementingCache.CachesAgree | cache.go:176-216 | what the absolute-expiry cache serves the decrementing one serves, the latter outlives it by less than a second, and for the smallest-TTL record the two TTLs are equal or one apart |
| Questions.PrintedInjective | handler.go:27-29 | different questions print differently, whatever the name holds, if type and class names hold no space |
| Questions.UnFqdnInjective | handler.go:379-384 | different absolute names stay different without their final dot |
| Questions.UnFqdnStripsTheDot | handler.go:379-384 | the final dot goes exactly when an even number of backslashes stands before it; a name without one is left alone |
| Questions.SameKeySameQuestion | handler.go:115-139 | a question that prints like an A or AAAA question of class IN has its name, type and class |
| Engine.AskedDecides | handler.go:106-162 | which source answers in which state, both directions for each: custom, block list, live positive entry, live negative entry, upstream |
| Engine.BlockedQuestionsGetTheNullRoute | handler.go:119-376 | in every state the block list answers exactly the A and AAAA questions of class IN that have no custom records and whose name it blocks while switched on; with nothing in NXDOMAIN mode, else with one record of the question's name and type, the configured TTL and the null route for that type |
| Engine.AskedIsItsSteps | handler.go:106-162 | a request that nothing interrupts (load, compare with the clock, remove, negative cache likewise, upstream) comes to what one call of the code does |
| Engine.InsertIsOneSet | lcache/cache.go:103-123 | an insert whose two halves, clock and swap, come one after the other is one `Set` |
| Engine.AppendedRecordIsCached | handler.go:206-252 | a record that following appends before the insert is cached with the rest, and the entry does not outlive it |
| Provenance.CacheGetSound | lcache/cache.go:64-85 | a cache hit never raises a record above the TTL it came with; a `Get` drops at most the key asked for and leaves every other entry as it is |
| Provenance.NewEntrySound | handler.go:206-214 | an inserted entry, with whatever following has appended, dies within the upstream TTL of each of its records |
| Provenance.CachedRepliesHaveProvenance | handler.go:138-215 | in every run of interleaved requests, clock advances, delayed inserts and reloads of custom records or block list, a positive-cache reply, however long ago its entry was loaded, starts with the records, at least one, of an earlier upstream answer to the same name, type and class, inserted no longer ago than its smallest upstream TTL |
| Provenance.PromptRepliesHaveProvenance | handler.go:138-215 | and so does the reply to a request that nothing interrupts |
| Serving.InsertedAnswerIsServed | lcache/cache.go:56-123 | once stored, and as long as nothing else is stored for the question, an answer is what the question gets until it expires, in every continuation, if and only if no request under way is about to remove the key or has loaded an entry of it that expires earlier |
| Serving.ExpiredAnswerIsNotServed | lcache/cache.go:66-70 | after its expiry it is not served in any such continuation, whatever is under way |
| Serving.FreshEntryMayBeLost | lcache/cache.go:59-70 | every clean address question has a run in which an answer just stored is removed by a request that loaded its predecessor |
| Serving.OneReplyAtOneInstant | handler.go:106-162 | at one instant, until its own store or failure, a question keeps its source and records whatever else is asked, answered or stored, if and only if the cache that answers it has no removal of its key pending |
| Provenance.BlockedAndCustomNeverCached | handler.go:106-214 | in no run does either cache hold an entry for an A or AAAA question of class IN whose name is blocked or custom |
| Engine.FollowingBlockedTarget | handler.go:234-254 | the reply of a whole request is the original answer, what lies behind CNAMEs within reach whose targets are not blocked, and the null routes of the blocked targets within reach, both directions |
| Engine.LocalAnswerInEveryState | handler.go:106-136 | a custom or blocked follow-up gets the same answer in every state of the caches and changes nothing |
| Engine.CustomChainEndsInNullRoute | handler.go:234-254 | a chain of custom CNAMEs, of any length within the depth, that ends in a blocked name yields the chain in order and then the null route, or nothing more in NXDOMAIN mode |
| Failures.FailsTwiceIffRepeated | handler.go:138-189 | in every run and for every question: at some moment the lookups under way could make the question fail twice if and only if, at some step, a lookup of it is started while one is under way or after one has failed |
| Failures.FailsTwiceIffOverlap | handler.go:138-189 | in a run shorter than 2^32-1 seconds whose negative cache refuses no failure of the question, no step starts a lookup after one has failed, so the first case remains |
| Failures.FailsAtMostOnce | handler.go:138-189 | there, a question fails at most once unless a lookup of it is started while one is under way |
| Failures.TwoLookupsMayBothFail | handler.go:165-174 | in any state, two lookups of one question that are under way may both fail, and the failures then list it twice more |
| Failures.RefusedFailureIsForgotten | handler.go:165-174 | in any state, a failure that a full negative cache refuses leaves the next request going upstream, where it may fail again |
| Failures.FullCacheLetsFailTwice | handler.go:165-174 | a run that gets there: with room for one failure and any two clean address questions, requested one after the other, the second fails twice |
| Failures.FailsAtMostOnceInSequence | handler.go:138-189 | one request at a time and with unbounded caches, a question fails at most once and then stays local |
| Failures.ConcurrentRequestsMayFailTwice | handler.go:140-173 | every clean address question has a run in which two overlapping requests for it fail |
| Handler.EventLoop.AskLocal | handler.go:106-160 | the reply and the state of both caches and all TTLs are those of the engine's `Asked` |
| Handler.EventLoop.ResponseFor | handler.go:97-216 | local reply, cached failure or answer handed on, with a truncated UDP answer replaced by that of a TCP lookup |
| Handler.EventLoop.InsertAnswer | handler.go:206-214 | the delayed insert is a `Set` of the reply's records |
| Handler.EventLoop.DoRequest | handler.go:218-257 | although every follow-up changes the caches, the reply at one instant is that of following with one fixed answer function, read off the state at the start; a failed request is a server failure, a failed follow-up a fault |
| Handler.ServerFailureIff | handler.go:138-232 | the client gets a server failure exactly when no local source answers and its failure is in the negative cache, or the first lookup fails, or it is truncated over UDP and the second fails |
| Handler.AnsweredFrom | handler.go:138-216 | a clean question is answered with a live entry's records, else those of the first lookup, or of the second if the first was truncated over UDP |
| Handler.RequestFaultsIff | handler.go:218-257 | a request faults exactly when it has an answer, is not of type CNAME, and below the depth limit a CNAME whose follow-up fails comes within reach before any address |
| Handler.CnameRequestsAreNotFollowed | handler.go:261-266 | a question of type CNAME is answered as it is |
| Handler.BlockedTargetsInReply | handler.go:218-257 | the reply of such a request is its own answer, what lies behind CNAMEs within reach whose targets are not blocked, and the null routes of the blocked ones, both directions |
| Handler.CustomChainInReply | handler.go:218-257 | a question answered by a chain of custom CNAMEs that ends in a blocked name gets the chain and the null route, whatever the caches and upstream hold |
| CnameFollowing.FindCnames | handler.go:261-283 | the CNAMEs of the reply, and whether it may be followed |
| CnameFollowing.Append | handler.go:245-252 | appends the records not yet present, in order |
| CnameFollowing.FollowRound | handler.go:241-253 | one round over the CNAMEs found at its start, or the fault of a failed lookup |
| CnameFollowing.Follow | handler.go:234-254 | the loop computes `Run` |
| CnameFollowing.FollowIsReachability | handler.go:234-254 | after the rounds executed the reply holds exactly the records within that many CNAME hops, keeps the original as a prefix, appends nothing twice, and stops only at the limit, with nothing to follow, or at a fault |
| CnameFollowing.RoundInOrder | handler.go:241-253 | the CNAMEs of a round are asked one after the other in the order given |
| CnameFollowing.CnamesInOrder | handler.go:276-281 | that order is the one in which they stand in the reply |
| CnameFollowing.MergedInOrder | handler.go:245-252 | and new records are appended in the order of the answer |
| CnameFollowing.WhenFollowingStarts | handler.go:261-283 | following starts exactly when the depth allows it, the question is not for a CNAME, and the reply holds a CNAME but no A or AAAA |
| CnameFollowing.RoundsAreNested | handler.go:234-240 | a smaller depth stops the same computation earlier, and every earlier round could be followed |
| CnameFollowing.FaultIffLookupFails | handler.go:234-254 | a request faults exactly when CNAMEs were not asked for and, at some number of hops below the depth limit, a CNAME within reach does not resolve while no address is within reach |
| CnameFollowing.LoneCnameFaults | handler.go:244-249 | such requests exist: any CNAME alone in an answer whose lookup fails |
| CnameFollowing.ResolvedNeverFaults | handler.go:244-249 | if every CNAME within reach resolves, no request faults |
| CnameFollowing.FixpointIsFinal | handler.go:234-254 | once a round adds nothing, no later round adds anything |
| CnameFollowing.ReplyLengthBounded | handler.go:234-254 | the reply is no longer than the original plus the distinct records within reach |
| CnameFollowing.ChainIsFollowed | handler.go:234-254 | a chain of k CNAMEs, k within the depth, yields those CNAMEs in order followed by the addresses |
| UpstreamRace.ErrorIffEveryServerFailed | resolver.go:55-139 | in every interleaving the lookup fails exactly when DoH gave no answer and every listed server was asked and ended in a socket error or response code 2 |
| UpstreamRace.AnswerCameFromAServer | resolver.go:55-139 | an answer is the DoH answer, with no server asked, or that of an asked server whose exchange ended in neither |
| UpstreamRace.DohComesFirst | resolver.go:55-73 | a run begins with DoH exactly when it is configured; its answer ends the lookup with no server asked, and otherwise no answer comes from it |
| UpstreamRace.FirstOfferWins | resolver.go:105-136 | once the slot holds an answer and the caller has not returned, every continuation leaves it there or has returned exactly that answer |
| UpstreamRace.ServersAskedInOrder | resolver.go:114-125 | the servers asked are always a prefix of the list |
| UpstreamRace.RunsAreShort | resolver.go:87-139 | every run has at most 4n + 4 steps of caller and workers |
| UpstreamRace.OfferNeverBlocks | resolver.go:105-108 | a worker can always finish its send, also after the caller has returned |
| UpstreamRace.StuckOnlyWhenFinished | resolver.go:111-139 | no action is enabled only when the caller has returned and every started worker has finished |
| EventLoopProtocol.NoSendOnClosedChannel | handler.go:291-314 | in every interleaving with one `Stop`, nothing is sent on the closed channel and no sender waits on it |
| EventLoopProtocol.AcceptedAreHandedOver | handler.go:80-94 | every accepted request is in the dispatcher's hand, in one worker or done; after the loop exits none is in hand |
| EventLoopProtocol.AtMostHundredWorkers | handler.go:81-92 | at most 100 requests are processed at once |
| EventLoopProtocol.HundredIsReached | handler.go:81-92 | some run has 100 at once |
| EventLoopProtocol.ActiveTurnsNoneAway | handler.go:291-314 | while the event loop is active, every request that has come waits or is accepted, in every interleaving |
| EventLoopProtocol.LockedSenderIsNotTurnedAway | handler.go:291-314 | a sender that holds the read lock of an active loop stays so until accepted, whatever `Stop` does |
| EventLoopProtocol.BlockedSenderCanBeAccepted | handler.go:80-94 | a blocked sender can be accepted within three steps of dispatch loop and workers |
| EventLoopProtocol.ServiceIsBounded | handler.go:80-94 | dispatch loop and workers take at most three steps for each sender blocked or let in, and those for the requests in hand |
| EventLoopProtocol.NothingAcceptedAfterClose | server.go:90-96 | after the close no continuation accepts a request |
| EventLoopProtocol.AcceptedAreFinished | handler.go:80-94 | once the channel is closed, the dispatch loop and the workers have boundedly many steps left, and one is enabled until the loop has exited and every accepted request is finished |
| EventLoopProtocol.WaitingStopIsNeverStuck | server.go:90-96 | while `Stop` waits it can take the lock, or some step other than an arrival is enabled |
| EventLoopProtocol.StopWaitsBoundedly | server.go:90-96 | only boundedly many such steps can come first, however requests keep arriving |
| EventLoopProtocol.StopCompletes | server.go:90-96 | both, wherever a run has left `Stop` waiting |
| EventLoopProtocol.StopFinishesOnceLocked | server.go:92-95 | from the lock on, `Stop` runs to its end without waiting |
| Glob.Glob | vendor/github.com/ryanuber/go-glob/glob.go:11-56 | the split-and-search algorithm decides, for every pattern and subject, whether the pattern matches |
| Glob.GreedyStep | vendor/github.com/ryanuber/go-glob/glob.go:34-52 | after a star, taking the first occurrence of the next part loses no match |
| Glob.MatchesTransitive | updater.go:166-167 | what a pattern matches as text it covers as a pattern |
| Glob.LiteralMatchesItself | vendor/github.com/ryanuber/go-glob/glob.go:24-27 | a pattern without a star matches itself alone |
| BlockList.MemoryBlockCache.Get | cache.go:284-306 | looks the key up in the table of its kind |
| BlockList.MemoryBlockCache.Remove | cache.go:309-319 | drops the key from the table of its kind |
| BlockList.MemoryBlockCache.Set | cache.go:322-341 | stores the key in the table of its kind; a regular expression that does not compile changes nothing |
| BlockList.MemoryBlockCache.Exists | cache.go:344-364 | true exactly when the lower-case name is listed or some special rule matches it, in whatever order the rules are scanned |
| BlockList.LookupIsLastWrite | cache.go:284-341 | after any history a lookup answers with the last effective `Set` or `Remove` of the same canonical key |
| BlockList.BlocksByHistory | cache.go:308-364 | a name is blocked exactly when some key whose last effective write is a `Set` covers it |
| BlockList.EntriesFoldCase | cache.go:322-364 | a plain or glob entry blocks the same names in every spelling of case of either, and a plain one every spelling of itself |
| BlockList.TablesAreDisjoint | cache.go:321-341 | the marks `~`, `*` and `?` in a key decide its table, and a nil matcher marks exactly the glob rules |
| HostFile.LineRoundTrip | updater.go:152-164 | reading a printed line gives back the host, for any white space, optional address, trailing fields after an address and comment, attached or not |
| HostFile.BlankSeparatedLine | updater.go:152-164 | an address and a host of visible ASCII, set apart by tabs or blanks and followed by a comment, yield the host |
| HostFile.BlankSurroundedHost | updater.go:152-164 | and so does a host alone |
| HostFile.NoEntryIffBlank | updater.go:153-157 | a line has no entry exactly when only white space stands before its comment |
| HostFile.TrimmedHasField | updater.go:157-164 | a line that passes the length test has a first field |
| HostFile.Updater.Update | updater.go:30-39 | the whitelist gains the configured names, the block list every configured entry in order |
| HostFile.Updater.ParseHostFile | updater.go:151-173 | the block list after a file is that of loading its lines one by one |
| HostFile.BlockedTextIsCovered | updater.go:166-167 | if the text of an entry is blocked, so is every name the entry covers |
| HostFile.LoadExact | updater.go:151-173 | after any lines, regular expressions included, a name is blocked exactly when it was before or some effective line not whitelisted covers it whose text was not hidden by the table left by the lines before |
| HostFile.FileExact | updater.go:151-173 | after any file of names and globs, a name is blocked exactly when it was before or a line not whitelisted covers it whose text no regular expression of the list before the file matches |
| HostFile.EntryLostIff | updater.go:166-167 | a name that an entry covers is lost exactly when the text of the entry is blocked and the name is not, and then a regular expression alone hides the text |
| HostFile.LoadMeaning | updater.go:151-173 | where no text is hidden, the blocked names are those blocked before and those covered by the entry of a line not whitelisted |
| HostFile.LoadOrderIrrelevant | updater.go:151-173 | the order of the names and globs in a file does not matter, whatever the list holds before |
| HostFile.UpdateExact | updater.go:184-199 | after a whole update over files of names and globs, in terms of the texts alone: a name is blocked exactly when a configured entry covers it, or a line not whitelisted does whose text no configured regular expression matches |
| HostFile.UpdateMeaning | updater.go:184-199 | where no text is hidden, that is every name which a configured entry or a line not whitelisted covers |
| HostFile.RegexMayHideALine | updater.go:166-166 | with any library, an expression that matches the text of an entry but not a name it covers makes the loader pass over the entry and leave the name unblocked; in the other order the name is blocked |
| HostFile.UniversalRegexHidesNothing | updater.go:166-166 | matching the text is not enough to lose a name: an expression that matches everything loses none |
| CustomRecords.FromText | records.go:14-34 | faults exactly when some text yields neither record nor error, as the library allows; otherwise the result is a grouping of the records that parse and have a name |
| CustomRecords.FromMap | records.go:36-48 | one group per name, in whatever order, and the total of their sizes |
| CustomRecords.AcceptedExact | records.go:16-31 | a record is accepted exactly when some text parses to it and its name is not empty |
| CustomRecords.AcceptedOnce | records.go:16-31 | each text that parses to a named record yields one record, and no other text does |
| CustomRecords.AcceptedInOrder | records.go:16-31 | accepted records keep configuration order |
| CustomRecords.GroupInOrder | records.go:24-27 | and so does each group |
| CustomRecords.GroupingConserves | records.go:14-48 | every accepted record is in the one group of its name and no other, each group is the configuration filtered by its name, sizes add up |
| CustomRecords.GroupingUnique | server.go:119-121 | groups depend on the configuration text alone |

## Left out

- DecrementingCache.CachesAgree: polls lie within 2^32-1 seconds of the set, because Go leaves the conversion of a larger float to uint32 to the implementation; records of an entry belong to it alone, since subtraction is repeated for a record that two entries share.
- HostFile.LoadMeaning: files without regular expressions whose texts are not hidden; `FileExact` and `LoadExact` state what holds of all others.
- HostFile.LoadOrderIrrelevant: files without regular expressions, because with them the order matters (`RegexMayHideALine`).
- HostFile.UpdateMeaning: as for LoadMeaning; `UpdateExact` states the other files of names and globs.
- HostFile.UpdateExact: files without regular expressions; with them, which lines are hidden depends on the order and is stated by `LoadExact`.
- Failures.FailsAtMostOnce: runs shorter than 2^32-1 seconds in which no failure is refused; `FailsTwiceIffRepeated` states all others.
- Failures.FailsTwiceIffOverlap: as for FailsAtMostOnce.
- HostFile.FileExact: files without regular expressions; `LoadExact` states the others.
- A `Set` in the engine reads guard, clock and TTLs in one step and stores in another, and the negative cache's `Set` is one step; the finer interleavings of guard, swap and counter are those of `CacheProtocol.dfy`.
- Engine.LocalAnswerInEveryState: custom records are values, TTL included; in the code they are shared objects, and once following has put one into a cached reply, cache hits lower its TTL.
- Lcache.TtlAfterHistory: the clock does not stand before the instant of the `Set`.
- Reply codes and header flags, message sizes, and the reply written when a request fails: statements are about answer records.
- Handler.EventLoop.DoRequest: a request takes one instant and its delayed insert runs after it, so no entry expires and no other request ends a lookup between its rounds; numbered records have a fixed content, so records are compared without the TTL that hits rewrite.
- Memory-level races on answer slices: a reply is a sequence value, and appends to it are steps.
- The nil-entry branch of the cache's `Get`: `Set` never stores a nil entry.
- Requests without a question, which end before any source but the custom records is asked.
- A second `Stop` of one event loop, and workers that never return.
- Case folding beyond ASCII; names are folded letter by letter.
- Suffix matching of custom names in the DNS multiplexer: custom lookup is a function of name and type.
- The test for the `lists` directory that decides whether the configured entries are applied at all (`updater.go`, `PerformUpdate`).
- Collisions of the question hash: the key of a printed question is taken to be injective and lower-case.
- The unused `lengCache` of package main (`cache.go`, lines 64-156), HTTP API, DoH server, configuration, logging, metrics, TLS, downloading and directory walking.
