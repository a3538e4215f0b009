# Lura: merging, balancing, filtering and templating

This project models the algorithms of the Lura API gateway that have no I/O in them and proves what they
promise. `dafny verify dfyconfig.toml` checks all of it.

## What is modelled

**Merging responses** (`proxy/merging.go`, `proxy/concurrent.go`).
`Merging` says on values what merging means: the batch combiner, the incremental accumulator as a fold over
arrivals, and the laws between them. `Confluence` says what arrival order can and cannot change.
`ForkJoin` is a step machine for goroutines that each make one send on one of two buffered channels;
`Histories` traces every message back to what its call returned;
`ParallelMerge` and `ConcurrentCalls` put the two collectors that use it on top, with every interleaving, the
contexts of caller and calls included. `MergeAccumulator` and `ParallelCollector` are the code on the heap:
combining grows the first non-nil map in place, and whoever holds that map sees it grow. `Sequential`, `Registry`
and `RawBodies` treat the sequential merger on values, the shared map and the raw bodies included, and
`SequentialMerge` is its code on the heap, proved equal to it.

**Service discovery** (`sd/dnssrv/subscriber.go`, `sd/subscriber.go`, `sd/loadbalancing.go`).
`Weights` is the integer code (16-bit weights, 64-bit sums) and `Compaction` what it promises. `Sorting`,
`Srv` and `Subscriber` lead from a DNS answer to the cached host list, following RFC 2782 ("The format of the
SRV RR", Priority and Weight entries) except that, as in the code, records of weight zero are dropped.
`RoundRobin` serves that list by a wrapping counter.

**Filters** (`proxy/formatter.go`).
`Allowlist` and `Denylist` describe the compiled lists and their effect as sets of paths; `Trees`,
`FilterTries` and `PruneMaps` are the code that builds the tries and prunes the data in place, over maps on
the heap and in any key order. `Targets` and `Renaming` are the other steps of the formatter.

**Requests and configuration** (`proxy/request.go`, `config/config.go`).
`Template` is the replacement loop of `GeneratePath`, `SegmentedPaths` says exactly when it is safe, `Cloning`
is the body copies through a pool of buffers, `UrlMappings` the placeholder check, `Placeholders` the rewriting
of `{name}` to `{{.Name}}`, and `BackendPaths` leads from one to the other. `Replacing`,
`Separators`, `Paths`, `Decimals` and `Visits` hold what they share: textual replacement, texts in pieces, numbers,
and Go's unspecified map order.

Where a promise fails, the project says exactly when it holds:

- The merged data depends on arrival order as soon as two responses disagree on a key, and only then.
- A sequential parameter may come from another backend's answer if the referenced part is the one whose map
  grows, which the answers alone tell. What is handed over is given for every run and path, and is the
  referenced backend's answer exactly if that map does not grow or the last answer to the keys of the path,
  among those before the first turn that found something, renders alike.
- Only the first reference that reads a raw body gets its text; any other one gets an empty text.
- The concurrent middleware never misses a delivered complete response for a caller that stays; for every
  number of calls it can for one that leaves.
- Round robin is fair across the wrap-around of its counter exactly for lengths that divide 2^64.
- Field renaming gives the intended data in every map order exactly if no new name in use is renamed itself
  and fields that share a new name hold equal values.
- `GeneratePath` gives simultaneous substitution in every map order exactly if no value that goes into the path
  is changed by another replacement, for paths with at most one placeholder between two separators, which may
  be any characters that no name uses.
- Rewriting placeholders one by one equals rewriting them at once exactly if no name is a dot followed by the
  key of an earlier one. `/{.}{..}` is accepted and breaks this; such names need the looser endpoint pattern
  that `paramExtractionPattern` picks when strict REST is off (config/config.go:547-552).
- The size returned by `uniqueOutput` leaves out the last distinct element, which is harmless: it only leaves
  the decision to the exact check.

Strings are sequences of characters and stand for Go's bytes. Clocks, the network, backends, filters, regular
expressions for sequential parameters, path cleaning, title case, number formatting and random numbers are
parameters, or choices that a step or a loop leaves open.

## Model

| member | source | states |
|---|---|---|
| Merging.IncrementalRefinesBatch | proxy/merging.go:455-484 | For any outcome sequence with two or more responses, merging them pairwise as they come and asking for the result gives exactly one batch call of the default combiner over all responses, with the errors in arrival order. |
| Merging.FewResponses | proxy/merging.go:455-484 | The two cases the batch form does not cover: no response at all, and a single response, which is handed through with its nil or non-nil data and is complete only if nothing else was expected. |
| Merging.CompleteIff | proxy/merging.go:475-484 | A merged response is complete exactly when as many outcomes arrived as were expected, all of them complete responses, and with two or more of them all had data. |
| Confluence.OrderDoesNotMatter | proxy/merging.go:296-308 | Any two arrival orders of the same outcomes agree on whether there is a response, on its key set, on whether its data is nil, on its completeness flag and on the multiset of errors. |
| Confluence.DataOrderIndependentIff | proxy/merging.go:604-606 | All arrival orders give the same data if and only if no two responses give one key different values. |
| Confluence.LastWins | proxy/merging.go:604-606 | The response that arrives last wins every key it has, which is why conflicting answers make the order visible. |
| ForkJoin.SoundStep | proxy/merging.go:486-506 | Every step of a call, of the collector or of the context keeps the channels sound: no message posted twice, lost or made of nothing. |
| ForkJoin.WorkDecreases | proxy/merging.go:486-506 | Every such step uses up some of a bounded amount of work. |
| ForkJoin.SendNeverBlocks | proxy/merging.go:285-286 | A call that has not yet sent finds room on both channels. |
| ForkJoin.CallsNeverStuck | proxy/merging.go:486-506 | A running call may return, and a returned call can make the one send its reply asks for, whatever the collector does. |
| Histories.EveryMessageTraced | proxy/merging.go:486-506 | In every run, every message on a channel or taken off it was posted by its call after a return of that call in the same run, and tells what was returned: the response, unless an error replaced it once the context was done; the error of a fault; the error for no response. |
| Histories.ToldIff | proxy/concurrent.go:73-93 | The message of a call is exactly the one that tells what the call returned. |
| ParallelMerge.StepInv | proxy/merging.go:279-309 | Every step of the spawning loop, the collecting loop, the calls or the context keeps the invariant that ties channels, calls and accumulator together. |
| ParallelMerge.Conservation | proxy/merging.go:279-309 | In every reachable state, backends not looked at yet, calls under way, queued messages and merged messages add up to the backends not filtered out. |
| ParallelMerge.NoSendBlocks | proxy/merging.go:279-294 | In no reachable state is a channel full that a returned call wants to send on. |
| ParallelMerge.RunsAreFinite | proxy/merging.go:279-309 | Under every schedule the remaining work falls with each step: the i-th state of a run has at most 4n + 3 - i steps left. |
| ParallelMerge.NeverStuck | proxy/merging.go:296-308 | Until the result is out some step is enabled, so no schedule deadlocks. |
| ParallelMerge.EachOutcomeMergedOnce | proxy/merging.go:296-308 | When the result is out, each unfiltered backend has been merged exactly once, filtered ones never, and both channels are empty. |
| ParallelMerge.ResultIsScheduleIndependent | proxy/merging.go:279-309 | Every finished run returns, up to conflicting keys and error order, the merge of what the calls of the unfiltered backends told of their replies, in backend order, and is complete exactly when all of that was. |
| ParallelMerge.ResultOfReplies | proxy/merging.go:279-309 | If the context lasts until then, that is the merge of the replies themselves, and complete exactly when every unfiltered backend returned a complete response. |
| ConcurrentCalls.StepInv | proxy/concurrent.go:31-61 | Every step of the collector loop, of the calls and of the two contexts keeps the invariant, before and after an early return. |
| ConcurrentCalls.FirstCompleteWins | proxy/concurrent.go:45-60 | If no round of the collector went by on noticing that the caller had gone, the result is complete exactly when some call returned a complete response and delivered it; it is then what the call received last returned, the first complete one; otherwise all n messages were consumed and the last response and last error are returned. |
| ConcurrentCalls.LastOnes | proxy/concurrent.go:48-58 | Which response and which error those are. |
| ConcurrentCalls.CallerWhoStays | proxy/concurrent.go:45-60 | A caller that stays gets that guarantee in every run: no schedule of the calls makes it miss a complete response. |
| ConcurrentCalls.NoSendBlocks | proxy/concurrent.go:34-35 | Even after an early return, a call that wants to send finds room. |
| ConcurrentCalls.EveryCallFinishes | proxy/concurrent.go:73-93 | As long as the result is not out or some call goroutine has not sent, a step is enabled. |
| ConcurrentCalls.RunsAreFinite | proxy/concurrent.go:31-61 | Each step lowers a bounded measure, so with the previous row every call goroutine finishes. |
| ConcurrentCalls.RunLength | proxy/concurrent.go:31-61 | No run has more than 5n + 5 states. |
| ConcurrentCalls.CallerGoneMayMissIt | proxy/concurrent.go:48-60 | The caller has to stay: for every number of calls there is a run in which it goes away and gets nothing although a complete response is queued. |
| MergeAccumulator.CopyInto | proxy/merging.go:604-606 | Copying one map into another, in any key order and even onto itself, adds all its entries. |
| MergeAccumulator.CombineData | proxy/merging.go:591-615 | The combiner grows the first non-nil map in place, returns a fresh response that refers to it, touches nothing else, and computes the completeness flag of the batch form. |
| MergeAccumulator.CombinesToUnion | proxy/merging.go:594-607 | While the grown map does not come back later in the list, its new contents are the union of all parts in list order. |
| MergeAccumulator.UnsharedStaysFirst | proxy/merging.go:594-607 | Parts that do not share maps always satisfy that condition. |
| MergeAccumulator.TwoParts | proxy/merging.go:472 | Two parts satisfy the batch form whether or not they share a map. |
| MergeAccumulator.Accumulator.Merge | proxy/merging.go:455-473 | One arrival on the heap is one step of the fold on values; it says which map is held afterwards and that a first response is taken over as it is. |
| MergeAccumulator.Accumulator.Result | proxy/merging.go:475-484 | The response and errors returned are the result of the fold. |
| ParallelCollector.Round | proxy/merging.go:298-303 | One round on the heap is one step of the fold, and touches nothing of the messages still to come. |
| ParallelCollector.Collect | proxy/merging.go:296-308 | The collecting loop on the heap returns the merge of what the messages brought, in the order they came. |
| ParallelCollector.CollectRun | proxy/merging.go:296-308 | The loop and the step machine agree: fed with the messages of any finished run in the order that run merged them, the loop returns the result of that run. |
| Sequential.DestinationInjective | proxy/merging.go:202-208 | Two references with the same parameter name are the same reference, so one registry entry never stands for two paths. |
| Sequential.LookupAt | proxy/merging.go:341-377 | On a path that exists, the walk that gives up early finds what is at the end of the path. |
| Registry.LookupFirst | proxy/merging.go:341-377 | On any path: the walk goes on below an object at the first key, and otherwise stops at once and looks up the last key where it is. |
| Sequential.CallsUpToTheStop | proxy/merging.go:331-432 | In every run the backends are treated in index order, exactly those turned down by their filter are skipped, all called ones but the last answered completely, and a run that ends early ends with a failed or incomplete call. |
| Sequential.ResultIsMerge | proxy/merging.go:434-436 | What the accumulator returns at any point is the merge of what the called backends answered, skipped ones not counting. |
| Sequential.SequentialComplete | proxy/merging.go:320-437 | A response that is returned is complete exactly when the run went through all backends, every called one answered completely and, with two or more called, all had data. |
| Sequential.FinalIs | proxy/merging.go:418-422 | A run is aborted exactly if the first backend is called and its call fails, and with that error. |
| Decimals.DecimalReads | sd/dnssrv/subscriber.go:158 | A number is written in digits, without a leading zero, and read back. |
| Decimals.NumberWrites | proxy/merging.go:221 | Digits without a leading zero are how the number read from them is written. |
| Registry.WriteOnce | proxy/merging.go:356-359 | Over any stretch of any run a non-empty registry entry keeps its value. |
| Registry.AfterShows | proxy/merging.go:425-430 | Every kept part shows what its backend answered, except the one whose map the accumulator grows, which shows everything merged so far. |
| Registry.AfterGrowth | proxy/merging.go:425-430 | Whose map grows, in terms of the answers: in every run it is that of the first called backend with data, provided at most one was called before it, and otherwise no part grows. |
| Registry.SeenIs | proxy/merging.go:341-377 | For every reference and path the lookup finds what the answers alone say: in a map that grows the last answer with the first key counts, or the one with the last key where the walk stops at once; in any other map what its backend answered. |
| Registry.GrowingPartIff | proxy/merging.go:341-377 | For an existing path into the map that grows, let the last answer with its first key have the path: the lookup finds what the backend itself answered if and only if that answer says the same there. |
| Registry.RegistryHolds | proxy/merging.go:356-359 | Throughout every run the entry of a reference by path is its first non-empty rendering among the turns that used it. |
| Registry.ParameterIs | proxy/merging.go:333-406 | In every run and for every path, what a backend is handed: that first rendering, an empty one if there was none and the path leads somewhere now, and otherwise the parameter as it was. |
| Registry.DecidedIff | proxy/merging.go:356-359 | Something has been decided exactly if some backend is the first whose use of the reference renders as something, and it is the rendering of that one. |
| Registry.CacheLawIff | proxy/merging.go:333-406 | The law of the cache, exactly: once a backend has decided a reference, what is handed over is what the answers before that backend gave; it is what the referenced backend answered if and only if its map does not grow or the last answers to the keys of the path in the grown map then rendered alike, and what a fresh lookup gives if and only if the answers before the two turns render alike. |
| Registry.GrowingParameterIff | proxy/merging.go:333-406 | In a map that grows, the value of the last answer with the first key, if it has the path, is handed over; it passes for that of the referenced backend if and only if the two render alike. |
| Registry.TransparentCache | proxy/merging.go:333-406 | For references that no other answer can affect the registry is transparent: they are handed over as the rendering of what their backend answered, which is also what a fresh lookup finds. |
| Registry.ParamsKept | proxy/merging.go:331-432 | In every run a request parameter that no reference is named after is what the caller gave whenever a backend is filtered or called, and when the run is over. |
| Registry.GrowingMapLeaks | proxy/merging.go:425-430 | A run in which the law fails: of three backends, the last is handed a value of the second as if it were of the first. |
| RawBodies.BodiesConsumed | proxy/merging.go:361-371 | Throughout every run a raw body is drained once it has a reader, and its text is in the registry under the name of that reader alone. |
| RawBodies.WholeBodyIs | proxy/merging.go:361-371 | What a backend is handed for a reference to a whole raw body: the text if the reference is the first that read it, now or earlier, an empty text otherwise, and the parameter as it was if there is no body or reading it fails. |
| SequentialMerge.RequestPart | proxy/merging.go:508-523 | A sequential call starting with both one-slot channels empty fills exactly one of them: with its response, its own error, the error for no response, or that of the context. |
| SequentialMerge.LookupPart | proxy/merging.go:341-377 | The loop down the maps of a part is the lookup on values. |
| SequentialMerge.RenderParam | proxy/merging.go:379-403 | Text is handed through; the printed items of a list are joined by commas, so where none of them has a comma they are found again between the commas; anything else is printed. |
| Paths.JoinSplit | proxy/merging.go:383-392 | Parts without the separator are found again in their joined text. |
| SequentialMerge.UseReference | proxy/merging.go:333-406 | One replacement edits the request parameters, the registry and the body reader, a failing one included, as the step on values says, and nothing else. |
| SequentialMerge.MergeTurn | proxy/merging.go:425-430 | Merging a response keeps the heap in step with the state on values, the shared map included. |
| SequentialMerge.Run.Next | proxy/merging.go:331-432 | One turn of the loop keeps the run invariant or ends the run, and leaves both channels empty. |
| SequentialMerge.Merge | proxy/merging.go:320-437 | The whole loop on the heap makes the calls, leaves the parameters and returns the response and errors that the run on values has; it is aborted exactly by an error of the first backend, if that one is called. |
| SequentialMerge.CallsListed | proxy/merging.go:331-432 | The calls made are exactly those of the backends called, with the parameters as they were then. |
| SequentialMerge.CallsInOrder | proxy/merging.go:331-432 | They are made in index order. |
| Weights.ScaleOne | sd/dnssrv/subscriber.go:201 | The scaled weight is computed without overflow in 64 bits and fits its 16 bits. |
| Weights.Normalize | sd/dnssrv/subscriber.go:185-204 | The scaling loops return the scaled weights, or the very slice given when nothing has to be scaled. |
| Weights.LocalGcd | sd/dnssrv/subscriber.go:211-216 | The loop computes the greatest common divisor. |
| Weights.GcdOf | sd/dnssrv/subscriber.go:206-224 | The fold over the slice computes the divisor of all weights, zero for none. |
| Weights.Compact | sd/dnssrv/subscriber.go:170-183 | The code computes the compacted weights. |
| Compaction.NormalizedIs | sd/dnssrv/subscriber.go:185-204 | Weights that add up to at most max(100, n) stay as they are, any others are scaled to that sum and rounded down. |
| Compaction.ScalingIsSound | sd/dnssrv/subscriber.go:185-204 | When the total exceeds scale = max(100, n), the scaled sum is above scale - n and at most scale, no weight grows, order is preserved and some weight stays positive. |
| Compaction.CompactIsExact | sd/dnssrv/subscriber.go:170-183 | The result times the divisor gives the normalised weights back exactly. |
| Compaction.CompactIsSmallest | sd/dnssrv/subscriber.go:170-183 | If some weight is positive, the result has divisor one and every integer vector with the ratios of the normalised weights is a multiple of it. |
| Compaction.CompactIdempotent | sd/dnssrv/subscriber.go:170-183 | Compacting twice is compacting once. |
| Compaction.CompactSum | sd/dnssrv/subscriber.go:161-167 | The compacted weights add up to at most max(100, n), and to zero only if all weights are zero. |
| Sorting.SortedUnique | sd/dnssrv/subscriber.go:134-148 | Under a strict total order two sorted arrangements of the same elements are the same list, so an unstable sort has one outcome. |
| Sorting.SortSlice | sd/dnssrv/subscriber.go:134-148 | Sorting in place leaves a sorted arrangement of the elements. |
| Sorting.StringLessIff | sd/dnssrv/subscriber.go:142 | Less is lexicographic: a proper beginning, or the smaller character at the first difference. |
| Srv.BeforeOrder | sd/dnssrv/subscriber.go:136-147 | The four-field comparator is a strict total order: it ties only on equal records. |
| Srv.SortedFields | sd/dnssrv/subscriber.go:136-147 | What sorting by it means: priority upwards, weight downwards, then target and port upwards. |
| Srv.HostReads | sd/dnssrv/subscriber.go:158 | What a host name is made of: the target, in brackets exactly if it has a colon, and digits that read back as the port. |
| Srv.HostInjective | sd/dnssrv/subscriber.go:158 | Different targets or ports give different host names, bracketed IPv6 addresses included. |
| Srv.TopExactly | sd/dnssrv/subscriber.go:153-159 | The records used are exactly those of the lowest priority, each as often as it was answered (RFC 2782, "The format of the SRV RR", Priority entry). |
| Srv.OrderIrrelevant | sd/dnssrv/subscriber.go:134-167 | The instance list is the same for every order of the answer and every way the sort may break ties. |
| Srv.InstancesLength | sd/dnssrv/subscriber.go:161-167 | The list has at most max(100, n) entries, and is empty exactly when no record of the lowest priority has a positive weight. |
| Srv.ExpandShares | sd/dnssrv/subscriber.go:161-166 | Each host name occurs as often as the compacted weights of its records add up to. |
| Srv.OwnShare | sd/dnssrv/subscriber.go:161-166 | With no two records for one target and port, that is the compacted weight of its one record. |
| Srv.TopPrefix | sd/dnssrv/subscriber.go:153-156 | The records used are those at the front that share the first priority; all others have a larger one. |
| Srv.ExpandAt | sd/dnssrv/subscriber.go:161-166 | The entries of an item stand right after those of the items before it. |
| Subscriber.PermutedMultiset | sd/subscriber.go:41-49 | Picking the elements of a list along a permutation keeps the multiset. |
| Subscriber.NewRandomFixedSubscriber | sd/subscriber.go:41-49 | The shuffled copy holds the same hosts equally often. |
| Subscriber.TopRecords | sd/dnssrv/subscriber.go:150-159 | The loop that stops at the first larger priority collects weights and host names of the leading records. |
| Subscriber.ExpandAll | sd/dnssrv/subscriber.go:161-166 | The double loop repeats each host its compacted weight times. |
| Subscriber.Resolve | sd/dnssrv/subscriber.go:128-168 | The code computes the instance list. It leaves the answer sorted by priority, heaviest first, then target and port; the list takes the records of the first priority in that order, each host in one block as long as its compacted weight. |
| Subscriber.DnsSubscriber.Update | sd/dnssrv/subscriber.go:112-126 | A failed lookup keeps the cached list; otherwise the cache becomes the instance list, shuffled if it is longer than 100. |
| Subscriber.DnsSubscriber.Hosts | sd/dnssrv/subscriber.go:98-110 | The caller gets a fresh copy of the cached list. |
| RoundRobin.NewRoundRobinLB | sd/loadbalancing.go:33-47 | A fixed list of exactly one host gets the constant balancer; otherwise the counter starts below the length of a longer fixed list and at zero for all others. |
| RoundRobin.ConstantRefines | sd/loadbalancing.go:37-38 | The constant balancer refines round robin: over a one-host list every call, at every counter value, serves that host. |
| RoundRobin.RoundRobinLB.Host | sd/loadbalancing.go:55-62 | An error or an empty list leaves the counter alone; otherwise the host at the counter modulo the length is served and the 64-bit counter moves on by one, wrapping around. |
| RoundRobin.RoundRobinLB.HostTimes | sd/loadbalancing.go:55-62 | A run of calls on one list serves the positions given by consecutive counter values. |
| RoundRobin.AnyWindow | sd/loadbalancing.go:60-61 | Any window of m calls in which the wrap-around does not show serves each of n positions m / n times or once more, exactly m / n times when n divides m. |
| RoundRobin.Balanced | sd/loadbalancing.go:60-61 | Without wrap-around two positions never differ by more than one call, for any window. |
| RoundRobin.BalancedAcrossWrap | sd/loadbalancing.go:60-61 | With a wrap-around inside the window they never differ by more than two. |
| RoundRobin.FullWindowIff | sd/loadbalancing.go:60-61 | A window as long as the list serves every position once if and only if the counter does not wrap inside it or the length divides 2^64. |
| RoundRobin.WrapFairIff | sd/loadbalancing.go:60-61 | Full windows are fair across the wrap-around of the counter if and only if the list length divides 2^64. |
| RoundRobin.WindowServesList | sd/loadbalancing.go:55-62 | Such a window serves exactly the multiset of the list. |
| RoundRobin.WeightedFairness | sd/loadbalancing.go:55-62 | From the DNS answer to the calls: with no refresh, and no wrap-around that matters, a window as long as the cached list, shuffled or not, serves each record of the lowest priority exactly its compacted weight. |
| RoundRobin.SharedFairness | sd/loadbalancing.go:55-62 | The same when several records share a host name: it is served what they are due together. |
| Allowlist.EnterLeaves | proxy/formatter.go:123-127 | Entering a path makes it a leaf and drops exactly the leaves it is comparable with. |
| Allowlist.LeavesInForce | proxy/formatter.go:121-127 | The compiled trie allows exactly the listed paths that no later listed path is comparable with. |
| Allowlist.SomethingLeft | proxy/formatter.go:97-119 | Pruning empties an object exactly when no allowed leaf exists in it. |
| Allowlist.KeepsExactly | proxy/formatter.go:97-119 | Pruning by a trie keeps exactly the paths comparable with an allowed leaf that exists in the data, and keeps their values. |
| Allowlist.AllowlistKeeps | proxy/formatter.go:121-136 | The same for a whole list, in terms of the listed paths in force. |
| Denylist.CompileShape | proxy/formatter.go:175-182 | Every tree node is nil or a map of such nodes, so the branch for anything else is never taken. |
| Denylist.DeniesListed | proxy/formatter.go:158-194 | The compiled tree denies exactly the paths with a listed prefix, whatever the order of the list and its duplicates. |
| Denylist.RemovesExactly | proxy/formatter.go:196-213 | Deleting by a tree removes exactly the denied paths. |
| Denylist.Untouched | proxy/formatter.go:202-212 | A value that the tree does not reach is kept as a whole. |
| Denylist.DenylistKeeps | proxy/formatter.go:215-225 | A deny list removes exactly the paths that continue a listed path; values no listed path goes through are unchanged. |
| PruneMaps.AllowlistPrune | proxy/formatter.go:97-119 | On heap maps, in any key order: the data shows the pruned value, only maps of the data are written, and the answer is true exactly when the map was emptied. |
| PruneMaps.PruneKey | proxy/formatter.go:100-117 | One turn of that loop: the key is deleted, pruned or kept, and all other keys stay as they were. |
| PruneMaps.RecDelete | proxy/formatter.go:196-213 | On heap maps, in any key order: the data shows what deleting leaves, and only maps of the data are written. |
| PruneMaps.DeleteKey | proxy/formatter.go:202-212 | One turn of that loop; the cast of a tree node that is not nil to a map cannot fail. |
| FilterTries.BuildDenyTree | proxy/formatter.go:158-194 | Entering a path in place makes the heap tree show the tree with that path. |
| FilterTries.NewBranch | proxy/formatter.go:188-193 | A key that is not there yet gets a fresh map with the rest of the path. |
| FilterTries.NewDenylistingFilter | proxy/formatter.go:215-220 | The loop over the list builds the compiled tree. |
| FilterTries.Denylisting | proxy/formatter.go:215-225 | A filter built from a list and applied to heap data leaves what the list leaves on values. |
| FilterTries.BuildDictPath | proxy/formatter.go:138-156 | The two loops lead to the map at the end of the path, through the maps there are and then through fresh ones, and leave the rest of the trie alone. |
| FilterTries.Deepen | proxy/formatter.go:150-154 | One turn of the second loop: a fresh map under the key, replacing what was no map. |
| FilterTries.EnterPath | proxy/formatter.go:124-126 | Walking down and marking the last key makes the heap trie show the trie with that path. |
| FilterTries.NewAllowlistingFilter | proxy/formatter.go:121-127 | The loop over the list builds the compiled trie. |
| FilterTries.Allowlisting | proxy/formatter.go:121-136 | A filter built from a list and applied to heap data leaves what pruning leaves on values; the clean-up loop meets an empty map. |
| Targets.NothingBelow | proxy/formatter.go:82-95 | Below a place where the target walk gives up or finds an empty map, nothing exists in the data. |
| Targets.ExtractTarget | proxy/formatter.go:82-95 | The data becomes the object at the target path; where there is none, on the way or at its end, a fresh empty map. |
| Paths.SplitDots | proxy/formatter.go:124 | What splitting at dots means: the parts, none of which has a dot, joined by dots are the text again. |
| Renaming.Sanitize | proxy/formatter.go:47-51 | Each configured name is cut at its first dot. |
| Renaming.Rename | proxy/formatter.go:68-75 | For every order in which the mapping is visited the data ends up as that order says, and as the intended renaming when the mapping is clean for the data. |
| Renaming.RenamesIff | proxy/formatter.go:68-75 | Every order gives the data without the old keys and with each old value under its new name if and only if no new name of a present key is itself a mapped key and present keys with one new name hold equal values. |
| Renaming.RenamingUnique | proxy/formatter.go:68-75 | That description of the intended result fixes it. |
| Renaming.OrderIrrelevant | proxy/formatter.go:68-75 | Under that condition any two orders give the same data. |
| Template.Request.GeneratePath | proxy/request.go:24-39 | The path is the pattern after one textual replacement per parameter, in some order of the parameters. |
| Template.ReplaceFills | proxy/request.go:31-36 | One textual replacement fills exactly the placeholders of that name. |
| Template.AnyOrder | proxy/request.go:24-39 | For patterns of placeholders and literals without opening braces, brace-free names and values without opening braces, every order gives simultaneous substitution. |
| SegmentedPaths.PathBySegment | proxy/request.go:30-37 | For any set of separators that occur in no placeholder, a path is filled segment by segment: no replacement reaches across a separator. |
| SegmentedPaths.FreeIff | proxy/request.go:30-37 | Any characters but braces and the dot are such separators exactly if no parameter name uses them. |
| SegmentedPaths.PathIff | proxy/request.go:24-39 | A path with at most one placeholder between two separators, such as `/`, `?`, `&` and `=`, is filled as by simultaneous substitution in every order of the parameters if and only if no value that goes into it is changed by the replacement of another parameter. |
| SegmentedPaths.OrdersDisagree | proxy/request.go:30-37 | Paths that fail: with the placeholder of `y` as the value of `x`, the two orders turn the path of one placeholder `x` into two different ones. |
| SegmentedPaths.OrdersDiffer | proxy/request.go:30-37 | One of them: `/{{.a}}` with `{{.b}}` for `a` and `x` for `b` becomes `/x` or `/{{.b}}`. |
| Cloning.Buffer.ReadFrom | proxy/request.go:82 | Reading a body appends its bytes to the buffer, possibly in a larger array, and leaves the body drained. |
| Cloning.ReadTwice | proxy/request.go:79-89 | What is read through a pooled buffer ends up in two fresh arrays that the pool does not own; the body is closed and the buffer is back in the pool. |
| Cloning.CloneRequestParams | proxy/request.go:109-115 | The copy is a fresh map with the same entries. |
| Cloning.CloneRequestHeaders | proxy/request.go:98-106 | The copy is a fresh map whose value lists are equal but fresh, no two in one place. |
| Cloning.CloneRequest | proxy/request.go:72-95 | Original and clone both read back the original bytes, up to the error of a body that fails, from fresh arrays shared with nothing; the URL is printed and parsed into a fresh one, headers and parameters are fresh copies, and the query is shared. |
| Cloning.CloneStored | proxy/request.go:72-95 | The clone keeps its URL, its parameters, its headers and their value lists where none of the other requests keeps theirs. |
| Cloning.CloneAll | proxy/request.go:72-95 | For any sequence of clones of requests and of earlier clones through one pool, all of them still read back the bytes of their original, no two share a body, and no clone shares its URL, parameters, headers or value lists with any request before it. |
| UrlMappings.IncreasingUnique | config/config.go:680-698 | There is one strictly increasing list of a given set of strings. |
| UrlMappings.UniqueOutput | config/config.go:680-698 | The in-place loop leaves the strictly increasing list of the distinct elements in front; the size counts those that are not sequential, never the last one. |
| UrlMappings.FromSetToSortedSlice | config/config.go:671-678 | The keys come back as a strictly increasing list, whatever order the map gave them in. |
| UrlMappings.NamesOccur | config/config.go:554-561 | The names extracted from a text are exactly those that stand between braces in it, each as often as it does. |
| UrlMappings.SomeUndefined | config/config.go:639-647 | The count exceeds the number of inputs only if some placeholder is undefined, so the first check never refuses wrongly. |
| UrlMappings.Backend.InitURLMappings | config/config.go:630-669 | A pattern is accepted exactly when each placeholder is sequential or an input parameter; which error comes first; and the pattern and the keys in every case: cleaned and untouched, or each placeholder with its first character in title case as a key, and rewritten to that key, up to the undefined one or to the end. |
| UrlMappings.Backend.RewriteOutputs | config/config.go:649-667 | The loop stops exactly at the first undefined placeholder; each key is its placeholder with the first character in title case, and the pattern has each placeholder before the stop replaced by that of its key. |
| UrlMappings.AcceptedPattern | config/config.go:649-667 | The accepted pattern is the one with all placeholders rewritten at once if and only if no placeholder clashes with the key of an earlier one. |
| Placeholders.IdRewritten | config/config.go:664-666 | For instance `/{id}` becomes `/{{.Id}}`. |
| Placeholders.NameChars | config/config.go:383 | Which characters a placeholder may be made of. |
| Placeholders.TextParse | config/config.go:383 | Taking a pattern apart at its placeholders loses nothing. |
| Placeholders.ParseText | config/config.go:383 | Pieces that cannot be misread are found again in their text. |
| Placeholders.ReplaceExpands | config/config.go:665 | One textual replacement rewrites exactly the placeholders of that name. |
| Placeholders.RewriteIff | config/config.go:651-667 | Rewriting names one after the other equals rewriting all at once if and only if no name is a dot followed by the key of an earlier name. |
| Placeholders.TwoClash | config/config.go:651-667 | Such patterns exist: a placeholder followed by that of a dot and its own key. |
| UrlMappings.DotsClash | config/config.go:630-669 | One of them is accepted: `/{.}{..}` where `.` and `..` are input parameters comes out wrong. |
| BackendPaths.PatternToPath | proxy/request.go:24-39 | From the configuration to the request: an accepted pattern without clashes or stray braces, filled with a safe value for each key, becomes in every order the original pattern with all placeholders substituted at once. |
| BackendPaths.IdPath | proxy/request.go:24-39 | For instance `/{id}` where `id` is 7 becomes `/7`. |

## Left out

- Time: timeouts appear only as a context that may be done at any step, and backend calls are assumed to return.
- Custom combiners and mergers: the default combiner is fixed. `Metadata` of responses is not modelled.
- `newMergeError`: errors are a list; how they are printed is not modelled.
- SequentialMerge.Merge: assumes that different backends answer with different responses and different maps, and that backends leave the request parameters alone.
- ParallelCollector.Collect: assumes the same of the messages; a response that came twice would be merged as it then is.
- SequentialMerge.UseReference: a raw body whose reading fails keeps failing when it is read again, and then has nothing left.
- Sequential.DestinationInjective: reference numbers are unbounded, while the source drops references whose number does not fit an int.
- Registry.ParameterIs: is about references by path; those to a whole raw body are left to `RawBodies.WholeBodyIs`.
- ForkJoin.SoundStep: goroutines and channels are a step machine, so channel operations are atomic; Go's memory model is not part of this model.
- Subscriber.DnsSubscriber.Update: the mutex makes each method one step; the refresh timer is not modelled. Answers with more than 2^47 records, which no slice can hold, are excluded.
- RoundRobin.RoundRobinLB.HostTimes: the atomic counter makes each call one step, and calls are taken in the order of their counter values.
- `randomLB` and `NewBalancer`: a random index and a choice by processor count, with nothing to prove beyond their bodies.
- FilterTries.Allowlisting: data and tries are trees in which no map is shared, as decoding and building produce them.
- The flatmap formatter and `Format` as a whole: the tree library behind the first is not part of this model, and the second only strings the steps together.
- SegmentedPaths.PathIff: paths with two placeholders and no separator between them are left to `Template.AnyOrder`, whose condition is sufficient; names of parameters are free of braces, as in routes.
- Cloning.CloneRequest: a URL is its text and parsing an arbitrary function; the body is copied before URL, headers and parameters rather than after, which none of them can notice.
- UrlMappings.Backend.InitURLMappings: path cleaning, title case and the recognition of sequential names are arbitrary functions; title case maps single characters to single characters.
- HTTP clients and servers, routers, renderers, static and shadow middlewares, query and header filters, logging: wrappers over unseen libraries or facts of single branches.
