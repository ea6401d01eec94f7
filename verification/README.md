# A verified model of the CDN cache node

This project models the cache node of the repository and proves what its parts keep, alone and together:

- the LRU index with TTLs over a storage backend, as objects updated in place (`LruCache.dfy`) and as values (`LruIndex.dfy`), with properties of whole sequential histories (`LruHistory.dfy`);
- the same cache under concurrency, with singleflight on top: a transition system with one step per locked section and per storage call, any number of threads, any schedule, and failing storage and origins (`Protocol.dfy`, `ProtocolSafety.dfy`, `ProtocolTime.dfy`, `ProtocolTheorems.dfy`); which request belongs to which flight (`ProtocolFlights.dfy`), where answers and failures come from (`ProtocolProvenance.dfy`), exactly when and by what a hit is overtaken (`ProtocolOvertaking.dfy`), exactly when a drop after a failed read takes a good entry (`ProtocolDangling.dfy`), exactly when a request can still be given something old (`ProtocolExposure.dfy`), and runs in which stronger claims fail (`ProtocolRaces.dfy`);
- the flush rules and their persistence, one call at a time (`FlushStore.dfy`) and by concurrent callers (`FlushConcurrent.dfy`), the request path (`Router.dfy`), the proof that flushing lazily is the same as flushing at once (`LazyFlush.dfy`) and exactly when it needs room for that (`LazyCapacity.dfy`);
- requests with their flush checks, rules and cleanups in any interleaving with the steps of the concurrent cache (`FlushProtocol.dfy`, `FlushRaces.dfy`), and exactly when an answer can be older than a rule the check saw (`FlushExposure.dfy`);
- the sliding-window rate limiter with its garbage collector (`RateLimit.dfy`);
- cache keys (`CacheKey.dfy`), the file-backed storage (`LocalFs.dfy`), origin rotation (`Puller.dfy`) and response lifetimes (`Ttl.dfy`).

Times and durations are integers (nanoseconds). Clock readings, failures of the backend, answers of the origin, the walking order of Go maps and the schedule are inputs or nondeterministic choices. `container/list` is modelled by a sequence of element objects, `singleflight.Group.Do` by its contract (one running call per key, latecomers share its result, the key is free again when the call ends), `sort.Strings` by its contract. JSON encoding is taken to round-trip, SHA-256 in hexadecimal to give 64 hexadecimal digits that differ for the keys in play, a finite set (`LocalFs.HashesExist` says which sets leave room for that), hexadecimal digests to hold no `#`.

`Index` values list metadata with the most recently used first. In the concurrent model the fields `installed`, `fetched`, `lost` and `log` of a state, the traces of `ProtocolFlights.dfy`, and `versions` and `holder` of `FlushConcurrent.dfy` are history: they record what happened and no step looks at them.

## Where the code and a plausible claim part ways

- A hit can be *overtaken*: the index is checked under the lock and the storage is read after it. If the entry expires (or is evicted, or deleted) in between and a new flight replaces the object, the request gets the new body with the old metadata, even when the new response is `no-store` (sections 5.2.2.4 and 5.2.2.5 of RFC 9111). `ProtocolRaces.HitCanBeOvertaken` gives the run. `ProtocolOvertaking.SpanDecides` and `ProtocolOvertaking.HitMatchesExactly` say which steps of a run decide it: a hit differs from its metadata if and only if some flight has stored an object under the key between the index check and the storage read. It then carries the last object stored between the two, so that a response that must not be stored reaches a hit if and only if it is that object, and otherwise only the requests of its own flight (`ProtocolOvertaking.NoStoreReachesExactly`).
- `Delete` can leave an indexed key without an object, because its storage half runs after the lock is released (`ProtocolRaces.DeleteCanLeaveDanglingEntry`). Such an entry is never served, and a Get that fails to read it drops what is indexed then: a good entry if and only if a flight has indexed the key again since the failed read and nothing has spoiled that entry (`ProtocolDangling.DropTakesGoodExactly`; `ProtocolDangling.GoodEntryIsDropped` gives a run).
- `X-Cache: hit` is reported from `Stat`, which ignores the TTL, so it does not mean that the origin was spared: it also accompanies a fetched answer if and only if the origin answers and the entry that survives the flush check has expired, has lost its object, or cannot be read (`Router.CacheHitHeader`; `Router.DanglingEntryIsReportedAsHit` for an entry without an object).
- `Cleanup` may bring a flushed entry back to life exactly when an entry can live longer than a rule is kept (`LazyFlush.CleanupSafeExactly`).
- Two concurrent `AddRule` calls may write their snapshots in the opposite order of their locks, and a restart then loses a rule (`FlushConcurrent.ConcurrentPersistLosesRule`). In every interleaving of `AddRule` calls the blob restores the rules in memory if and only if the last snapshot to land is that of the last call that took the lock (`FlushConcurrent.AddsRestoreExactly`); with `Cleanup` calls too this is enough, and what a restart restores is always what the call whose snapshot landed last had left (`FlushConcurrent.RestoresExactly`).
- A request can get an answer older than a rule that its own flush check has seen (`FlushRaces.JoinerGetsOlder`, `FlushRaces.LaterEntryIsOlder`), if and only if its key is exposed when its check is over: an entry that can still be hit has an older object, or the leader of the flight under way has one at hand or is about to read one (`FlushExposure.OlderAnswersExactly`). Afterwards such an answer shows as one from a flight that was under way when the check ended, or from an entry indexed after the check had looked (`FlushProtocol.OlderAnswersExplained`).
- The lazy flush needs room: flushed entries that nobody has asked for again keep their slots. It answers like a cache that deletes covered entries at once, in all runs over so many keys, if and only if these keys fit or the cache holds at most one entry anyway (`LazyCapacity.RoomExactly`).
- `max-age=N` means N seconds if and only if 0 < N <= 9223372036: `max-age=0` falls through to `Expires` and the default, and larger values overflow or cannot be read (`Ttl.MaxAgeIsExact`, `Ttl.PlainMaxAge`).
- The rotation counter is converted to a signed integer, and a pull panics once it has passed 2^63 unless the remainder happens to be zero (`Puller.PanicsExactly`).
- An `&` in a parameter value and a `?` in a path, both possible when escaped in the URL, can give two different requests one key. The query part tells all requests apart if and only if at most one parameter is configured (`CacheKey.SeparatesAllExactly`; with repeated parameters `CacheKey.SeparatesExactly`), and keys tell all paths of a domain apart if and only if none is (`CacheKey.PathsSeparateExactly`); a path can be read back from a key if and only if it has no `?` (`CacheKey.ReadsBackExactly`).
- The limiter's collector goes by the time a key was last seen, which is read before the limiter reads the clock itself. Collection is invisible if and only if no request takes longer than five minutes less a second, plus one nanosecond, between the two readings (`RateLimit.CollectionInvisibleExactly`).
- The design document says that `no-store` responses are not cached; the code stores them with TTL 0. It also describes one rotation counter per domain; the code shares one. The model follows the code.

## Model

| member | source | states |
|---|---|---|
| LruCache.LRUCache.Get | internal/cache/cache.go:60-92 | Keeps map and list in bijection within capacity; the answer and the new index and storage are those of the value-level Get: a fresh entry moves to the front, an expired one or one whose object cannot be read leaves the index |
| LruCache.LRUCache.Set | internal/cache/cache.go:94-112 | The new index and storage: a failed write indexes nothing; an indexed key is replaced in place and moved to the front; a new key is pushed and the overflow evicted from the back together with its objects |
| LruCache.LRUCache.Delete | internal/cache/cache.go:114-121 | The entry leaves the index and, if storage works, its object goes; nothing else changes |
| LruCache.LRUCache.Stat | internal/cache/cache.go:123-133 | Answers with the metadata of an indexed key, expired or not, and touches nothing |
| LruCache.LRUCache.EvictLocked | internal/cache/cache.go:146-156 | The loop leaves exactly the longest prefix within capacity and deletes exactly the objects of the rest |
| LruCache.LRUCache.RemoveLocked | internal/cache/cache.go:160-164 | One entry leaves map and list together; the bijection holds and the others keep their order |
| LruCache.LRUCache.MoveToFront | internal/cache/cache.go:78 | The element comes first, the others keep their order, and the bijection holds |
| LruCache.LRUCache.Replace | internal/cache/cache.go:103-105 | Replacing the metadata of an element in place and moving it to the front keeps the bijection |
| LruCache.GetAnswersExactly | internal/cache/cache.go:60-92 | Get answers if and only if the key is indexed, now is not after writtenAt + TTL, and its object can be read; the answer is the stored body with the indexed metadata |
| LruHistory.CallsAreSteps | internal/cache/cache.go:60-133 | The calls of the cache, with their storage outcomes, are the steps of the histories below |
| LruHistory.RunBounded | internal/cache/cache.go:144-156 | After any history the index has no key twice and holds at most maxItems entries |
| LruHistory.RecencyOrder | internal/cache/cache.go:45 | After any history the list is in order of last touch, the number of the last call that touched the key, where answered Gets and successful Sets touch and Stat does not |
| LruHistory.Survival | internal/cache/cache.go:146-156 | A touched key that has not been deleted, found expired or dropped on a failed read is still indexed while fewer than maxItems distinct other keys have been touched since |
| LruHistory.OnlyAliveIndexed | internal/cache/cache.go:60-133 | Every indexed key was touched and has not been dropped since |
| LruHistory.NewerSurvives | internal/cache/cache.go:144-156 | Eviction takes the least recently used: a key touched after a resident key, and not dropped, is resident and in front of it |
| LruHistory.ResidentExactly | internal/cache/cache.go:144-156 | Without drops among the keys touched since, a key is resident if and only if fewer than maxItems distinct keys have been touched since its own last touch |
| LruHistory.LargerNeverMisses | internal/cache/cache.go:60-164 | For one trace, a smaller cache's list is a subsequence of a larger one's, and whatever the smaller answers the larger answers with the same metadata |
| LruHistory.LargerAnswersAlike | internal/cache/cache.go:60-164 | For one sequence of calls with the same storage to start with and the same backend failures, a smaller cache's list is a subsequence of a larger one's, and every answer the smaller gives the larger gives too, with the same metadata and body |
| ProtocolSafety.StepInv | internal/cache/singleflight.go:35-80 | Every atomic step of any thread keeps the whole invariant: who leads which flight, keys of open flights are not indexed, conservation of fetches, provenance of every object, agreement of index and storage |
| ProtocolTheorems.AtMostOneFetch | internal/cache/singleflight.go:41-71 | In every interleaving at most one fetch per key is in flight |
| ProtocolTheorems.WaitersAreLed | internal/cache/singleflight.go:41-42 | In every reachable state a waiting request's flight has a leader that can take a step, so waiting cannot deadlock |
| ProtocolFlights.FlightIsShared | internal/cache/singleflight.go:35-80 | In every run a request that led or joined a flight gets the result of that flight and no other, having joined it after it began and before it ended, and a fetched object it gets was fetched by that flight; while the flight runs, the request is its one leader or a waiter; a request that ends without a flight has a hit of its own |
| ProtocolTheorems.FetchesBounded | internal/cache/singleflight.go:35-79 | Conservation in every interleaving: fetches started for a key = failed fetches + failed sets + removals from the index + 1 if the key is indexed or its flight is open; hence never more than one above failures and removals |
| ProtocolTheorems.WindowKeepsKeyOut | internal/cache/singleflight.go:42-68 | Between failed double-check and index insert a flight's key is not indexed; so Set never updates in place under singleflight, and its evictions spare every object another flight has just written and, with a positive capacity, its own |
| ProtocolTheorems.IndexAgreesWithStorage | internal/cache/cache.go:60-121 | In every interleaving, also with deletes and failing storage, an indexed key has exactly the object of the flight that indexed it, unless a Delete's storage half ran after that object was written; then it has none |
| ProtocolTheorems.IndexAgreesWithoutDelete | internal/cache/cache.go:60-112 | In every interleaving without Delete every indexed key has exactly the object of the flight that indexed it |
| ProtocolTheorems.AnswersAreAuthentic | internal/cache/singleflight.go:35-80 | Every answer carries a body some flight fetched under the same key; a hit's metadata too, and it was fresh at the index check |
| ProtocolProvenance.AnswersComeFromTheOrigin | internal/domain/router.go:176-190 | In every run the object of every answer is a response the origin gave in that run for the same key: its body, headers and lifetime, the size of the body, and the time at which it came |
| ProtocolProvenance.FailuresAreReal | internal/cache/singleflight.go:45-68 | In every run a request fails only when the origin has failed a flight of its key or the body of a stored object could not be read in one; a failed write never fails a request |
| ProtocolTheorems.DanglingEntryIsDropped | internal/cache/cache.go:81-90 | An indexed key whose object is gone can only be read with an error, and the next step of that Get takes it out of the index |
| ProtocolDangling.DropTakesGoodExactly | internal/cache/cache.go:81-90 | In every run the drop that follows a failed read leaves the key out of the index, and takes an entry that has its object if and only if a flight indexed the key between the two steps and no drop, expired check, eviction or delete has spoiled that entry since |
| ProtocolDangling.GoodEntryIsDropped | internal/cache/cache.go:81-90 | A run in which the drop takes a new entry whose object is there |
| ProtocolOvertaking.SpanDecides | internal/cache/cache.go:68-91 | With a strictly advancing clock a Get that checks the index at one step and reads storage at a later one returns the object its metadata describes if and only if no step between them stored a flight's object under the key |
| ProtocolOvertaking.HitMatchesExactly | internal/cache/singleflight.go:35-56 | Every hit in every strictly timed run, shared ones included, stems from such a pair of steps, with that same condition, and carries the last object stored between them if there is one |
| ProtocolOvertaking.NoStoreReachesExactly | internal/cache/cache.go:189-190 | For all answers: metadata with TTL 0 never reaches a hit; a hit carries a body with TTL 0 if and only if the last object stored between its index check and its storage read is one; and a fetched body reaches only requests that led or joined the flight that fetched it, before it ended |
| ProtocolTheorems.FlushRulesUntouched | internal/flush/store.go:23 | No run of requests, evictions and deletes with keys made by Build changes the stored flush rules |
| ProtocolTheorems.OtherKeysFramed | internal/cache/cache.go:94-156 | No run changes what is stored under a key that no request or delete of the run names |
| ProtocolTheorems.UninterruptedGet | internal/cache/cache.go:60-92 | The atomic steps of a Get, run back to back, have the result of the sequential Get |
| ProtocolTheorems.UninterruptedSet | internal/cache/cache.go:94-112 | The atomic steps of a Set, run back to back, have the result of the sequential Set |
| ProtocolTheorems.UninterruptedDelete | internal/cache/cache.go:114-121 | The atomic steps of a Delete, run back to back, have the result of the sequential Delete |
| ProtocolRaces.HitCanBeOvertaken | internal/cache/cache.go:71-91 | A run, for any bodies and any lifetime over five ticks, in which a hit returns a later no-store body with the old metadata |
| ProtocolRaces.DeleteCanLeaveDanglingEntry | internal/cache/cache.go:114-121 | A run in which the storage half of a Delete leaves a key indexed without an object |
| Router.Handler.GetOrFetch | internal/cache/singleflight.go:35-80 | With no other call running: fast path, double-check, fetch and set, as a function of the old state; a failed Set does not fail the request |
| Router.Handler.CheckFlush | internal/domain/router.go:98-106 | The entry is deleted exactly when it is indexed and older than the newest rule covering its path |
| Router.Handler.ServeHTTP | internal/domain/router.go:98-146 | Reply, cache-hit flag, new index and new storage as a function of the old state, the rules and the request |
| Router.ReplyExactly | internal/domain/router.go:98-146 | The reply to every request, in any ordered state and under any faults: the stored body with the indexed metadata of an entry that is spared by the rules, not past its lifetime and readable; without one, the origin's body, headers and lifetime under the request's key, with the size of the body and the time of the answer; without either, an error |
| Router.CacheHitExactly | internal/domain/router.go:109-135 | For every reply, good or bad, X-Cache says hit if and only if some entry of the key, expired or not, is no older than every rule of the domain whose prefix begins the path; so every answer from the cache says hit |
| Router.NextRequestGetsTheSame | internal/cache/singleflight.go:35-80 | After a fetched answer whose write worked, the next request for the key gets the origin's body and headers from the cache, with X-Cache hit, while the lifetime lasts and no newer rule covers it; and nothing else from the cache |
| Router.ServedIsFresh | internal/domain/router.go:98-112 | In any state and under any faults, an answer from the cache is unexpired, under the request's own key, no older than every stored rule covering the request, and not a no-store response once the clock has moved on |
| Router.CacheHitHeader | internal/domain/router.go:108-135 | In any ordered state and under any faults the hit flag accompanies a fetched answer if and only if the origin answers and the entry survives the flush check but has expired, has no object, or cannot be read |
| Router.DanglingEntryIsReportedAsHit | internal/domain/router.go:108-135 | An indexed key without an object: the flag says hit, the answer is fetched, and it replaces the entry |
| LazyFlush.AddRuleRelated | internal/flush/store.go:77-91 | Recording a rule flushes, entry by entry and in order, exactly what deleting every covered entry removes |
| LazyFlush.CleanupRelated | internal/flush/store.go:113-134 | Dropping rules at least as old as the longest lifetime changes nothing that can be served |
| LazyFlush.FlushDueIff | internal/domain/router.go:99-105 | Comparing with the newest rule of Match decides whether any rule flushes the entry |
| LazyFlush.StepRelated | internal/domain/router.go:95-112 | One request under any faults, AddRule or Cleanup keeps what the lazy cache can serve equal, in order and content, to the unexpired part of the eager cache, with equal replies |
| LazyFlush.LazyFlushRefinesEager | internal/flush/store.go:1-9 | Over every run of requests, AddRule and Cleanup, whatever backend calls fail, every reply (hit or fetch, body, metadata) equals that of a cache that deletes all covered entries at each AddRule |
| LazyCapacity.RoomExactly | internal/cache/cache.go:144-156 | That holds in all runs over at most so many keys if and only if they fit in the cache or its capacity is at most one |
| LazyFlush.ServedIsFreshInEveryRun | internal/domain/router.go:98-112 | After every run of requests, rules and cleanups, under any faults, the next reply is fetched by the request or unexpired, no older than every stored rule covering it, and never a no-store response once the clock has moved on |
| LazyFlush.CleanupSafeExactly | internal/flush/store.go:113-134 | Cleanup is invisible in all runs if and only if no TTL exceeds the age at which rules are dropped |
| LazyFlush.CleanupResurrects | internal/flush/store.go:113-134 | For every lifetime above that age a run serves a flushed entry again |
| FlushStore.NewestFacts | internal/flush/store.go:95-110 | The rule Match picks covers the path, no covering rule is more recent, and it is the first of equally recent ones; it picks none only if none covers |
| FlushStore.YoungerAppend | internal/flush/store.go:118-128 | Cleanup keeps the surviving rules of a bucket in their order |
| FlushStore.Store.AddRule | internal/flush/store.go:77-91 | The rule is appended to its domain's bucket even if persisting fails; if it succeeds, the blob restores exactly the rules in memory; the call is a step of the histories below, whatever its write does |
| FlushStore.Store.Match | internal/flush/store.go:95-110 | The loop finds the newest covering rule of the domain, the first of equally recent ones |
| FlushStore.Store.Cleanup | internal/flush/store.go:113-134 | Exactly the rules younger than the cutoff stay, empty buckets go, and a successful write makes the blob restore the result; the call is a step of the histories below |
| FlushStore.Store.CleanBuckets | internal/flush/store.go:117-129 | The loop cleans every bucket once, whatever order the map is walked in |
| FlushStore.Store.Load | internal/flush/store.go:50-74 | A fresh store ends with the only rules the blob mirrors; a missing or unreadable blob leaves it empty without error, one that does not decode is an error |
| FlushStore.Store.AllRulesLocked | internal/flush/store.go:145-151 | The list is the buckets one after another, in some order of the domains |
| FlushStore.Store.Persist | internal/flush/store.go:153-164 | After a successful write the blob restores the rules in memory |
| FlushStore.LoadRestores | internal/flush/store.go:71-73 | Loading a flattened rule map gives the map back, for every walking order, because buckets hold only their own domain's rules and are not empty |
| FlushStore.RestartRestores | internal/flush/store.go:50-134 | After any sequential history of AddRule and Cleanup whose last write succeeded, a restart restores exactly the rules per domain, in order |
| FlushConcurrent.RestoresExactly | internal/flush/store.go:77-134 | In every interleaving of AddRule and Cleanup calls with any failing writes, a restart restores the rules left by the call whose snapshot landed last, and no others |
| FlushConcurrent.AddsRestoreExactly | internal/flush/store.go:77-91 | In every interleaving of AddRule calls with any failing writes, the blob restores the rules in memory if and only if the last snapshot to land is that of the last call that took the lock |
| FlushConcurrent.LastCallRestores | internal/flush/store.go:113-134 | That is enough with Cleanup calls too |
| FlushConcurrent.ConcurrentPersistLosesRule | internal/flush/store.go:85-90 | The run of two AddRule calls whose writes land in the opposite order of their locks, after which a restart restores only the first rule |
| FlushConcurrent.UninterruptedCall | internal/flush/store.go:77-134 | The two steps of a call, run back to back, do what the sequential call does |
| FlushProtocol.DueExactly | internal/domain/router.go:98-106 | The flush check deletes if and only if some covering rule of the domain is newer than an entry of the key |
| FlushProtocol.StepOk | internal/domain/router.go:98-112 | Every step of a flush check, of GetOrFetch, of AddRule or of Cleanup keeps what holds of every request: what it or the leader of a flight younger than its check has at hand is no older than the rules it saw, or was indexed after its look-up |
| ProtocolExposure.EndsOlderExactly | internal/cache/singleflight.go:35-80 | A request about to look up its key can end, in some strictly timed continuation, with an object written before a given past time if and only if the key is exposed: an entry not expired at the next tick has such an object, or the key's leader has one at hand or is about to read one |
| FlushExposure.OlderAnswersExactly | internal/domain/router.go:98-112 | In every run, for a request that has passed its flush check and not looked up its key yet, and every covering rule the check saw: some interleaving of requests, rules, cleanups and deletes gives it an older answer if and only if its key is exposed for the time of the rule |
| FlushProtocol.OlderAnswersExplained | internal/domain/router.go:98-112 | What such an answer looks like afterwards: in every strictly timed interleaving it is the result of a flight that was under way when the check ended, or a hit on an entry indexed after the check had looked it up |
| FlushRaces.JoinerGetsOlder | internal/domain/router.go:98-112 | A run in which a request whose check saw the rule joins a flight and gets a response fetched before the rule was created |
| FlushRaces.LaterEntryIsOlder | internal/domain/router.go:98-112 | A run in which that flight indexes its object between the request's look-up and its Get |
| RateLimit.SlidingWindow.Allow | internal/pipeline/ratelimit/ratelimit.go:150-171 | The pruned window and the decision as a function of the old window |
| RateLimit.DecisionsMatchFullHistory | internal/pipeline/ratelimit/ratelimit.go:150-171 | Every decision equals that of a limiter that keeps all acceptances: accepted exactly if fewer than ratePerSec requests were accepted in the window (now - window, now] |
| RateLimit.RateBound | internal/pipeline/ratelimit/ratelimit.go:150-171 | Every interval (s, s + window] holds at most ceil(ratePerSec) acceptances, and none if the rate is not positive |
| RateLimit.OneASecond | internal/pipeline/ratelimit/ratelimit.go:141-160 | At one request per second, a request one nanosecond before the end of the second is rejected and one at its end accepted |
| RateLimit.PerDomainState.Execute | internal/pipeline/ratelimit/ratelimit.go:78-88 | Decision and new state of all limiters, with the clock read once for the key and once by the limiter; only the request's own limiter changes, and no two keys share one |
| RateLimit.PerDomainState.Collect | internal/pipeline/ratelimit/ratelimit.go:122-130 | Exactly the keys idle for more than five minutes are forgotten, from both maps |
| RateLimit.CollectionIsInvisible | internal/pipeline/ratelimit/ratelimit.go:63-132 | Over any run of all keys and collector ticks in which no request takes too long between its two readings of the clock, the decisions for a key are those of one never-collected limiter run on its requests alone |
| RateLimit.CollectionInvisibleExactly | internal/pipeline/ratelimit/ratelimit.go:78-132 | Collection is invisible in all runs if and only if that time is at most five minutes less a second, plus one nanosecond |
| RateLimit.KeysAndDomainsAreIsolated | internal/pipeline/ratelimit/ratelimit.go:49-132 | Over any run of all domains, keys, reconfigurations and collector ticks, a key of a domain is treated as by one limiter, at the rate of the domain's first request, that sees that key's requests alone |
| RateLimit.ModesDecideSharing | internal/pipeline/ratelimit/ratelimit.go:100-109 | Over any such run, in ip mode the decisions on one client's requests are those of one limiter that sees exactly these; in domain mode those on all requests of the domain are those of one limiter, whoever they come from |
| RateLimit.HeldExactly | internal/pipeline/ratelimit/ratelimit.go:118-132 | After any run of a domain a key has a limiter if and only if it has been seen and no later collection found its last request older than five minutes |
| RateLimit.Plugin.Execute | internal/pipeline/ratelimit/ratelimit.go:49-88 | The table of per-domain states after a request, and its decision: the domain's state is created on first use with that request's configuration, and no state or limiter of another domain changes |
| CacheKey.BuildQuery | internal/cache/key.go:46-61 | The loop, the sort and the join give the normalised query part, whichever sorting algorithm is used |
| CacheKey.BuildHeaderHash | internal/cache/key.go:63-81 | The digest of the sorted header parts, or nothing when no configured header is present |
| CacheKey.Build | internal/cache/key.go:31-44 | The key under the domain's own rules if it has any, else under the global ones: for a domain without ':' and a path without '?' its query part and header hash read back as those of the own rules, whatever the global ones are, or, without own rules, as those of the global ones |
| CacheKey.OwnParametersCount | internal/cache/key.go:31-35 | Two requests that differ in the first value of a parameter of the domain's own rules get different keys, whatever the global rules are, when names and values hold no separators |
| CacheKey.KeyInFull | internal/cache/key.go:31-81 | One key written out, with two parameters and two headers of the domain's own rules in sorted order |
| CacheKey.OrderedUnique | internal/cache/key.go:59 | A multiset of strings has exactly one ordered listing |
| CacheKey.KeyIgnoresOrder | internal/cache/key.go:46-61 | The key does not depend on the order of configured names, nor on the order of a query in which no parameter has two values |
| CacheKey.KeyIgnoresOthers | internal/cache/key.go:46-79 | Unconfigured parameters and headers, and all but the first value of a parameter, do not influence the key |
| CacheKey.LaterValuesIgnored | internal/cache/key.go:55-57 | Adding to a query further values of parameters that have one, or parameters that are not configured, does not change the key |
| CacheKey.QueryPartSeparates | internal/cache/key.go:46-61 | If names and values hold no separators, two requests have the same query part if and only if every configured parameter has the same first value in both |
| CacheKey.HeaderHashSeparates | internal/cache/key.go:65-80 | If names and values hold no separators and the digest tells the two inputs apart, two requests have the same header hash if and only if every configured header reads the same in both, a missing one as empty; the hash is empty if and only if all of them are |
| CacheKey.SeparatesExactly | internal/cache/key.go:46-61 | If some name is configured just once, or there is but one name, the query part tells all requests apart if and only if there is but one |
| CacheKey.SeparatesAllExactly | internal/cache/key.go:46-61 | So for configured names without repeats if and only if at most one name is configured |
| CacheKey.ValuesWithAmpersandCollide | internal/cache/key.go:55-60 | Of two configured names, the first of them configured once and sorted first, one value with an '&' looks like two values, whatever else is configured |
| CacheKey.BuiltKeyReadsBack | internal/cache/key.go:43 | Domain without ':', path without '?', query part and header hash can all be read back from a built key |
| CacheKey.DomainReadsBack | internal/cache/key.go:43 | Keys of different ':'-free domains never collide, whatever the paths |
| CacheKey.ReadsBackExactly | internal/cache/key.go:43 | A key's domain reads back if and only if it has no ':', its path, after such a domain, if and only if it has no '?', its hash if and only if it has no '#' |
| CacheKey.QuestionMarkShifts | internal/cache/key.go:43 | Every path with a '?' gives the same key as the path before the '?' with the rest moved into the query part |
| CacheKey.PathsSeparateExactly | internal/cache/key.go:31-44 | With a hexadecimal digest and a domain without ':', keys tell all paths apart if and only if no query parameter is configured |
| CacheKey.PathsWithQuestionMarkCollide | internal/cache/key.go:31-44 | For any rules with a configured parameter, two requests that Build can receive, with different paths and one key |
| CacheKey.OneParameterCollides | internal/cache/key.go:31-44 | With the parameter v configured, the path /a?v=1 without a query and the path /a with v=1? share a key |
| CacheKey.KeyIsNotPersistKey | internal/flush/store.go:23 | No built key is the key of the flush-rule blob |
| LocalFs.LocalFS.Write | internal/storage/localfs.go:59-89 | A successful write is what the key then holds; a failed one leaves the key unchanged or, after a failed metadata write, absent if the clean-up works, and otherwise with the new content beside old, torn or new metadata; no other key in play changes |
| LocalFs.LocalFS.Read | internal/storage/localfs.go:41-57 | Returns exactly what the key holds, if it is present and readable |
| LocalFs.LocalFS.Delete | internal/storage/localfs.go:91-99 | The key is absent afterwards, or unchanged on an error; a missing key is not an error; no other key in play changes |
| LocalFs.LocalFS.List | internal/storage/localfs.go:122-148 | The names recorded for the keys in play that are present and have the prefix, once for each such key |
| LocalFs.ListedExactly | internal/storage/localfs.go:131-146 | A name is listed if and only if it has the prefix and some key in play is present with that name in the metadata field key; so a key written with its own name is listed under each of its prefixes |
| LocalFs.ListedKeysArePresent | internal/storage/localfs.go:117-121 | If recorded names are truthful, List returns exactly the present keys that record one and have the prefix, each once |
| LocalFs.HashesExist | internal/storage/localfs.go:36-39 | A hash to 64 hexadecimal digits that separates the keys in play exists if and only if there are at most 16^64 of them |
| Puller.Rotation.Pull | internal/origin/puller.go:42-67 | It succeeds if and only if one of the retry + 1 attempts in rotation is answered, with the first such attempt and its origin, whatever origins fail or recover in between; with steady origins and retry >= n - 1, if and only if some origin is healthy; it panics exactly on a negative start |
| Puller.SucceedsIffSomeUp | internal/origin/puller.go:58-66 | With retry >= n - 1 and steady origins some attempt of the rotation is answered exactly when some origin is healthy |
| Puller.PanicsExactly | internal/origin/puller.go:55 | The start is negative exactly when the counter has passed 2^63 and its distance to 2^64 is not a multiple of n |
| Puller.StartsAreFair | internal/origin/puller.go:54-55 | Over any number of consecutive pulls on one list the start counts of two origins differ by at most one |
| Ttl.ParseTTL | internal/cache/cache.go:185-212 | The loop decides as specified; a header that at some place goes on, in lower case, with no-store or no-cache gives 0, and one that does not, and has no usable max-age, gives the time left until Expires if that is positive and otherwise the default |
| Ttl.MaxAgeInContext | internal/cache/cache.go:192-200 | A max-age=N between commas, padded with blanks and tabs, in a header that says max-age= nowhere else and forbids nothing, gives N seconds if and only if 0 < N <= 9223372036; for N = 0 the time until Expires or the default |
| Ttl.SignedMaxAge | internal/cache/cache.go:195 | A plus before the number changes nothing, a minus makes the directive useless |
| Ttl.PositiveExactly | internal/cache/cache.go:182-184 | The lifetime is positive if and only if storing is not forbidden and the first usable max-age, if there is one, is no multiple of 2^55 seconds and its nanoseconds hold 2^63 an even number of times |
| Ttl.MaxAgeIsExact | internal/cache/cache.go:192-211 | A header that allows storing and whose only usable max-age is N, in any number of digits and anywhere in the list, gives N seconds if and only if 0 < N <= 9223372036; otherwise the wrapped product, or Expires and the default |
| Ttl.PlainMaxAge | internal/cache/cache.go:192-211 | The same for the header max-age=N with N in decimal notation, for every N |
| Ttl.DecimalReadsBack | internal/cache/cache.go:195 | Reading the decimal notation of a number gives the number back |

## Left out

- LazyFlush.LazyFlushRefinesEager: covers requests one at a time; interleaved requests are the subject of FlushProtocol.OlderAnswersExplained and FlushExposure.OlderAnswersExactly, which bound how old an answer can be but do not compare with an eager cache.
- ProtocolOvertaking.SpanDecides: assumes, like FlushProtocol.OlderAnswersExplained, that no two steps read the same time; two fetches within one tick could give equal metadata.
- Router.Handler.ServeHTTP: starts after domain lookup and plugins; the host header without its port, the 404 for an unknown domain, the pipeline's short-circuit and the writing of response headers are not modelled, and the rewritten path is an input.
- FlushStore.Store.AddRule: snapshot and write are one call here; FlushConcurrent splits them, on values.
- RateLimit.PerDomainState.Execute: models the sliding window only; the token bucket and the splitting of client addresses are library code. The rate is a real number, so NaN is not covered.
- CacheKey.KeyIgnoresOrder: takes a decoded list of query pairs and a header table; URL decoding and header-name canonicalisation are library code, and the truncated SHA-1 is an arbitrary function.
- LocalFs.LocalFS.Write: describes calls that return; the directory after a crash between rename and metadata write is not modelled.
- Puller.Rotation.Pull: the network, timeouts and header copying are not modelled; whether an attempt at an origin is answered is an input.
- Ttl.ParseTTL: lower-casing works character by character, on ASCII as usual and otherwise in any way; reading the date of Expires is an input.
- CacheKey.SeparatesExactly: leaves out configurations in which there are several names and every one of them is repeated.
- Metrics, logging, configuration loading and watching, the admin handlers and the HTTP servers, which are input/output plumbing.
- Rebuilding the index at startup, which the design document describes and the code does not do.
