# Verified models of the DigitalOcean MCP server's core

The server is mostly plumbing around an API client. The parts of it that decide something
on their own are modelled here, one module a component, and their promises are proved:

- `OwResolver` — the cache of OpenWhisk credentials: a bounded LRU cache with expiry, kept
  in a map and a doubly linked list that are changed together.
- `RateLimit`, `RateLimitRuns` — the per-client rate limiter: 64 sharded maps of token
  buckets, with idle sweeps and arbitrary eviction; and what its runs guarantee a client.
- `CorpusLoad` — the protocol by which callers share corpus loads: one load a key,
  client-wide slots, callers that leave, timeouts that are counted.
- `ShardLookup` — which shard of the corpus holds a page, and how results are grouped by shard.
- `Utf8`, `Utf8Chars`, `Bits`, `Excerpt` — choosing the window of a page that covers the most
  query terms, at the level of bytes.
- `Pagination` — reading a page in windows.
- `OutputSchema` — widening a JSON Schema so that it admits null, and the published root.
- `DocsIndex`, `Ranking`, `ResultOrder` — the page index with precomputed tokens, the search
  in it, and which result comes before which.
- `TtlCache`, `IndexRefresh` — the bounded TTL cache, and the refreshing of the index that
  serves the last good one while the origin fails.
- `Markdown`, `MarkdownForms` — cleaning a page and leaving its code blocks alone; and the
  form of the fences and the markup that it knows.
- `WsLog` — the queue, the batch and the partial sends of the WebSocket log.
- `DeleteResolve` — which model a delete request means.
- `Sequences`, `Strings` — sequences, sets and strings, used throughout.

What the program changes in place is a class, and its loops are methods, each tied to a
function of the old state; the theorems are about those functions and about runs. Where
goroutines interleave, the model is a state machine whose steps are their critical
sections, and the theorems hold in every interleaving. Times are integers or reals that
only move forward; what the network answers, the order in which a map is visited and the
bucket that an eviction hits are arbitrary. Text is a sequence of bytes in `Utf8`, `Excerpt`
and `Pagination`; a character stands for a byte in `DocsIndex`, where the code measures tokens
by bytes, and for a code point in `Markdown`.

`dafny verify dfyconfig.toml` checks everything.

Four facts about the code, each proved:

- Nothing validates that the rate refills the burst within the idle time. Exactly when it
  does, every client that is never evicted keeps to the window bound, and is answered as by
  an unbounded map, in every run (`RateLimitRuns.WindowBoundIff`,
  `RateLimitRuns.ClientsAreIsolatedIff`); else `RateLimitRuns.UnevictedShows` gives a run
  in which such a client gets a burst it has not earned. In runs without any eviction, half
  that rate is enough where the configured maximum is so small (1 to 127) that a shard has
  room for one client (`RateLimitRuns.SweepsAreInvisibleIff`).
- `Close` of the log handler is documented to flush the messages that remain, but a flush
  that starts afterwards returns at once (internal/wslogging/handler.go:389-391). What
  remains at the close can still all be sent exactly if it is the rest of a batch that a
  flush was already sending (`WsLog.ClosedDeliversIff`); `WsLog.CloseLosesMessages` gives a
  run that loses a message.
- A cached index is the one held for bad times, except exactly between two statements of a
  load (pkg/registry/docs/docs_client.go:463-464): `IndexRefresh.CachedIsLastGoodIff`.
- The "not found" error of the delete resolution cannot occur (`DeleteResolve.OneOutcome`).

## Model

| member | source | states |
|---|---|---|
| OwResolver.List.Remove | pkg/registry/functions/ow_resolver.go:107 | unlinking any element leaves a well-linked list of the others, in order |
| OwResolver.List.PushFront | pkg/registry/functions/ow_resolver.go:185 | a new element becomes the front of a well-linked list, and no other moves |
| OwResolver.List.MoveToFront | pkg/registry/functions/ow_resolver.go:103 | the element becomes the front, and the others keep their order |
| OwResolver.Resolver.constructor | pkg/registry/functions/ow_resolver.go:64-70 | the resolver starts with map and list consistent and empty |
| OwResolver.Resolver.Lookup | pkg/registry/functions/ow_resolver.go:99-110 | map and list stay in bijection; a hit returns what the key holds and moves it to the front, an entry at or past its time is removed, and a miss changes nothing |
| OwResolver.Resolver.SweepExpired | pkg/registry/functions/ow_resolver.go:191-202 | the backward sweep removes exactly the entries past their time, keeps the order of the rest, and keeps map and list in bijection |
| OwResolver.Resolver.EvictOldest | pkg/registry/functions/ow_resolver.go:175-183 | exactly the entries beyond the most recent 5999 leave both map and list |
| OwResolver.Resolver.Put | pkg/registry/functions/ow_resolver.go:167-187 | the new contents are the new entry, then what is left of the old without the key, without what expired, cut to the maximum; map and list stay in bijection |
| OwResolver.Resolver.Resolve | pkg/registry/functions/ow_resolver.go:96-162 | a hit provisions nothing; otherwise a provisioned key is put in front, and a failure leaves only what the lookup left |
| OwResolver.KeysOfNodes | pkg/registry/functions/ow_resolver.go:59-60 | a map that indexes the list has as many keys as the list has elements, and the same ones |
| OwResolver.RunWellFormed | pkg/registry/functions/ow_resolver.go:96-187 | in every run of lookups and puts keys stay unique and their number at most 6000 |
| OwResolver.StepRetains | pkg/registry/functions/ow_resolver.go:99-110 | one operation keeps a fresh key unless it makes 6000 distinct others more recent, and lets at most the key it uses move ahead |
| OwResolver.LruRetention | pkg/registry/functions/ow_resolver.go:167-187 | over any run, a key stays cached while it is fresh and fewer than 6000 distinct other keys are ahead of it or used meanwhile |
| OwResolver.RetainedSinceUse | pkg/registry/functions/ow_resolver.go:99-110 | counted from a put or a hit of the key, only the distinct other keys used since then count |
| OwResolver.LruIsExact | pkg/registry/functions/ow_resolver.go:167-187 | where nothing expires, a key not used again is still cached if and only if fewer than 6000 distinct other keys are ahead or were used |
| OwResolver.PutSweeps | pkg/registry/functions/ow_resolver.go:191-202 | after a put no entry but the new one is past its time |
| OwResolver.PutDecides | pkg/registry/functions/ow_resolver.go:167-187 | a put leaves another key if and only if it was cached, is not past its time, and fewer than 5999 others ahead of it are not past theirs; what expired takes no room |
| OwResolver.LookupDecides | pkg/registry/functions/ow_resolver.go:99-110 | a lookup serves its key before its time and drops it otherwise; of every other key nothing changes but that a hit is ahead of it |
| OwResolver.RetainedIff | pkg/registry/functions/ow_resolver.go:167-202 | over any run, whatever expires, a key not used again is still cached if and only if every put found it unexpired with fewer than 5999 other unexpired keys ahead |
| OwResolver.CachedIsLastPut | pkg/registry/functions/ow_resolver.go:185-186 | whatever is cached after a run is the credentials last put under its key, or was there before |
| OwResolver.HitIsLastPut | pkg/registry/functions/ow_resolver.go:100-106 | from an empty cache, a hit serves the credentials last put under that key, and never after their time |
| RateLimit.LimitsOf | pkg/registry/docs/docs_http_ratelimit.go:128-146 | a validated configuration gives its own rate and burst, its idle time or the default, and shares that are a sixty-fourth of the maximum, or its default, but at least one |
| RateLimit.ValidIff | pkg/registry/docs/docs_http_ratelimit.go:71-85 | a configuration is accepted exactly if the limiter is off, or has a positive rate, a burst of at least one and, to enforce them, a header name with a visible character |
| RateLimit.ClientBucket.Allow | pkg/registry/docs/docs_http_ratelimit.go:196 | a take is allowed if and only if a whole token is there; it then spends one, and a denied take spends nothing |
| RateLimit.Shard.Sweep | pkg/registry/docs/docs_http_ratelimit.go:217-222 | in whatever order the map is visited, exactly the buckets idle for longer than the limit go, and the others are untouched |
| RateLimit.Shard.MakeRoom | pkg/registry/docs/docs_http_ratelimit.go:215-230 | a bucket is evicted if and only if the shard is still full after the sweep, and it is one that was there |
| RateLimit.Shard.BucketLocked | pkg/registry/docs/docs_http_ratelimit.go:210-234 | a known client only has its time refreshed; a new one gets a full bucket, after room was made |
| RateLimit.Shard.Charge | pkg/registry/docs/docs_http_ratelimit.go:194-204 | answers by the tokens there are, counts as the start of limiting only the first denial since an allowed take, and changes this client's bucket alone |
| RateLimit.Shard.Take | pkg/registry/docs/docs_http_ratelimit.go:189-204 | a take on a shard is a step of the machine that the theorems on runs are about, with a legal eviction if any |
| RateLimit.TakeKeepsShare | pkg/registry/docs/docs_http_ratelimit.go:210-234 | no take leaves a shard above its share of the clients |
| RateLimit.RateLimiter.constructor | pkg/registry/docs/docs_http_ratelimit.go:128-146 | a limiter starts with 64 separate empty shards |
| RateLimit.RateLimiter.Take | pkg/registry/docs/docs_http_ratelimit.go:189-204 | a take works on the key's own shard and changes no other, and every shard stays within its share |
| RateLimit.RateLimiter.Size | pkg/registry/docs/docs_http_ratelimit.go:236-245 | the count is the sum over the shards, and at most 64 shares |
| RateLimitRuns.TokensLater | pkg/registry/docs/docs_http_ratelimit.go:198 | what a bucket holds later is what it holds now and what the time earns, up to the burst |
| RateLimitRuns.RetryIsExact | pkg/registry/docs/docs_http_ratelimit.go:197-200 | after a denial the client is told the least whole number of seconds, at least 1, after which a take is allowed |
| RateLimitRuns.RetryIsHonoured | pkg/registry/docs/docs_http_ratelimit.go:189-234 | in every run of a shard, with whatever sweeps and evictions, the next take of a client that was denied is allowed if it waits as told |
| RateLimitRuns.LimitingStartsOnce | pkg/registry/docs/docs_http_ratelimit.go:194-204 | in every run, a client is reported to start being limited exactly at a denial whose previous take, if any, was allowed |
| RateLimitRuns.OthersStayOrGo | pkg/registry/docs/docs_http_ratelimit.go:210-234 | a take removes another client exactly if it evicts it, or if it sweeps and the client has been idle for longer than the limit; the bucket of any other stays as it is |
| RateLimitRuns.AllowedWithinBudget | pkg/registry/docs/docs_http_ratelimit.go:189-204 | from any bucket, the takes allowed in a window are at most the tokens at its start and what it earns |
| RateLimitRuns.AloneWindowBound | pkg/registry/docs/docs_http_ratelimit.go:189-204 | a client by itself is allowed, in any window, at most the burst and the rate times the window |
| RateLimitRuns.WindowBound | pkg/registry/docs/docs_http_ratelimit.go:189-234 | the same bound in a run of a shard with any other clients, if in that run the client's bucket is not evicted, nor swept while the rate could not have refilled it |
| RateLimitRuns.WindowBoundIff | pkg/registry/docs/docs_http_ratelimit.go:189-234 | the bound holds in every run, for every client that is never evicted and every window, if and only if the rate earns the burst in the idle time, however many clients a shard has room for |
| RateLimitRuns.FullIsNew | pkg/registry/docs/docs_http_ratelimit.go:231 | a take cannot tell a full bucket from a new one |
| RateLimitRuns.IdleIsFull | pkg/registry/docs/docs_http_ratelimit.go:219 | a bucket idle for longer than the limit is full again, if the rate refills the burst in that time |
| RateLimitRuns.ClientsAreIsolated | pkg/registry/docs/docs_http_ratelimit.go:189-234 | in such a run the client gets, answer for answer, what an unbounded map would give it: neither other clients nor sweeps of full buckets show |
| RateLimitRuns.ClientsAreIsolatedIff | pkg/registry/docs/docs_http_ratelimit.go:189-234 | every client that is never evicted is isolated so in every run, if and only if the rate earns the burst in the idle time |
| RateLimitRuns.UnevictedShows | pkg/registry/docs/docs_http_ratelimit.go:215-230 | otherwise there is a legal run in which a client that is never evicted is swept and comes back, at once, to a burst beyond the bound |
| RateLimitRuns.IdleSweepsAreInvisible | pkg/registry/docs/docs_http_ratelimit.go:189-234 | where the rate times the idle time is at least the burst, a run whose only removals are idle sweeps gives every client the allowed, retry and start-of-limiting answers of an unbounded map |
| RateLimitRuns.OnlyFullIsUnnoticed | pkg/registry/docs/docs_http_ratelimit.go:219-221 | forgetting a bucket changes no later answer if and only if the bucket is full |
| RateLimitRuns.LoneIsIsolated | pkg/registry/docs/docs_http_ratelimit.go:215-223 | where a shard has room for one client, twice the idle time is enough: a client that returns without an eviction has been away that long |
| RateLimitRuns.SweepsAreInvisibleIff | pkg/registry/docs/docs_http_ratelimit.go:215-223 | every run whose only removals are idle sweeps answers every client as an unbounded map would, if and only if the rate earns the burst in the idle time, or in twice that with room for one client a shard |
| RateLimitRuns.SweepShows | pkg/registry/docs/docs_http_ratelimit.go:215-230 | a client that spends its burst, is swept by a newcomer and comes back before the rate has refilled it gets it twice, more than the bound and more than alone |
| CorpusLoad.TimeoutCounter.NoteTimeout | pkg/registry/docs/docs_corpus.go:188-200 | reports the third timeout of a key and forgets the count then, and counts it otherwise |
| CorpusLoad.TimeoutCounter.ClearTimeouts | pkg/registry/docs/docs_corpus.go:202-206 | forgets the count of that key and no other |
| CorpusLoad.StepKeepsSlots | pkg/registry/docs/docs_corpus.go:226-231 | every step keeps the occupied slots equal to the loads that hold one, and at most four |
| CorpusLoad.ReachableKeepsInv | pkg/registry/docs/docs_corpus.go:213-250 | in every interleaving from the start, slots equal the loads holding one and are at most four, every waiting caller has a load under way, and the counter of a key is its timeouts since the last success, modulo three |
| CorpusLoad.ThirdTimeoutIsCached | pkg/registry/docs/docs_corpus.go:232-238 | a timeout is cached as a failure if and only if it makes the timeouts since the last success a multiple of three |
| CorpusLoad.HardErrorIsCached | pkg/registry/docs/docs_corpus.go:233-239 | any other error is cached as a failure at once, and neither counts nor resets |
| CorpusLoad.LoadsIgnoreCallers | pkg/registry/docs/docs_corpus.go:244-249 | the loads of a run, its slots, counters and cache do not depend on who is still waiting: they form a machine of their own that never looks at the callers |
| CorpusLoad.LoadCompletes | pkg/registry/docs/docs_corpus.go:220-243 | from every reachable state a load that has a slot, or can get one, can run to its end by its own steps whether or not anybody waits; it then has given its slot back, and no other load has moved |
| CorpusLoad.LoadIsNotStuck | pkg/registry/docs/docs_corpus.go:220-243 | in every reachable state such a load has a next step to take, with whatever outcome |
| CorpusLoad.CallersGetTheResult | pkg/registry/docs/docs_corpus.go:213-250 | in every run, a caller that waits for a key when its load is settled, and does not leave, is given what that load came to: the value it loaded or found in the cache, and nothing on an error, a timeout or a deadline |
| CorpusLoad.CallerWaitsOn | pkg/registry/docs/docs_corpus.go:244-249 | no step changes what a waiting caller has but its own leaving and the delivery of the very key it waits for, which gives it the result of that key's load |
| CorpusLoad.GivenValueIsOfTheKey | pkg/registry/docs/docs_corpus.go:213-250 | in every run from the start, a caller that asks for a key and is given a value is given one that a load of that key has loaded |
| CorpusLoad.StoredBeforeGiven | pkg/registry/docs/docs_corpus.go:240-242 | a value that a load gives is in the cache before any caller has it |
| CorpusLoad.SeventhTurnDelivers | pkg/registry/docs/docs_corpus.go:220-243 | in every run, whatever comes between and whoever has left, a load delivers its result at the latest with its seventh step |
| CorpusLoad.AllLoadsCanFinish | pkg/registry/docs/docs_corpus.go:220-243 | no interleaving deadlocks: all loads under way can finish, and then no slot is taken |
| ShardLookup.ParseCorpusManifest | pkg/registry/docs/docs_corpus.go:60-79 | keeps the shard records with a URL under their canonical directory, the later of two winning, and nothing else |
| ShardLookup.ManifestIsRooted | pkg/registry/docs/docs_corpus.go:60-79 | every key of a parsed manifest ends in a slash |
| ShardLookup.ManifestHasAll | pkg/registry/docs/docs_corpus.go:60-79 | the directory of every shard record on the docs site is in the manifest |
| ShardLookup.CanonicalIff | pkg/registry/docs/docs_tools.go:138-140 | the canonical URL is the URL without index.html.md at its end, and no other ending is cut |
| ShardLookup.ShardFor | pkg/registry/docs/docs_corpus.go:81-94 | the upward walk ends and returns what the walk over directories is defined to return |
| ShardLookup.WalkFindsLongest | pkg/registry/docs/docs_corpus.go:84-92 | the walk returns the entry of the longest slash-terminated prefix in the manifest, or none if there is none |
| ShardLookup.ShardIsLongestPrefix | pkg/registry/docs/docs_corpus.go:81-94 | so for every parsed manifest and page the shard found is that of the longest prefix |
| ShardLookup.GroupByShard | pkg/registry/docs/docs_corpus.go:309-330 | gives the first distinct shards in order of appearance, up to the maximum, each with exactly its pages in result order |
| ShardLookup.PlacedGroups | pkg/registry/docs/docs_corpus.go:317-327 | placing one more page keeps that, whether its shard is known, new or one too many |
| Utf8.BoundarySplits | pkg/registry/docs/docs_corpus.go:427-435 | in valid text an offset begins a character if and only if cutting there leaves valid text on both sides |
| Utf8.BoundaryNear | pkg/registry/docs/docs_corpus.go:400-402 | in valid text there is such an offset at most three bytes back from any |
| Utf8Chars.CharIff | pkg/registry/docs/docs_corpus.go:392-425 | what is stepped over as one character is exactly the encoding of a code point by section 3 of RFC 3629, so no overlong form and no surrogate |
| Bits.Popcount | pkg/registry/docs/docs_corpus.go:381-387 | clearing the lowest bit until none is left counts exactly the set bits |
| Bits.MembersCounted | pkg/registry/docs/docs_corpus.go:381-387 | the ones of a bit set are as many as the set has members |
| Bits.SetBit | pkg/registry/docs/docs_corpus.go:363-367 | or-ing in a shifted one adds exactly that member |
| Bits.OrFits | pkg/registry/docs/docs_corpus.go:363-367 | a set of members below a width stays below that width, so 16 terms fit into 32 bits |
| Bits.DropLowest | pkg/registry/docs/docs_corpus.go:383 | and-ing with the number less one removes exactly one member |
| Excerpt.WindowBounds | pkg/registry/docs/docs_corpus.go:392-424 | the loops over bytes compute the window: the lead, moved behind the first space, and the length, cut at the last space |
| Excerpt.WindowHoldsAnchor | pkg/registry/docs/docs_corpus.go:392-424 | on valid text the window is (0,0) or holds the whole anchor in at most 300 bytes with both ends on characters; an anchor of at most 257 bytes always gets one |
| Excerpt.WindowCutsAtSpaces | pkg/registry/docs/docs_corpus.go:392-425 | a window starts behind the first white space from 40 bytes before the anchor on, or with the text, and ends at the last white space behind the anchor that 300 bytes reach, or with the text |
| Excerpt.CollectHits | pkg/registry/docs/docs_corpus.go:336-354 | records hits token by token, and within a token term by term |
| Excerpt.HitsAreFirstOccurrences | pkg/registry/docs/docs_corpus.go:346-353 | a hit is recorded if and only if the token matches and it is among the first occurrences of that term, up to the maximum |
| Excerpt.CountCovered | pkg/registry/docs/docs_corpus.go:361-368 | the bits set in the loop count the distinct terms with a hit in the window |
| Excerpt.ChooseWindow | pkg/registry/docs/docs_corpus.go:358-371 | the loop over anchors keeps the best candidate |
| Excerpt.BestIsMaximum | pkg/registry/docs/docs_corpus.go:368-370 | no candidate covers more terms than the one chosen |
| Excerpt.BestIsFirst | pkg/registry/docs/docs_corpus.go:368-370 | the one chosen is a candidate, and every earlier one covers fewer |
| Excerpt.Excerpt | pkg/registry/docs/docs_corpus.go:335-379 | for at most 16 terms, renders the window chosen, or nothing if there is no hit |
| Excerpt.CollapseKeepsText | pkg/registry/docs/docs_corpus.go:374 | collapsing white space keeps every other character in order, keeps text valid and makes it no longer |
| Excerpt.TidyWords | pkg/registry/docs/docs_corpus.go:335-379 | collapsing keeps every word and puts exactly one space between each two, whatever white space was between, before and behind them |
| Excerpt.ExcerptQuotesWindow | pkg/registry/docs/docs_corpus.go:335-379 | an excerpt of valid text is valid, at most 306 bytes, and quotes the window with only its white space collapsed, with dots exactly where text was cut off |
| Excerpt.TruncateUtf8 | pkg/registry/docs/docs_corpus.go:427-435 | keeps the text if it fits and otherwise cuts at the last boundary the limit reaches |
| Excerpt.TruncationIsValid | pkg/registry/docs/docs_corpus.go:427-435 | cutting valid text leaves valid text, and gives up at most three bytes of the limit |
| Pagination.Paginate | pkg/registry/docs/docs_tools.go:98-116 | the two loops compute the window: from the first boundary at or after the start to the last the budget reaches |
| Pagination.PageAdvances | pkg/registry/docs/docs_tools.go:98-116 | on valid text a page is whole characters within the budget, and does not advance exactly if the next character does not fit |
| Pagination.PageFromInside | pkg/registry/docs/docs_tools.go:102-104 | an offset inside a character reads like the next character's |
| Pagination.DocAnswers | pkg/registry/docs/docs_tools.go:205-226 | from a character on, a call gives whole characters that fit the budget, says that the budget is too small only if the next character is longer, and never that the offset is past the end |
| Pagination.PastEndIff | pkg/registry/docs/docs_tools.go:205-226 | an offset is answered as past the end if and only if it is positive and not before the end |
| Pagination.PageAtLimits | pkg/registry/docs/docs_tools.go:98-116 | a negative start reads as 0, no positive budget reads to the end, and a start behind the end gives nothing |
| Pagination.ReadSucceeds | pkg/registry/docs/docs_tools.go:205-226 | following the offsets succeeds if and only if no remaining character is longer than the budget |
| Pagination.ReadReassembles | pkg/registry/docs/docs_tools.go:205-226 | and then the pages are valid, within the budget, and concatenate to the rest of the content |
| Pagination.RoundTrip | pkg/registry/docs/docs_tools.go:98-116 | with a budget of at least 4 bytes, reading from 0 always succeeds and gives back the whole page |
| OutputSchema.AllowNullTree | pkg/registry/common/output.go:332-356 | the rewrite in place, with the fields of a node in any order, gives the rewritten tree |
| OutputSchema.AllowNullIdempotent | pkg/registry/common/output.go:332-356 | rewriting twice is rewriting once, on every tree |
| OutputSchema.WidenedMember | pkg/registry/common/output.go:340-349 | a property that is named type is not taken for the keyword: the schema of every member is widened like any |
| OutputSchema.WidenedRejects | pkg/registry/common/output.go:332-356 | a widened schema rejects exactly what the schema rejects when null is let in wherever one type is named, through references as well |
| OutputSchema.ToleranceIsAboutNull | pkg/registry/common/output.go:319-331 | letting null in makes a difference on documents with null only |
| OutputSchema.WideningKeepsMeaning | pkg/registry/common/output.go:319-356 | a widened schema accepts all that the schema does, and on documents without null nothing else |
| OutputSchema.EnvelopeMeans | pkg/registry/common/output.go:206-251 | the envelope admits exactly the objects that have the field with a payload the widened schema admits |
| OutputSchema.DirectMeans | pkg/registry/common/output.go:206-251 | published directly, a schema can be built exactly if it is an object, and its root admits exactly the objects it does but for its own type keyword |
| OutputSchema.DirectObjectMeans | pkg/registry/common/output.go:206-251 | if its type is object, the root admits exactly the objects that the widened schema does |
| OutputSchema.RootIsAnObject | pkg/registry/common/output.go:225-240 | no published root admits null, nor anything but an object |
| OutputSchema.PublishedIsAccepted | pkg/registry/common/output.go:168-192 | what is published satisfies the published schema if and only if the payload satisfies its own, with null let in: in an envelope with an empty collection for null, directly with the empty object for null and for objects only |
| OutputSchema.NilListIsPublished | pkg/registry/common/output.go:168-192 | for a schema of type array, with no reference that rejects it, a nil slice is published under its field as an array without items, and the published root accepts it |
| OutputSchema.NilMapIsPublished | pkg/registry/common/output.go:168-192 | for a schema of type object that requires no member, with no reference that rejects it, a nil map is published as an object without members, and the root accepts it |
| OutputSchema.OthersArePublishedUnchanged | pkg/registry/common/output.go:168-192 | any payload but null is published unchanged, under its field or directly |
| DocsIndex.NewDocsIndex | pkg/registry/docs/docs_client.go:60-74 | the tokens kept with an index are those of its entries |
| DocsIndex.FilterByProduct | pkg/registry/docs/docs_client.go:772-814 | no product leaves the index alone; otherwise it is restricted to the exact matches, or if there are none to those that match every term, and tokens stay those of the entries |
| DocsIndex.RestrictionIsSubsequence | pkg/registry/docs/docs_client.go:772-814 | the filtered entries are exactly the kept ones, in their order |
| DocsIndex.FilterKeeps | pkg/registry/docs/docs_client.go:772-814 | an entry is kept exactly if its section is named as the product or its service, or its path has the service's segment; and where no entry has that, exactly if its section has each of the product's tokens |
| DocsIndex.FirstIsCut | pkg/registry/docs/docs_client.go:691-703 | what a stem lacks is the first suffix of the list that leaves four characters, if there is one |
| DocsIndex.WordFinds | pkg/registry/docs/docs_client.go:621-626 | a word finds itself and, with four characters or more, every word that begins with it |
| DocsIndex.EndingsFindEachOther | pkg/registry/docs/docs_client.go:621-703 | words of one stem of at least four characters find each other, whichever of the endings each has |
| Ranking.MatchTerms | pkg/registry/docs/docs_client.go:912-946 | the flat table filled cell by cell gives each entry its own row, and each term the weight of its document frequency |
| Ranking.ScoreRow | pkg/registry/docs/docs_client.go:848-872 | adds the weighted points of the fields matched, and counts the terms matched |
| Ranking.SearchIndex | pkg/registry/docs/docs_client.go:834-886 | gives the ranked results, and none for no terms |
| Ranking.RankedIsSorted | pkg/registry/docs/docs_client.go:755-766 | results are in descending order of score, then by URL |
| Ranking.StableSortIsRanked | pkg/registry/docs/docs_client.go:755-766 | a sequence is the ranked one if and only if it is in that order and has the results of each rank in the order found, so any stable sort gives it |
| Ranking.RankedKeepsEntries | pkg/registry/docs/docs_client.go:755-766 | ranking loses and adds no entry |
| Ranking.SearchFindsMatching | pkg/registry/docs/docs_client.go:834-886 | the results are exactly the entries that match at least one term in some field |
| Ranking.RankedCommutes | pkg/registry/docs/docs_client.go:755-766 | filtering before ranking is filtering after, entry for entry in the same order |
| Ranking.RequiringAllRestricts | pkg/registry/docs/docs_client.go:860-864 | requiring all terms gives precisely the entries of the unrestricted result that match all of them, in the same order |
| Ranking.TokensAreTransparent | pkg/registry/docs/docs_client.go:76-81 | an index with precomputed tokens gives the same results as one without |
| ResultOrder.OneTermScoreIs | pkg/registry/docs/docs_client.go:848-872 | one term scores 10 for the title, 5 more for a whole word of it, 4 for the path, 3 for the description and 2 for the section, and twice that if at most one entry in two hundred has it; an entry is a result exactly if it has the term somewhere |
| ResultOrder.ScoreIsSum | pkg/registry/docs/docs_client.go:834-886 | several terms score the sum of what each scores alone, and 15 more exactly if the entry has all of them |
| ResultOrder.ResultsAreInOrder | pkg/registry/docs/docs_client.go:834-886 | in a search for one term an entry with it in the title comes before any without; then a whole word of the title before part of one, if the other fields are no worse; then more of the other fields before fewer, the path before the description before the section; and otherwise the URL decides |
| TtlCache.Cache.Get | pkg/registry/docs/docs_client.go:99-111 | a hit is served up to its time and not after, and an expired entry is removed |
| TtlCache.Cache.Evict | pkg/registry/docs/docs_client.go:122-138 | every entry at or past its time goes, and then, only if the store is still full, one that expires first |
| TtlCache.Cache.Set | pkg/registry/docs/docs_client.go:113-120 | evicts only for a new key in a full store, and then stores the entry |
| TtlCache.EvictionMakesRoom | pkg/registry/docs/docs_client.go:122-138 | an eviction of a full store leaves room for one entry, whichever of the entries that expire first it takes |
| TtlCache.EvictionTakesOldest | pkg/registry/docs/docs_client.go:122-138 | an eviction drops exactly what expires by now if there is such an entry, and otherwise one entry alone, than which none expires earlier |
| TtlCache.RunIsSound | pkg/registry/docs/docs_client.go:99-138 | after any sequence of operations there are at most 256 entries, and each is the last one set for its key |
| TtlCache.HitIsLastSet | pkg/registry/docs/docs_client.go:99-111 | every hit agrees with an unbounded map with expiry |
| TtlCache.HitsAsUnbounded | pkg/registry/docs/docs_client.go:99-138 | as time goes on, and as long as no new key finds the store full of live entries, a get hits exactly when the unbounded map does, with the same value, unless an eviction came at the very time at which the entry expires |
| TtlCache.LostOnlyWhenFull | pkg/registry/docs/docs_client.go:113-138 | an entry that has not expired is lost only to a new key in a full store |
| IndexRefresh.AnswersNeverRegress | pkg/registry/docs/docs_client.go:444-497 | in every reachable state, for every call: if it was made after some call had returned an index it has not returned an error, and if that index was from llms-index.json so is its own |
| IndexRefresh.EarlierCallMayFail | pkg/registry/docs/docs_client.go:449-469 | a call made before may still return an error afterwards: a run in which it had joined a load that failed |
| IndexRefresh.NoErrorsAfterALoad | pkg/registry/docs/docs_client.go:453-462 | once a load has succeeded, no call made from then on returns an error, whatever the origin does |
| IndexRefresh.NeverBackToTxt | pkg/registry/docs/docs_client.go:482-486 | once there is an index from llms-index.json, every call made from then on returns one from there |
| IndexRefresh.CachedIsLastGoodIff | pkg/registry/docs/docs_client.go:463-464 | in every reachable state a cached index is the last good one if and only if no load is between its two stores, every load making a new index |
| IndexRefresh.CachedBeforeLastGood | pkg/registry/docs/docs_client.go:463-464 | and there is a run that gets there |
| IndexRefresh.CallRuns | pkg/registry/docs/docs_client.go:444-497 | a call that no other comes between is a run of the machine, for whatever the origin offers: it answers from the cache, or keeps what it loads, preferring llms-index.json, or falls back on the last good index, and fails only if there is none |
| IndexRefresh.CallReturns | pkg/registry/docs/docs_client.go:444-497 | such a call returns, and leaves cached, the cached index; else one from llms-index.json if it can be had; else, unless one from there is held, one from llms.txt, as from a cold start; else the last good one, or an error if there is none |
| IndexRefresh.DocsClient.GetDocsIndex | pkg/registry/docs/docs_client.go:444-471 | the method does what that run does, and returns its answer |
| Markdown.SplitFencedCode | pkg/registry/docs/docs_client.go:1232-1263 | the loop over lines gives the segments of the document |
| Markdown.SegmentsRoundTrip | pkg/registry/docs/docs_client.go:1228-1231 | joining the segments with newlines gives back exactly the document |
| Markdown.GroupsAreWellSegmented | pkg/registry/docs/docs_client.go:1228-1263 | no line of prose opens a fence, and every block runs from an opening fence to its first closing one or to the end |
| MarkdownForms.FenceOpenIff | pkg/registry/docs/docs_client.go:1198 | a line opens a block exactly if at most three spaces and at least three backticks or tildes are at its head |
| MarkdownForms.ClosesIff | pkg/registry/docs/docs_client.go:1199-1258 | a line closes a block exactly if it has such a run of the same mark, not shorter, and only spaces and tabs behind it |
| Markdown.StripKeeps | pkg/registry/docs/docs_client.go:1318-1322 | text is kept exactly if no markup of the kind starts anywhere in it |
| Markdown.TagFoundIsATag | pkg/registry/docs/docs_client.go:1187 | what is taken for a tag has the form of one: name, attributes after a space, closing bracket |
| Markdown.TagIsFound | pkg/registry/docs/docs_client.go:1187 | and everything of that form is taken for a tag, with that length |
| MarkdownForms.MarkupIff | pkg/registry/docs/docs_client.go:1186-1192 | what is taken for a comment, a document type or a tag at the head of a text is exactly what has its form: up to the first closer, in either case, with a name and attributes |
| MarkdownForms.FragmentKeptIff | pkg/registry/docs/docs_client.go:1318-1322 | stripping leaves prose as it is if and only if no comment, document type or tag lies anywhere in it |
| MarkdownForms.MarkupGoes | pkg/registry/docs/docs_client.go:1318-1322 | any comment, document type or tag behind text in which none can start goes, that text stays, and stripping goes on behind it |
| Markdown.StripHTMLOutsideCodeSpans | pkg/registry/docs/docs_client.go:1287-1316 | shows code spans and bare backticks as they are and strips the rest |
| Markdown.SpanIsFound | pkg/registry/docs/docs_client.go:1300-1308 | what is protected is the code span at that place if there is one: up to the first recurrence of its backticks, in the same paragraph |
| Markdown.PiecesAreWell | pkg/registry/docs/docs_client.go:1287-1316 | the pieces of a text make it up again, and only those with backticks are protected |
| Markdown.CleanMarkdown | pkg/registry/docs/docs_client.go:1213-1226 | cleans prose, segment by segment, and passes code on |
| MarkdownForms.RunIsCut | pkg/registry/docs/docs_client.go:1221 | a run of newlines in prose is cut to two, a shorter one stays, and so does all else |
| MarkdownForms.SeamsAreCapped | pkg/registry/docs/docs_client.go:1265-1281 | where prose meets a block one newline stays of those at its edge, and elsewhere all do |
| MarkdownForms.EdgesAreTrimmed | pkg/registry/docs/docs_client.go:1225 | the cleaned page is the joined parts without the white space at both ends, and nothing else |
| Markdown.CleanOnlyDeletes | pkg/registry/docs/docs_client.go:1207-1226 | the cleaned page is a subsequence of the page, with all of its backticks |
| Markdown.CleanKeepsCode | pkg/registry/docs/docs_client.go:1207-1226 | every code block is in the cleaned page verbatim and in order; only the first can lose space at its front, and only the last at its end, and only where nothing but space stands before it, or behind it |
| Markdown.NewlinesMayRemain | pkg/registry/docs/docs_client.go:1220-1225 | tags are stripped after newlines are collapsed, so three newlines in a row can remain in cleaned prose |
| Markdown.CleaningTwiceMayDiffer | pkg/registry/docs/docs_client.go:1213-1226 | and cleaning once more then changes the page again |
| WsLog.ReachableConserves | internal/wslogging/handler.go:115-139 | in every interleaving from the start, the accepted messages are those sent, those left in the batch, the one in hand and those queued, in order of acceptance; so what was sent is a prefix of what was accepted, through partial sends and failed connections |
| WsLog.TakenIff | internal/wslogging/handler.go:115-139 | a message is accepted, behind all others, if and only if the handler is open and fewer than 1000 are queued |
| WsLog.NoSendOnClosedBuffer | internal/wslogging/handler.go:123-130 | once the buffer is closed no message is put into it |
| WsLog.SentAfterClose | internal/wslogging/handler.go:379-391 | once the handler is closed nothing is sent but the rest of a batch whose flush was past its check, and nothing at all without such a flush |
| WsLog.ClosedDeliversIff | internal/wslogging/handler.go:257-271 | what was accepted by the close can still all be sent if and only if nothing is queued or in hand, and nothing of the batch is unsent or a flush is still sending it |
| WsLog.CloseLosesMessages | internal/wslogging/handler.go:257-271 | after one send and a close, the message is never sent however the run goes on |
| WsLog.OpenDeliversIff | internal/wslogging/handler.go:329-437 | while the handler is open, and whatever failed before, all that was accepted can still be sent if and only if the writer goes on, or nothing is queued and its last flush has sent the batch or is still to |
| WsLog.FiftiethFlushes | internal/wslogging/handler.go:346-356 | the oldest queued message joins the end of the batch, and a batch of fifty or more is flushed at once |
| WsLog.Handler.SendToWebSocket | internal/wslogging/handler.go:115-139 | queues the message if the handler is open and there is room, as a step of the machine |
| WsLog.Handler.Close | internal/wslogging/handler.go:258-271 | marks the handler closed before the buffer, once |
| WsLog.Handler.FlushBatch | internal/wslogging/handler.go:369-437 | sends the batch up to the first failed write, and keeps exactly the rest |
| WsLog.Handler.ReceiveMessage | internal/wslogging/handler.go:340-356 | moves the oldest queued message to the batch, and flushes a full one |
| WsLog.FlushRuns | internal/wslogging/handler.go:369-437 | a flush is a run of the machine, whichever write fails, so what holds in every run holds of it |
| DeleteResolve.FilterNonDeleted | pkg/registry/genai-custom-models/delete_resolve.go:170-179 | keeps the models that are there and not deleted, in order |
| DeleteResolve.ResolveByName | pkg/registry/genai-custom-models/delete_resolve.go:58-84 | one exact name gives its UUID, several are an error, and otherwise the candidates are those whose name contains the query |
| DeleteResolve.ResolveByUuid | pkg/registry/genai-custom-models/delete_resolve.go:86-114 | one full UUID, in any case, gives it, several are an error, and otherwise the candidates are those that contain the query |
| DeleteResolve.ResolveDeleteTarget | pkg/registry/genai-custom-models/delete_resolve.go:121-168 | combines the two lookups over the models that are not deleted |
| DeleteResolve.ExactUuidIff | pkg/registry/genai-custom-models/delete_resolve.go:10 | what counts as a full UUID is five groups of 8, 4, 4, 4 and 12 hexadecimal digits in either case with dashes between |
| DeleteResolve.TargetIsTheOnlyModel | pkg/registry/genai-custom-models/delete_resolve.go:121-168 | a target comes back if and only if every identifier given is exact (a full UUID in any case, a name to the letter) and one and the same model that is not deleted is the only one to match each; the target is that model |
| DeleteResolve.TargetIff | pkg/registry/genai-custom-models/delete_resolve.go:121-168 | a target comes back exactly if one of the models that are not deleted is the only one with the given name, letter for letter, and the only one whose UUID is the full one given but for capitals; the target is its UUID and name |
| DeleteResolve.ByNameAlone | pkg/registry/genai-custom-models/delete_resolve.go:58-84 | a name alone gives the one model that has it, an error if several do, and if none does the models whose name contains it |
| DeleteResolve.ByUuidAlone | pkg/registry/genai-custom-models/delete_resolve.go:86-114 | a full UUID alone gives the one model that has it in any case, an error if several do, and no candidates; any other UUID gives only the models that contain it |
| DeleteResolve.ByBoth | pkg/registry/genai-custom-models/delete_resolve.go:121-168 | of both the name decides first and then the UUID, and they must mean the same model |
| DeleteResolve.PartialNeverResolves | pkg/registry/genai-custom-models/delete_resolve.go:86-119 | a partial UUID never gives a target |
| DeleteResolve.OneOutcome | pkg/registry/genai-custom-models/delete_resolve.go:121-168 | exactly one of target, candidates and error comes back, and the error is never "not found" |
| DeleteResolve.OrderDoesNotMatter | pkg/registry/genai-custom-models/delete_resolve.go:121-168 | the outcome is the same for the models in any other order, candidates as a multiset |

## Left out

- The tool handlers, registration, mocks and main program: plumbing around libraries.
- Fetching, URL parsing, JSON decoding, dialling and key provisioning: their outcomes are arbitrary inputs.
- Regular expressions for words, and the lowering of case: `Lexer` and `Scan` take what they find as a parameter, so the theorems hold for every tokenizer. The patterns for fences, tags, comments and document types are written out in `Markdown`.
- container/list, rate.Limiter, maphash, sync and singleflight are not part of the repository: the list is modelled as the class `List`, the limiter as an explicit token bucket over reals, the hash as an arbitrary function, a lock as one atomic step, and single flight as at most one load a key.
- Rounding of floating-point numbers and durations in the limiter, and in the rare-term limit of the ranking, which is computed as five thousandths, rounded down.
- sort.SliceStable is modelled as a stable insertion sort; `Ranking.StableSortIsRanked` says that no stable sort gives anything else.
- The width of `uint32`: terms are capped at 16, and `Bits.OrFits` says that 16 members need 16 digits.
- RateLimitRuns.WindowBoundIff: is stated for clients that are not evicted; an evicted client starts again with a full bucket, so no such bound holds for it.
- RateLimitRuns.ClientsAreIsolated: assumes of a bucket swept in the run that the rate refills the burst in the idle time; `RateLimitRuns.ClientsAreIsolatedIff` says that this is what it takes.
- Markdown.CleanMarkdown: does not promise prose without three newlines in a row, nor that cleaning twice is cleaning once: `Markdown.NewlinesMayRemain` and `Markdown.CleaningTwiceMayDiffer` show that neither holds.
- Markdown.SpanIsFound: a code span ends where the run of backticks is first found again, which may be inside a longer run, as in the code; section 6.1 of CommonMark 0.31 asks for a run of the same length.
- WsLog.ReachableConserves: is about one handler and its writer; derived handlers copy the closed flag, so closing one does not close the others.
- TtlCache.HitsAsUnbounded: leaves out an entry at whose very expiry time an eviction came, which may have dropped it although a get at that time would still serve it.
- Reconfiguring the log handler, which replaces its buffer, and the lazily built fields of the output declarations.
- The reflection that produces a schema, and schemas for custom marshalers: `OutputSchema` starts from the reflected tree. Keywords other than type, properties, items, required, additionalProperties and references to definitions have no meaning in it.
- Fetching the manifest and the shards, and the goroutines that collect excerpts: they call the modelled parts.
- Ranking of troubleshooting pages, related links, quickstarts, and the parsing of llms.txt and llms-index.json.
- The text of messages.
- Whether a cached key is still live on the server: orphan cleanup deletes keys of the whole namespace, so the cache does not decide it.
- Bearer tokens, client IP parsing, registry names, polling and CSV validation: they would add only easy members.
