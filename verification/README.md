# cf-local: a verified model

cf-local emulates CloudFront caching with nginx, njs handlers and a Go control
plane. Its hard logic is a handful of state machines and string
transformations that must agree across the two languages. This project models
them in Dafny and proves what they promise, for every input and every run.

| file | models |
|---|---|
| `CacheKey.dfy`, `CacheKeyLaws.dfy`, `SelectionLaws.dfy` | the cache key: selection, serialisation, unique decodability, what each part means |
| `PathPattern.dfy` | invalidation paths: validation loop, grammar, matching |
| `CacheFiles.dfy` | the `KEY:` line of nginx cache files and the purge walk |
| `InvalidationStore.dfy` | invalidation records over a durable bucket |
| `InvalidationLifecycle.dfy` | handlers, bounded queue, worker, crash and recovery as one state machine |
| `InvalidationWorker.dfy` | one job end to end: key printer, file layout, key parser, matcher |
| `Pagination.dfy` | marker pagination over a growing record set |
| `PolicyStore.dfy`, `PolicyStoreLaws.dfy` | the write-through policy store against the in-memory one |
| `Reloader.dfy` | the debounced reload loop and its triggers |
| `AtomicWriter.dfy` | the two output files under crashes |
| `Publishing.dfy` | the reload loop driving the file protocol, from store mutation to disk |
| `Routing.dfy`, `RoutingLaws.dfy` | the distribution compiler and the hop chains of its output |
| `EdgeBridge.dfy`, `EdgeEvents.dfy`, `HookLaws.dfy` | njs hook handlers, Lambda events and replies |
| `EndToEnd.dfy` | a cache miss from compiled configuration to origin |
| `LookupCache.dfy` | the edge-proxy's lookup cache under interleaved requests |
| `CacheControl.dfy`, `Ttl.dfy` | Cache-Control to seconds |
| `Text.dfy` | string, ordering and sorting facts the others share |

State that the source updates in place is a class or a step machine; loops are
methods proved against specification functions. A step machine applies any
sequence of steps, a disabled step changing nothing, so its theorems hold for
every interleaving. Random IDs, clocks, persistence outcomes, SHA-256,
`parseFloat`, `Atoi`, the ETag digest and the Lambda itself are parameters.

## What turned out to need a condition

Each line names the theorem with the condition and, after it, the lemmas at failing inputs.

- A cached response is invalidated exactly when its URI is matched **and** its
  key line ends within the 4096 bytes that are read (`FileSelectedExactly`). A
  longer line reads as no key, so such an entry survives every invalidation
  (`LongUriSurvives`).
- Path and query reach the origin unchanged exactly when no hop re-joins them or
  the decoded path holds no `?` (`UriConservedExactly`, `QuestionMarkMoves`); a
  rewrite arrives as written under the same condition on the path it leaves in
  force (`UriRewritten`).
- While no serialised field holds a newline, equal keys mean exactly that verb,
  URI, the sorted `name=value` lines of each section and the encoding class agree
  (`KeyIdentifiesLines`); decoded query values can hold a newline, and then one
  parameter reads like two (`NewlineInValueCollides`). Equal lines mean equal
  selections if no name holds an `=` and no name repeats (`KeyExact`); decoded
  query names can (`EqualsInNameCollides`). Equal texts of repeated values mean
  equal values if these hold no comma (`RepeatedValuesAreABag`,
  `CommaInValueCollides`). The last two conditions are sufficient, not necessary.
- The inner location carries a behavior's own policy ID exactly when the first
  behavior with the same sanitized ID has the same raw ID (`PolicyCarriedExactly`,
  `SanitizedClash`).
- A behavior with only origin-response passes the origin-request hop of a
  sibling that shares its policy (`ChainShape`, `SiblingHookPassed`).
- DefaultTTL is not clamped; the result leaves the policy's range exactly then
  (`OutOfRangeExactly`, `DefaultLeavesRange`).
- The reload loop renders nothing at boot: a quiescent loop is current exactly if
  a trigger was accepted since boot (`QuiescentIsCurrent`, `BootIsNotCurrent`).
- Opening a bucket is consistent exactly when its names are unique and clash
  with no managed ID or name (`OpenConsistentExactly`, `SharedNameIsInconsistent`).
- A Lambda can replace a query string but not clear it (`QueryCannotBeCleared`).

## Model

| member | source | states |
|---|---|---|
| `CacheKey.Compute` | nginx/njs/cache_key.js:89-164 | the loop-built key is the specified one; without a policy it fails |
| `CacheKey.CollectByBehavior` | nginx/njs/cache_key.js:168-189 | exactly the entries the behavior includes, in order |
| `SelectionLaws.CollectMeaning` | nginx/njs/cache_key.js:168-189 | a whitelist keeps exactly the listed names, an all-except exactly the others, all everything, none nothing |
| `CacheKey.NormalizeAcceptEncoding` | nginx/njs/cache_key.js:202-229 | br before gzip before identity, by accepted tokens and flags; empty when both flags are off |
| `CacheKey.TokenWeight` | nginx/njs/cache_key.js:213-221 | the last readable `q=` of a token, else 1 |
| `SelectionLaws.LastWeightWins` | nginx/njs/cache_key.js:213-221 | of several weights the last readable one counts |
| `SelectionLaws.PlainTokenOffers` | nginx/njs/cache_key.js:207-212 | a token without parameters offers its coding in any case and spacing |
| `SelectionLaws.WeightDecides` | nginx/njs/cache_key.js:213-222 | a weighted token offers its coding if and only if the weight is positive |
| `SelectionLaws.EncodingPreference` | nginx/njs/cache_key.js:223-228 | br wins where enabled, then gzip; codings that are not enabled never show |
| `SelectionLaws.RefusedTokenIgnored` | nginx/njs/cache_key.js:222-222 | a token that refuses its coding changes nothing |
| `CacheKey.ParseCookieHeader` | nginx/njs/cache_key.js:231-244 | the cookie map, later pairs winning, nameless pairs dropped |
| `CacheKey.CookieNames` | nginx/njs/cache_key.js:236-241 | parsed cookie names are never empty and hold no `=` |
| `CacheKey.CookieHeadersMerge` | nginx/njs/cache_key.js:231-244 | parsing `a;b` is merging the parses, b winning |
| `SelectionLaws.CookieRoundTrip` | nginx/njs/cache_key.js:231-244 | printing cookies into a header and parsing it gives every name its value |
| `CacheKeyLaws.KeyIdentifiesLines` | nginx/njs/cache_key.js:102-164 | without newlines in serialised fields, two requests share a key if and only if verb, URI, sorted section lines and encoding class agree, whatever the names |
| `CacheKeyLaws.KeyExact` | nginx/njs/cache_key.js:89-195 | two requests, under any two policies, share a key if and only if their selections agree |
| `SelectionLaws.KeyShowsExactlyTheWanted` | nginx/njs/cache_key.js:106-151 | under one policy two requests share a key if and only if they agree on listed headers and on the cookies and queries the behaviors want |
| `SelectionLaws.UnlistedQueriesIgnored` | nginx/njs/cache_key.js:176-179 | under a whitelist, unlisted query parameters never change the key |
| `SelectionLaws.MissingFieldsDefault` | nginx/njs/cache_key.js:90-91 | no method keys as GET, no URI as `/` |
| `CacheKeyLaws.SameSelectionSameKey` | nginx/njs/cache_key.js:106-151 | equal selections give equal keys whatever the fields contain |
| `CacheKeyLaws.SameMaterialSameSelection` | nginx/njs/cache_key.js:102-162 | the joined material is uniquely decodable |
| `CacheKeyLaws.SectionsUnique` | nginx/njs/cache_key.js:118-145 | the h, c, q and a sections can be told apart |
| `CacheKeyLaws.CollectIsRestrict` | nginx/njs/cache_key.js:168-189 | collecting agrees with restricting the name-to-value map |
| `CacheKeyLaws.ReorderingKeepsKey` | nginx/njs/cache_key.js:106-151 | one theorem for all reorderings: headers, cookies, queries, the values of a repeated query and Accept-Encoding tokens in any order give the same key |
| `CacheKeyLaws.RepeatedValuesAreABag` | nginx/njs/cache_key.js:183-185 | repeated query values that are the same bag serialise alike, whatever they hold; comma-free ones only then |
| `CacheKeyLaws.CommaInValueCollides` | nginx/njs/cache_key.js:183-185 | a value with a comma serialises like two values |
| `CacheKeyLaws.EncodingIgnoresOrder` | nginx/njs/cache_key.js:202-229 | headers with the same tokens, in any order, repetition and spacing, have the same encoding class |
| `CacheKeyLaws.EqualsInNameCollides` | nginx/njs/cache_key.js:140-142 | an `=` in a query name lets two different selections share a key |
| `CacheKeyLaws.NewlineInValueCollides` | nginx/njs/cache_key.js:140-162 | a newline in a query value lets one parameter share a key with two |
| `PathPattern.ValidateChars` | internal/invalidation/matcher.go:78-106 | the index-skipping loop accepts exactly the grammar, and an error names the rule broken at the first fault |
| `PathPattern.GrammarMeaning` | internal/invalidation/matcher.go:71-122 | accepted means: bytes literally allowed, percent-decoding succeeds, no `~` in the decoded bytes |
| `PathPattern.AllowedExactly` | internal/invalidation/matcher.go:112-118 | which bytes may stand for themselves, exactly |
| `PathPattern.EscapeRoundTrip` | internal/invalidation/matcher.go:94-106 | escaping any byte in either case and decoding it gives it back |
| `PathPattern.ParsePattern` | internal/invalidation/matcher.go:49-69 | which paths parse, which shape error is given |
| `PathPattern.PatternPrintsBack` | internal/invalidation/matcher.go:62-68 | the parsed pattern prints back to its input |
| `PathPattern.MatchMeaning` | internal/invalidation/matcher.go:133-138 | only a trailing `*` stands for any text |
| `CacheFiles.HeadPrefixStable` | internal/invalidation/cache.go:112-139 | a key parsed from a prefix is parsed from every longer prefix |
| `CacheFiles.FirstMarker` | internal/invalidation/cache.go:15-29 | no false marker straddles the end of the binary header |
| `CacheFiles.StoredKeyRoundTrip` | internal/invalidation/cache.go:34-139 | the stored key is read back exactly when its line ends within the head; never a wrong key |
| `CacheFiles.FileSystemCache.VisitOne` | internal/invalidation/cache.go:81-103 | one visit removes and counts the file if its key is readable and selected and os.Remove did not refuse; a file already gone counts |
| `CacheFiles.FileSystemCache.Purge` | internal/invalidation/cache.go:57-110 | what a complete or aborted walk removes, and how many |
| `InvalidationStore.BoltStore.Load` | internal/api/invalidation/bolt.go:53-94 | entries in key order, each under the ID its value carries; memory mirrors a bucket keyed by its own IDs |
| `InvalidationStore.BoltStore.Create` | internal/api/invalidation/bolt.go:122-148 | every refusal, and write-through of an InProgress record |
| `InvalidationStore.BoltStore.Get` | internal/api/invalidation/bolt.go:154-162 | found exactly under its own distribution |
| `InvalidationStore.BoltStore.UpdateStatus` | internal/api/invalidation/bolt.go:166-191 | persisted status change, idempotent; a failed write changes nothing |
| `InvalidationStore.BoltStore.RecoverInProgress` | internal/api/invalidation/bolt.go:201-217 | success leaves nothing InProgress and all else alone; failure only completes some |
| `InvalidationStore.BoltStore.List` | internal/api/invalidation/bolt.go:222-240 | the distribution's records, each once, newest first |
| `InvalidationStore.ListingOrder` | internal/api/invalidation/bolt.go:231-238 | times never rise along the list, and equal times go by rising ID |
| `InvalidationStore.ListingUnique` | internal/api/invalidation/bolt.go:231-238 | that list is unique, so map order never shows |
| `InvalidationLifecycle.RunKeepsInv` | internal/invalidation/worker.go:81-164 | in every run memory equals disk, the queue is FIFO and bounded, IDs are distinct, and a record is InProgress for exactly one reason |
| `InvalidationLifecycle.CreateExactly` | internal/api/invalidation/aws_handler.go:63-100 | when a create takes effect, if and only if; it records and hands on all it was given and touches no other record |
| `InvalidationLifecycle.DropsExactlyWhenFull` | internal/invalidation/worker.go:81-91 | a job is dropped if and only if 256 are queued; otherwise it joins the end with its record's paths |
| `InvalidationLifecycle.WorkerServesItsRecord` | internal/api/invalidation/aws_handler.go:95-100 | in every reachable state the worker's paths are the whole batch of the record it will complete |
| `InvalidationLifecycle.DrainCompletes` | internal/invalidation/worker.go:96-106 | left alone the worker serves every queued job in order, one pass each, and completes exactly their records |
| `InvalidationLifecycle.RecoveryServes` | cmd/cf-local/main.go:149-158 | a boot whose writes succeed reaches serving with every record Completed and otherwise unchanged |
| `InvalidationLifecycle.RunExtends` | internal/api/invalidation/bolt.go:122-217 | across runs and restarts no record is lost, edited or reopened |
| `InvalidationLifecycle.CompletionHasACause` | internal/invalidation/worker.go:153-164 | a record completes only by its own recovery or after its own purge pass |
| `InvalidationLifecycle.PurgedAtMostOnce` | internal/invalidation/worker.go:96-106 | over a whole run with restarts at most one purge pass is started for an invalidation, cut off or not |
| `InvalidationLifecycle.StartedInOrder` | internal/invalidation/worker.go:81-106 | accepted jobs start in acceptance order, each once |
| `InvalidationLifecycle.DroppedStaysInProgress` | internal/invalidation/worker.go:81-91 | a job dropped on a full queue stays InProgress and is nowhere else |
| `InvalidationLifecycle.ServingStartsClean` | cmd/cf-local/main.go:149-158 | the API starts exactly when nothing is InProgress any more |
| `InvalidationWorker.ParseBatch` | internal/invalidation/worker.go:119-132 | the patterns of the parseable paths, in order |
| `InvalidationWorker.NoPathSkipped` | internal/api/invalidation/aws_handler.go:83-89 | the worker skips no path the handler accepted |
| `InvalidationWorker.ShouldPurgeMeaning` | internal/invalidation/worker.go:134-151 | a stored key is selected exactly if the batch denotes its URI, colons included |
| `InvalidationWorker.Process` | internal/invalidation/worker.go:118-170 | one purge pass for the batch, then Completed, even after a purge error |
| `InvalidationWorker.FileSelectedExactly` | nginx/njs/cache_key.js:152-163 | from originating request to purge decision for one file |
| `InvalidationWorker.LongUriSurvives` | internal/invalidation/cache.go:112-139 | a well-formed file that the catch-all batch denotes and does not select |
| `InvalidationWorker.InvalidationExact` | internal/invalidation/cache.go:57-110 | an error-free job deletes exactly the files whose request URI the batch denotes and whose key is readable |
| `InvalidationWorker.RecordsBatchIsDeleted` | internal/invalidation/worker.go:118-164 | in every run the pass before a Completed status deletes exactly what the record's own batch denotes |
| `Pagination.MaxItems` | internal/api/invalidation/aws_handler.go:217-236 | the page size is the number as given, capped at 100, or the request is refused |
| `Pagination.FirstInvalidPath` | internal/api/invalidation/aws_handler.go:80-89 | the first bad path, or none exactly if all are acceptable |
| `Pagination.PaginateRecords` | internal/api/invalidation/aws_handler.go:243-274 | the scan computes the page behind the marker |
| `Pagination.AfterMarker` | internal/api/invalidation/aws_handler.go:245-257 | the rest behind a marker is exactly what the marker record precedes |
| `Pagination.OrderMeaning` | internal/api/invalidation/bolt.go:231-238 | traversal order is newest first, ties by rising ID |
| `Pagination.TraversalExact` | internal/api/invalidation/aws_handler.go:243-274 | under growth: strict order, no ID twice, every item a record of the distribution as it stood, every record of the first page's moment returned |
| `Pagination.TraversalAcrossRuns` | internal/api/invalidation/bolt.go:222-240 | the same with any system run, crashes included, between the pages |
| `Pagination.NoInsertsExact` | internal/api/invalidation/aws_handler.go:243-274 | without inserts, statuses changing freely: it ends within as many pages as there are records, with exactly their IDs in listing order |
| `Pagination.QuietTraversalAcrossRuns` | internal/api/invalidation/bolt.go:222-240 | the same with any system run that creates nothing in this distribution between the pages |
| `PolicyStore.MemoryStore.CreatePolicy` | internal/api/cachepolicy/store.go:88-113 | reference Create: verdict and both indexes |
| `PolicyStore.MemoryStore.UpdatePolicy` | internal/api/cachepolicy/store.go:129-163 | reference Update with renaming |
| `PolicyStore.MemoryStore.DeletePolicy` | internal/api/cachepolicy/store.go:167-181 | reference Delete |
| `PolicyStore.BoltStore.Open` | internal/api/cachepolicy/bolt.go:57-77 | a disciplined bucket opens into a consistent store |
| `PolicyStore.BoltStore.Load` | internal/api/cachepolicy/bolt.go:79-108 | entries in key order under the IDs they carry, untyped ones as custom; memory equals a bucket keyed by its own IDs; unique names give an exact inverse index |
| `PolicyStore.BoltStore.SeedManaged` | internal/api/cachepolicy/bolt.go:126-135 | managed records join memory only, keeping the inverse index |
| `PolicyStore.BoltStore.CreatePolicy` | internal/api/cachepolicy/bolt.go:176-205 | persist first; notifies exactly on success |
| `PolicyStore.BoltStore.UpdatePolicy` | internal/api/cachepolicy/bolt.go:221-257 | persist first; rename keeps the index; notifies exactly on success |
| `PolicyStore.BoltStore.DeletePolicy` | internal/api/cachepolicy/bolt.go:262-282 | removed from bucket and indexes; notifies exactly on success |
| `PolicyStore.BoltStore.List` | internal/api/cachepolicy/bolt.go:285-293 | the record of every key once, in whatever state |
| `PolicyStoreLaws.StepKeepsInvariant` | internal/api/cachepolicy/bolt.go:176-282 | every request keeps custom part = bucket, managed part fixed, index = inverse |
| `PolicyStoreLaws.CreateExactly` | internal/api/cachepolicy/bolt.go:176-205 | which refusal, or exactly the given configuration, ETag and time under the minted ID in memory and bucket, all else unchanged |
| `PolicyStoreLaws.UpdateExactly` | internal/api/cachepolicy/bolt.go:221-257 | which refusal, or exactly the new configuration, ETag and time with the old type in memory and bucket, all else unchanged |
| `PolicyStoreLaws.DeleteExactly` | internal/api/cachepolicy/bolt.go:262-282 | which refusal, or gone from memory and bucket, all else unchanged |
| `PolicyStoreLaws.RestartRebuilds` | internal/api/cachepolicy/bolt.go:57-135 | load then SeedManaged rebuilds the very state that ran |
| `PolicyStoreLaws.OpenConsistentExactly` | internal/api/cachepolicy/bolt.go:79-135 | opening is consistent if and only if the bucket clashes with nothing |
| `PolicyStoreLaws.SharedNameIsInconsistent` | internal/api/cachepolicy/bolt.go:102-104 | a bucket with one name twice never opens consistently |
| `PolicyStoreLaws.RunAgrees` | internal/api/cachepolicy/store.go:88-209 | over failures and restarts the store agrees and refines a MemoryStore of the effective requests |
| `PolicyStoreLaws.FirstStartAgrees` | internal/api/cachepolicy/managed.go:28-36 | from an empty bucket with the five built-ins, every run agrees |
| `PolicyStoreLaws.NamesNeverCollide` | internal/api/cachepolicy/bolt.go:182-243 | no two policies, custom or managed, share a name |
| `PolicyStoreLaws.CustomReadsAreDurable` | internal/api/cachepolicy/bolt.go:31-37 | a custom record in memory is the one in the bucket |
| `Reloader.RunKeepsInv` | internal/nginx/reloader.go:69-97 | in every interleaving a store that changed after its last read is about to notify or is due to be read again |
| `Reloader.VersionsCountMutations` | internal/api/cachepolicy/bolt.go:199-203 | a store's version counts exactly its mutations |
| `Reloader.MutationNotifies` | internal/api/cachepolicy/bolt.go:199-203 | a mutation holds its mutex until its own notification, which leaves a trigger pending |
| `Reloader.QuiescentIsCurrent` | cmd/cf-local/main.go:175-183 | a quiescent loop saw every store's current contents exactly if a trigger was ever accepted |
| `Reloader.BootIsNotCurrent` | internal/nginx/reloader.go:81-97 | at boot the loop is quiescent and has read nothing |
| `Reloader.RendersWithinTriggers` | internal/nginx/reloader.go:69-97 | renders never outnumber accepted triggers |
| `Reloader.LoopStepProgress` | internal/nginx/reloader.go:81-97 | each loop step shrinks the remaining work |
| `Reloader.LoopNeverStuck` | internal/nginx/reloader.go:81-97 | with work left and no mutex held the loop can move |
| `Reloader.Settle` | internal/nginx/reloader.go:81-137 | once triggers stop the loop reaches quiescence within a bound, up to date |
| `AtomicWriter.RunKeepsInv` | internal/nginx/writer.go:39-92 | after every operation, failure, kill and crash both entries hold synced whole renderings in order |
| `AtomicWriter.ReadersSeeWholeRenderings` | internal/nginx/reloader.go:113-130 | each file is one complete rendering and the conf is never newer than the policies |
| `AtomicWriter.SyncedRenameSurvives` | internal/nginx/writer.go:79-91 | after the directory fsync no crash takes the rename back |
| `AtomicWriter.WriteKeepsInv` | internal/nginx/writer.go:50-65 | bytes written over a truncated tmp file are a prefix of the target, whatever lay there before |
| `AtomicWriter.FailureCleansUp` | internal/nginx/writer.go:50-78 | a failure between open and rename removes the tmp file and leaves both output files alone |
| `Publishing.RunKeepsInv` | internal/nginx/reloader.go:81-137 | loop and file protocol interleaved, from any state earlier crashes left: the invariants of both, and a reported success is on disk |
| `Publishing.QuiescentFilesAreCurrent` | internal/nginx/reloader.go:99-137 | in every run a quiescent loop whose last render succeeded has the rendering of every store's current contents in both files |
| `Publishing.ShownSurvivesCrash` | internal/nginx/writer.go:79-91 | a crash then changes neither file and leaves a valid start |
| `Publishing.Settle` | internal/nginx/reloader.go:81-137 | once triggers stop the loop, writes included, comes to rest whichever operations fail, and a successful last render shows the current contents |
| `Routing.BuildBehaviorViews` | internal/nginx/conf.go:128-302 | the one-pass build gives the specified views or the first error |
| `RoutingLaws.BuildMeaning` | internal/nginx/conf.go:168-302 | every behavior has its view; each policy's inner view summarises the behaviors that share it |
| `RoutingLaws.ViewMeaning` | internal/nginx/conf.go:216-262 | each built location matches exactly the paths its behavior denotes and carries its policy and hooks |
| `RoutingLaws.BuildSucceedsExactly` | internal/nginx/conf.go:168-302 | rendering succeeds if and only if every behavior has a supported pattern, policy and origin, and no policy two origins |
| `RoutingLaws.FirstFaultReported` | internal/nginx/conf.go:168-302 | otherwise the error is that of the first bad behavior |
| `RoutingLaws.OwnOriginOnly` | internal/nginx/conf.go:128-166 | among origins whose IDs sanitize apart, a behavior's upstream is its own target's only |
| `RoutingLaws.PolicyCarriedExactly` | internal/nginx/conf.go:179-212 | upstream of its own origin always; its own policy ID exactly under the stated condition |
| `RoutingLaws.SanitizedClash` | internal/nginx/conf.go:672-686 | two behaviors whose second is served under the first one's policy |
| `RoutingLaws.LocationMeaning` | internal/nginx/conf.go:326-339 | a pattern's location matches exactly the paths it denotes |
| `RoutingLaws.SelectionUnique` | internal/nginx/conf.go:565-655 | longest-prefix matching selects the hop of the own policy and nothing else |
| `RoutingLaws.ChainExact` | internal/nginx/conf.go:579-655 | for every path, query and hook exchange exactly one hop chain and arrival |
| `RoutingLaws.ChainShape` | internal/nginx/conf.go:600-634 | at most three distinct hops; which pass inner-C and inner-A, exactly |
| `RoutingLaws.SiblingHookPassed` | internal/nginx/conf.go:195-203 | an origin-response behavior that passes its sibling's origin-request hop |
| `RoutingLaws.UriConservedExactly` | nginx/njs/edge.js:281-355 | when path and query arrive unchanged, if and only if |
| `RoutingLaws.QuestionMarkMoves` | nginx/njs/edge.js:296-299 | a path with a `?` reaches the origin split at it |
| `RoutingLaws.UriRewritten` | nginx/njs/edge.js:323-346 | an origin-request rewrite of path, query or both arrives as written, if and only if the path in force holds no `?` |
| `EdgeBridge.TailOfPrefixed` | nginx/njs/edge.js:287-294 | stripping a hop prefix gives the path back |
| `EdgeBridge.TailOfOther` | nginx/njs/edge.js:287-294 | a URI without the prefix is its own tail |
| `EdgeBridge.SplitWithQuery` | nginx/njs/edge.js:296-299 | splitting a target gives path and query back exactly if the path holds no `?` |
| `EdgeEvents.NormaliseHeadersForEvent` | internal/edgefunc/event.go:317-332 | lower-case keys, each with the value lists of all its spellings in order under canonical names |
| `EdgeEvents.BuildRequestEvent` | internal/edgefunc/event.go:119-206 | the event of a snapshot, refused exactly without method or URI |
| `EdgeEvents.BuildEvent` | internal/edgefunc/event.go:119-310 | all four builders: response hooks also need a response snapshot and carry it without body |
| `EdgeEvents.FlattenHeaders` | internal/edgefunc/event.go:550-564 | every entry under its key's name, values in order |
| `EdgeEvents.MergeRequest` | internal/edgefunc/event.go:516-548 | empty fields inherit from the original |
| `EdgeEvents.MergeFieldByField` | internal/edgefunc/event.go:516-564 | each field the Lambda set is taken, each it left empty kept, headers by their own names |
| `EdgeEvents.FlattenResponse` | internal/edgefunc/event.go:480-510 | a response with a readable status, headers flattened, all fields kept |
| `EdgeEvents.TranslateRequestHook` | internal/edgefunc/event.go:365-411 | short-circuit response, merged request or error |
| `EdgeEvents.TranslateResponseHook` | internal/edgefunc/event.go:413-463 | response mutations of the two response hooks |
| `EdgeEvents.Invoke` | internal/edgefunc/server.go:176-226 | event type, binding, endpoint, event, call and translation give the specified reply for all four hooks; when the Lambda is called and with what |
| `EdgeEvents.InvokeWithoutLambda` | internal/edgefunc/server.go:176-203 | when the Lambda is not called, and what is answered then |
| `EdgeEvents.OriginResponseReplaces` | internal/edgefunc/event.go:413-434 | an origin-response Lambda sets status, description and body; an unreadable status is an error |
| `EdgeEvents.ResponseEchoRoundTrip` | internal/edgefunc/event.go:212-564 | for both response hooks an unmodified Lambda return gives status, description and headers back |
| `EdgeEvents.ViewerResponseKeepsStatus` | internal/edgefunc/event.go:438-463 | whatever the Lambda returns, viewer-response changes neither status nor description |
| `EdgeEvents.HeadersRoundTrip` | internal/edgefunc/event.go:317-564 | names back up to case, value lists back in order |
| `EdgeEvents.CanonicalNamesComeBack` | internal/edgefunc/event.go:317-332 | header names come back in canonical case with their value lists |
| `EdgeEvents.EchoRoundTrip` | internal/edgefunc/event.go:170-206 | an unmodified Lambda return gives the request back |
| `EdgeEvents.QueryCannotBeCleared` | internal/edgefunc/event.go:531-539 | the merged query is empty only if the original was |
| `HookLaws.AsksNothingLeavesAlone` | internal/edgefunc/event.go:365-411 | failures, `{}` and echoes all become replies that ask for nothing |
| `HookLaws.ViewerRequestTransparent` | nginx/njs/edge.js:212-321 | all of them redirect to the forward location |
| `HookLaws.OriginRequestTransparent` | nginx/njs/edge.js:323-346 | all of them redirect to the fail-open target |
| `HookLaws.HooksAreTransparent` | internal/edgefunc/server.go:176-226 | one statement from `invoke` to the redirect: no distribution, transport failure, malformed or error reply, no binding, failed Lambda, `{}` and echo all redirect alike, for both request hooks |
| `HookLaws.OverrideExactly` | nginx/njs/edge.js:270-279 | an override is computed exactly when the Lambda asks for a change |
| `HookLaws.OverrideContents` | nginx/njs/edge.js:270-279 | what the override redirects to |
| `HookLaws.ViewerRequestExactly` | nginx/njs/edge.js:301-321 | where the viewer-request handler redirects for every override, changed or not |
| `HookLaws.ViewerRewriteRedirects` | nginx/njs/edge.js:301-321 | a Lambda's change of path or query is where the viewer is redirected |
| `HookLaws.RespondsExactly` | internal/edgefunc/event.go:384-402 | the Lambda answers itself exactly with a readable status, and then with that status, for both request hooks |
| `HookLaws.ResponseCarried` | internal/edgefunc/event.go:384-402 | a short-circuit reply carries description, body and encoding |
| `EndToEnd.MissReachesOriginUnchanged` | internal/nginx/conf.go:579-655 | compiled chain, handlers, edge-proxy and Lambda together conserve path and query, if and only if no hop re-joins them or the path holds no `?` |
| `EndToEnd.RewriteReachesOrigin` | nginx/njs/edge.js:323-346 | whatever a Lambda rewrites, the merged path and query reach the behavior's own origin, if and only if the merged path holds no `?` |
| `LookupCache.FindByEvent` | internal/edgefunc/server.go:275-282 | the first binding for the event type |
| `LookupCache.RunKeepsInv` | internal/edgefunc/server.go:237-273 | in any interleaving cached lists come from a successful Resolve of the same distribution; an answer is from cache exactly if the entry was fresh on entry, and then at most TTL old; a failed Resolve answers from exactly the list cached on entry, or no binding exactly if there was none |
| `LookupCache.RequestsMoveOn` | internal/edgefunc/server.go:237-273 | every request can move on: fresh entries answer, others resolve, and a resolved list is answered and replaces the entry for TTL |
| `LookupCache.ArrivesAsAsked` | internal/edgefunc/server.go:237-240 | a new request asks for its own distribution and event |
| `LookupCache.RunOnlyGrows` | internal/edgefunc/server.go:266-271 | entries are never removed and answers stand |
| `LookupCache.CachedNeverForgotten` | internal/edgefunc/server.go:252-264 | once cached, a distribution never answers "no binding" for a failed Resolve |
| `CacheControl.Parse` | nginx/njs/cache_control.js:15-58 | the token loop computes the merge of all directives |
| `CacheControl.DirectiveMeaning` | nginx/njs/cache_control.js:21-57 | any text around a first `=`, however spaced, cased or quoted, means the directive of that name and value |
| `CacheControl.UnquoteExactly` | nginx/njs/cache_control.js:33-37 | one pair of surrounding quotes goes, anything else stays |
| `CacheControl.UnknownIgnored` | nginx/njs/cache_control.js:40-57 | a token of another name changes nothing |
| `CacheControl.BadAgeIgnored` | nginx/njs/cache_control.js:64-73 | an age that is not all digits counts as absent |
| `CacheControl.ParseDeltaSeconds` | nginx/njs/cache_control.js:64-73 | digits only, valued in decimal |
| `CacheControl.ParseConcat` | nginx/njs/cache_control.js:15-58 | parsing `a,b` is parsing each and merging, for all strings |
| `CacheControl.PrintParse` | nginx/njs/cache_control.js:15-73 | printing any record, plain or quoted, and parsing it is the identity; 0 is not absent |
| `Ttl.PolicyTtl` | nginx/njs/cache_key.js:263-281 | any policy, malformed or missing, gives 0 <= min <= max and a non-negative default |
| `Ttl.PolicyTtlExactly` | nginx/njs/cache_key.js:263-281 | usable fields are taken as they are, unusable ones and an upside-down range give the defaults |
| `Ttl.TtlDecision` | nginx/njs/ttl.js:22-34 | MinTTL, the nearest point of the range to s-maxage or else max-age, or DefaultTTL |
| `Ttl.OutOfRangeExactly` | nginx/njs/ttl.js:33-33 | when the result leaves the policy's range, if and only if |
| `Ttl.DefaultLeavesRange` | nginx/njs/ttl.js:33-33 | a policy and a header where it does |
| `Ttl.AppendedSMaxageDecides` | nginx/njs/ttl.js:25-31 | an s-maxage appended to any header string decides, unless caching is forbidden |
| `Ttl.AppendedMaxAgeYields` | nginx/njs/ttl.js:25-25 | a max-age never overrides an s-maxage |
| `Ttl.RestrictionWins` | nginx/njs/ttl.js:23-23 | no-store, no-cache or private anywhere gives MinTTL |
| `Ttl.Monotone` | nginx/njs/ttl.js:25-31 | a larger s-maxage, or max-age, never gives a shorter TTL |

## Left out

- HTTP handlers, XML and JSON encoding, logging, middleware and `main` wiring: plumbing; JSON and XML are the identity on the modelled data.
- SHA-256 is a parameter: `KeyExact` assumes no collision between the two materials compared and no colon in a digest.
- Lower-casing and title-casing are ASCII; no directive, coding or header name of interest is affected by Unicode case mapping.
- String order is by character; JavaScript orders by UTF-16 unit, which differs only beyond the basic plane and leaves the laws unchanged.
- Cache-Control ages are unbounded naturals; JavaScript rounds above 2^53, which the clamp to MaxTTL hides for smaller MaxTTL values.
- The two-file crash model assumes that a rename is atomic, that fsync is honest and that unsynced bytes may come back as anything.
- nginx URI normalisation and re-encoding between hops: paths are decoded paths starting with `/`, and only the split at `?` is modelled.
- The outer server: duplicate `location` or named forward locations that nginx would reject, and CloudFront's first-match order against nginx's longest prefix.
- Routing.BuildBehaviorViews: does not model a nil default behavior, comments, response-header directives or the alphabetical order of inner locations, which longest-prefix matching ignores.
- Viewer-request rewrites that re-enter location matching: termination depends on the Lambda and on nginx's redirect limit.
- The njs side of the response hooks (header copying, hop-by-hop filters): case-by-case copying.
- InvalidationStore.BoltStore.Create: takes the minted ID as given and non-empty; the lifecycle assumes it is new.
- Publishing.Run: a render is a function of the store versions it read; which of several distributions it picks is left open below.
- Context cancellation of the worker and of the reload loop: both end with the process.
- The origin-request, response-headers and distribution stores: the first two have the shape of the policy store, the third keeps a deliberately stale index.
- Which distribution is rendered when several exist, and cf-local.conf after the last one is deleted: the code leaves both open.
