# Verified model of the AdCP Go libraries

This project models the parts of the repository whose guarantees do not follow from reading one function:
protocols that interleave, loops that decide a declarative meaning, printers that must be injective, caches and
indexes that must agree with what they stand for. `dafny verify dfyconfig.toml` checks all of it.

The state-changing code is written as classes and methods whose contracts tie the new state to a specification;
what the system promises is then proved about that specification, for all inputs, all runs, or all orders of
arrival. Concurrent code is a state machine whose steps are the sections that run under one lock, the clock
readings, and the outcomes of calls to the outside.

| file | what it models |
|---|---|
| `Text`, `Sorting`, `Arrival` | splitting, joining and printing as in the Go standard library; sorted permutations; lists that differ only in order |
| `Glob` | the glob matcher of the router's property filter |
| `UrlPath`, `Percent` | dot-segment removal, percent normalisation, and the path pipeline of URL canonicalisation |
| `JsonText`, `KeyOrder`, `CanonicalJson`, `JsonWriter` | canonical JSON: its text and a reader of it, key order, meaning, and the recursive writer over a buffer |
| `RequestJcs`, `Es6Number`, `PayloadHash` | the two users of it: signed requests, and idempotency payload hashes with excluded paths and ECMAScript numbers |
| `IdempotentStore`, `IdempotentRuns` | the idempotency middleware over a memory backend, alone and in every interleaving |
| `KeyStore`, `KeyStoreRuns` | the on-demand signing-key store: its critical sections, and all lookups at once |
| `AuthGrants`, `AuthIndex`, `AuthStore` | authorization grants as one map; the index and the store that refine it; the dual write |
| `FeedEvents`, `Syncer`, `SyncerRuns` | the registry feed, the syncer's loop, and whole runs with failures, crashes and restarts |
| `PropertyIndex` | the property index with its secondary indexes |
| `IdentityMerge`, `ContextMerge` | the router's merges of fan-out answers |
| `ContextCache`, `SignatureCache`, `Signing` | the router's two caches, and the signatures one of them caches |
| `Version` | AdCP release versions: reading, ordering, negotiation |

## Where code and documentation differ

The model follows the code. These are the places where that matters:

- `router/filter.go:144-147` tests literal equality before `*`, so the matcher is wrong for some pattern on every
  subject that contains a `*`, and right for every pattern on all others (`Glob.CorrectExactlyOnStarFreeSubjects`).
- `urlcanon/urlcanon.go:60-67` decodes `%2E` after dot segments are gone, so a canonical path need not be a fixed
  point; `Percent.PipelineIdempotentExactly` says exactly which paths are.
- `adcp/idempotency/store.go:31` says that a clock skew of 0 disables the tolerance; lines 88-90 turn 0 into 60 seconds.
- `adcp/idempotency/store.go:28-31` promises replay until the skew after the TTL; the sweeper
  (`adcp/idempotency/memory.go:67-76`) deletes an entry right after its TTL, so an answer is certain up to the TTL and
  no longer (`IdempotentRuns.AnsweredExactly`, `IdempotentRuns.SweptIsForgotten`).
- Two stored responses for one key need not be a TTL apart: the window is counted from the first call's clock
  reading, so a slow handler shortens the distance (`IdempotentRuns.PutsApartExactly`).
- `registry/syncer.go:106-110` discards the cursor in memory when hydration failed, not the saved one. A crash during
  the bootstrap that follows leaves a saved cursor ahead of the data (`SyncerRuns.UndercutCursorLosesEvents`);
  `FeedEvents.ResumeExactly` says when that loses nothing, and `SyncerRuns.ConvergesExactly` so for every run.
- A bootstrap that was interrupted before its first saved cursor is not cleared before a new history is applied
  (`SyncerRuns.LeftoversSurviveCompaction`); `FeedEvents.BootstrapCleansExactly` says when that is harmless.
- `router/router.go:944,953` uses a negative number for "no window yet", so a negative window makes the merged window
  depend on the order of arrival (`IdentityMerge.WindowOrderFreeExactly`).
- `router/context_cache.go:68-69,199-201`: an answer that disables caching is not stored, but it does not remove an earlier
  answer either (`ContextCache.DisablingKeepsTheOldAnswer`).
- `tmproto/signing.go:53` calls the epoch a floor; Go's division truncates, so the day before 1970 also has epoch 0
  (`Signing.EpochIsFloorExactly`).
- `registry/property_index.go:68-95`: a clash of registry ids leaves a gap that outlives the clash
  (`PropertyIndex.ClashLeavesAGap`).

## Model

| member | source | states |
|---|---|---|
| `Glob.MatchGlob` | router/filter.go:140-163 | on subjects without `*` the answer is whether the pattern matches as declared; the main loop takes at most (pattern length + 1) * (subject length + 2) steps |
| `Glob.ScanCorrect` | router/filter.go:143-158 | in every loop state, remembering only the last star loses no match |
| `Glob.CorrectExactlyOnStarFreeSubjects` | router/filter.go:144-147 | the matcher is right for every pattern if and only if the subject contains no `*` |
| `Glob.StarMeans` | router/filter.go:146-150 | a pattern that starts with a star matches exactly when its rest matches some end of the subject |
| `Glob.CharMeans` | router/filter.go:144-145 | a question mark takes any one character, any other character itself, and the empty pattern only the empty subject |
| `Glob.MatchesProperty` | router/filter.go:95-130 | a property passes if and only if no exclusion matches it and every non-empty allowlist admits it |
| `UrlPath.RemoveDotSegments` | urlcanon/urlcanon.go:108-141 | the rewriting loop ends on every string and equals a segment-stack evaluation of section 5.2.4 of RFC 3986; the result has no dot segment |
| `UrlPath.ReferenceClean` | urlcanon/urlcanon.go:108-141 | the result contains no `.` or `..` segment and is a fixed point |
| `UrlPath.DotShortens` | urlcanon/urlcanon.go:108-141 | a path that has a dot segment changes, and gets shorter |
| `UrlPath.DotGoes` | urlcanon/urlcanon.go:112-119 | a single dot segment goes wherever it is; at the end it leaves a slash |
| `UrlPath.DotDotTakesOne` | urlcanon/urlcanon.go:120-127 | a double dot takes the segment before it, at the end leaving a slash |
| `UrlPath.FirstDotDot` | urlcanon/urlcanon.go:108-130 | after the first segment, or at the root, a double dot leaves the root; leading ones of a relative path just go |
| `UrlPath.NoDotNoChange` | urlcanon/urlcanon.go:108-141 | a path without dot segments is unchanged; with the three rules above this determines the result on every path |
| `Percent.NormalizePercentEncoding` | urlcanon/urlcanon.go:161-181 | the scan equals the token-wise normal form of the string |
| `Percent.EscapeNormal` | urlcanon/urlcanon.go:161-217 | an escape of an unreserved character becomes the character, any other gets upper-case digits, and the rest follows |
| `Percent.OtherNormal` | urlcanon/urlcanon.go:161-181 | every other character stays, also a percent sign that two hex digits do not follow |
| `Percent.NormalizeIdempotentExactly` | urlcanon/urlcanon.go:161-217 | normalising twice is normalising once if and only if no escape that normalising forges needs normalising itself |
| `Percent.NormalizeKeepsOctetsExactly` | urlcanon/urlcanon.go:161-217 | the decoded octets are kept if and only if no escape is forged |
| `Percent.NormalFormIsCanonical` | urlcanon/urlcanon.go:161-217 | on well-formed strings equal normal forms mean equal sequences of literals and reserved escapes |
| `Percent.NormalizePath` | urlcanon/urlcanon.go:60-67 | the path pipeline is dot removal, percent normalisation, and `/` for an empty result |
| `Percent.PipelineIdempotentExactly` | urlcanon/urlcanon.go:60-67 | when the whole pipeline is idempotent on a path, exactly |
| `JsonText.PrintInjective` | tmproto/jcs.go:51-132 | two JSON trees print to the same bytes if and only if they are the same |
| `JsonText.ReadPrinted` | tmproto/jcs.go:51-132 | a reader of JSON texts reads every printed tree back |
| `JsonText.EscapeExactly` | tmproto/jcs.go:104-132 | which characters are escaped, in two characters or in six with lower-case digits (section 3.2.2.2 of RFC 8785) |
| `KeyOrder.StrictTotalOrder` | tmproto/jcs.go:213-241 | comparison by UTF-16 code units (section 3.2.3 of RFC 8785) is a strict total order on keys |
| `KeyOrder.CompareExactly` | tmproto/jcs.go:213-241 | one key is below another if and only if its code unit is the smaller one where they first differ, or it is a proper prefix |
| `KeyOrder.AsciiExactly` | tmproto/jcs.go:217-222 | on ASCII keys the same with characters |
| `KeyOrder.AsciiUnits` | tmproto/jcs.go:213-217 | on ASCII keys byte order is that order |
| `KeyOrder.CompareKeys` | tmproto/jcs.go:213-241 | the comparison with its ASCII shortcut and its rune loop computes that order: zero exactly on equal keys, negative exactly where the first differing code unit is smaller or the key is a proper prefix |
| `KeyOrder.SortingUnique` | tmproto/jcs.go:188-195 | a set of keys has one strictly increasing arrangement, so map iteration order cannot show |
| `KeyOrder.SortedKeysAscending` | tmproto/jcs.go:188-195 | that arrangement goes up in the order |
| `Sorting.AtMostExactly` | router/router.go:1064 | Go strings are sorted by the first character that differs, a proper prefix first |
| `CanonicalJson.CanonicalExactly` | tmproto/jcs.go:174-209 | two values have the same canonical bytes if and only if they agree up to the texts of their numbers |
| `CanonicalJson.CanonicalDenotes` | adcp/idempotency/canonical.go:126-179 | with faithful number texts, the same bytes mean the same JSON value and conversely |
| `CanonicalJson.CanonicalReads` | adcp/idempotency/canonical.go:126-179 | the canonical text, read as JSON, is the value, and the members of its objects are in ascending order |
| `JsonWriter.Write` | adcp/idempotency/canonical.go:126-179 | the recursive writer appends exactly the canonical text, or fails when some number has none |
| `JsonWriter.Marshal` | adcp/idempotency/canonical.go:118-124 | the bytes are the canonical text, an error exactly when some number has no text; read as JSON they are the value with its members in ascending order |
| `RequestJcs.SignedBytesExactly` | tmproto/jcs.go:22-209 | two encodable request values have the same signed bytes if and only if they are the same JSON value |
| `RequestJcs.TextIsInteger` | tmproto/jcs.go:134-172 | only integers have a text, and it is the decimal text of that integer |
| `RequestJcs.JcsMarshal` | tmproto/jcs.go:22-33 | the same for signed requests |
| `RequestJcs.HasTextExactly` | tmproto/jcs.go:134-172 | which numbers are encoded: Go integers, and of floats and literals the integers up to 2^53 in size |
| `Es6Number.FixedDecimal` | adcp/idempotency/canonical.go:297-320 | the digits are laid out in fixed notation for any exponent: how many zeros, and where the point is |
| `Es6Number.FormatKeepsValueExactly` | adcp/idempotency/canonical.go:249-320 | the text denotes the number if and only if the mantissa's fraction does not end in a zero; then notation is fixed exactly for leading exponents in [-6, 20] (section 3.2.2.3 of RFC 8785) |
| `Es6Number.ExponentialExactly` | adcp/idempotency/canonical.go:282-294 | exponential notation: one digit, a point and the others if there are any, and an exponent with its sign |
| `Es6Number.ReadsIntegers` | adcp/idempotency/canonical.go:249-295 | the reader by which texts denote numbers agrees with decimal printing |
| `PayloadHash.CompileExcludePaths` | adcp/idempotency/canonical.go:76-92 | the compiled trie lists exactly the given paths |
| `PayloadHash.StripPointwise` | adcp/idempotency/canonical.go:94-115 | a path survives stripping if and only if neither it nor a path above it is listed |
| `PayloadHash.StripIdempotent` | adcp/idempotency/canonical.go:94-115 | stripping twice is stripping once |
| `PayloadHash.StripByPaths` | adcp/idempotency/canonical.go:76-115 | the result depends only on the set of listed paths |
| `PayloadHash.SameTextExactly` | adcp/idempotency/canonical.go:232-295 | two doubles have the same canonical text if and only if they are the same number |
| `PayloadHash.HashInputExactly` | adcp/idempotency/canonical.go:52-69 | two payloads get the same bytes to hash if and only if they are the same JSON value after the excluded paths are removed |
| `PayloadHash.HashInput` | adcp/idempotency/canonical.go:52-69 | what the hash function is applied to: the payload without the excluded paths, as JSON with its members in ascending order |
| `IdempotentStore.ValidKeysKeptApart` | adcp/idempotency/memory.go:78-80 | for validated keys the backend's key determines scope and idempotency key |
| `IdempotentStore.Configure` | adcp/idempotency/store.go:70-98 | which options are refused; TTL and key requirement are as given, and a skew of zero becomes a minute |
| `IdempotentStore.ReplayedExactly` | adcp/idempotency/store.go:214-222 | a stored entry is replayed exactly to equal hashes no later than the skew after its expiry |
| `IdempotentStore.MemoryBackend.Get` | adcp/idempotency/memory.go:83-91 | the entry under the scope and key, if any |
| `IdempotentStore.MemoryBackend.PutIfAbsent` | adcp/idempotency/memory.go:94-105 | stores only where nothing is, and otherwise returns what is there |
| `IdempotentStore.MemoryBackend.Sweep` | adcp/idempotency/memory.go:67-76 | exactly the entries past their expiry are gone |
| `IdempotentStore.Store.Call` | adcp/idempotency/store.go:145-210 | each refusal exactly for its input, with no handler run and nothing stored; without a key the handler runs and nothing is stored; a stored entry answers; otherwise the handler runs and its response is stored for the TTL |
| `IdempotentStore.RetryReplays` | adcp/idempotency/store.go:145-222 | a retry after a sweep runs the handler again if and only if the sweep came past the TTL; otherwise it gets the first response, a conflict, or from the skew past the TTL on an expiry error |
| `IdempotentRuns.StepKeeps` | adcp/idempotency/store.go:183-208 | every step of every interleaving keeps the invariant between entries, owners and finished calls |
| `IdempotentRuns.OneResponsePerLifetime` | adcp/idempotency/store.go:183-222 | in every run, successes of one entry lifetime agree on scope, key, hash and bytes, and exactly one of them is not replayed |
| `IdempotentRuns.StoringCallsApart` | adcp/idempotency/store.go:193-205 | in every run the later of two puts for a key comes more than the TTL after the earlier call read its clock |
| `IdempotentRuns.PutsApartExactly` | adcp/idempotency/store.go:183-205 | for a first call that takes `d`, two puts are always more than `g` apart if and only if `g + d` is within the TTL |
| `IdempotentRuns.AnsweredExactly` | adcp/idempotency/memory.go:67-76 | in every run a call that looks `d` after an entry's clock reading is answered from the entry, if and only if `d` is within the TTL |
| `IdempotentRuns.SweptIsForgotten` | adcp/idempotency/memory.go:67-76 | for every later time a run in which the entry was swept and the call goes on to its handler |
| `IdempotentRuns.WriteOnce` | adcp/idempotency/memory.go:94-105 | in every run an entry stays the same for as long as its key stays |
| `IdempotentRuns.EveryCallIsAtomic` | adcp/idempotency/store.go:145-222 | every finished call has a step of its own at which it is the atomic operation on the entries of that moment |
| `IdempotentRuns.NothingElseChanges` | adcp/idempotency/memory.go:67-105 | entries change only by a sweep or by the atomic operation of the call that is putting |
| `IdempotentRuns.PutSettles` | adcp/idempotency/store.go:200-222 | what the wrapper answers after a lost race for the key is what the step that puts answers |
| `IdempotentRuns.UninterruptedCall` | adcp/idempotency/store.go:145-210 | a call that nothing interrupts can take all its steps and ends with the outcome and the entries of the wrapper, a handler step being there exactly when the wrapper ran it |
| `KeyStore.Flatten` | tmproto/keystore_authorization.go:609-618 | the last key of each non-empty id over all rows, one row after the other |
| `KeyStore.ConcatMore` | tmproto/keystore_authorization.go:609-618 | the rows are taken in their order |
| `KeyStore.Store.JoinOrLead` | tmproto/keystore_authorization.go:465-477 | under the lock: the registered fetch of the agent, or a new one led by the caller |
| `KeyStore.Store.TryAcquire` | tmproto/keystore_authorization.go:499-507 | takes a slot if and only if one is free |
| `KeyStore.Store.Leave` | tmproto/keystore_authorization.go:483-491 | the slot, the waiters and the registration are given up, nothing else |
| `KeyStore.Store.Lead` | tmproto/keystore_authorization.go:479-521 | a leader's fetch: the cache changes only on an answer, the record holds what came of it, and slot, waiters and registration are given up on every way out |
| `KeyStore.Store.Fetched` | tmproto/keystore_authorization.go:381-431 | a registered fetch that is done gives its entry, or its failure, and changes nothing; otherwise a new one is led |
| `KeyStore.Store.EntryFor` | tmproto/keystore_authorization.go:457-521 | an entry that has not expired, unchanged; else what the registry answers, with its lifetimes, now cached; if that fails, with the cache untouched, the expired entry exactly in its grace period; the same for who joins a fetch |
| `KeyStore.Store.LookupKey` | tmproto/keystore_authorization.go:341-432 | the key of the entry at hand; for an unknown id one more fetch, exactly past the cooldown, whose failure leaves the cache alone; the whole new state |
| `KeyStoreRuns.StepKeeps` | tmproto/keystore_authorization.go:341-538 | every step of every interleaving keeps the invariant and finds what it relies on |
| `KeyStoreRuns.OneLeaderPerAgent` | tmproto/keystore_authorization.go:381-398 | in every run an agent has at most one leader, and it leads the registered fetch |
| `KeyStoreRuns.SlotsBounded` | tmproto/keystore_authorization.go:498-507 | in every run the slots taken are those of the running fetches and never exceed the ceiling |
| `KeyStoreRuns.LeavesOnce` | tmproto/keystore_authorization.go:479-491 | a leader's exit gives back a slot it holds, releases waiters not yet released, and removes its own registration |
| `KeyStoreRuns.OnlyAnswersEnterTheCache` | tmproto/keystore_authorization.go:418-432 | the cache changes only when an entry vanishes or the registered leader adds the registry's answer for its agent |
| `KeyStoreRuns.FailedFetchAddsNothing` | tmproto/keystore_authorization.go:370-431 | in every run, once a fetch was refused a slot, failed or crashed, no entry from it is ever cached or returned |
| `KeyStoreRuns.KeysAreGenuine` | tmproto/keystore_authorization.go:341-372 | in every run a returned key is what the registry gave for that agent and key id: fresh at the check, or in the grace period, or from a fetch still registered when the lookup began |
| `KeyStoreRuns.WaitsForRegistered` | tmproto/keystore_authorization.go:465-472 | a waiter's fetch is for its agent, and registered or already released |
| `KeyStoreRuns.StepsRunOut` | tmproto/keystore_authorization.go:341-521 | every step of a lookup brings it closer to its end and moves no other lookup |
| `KeyStoreRuns.SomeoneCanStep` | tmproto/keystore_authorization.go:465-491 | no deadlock: an unfinished lookup, or the leader it waits for, can take a step whatever the registry does |
| `KeyStoreRuns.UninterruptedLookup` | tmproto/keystore_authorization.go:341-521 | a lookup that nothing interrupts can take all its steps and ends with the key and the shared state of the class method |
| `AuthGrants.StoreFollows` | registry/auth_index.go:62-188 | applying to the store every change it accepts keeps it equal to the storable part of memory |
| `AuthIndex.Index.Add` | registry/auth_index.go:62-95 | the grant replaces the one of its agent, domain and type; both nested maps stay in step |
| `AuthIndex.Index.RemoveEntry` | registry/auth_index.go:115-131 | exactly the grants of the pair are gone, and nothing empty is kept |
| `AuthIndex.Index.RemoveAgent` | registry/auth_index.go:146-161 | exactly the grants of the agent are gone |
| `AuthIndex.Index.Check` | registry/auth_index.go:194-204 | true if and only if the map has a grant for the pair |
| `AuthIndex.Index.GetAuthorizedAgents` | registry/auth_index.go:224-237 | each agent with a grant for the domain, once |
| `AuthIndex.Index.Count` | registry/auth_index.go:240-251 | the size of the map |
| `AuthIndex.PutRight` | registry/auth_index.go:67-95 | the nested maps refine the one map after an insertion |
| `AuthIndex.DropPairRight` | registry/auth_index.go:119-131 | they do after removing a pair |
| `AuthIndex.DropAgentRight` | registry/auth_index.go:150-161 | they do after removing an agent |
| `AuthStore.PrefixExactly` | registry/memstore.go:102-107 | a field has the prefix of a valid domain if and only if it is a field of that domain |
| `AuthStore.FieldKeyInjective` | registry/memstore.go:175-177 | for valid domains a field name has one domain and one type |
| `AuthStore.MemoryStore.PutAuth` | registry/memstore.go:77-90 | refused for an invalid domain, otherwise the same change of the one map |
| `AuthStore.MemoryStore.RemoveAuthEntry` | registry/memstore.go:92-112 | the prefix delete is the removal of exactly that pair |
| `AuthStore.MemoryStore.LoadAuth` | registry/memstore.go:128-138 | exactly the grants of the one map, no two for the same agent, domain and type |
| `AuthStore.PersistedIndex.Add` | registry/auth_index.go:97-110 | memory always changes; the store changes with it unless it fails or refuses, which is reported |
| `AuthStore.PersistedIndex.Hydrate` | registry/auth_index.go:255-299 | what the store holds is laid over memory, once |
| `FeedEvents.EventEffect` | registry/syncer.go:250-335 | what an event leaves under a key does not depend on what was there, and without failures memory and store get the same |
| `FeedEvents.EventExactly` | registry/syncer.go:250-335 | for each kind of event, which keys of memory and store change and to what, when which writes fail; events with a bad payload change nothing |
| `FeedEvents.EventGrants` | registry/syncer.go:275-335 | for each kind of event, the change of the grant map that it makes in memory and in the store |
| `FeedEvents.ReplayValue` | registry/syncer.go:250-335 | after a replay each key holds what the last event touching it left, or what was there before |
| `FeedEvents.PageWithin` | registry/syncer.go:158-175 | delivering a page again keeps every key at a value the replay left at or after the page's start, and past its end if all of it was persisted |
| `FeedEvents.ReplayExactly` | registry/syncer.go:117-175 | a replay from a position over any data gives the fold of the feed if and only if every key is touched or held what the feed had left there |
| `FeedEvents.BootstrapCleansExactly` | registry/syncer.go:117-141 | replaying a history over leftovers gives its fold if and only if it touches every leftover key |
| `FeedEvents.ResumeExactly` | registry/syncer.go:85-110 | resuming from a cursor over data since replayed to an earlier position gives the fold if and only if every key that replay touched, and the resumption does not, has the same value at both positions |
| `FeedEvents.GrantsFollow` | registry/syncer.go:275-318 | the authorization part of the replicated state changes as the grant map does |
| `Syncer.Loop.Deliver` | registry/syncer.go:250-335 | memory and store change as the event says, up to its first failing write |
| `Syncer.Loop.DeliverPage` | registry/syncer.go:158-175 | the same for a page; reports whether anything failed |
| `Syncer.Loop.Poll` | registry/syncer.go:112-227 | one iteration: the cursor moves only past a fully persisted page, the saved one only with it, and the third failed save in a row stops the loop; an expired cursor is dropped only when everything could be cleared |
| `SyncerRuns.StepKeeps` | registry/syncer.go:85-246 | every step of the registry, the syncer and its environment keeps the invariant |
| `SyncerRuns.ConvergesExactly` | registry/syncer.go:85-227 | in every run, with a caught-up cursor, memory and store equal the fold of the feed if and only if every key was touched since their replays started or held then what the feed had left there |
| `SyncerRuns.Converges` | registry/syncer.go:85-227 | in every run that never pages over data of another history, nor starts ahead of what the store holds, a caught-up cursor means that memory and store equal the fold of the feed |
| `SyncerRuns.NothingForgotten` | registry/syncer.go:158-192 | in every run, in between, every key holds what its replay left there at some position from the cursor on |
| `SyncerRuns.PageCatchesUp` | registry/syncer.go:178-192 | a fully persisted page that reaches the furthest position catches the cursor up |
| `SyncerRuns.PersistedOrOverwritten` | registry/syncer.go:158-192 | in every run, for each event before the cursor and each key it touches, memory and store hold what that event or a later one wrote |
| `SyncerRuns.UndercutCursorLosesEvents` | registry/syncer.go:106-110 | a run in which a forced bootstrap that crashes makes the next start skip events |
| `SyncerRuns.LeftoversSurviveCompaction` | registry/syncer.go:98-113 | a run in which data of a discarded history survives |
| `PropertyIndex.AlwaysSound` | registry/property_index.go:68-184 | after every history the secondary indexes name only live properties with that registry id or domain |
| `PropertyIndex.PutExactly` | registry/property_index.go:68-97 | which records and index entries a put replaces, and that all others stay |
| `PropertyIndex.RemoveExactly` | registry/property_index.go:89-112 | the same for a removal |
| `PropertyIndex.PutCompleteExactly` | registry/property_index.go:68-85 | on complete indexes a put leaves complete ones if and only if live properties are still distinct |
| `PropertyIndex.CompleteExactlyWhileUnique` | registry/property_index.go:68-184 | indexes are complete all along if and only if live properties were distinct all along |
| `PropertyIndex.ClashLeavesAGap` | registry/property_index.go:68-110 | after a clash and a removal the remaining property cannot be found by its registry id |
| `PropertyIndex.Index.Add` | registry/property_index.go:68-85 | the three maps change as specified; the very record is found under its id and its registry id, and its domain leads to the id |
| `PropertyIndex.Index.Delete` | registry/property_index.go:102-112 | the same for a removal |
| `PropertyIndex.Index.LookupByRID` | registry/property_index.go:136-144 | a live property with that registry id; on complete indexes none is missed |
| `PropertyIndex.Index.LookupByDomain` | registry/property_index.go:146-152 | the id of a live property with that domain; on complete indexes none is missed |
| `PropertyIndex.Index.Hydrate` | registry/property_index.go:212-245 | loading is a sequence of puts |
| `IdentityMerge.EnforceSlotContract` | router/slot_contract.go:24-34 | true if and only if the slot ids are a non-empty ordered prefix of the registered ones |
| `IdentityMerge.MergeIdentity` | router/router.go:940-1077 | the sorted union of packages, the clamped minimum window, each provider's chunks whole or not at all, and for the deprecated field the first single chunk to arrive |
| `IdentityMerge.SaysExactly` | router/router.go:956-1077 | which packages are listed and whose chunks are forwarded, in terms of packages and slots alone |
| `IdentityMerge.WindowExactly` | router/router.go:944-955 | without negative windows: the least one, but at least 1 and at most 300 |
| `IdentityMerge.FirstSingleExactly` | router/router.go:975-1011 | the deprecated value is the first that is not empty of a provider forwarded with one chunk |
| `IdentityMerge.WindowOrderFreeExactly` | router/router.go:944-955 | the window is the same for every order of arrival if and only if none is negative or none exceeds the minimum |
| `IdentityMerge.OrderOfArrivalIrrelevant` | router/router.go:940-1077 | for distinct providers and such windows the merge is the same for every order of arrival |
| `ContextMerge.SignalsMerger.Add` | router/signals.go:65-94 | segments are concatenated and key-values go to the provider's bucket, in whatever order the keys are visited |
| `ContextMerge.MergeContext` | router/router.go:853-897 | the merge is the fold of the answers in order of arrival; of each extra signal key the last to arrive stays |
| `ContextMerge.FirstArrivalWins` | router/router.go:866-890 | of the offers for a package the first to arrive is kept and no other |
| `ContextMerge.KeptInOrder` | router/router.go:866-890 | the kept offers are exactly the first ones of their packages, in order of arrival |
| `ContextMerge.LastExtraStays` | router/signals.go:88-92 | of each extra signal key the value that arrived last |
| `ContextMerge.OwnBucket` | router/signals.go:74-87 | with distinct providers each bucket holds what its provider sent |
| `ContextMerge.OrderOfArrivalIrrelevant` | router/router.go:853-897 | for distinct providers every order gives the same packages, the same segments as often, and the same buckets |
| `ContextCache.KeyInjective` | router/context_cache.go:286-299 | components without NUL are never confused |
| `ContextCache.ResolvedTTL` | router/context_cache.go:195-213 | no lifetime exactly for an explicit zero; the default for none or a negative one; otherwise the seconds given, at most a day |
| `ContextCache.Cache.Get` | router/context_cache.go:155-176 | a hit is the last answer stored under the key, within its lifetime; misses exactly when absent or expired |
| `ContextCache.Cache.Put` | router/context_cache.go:191-235 | a cacheable answer is stored for its lifetime and a disabling one changes nothing; the size bound is kept; all others stay where there is room, and otherwise all live ones but at most one, which none is older than |
| `ContextCache.Cache.EvictOldest` | router/context_cache.go:250-264 | one entry goes, none of which was inserted earlier |
| `ContextCache.Cache.SweepExpired` | router/context_cache.go:239-245 | exactly the expired entries go |
| `ContextCache.DisablingKeepsTheOldAnswer` | router/context_cache.go:199-201 | after an answer that disables caching the earlier one is still served |
| `Signing.EpochDays` | tmproto/signing.go:59-61 | which times an epoch covers, before and after 1970 |
| `Signing.EpochIsFloorExactly` | tmproto/signing.go:53-61 | the epoch is the quotient rounded down if and only if the time is not before 1970 or is a midnight |
| `Signing.RevokedExactly` | tmproto/signing.go:493-502 | a key is refused for exactly the epochs that were not over when it was revoked |
| `Signing.NormalizeIdempotent` | tmproto/signing.go:66-68 | trimming trailing slashes is idempotent and leaves none |
| `Signing.OnlySlashesGo` | tmproto/signing.go:66-68 | and takes nothing but slashes off the end |
| `Signing.SignedLines` | tmproto/signing.go:241-250 | the seven lines of the signed bytes and their order |
| `Signing.InputInjective` | tmproto/signing.go:234-251 | if one side has no line breaks, equal signed bytes mean agreeing requests, the same endpoint and the same epoch |
| `Signing.LineBreakConfuses` | tmproto/signing.go:234-251 | for every request or endpoint with a line break there is another with the same signed bytes |
| `Signing.InputDeterminesExactly` | tmproto/signing.go:234-251 | the signed bytes determine what they were made from if and only if there is no line break in it |
| `Signing.PackagesTextExactly` | tmproto/signing.go:235-240 | for non-empty ids without commas, the same text means the same packages in any order |
| `Signing.VerifyContextMatch` | tmproto/signing.go:365-389 | each verdict exactly: accepted for the present or previous epoch with a key not revoked for it, and only a signature made with that key |
| `Signing.AcceptedExactly` | tmproto/signing.go:206-251 | a signature is accepted exactly at times of its epoch or the next, by its key if not revoked, for requests that agree on all that is signed |
| `SignatureCache.KeyDeterminesSignature` | router/signing.go:29-36 | the cache key determines the signature |
| `SignatureCache.SameSignatureSameKey` | router/signing.go:29-50 | and on normalised endpoints it distinguishes no more than the signature does |
| `SignatureCache.Cache.SignatureFor` | router/signing.go:64-94 | whatever other callers store in between, the result is what direct signing gives |
| `SignatureCache.Cache.EvictOldEpochs` | router/signing.go:98-111 | the entries from the previous epoch on stay when they leave room, and no others; otherwise nothing does |
| `Version.ReadBack` | adcp/version.go:162-198 | reading a wire form gives back the release it was printed from |
| `Version.SpelledIsRead` | adcp/version.go:162-198 | two or three numbers between dots, with a prerelease after a hyphen and a build after a plus, are read as their first two numbers and the prerelease |
| `Version.ReadIsSpelled` | adcp/version.go:162-198 | nothing else is read |
| `Version.PrereleaseExactly` | adcp/version.go:211-224 | a prerelease is letters, digits and hyphens in non-empty parts between dots |
| `Version.TrimExactly` | adcp/version.go:163-166 | white space goes at both ends, all of it |
| `Version.SpaceExactly` | adcp/version.go:163 | which characters are white space |
| `Version.NormalizeIdempotent` | adcp/version.go:45-51 | normalising is idempotent and keeps what reading sees |
| `Version.TotalPreorder` | adcp/version.go:226-280 | the comparison is antisymmetric in sign and transitive, and zero exactly on releases with the same ranks |
| `Version.CompareExactly` | adcp/version.go:226-241 | below means: a smaller major, the same and a smaller minor, a prerelease of the same release, or the lower of two prereleases |
| `Version.RanksExactly` | adcp/version.go:254-280 | below means for prereleases: at the first difference a smaller number, a number against a word, a word with the smaller first differing character, or a proper prefix |
| `Version.RankExactly` | adcp/version.go:200-209 | a part counts as a number exactly if it is digits in range, or a zero with a minus sign |
| `Version.ComparePrerelease` | adcp/version.go:254-280 | part by part, numbers by value and below words, a proper prefix first |
| `Version.ParseSupported` | adcp/version.go:118-130 | exactly the readable versions, each wire form once |
| `Version.HighestSupported` | adcp/version.go:132-151 | a greatest admissible release, none only if there is none; in numbers: in the wanted major, not above the pin, and no other such release has a greater major, or the same and a greater minor |
| `Version.Negotiate` | adcp/version.go:82-109 | the greatest offered release not above the pin in its major, or the stable one for a prerelease pin; no answer only when none qualifies; also stated in majors and minors |

## Left out

- HTTP, transports, SSRF checks, URL parsing and the choice between raw and decoded path: the functions on path strings are modelled on the string they receive.
- Ed25519, SHA-256, base64 and the other cryptography: signatures are ideal (only what was made with a key over a message verifies), hashes are compared by their input.
- Identity-match signing input and sealed credentials: they are a hash of canonical JSON, whose injectivity is proved here.
- strconv and sort internals: a shortest decimal with its exponent is taken as given, and sorting is a sorted permutation.
- `RequestJcs.SignedBytesExactly`: covers values whose numbers are integers, since the encoder refuses all others; floating-point rounding before the encoder sees a number is not modelled.
- `Es6Number.FormatKeepsValueExactly`: takes exponents and fraction lengths below 2^32, far beyond any double; beyond int64 the exponent would not be readable as a number at all.
- `JsonText.ReadPrinted`: the reader takes no white space and no escaped surrogates, neither of which is ever printed.
- Strings are sequences of characters: bytes that are not valid UTF-8 are not modelled, nor is the replacement rune they become in a key.
- `PayloadHash.CompileExcludePaths`: the trie is a value here, a tree of pointers in the source, so sharing between its nodes is not captured.
- `KeyStoreRuns.KeysAreGenuine`: the record of a fetch is found by number in a map, where the source shares a pointer to it; the least-recently-used order of the cache is replaced by entries vanishing at any time, and its size bound belongs to that library.
- `KeyStore.Store.LookupKey`: what other lookups do between its sections, and a panic, are in `KeyStoreRuns`; waiting is over when it joins a fetch, and a second fetch finds the slots as the first left them.
- Contexts, deadlines, logging and metrics of the key store: a fetch ends in an answer, an error or a panic.
- `IdempotentRuns.StepKeeps`: one clock is shared by all calls and the sweeper, as with the defaults; stores other than the memory backend are not modelled.
- `SyncerRuns.Converges`: is a corollary for runs whose steps meet a condition on the state before; `SyncerRuns.ConvergesExactly` has every run, and two lemmas show runs that diverge.
- `SyncerRuns.Converges`: each start is a new process; running the loop twice over the same indexes is not modelled, nor are polling intervals, back-off and page limits.
- The Postgres backend, file cursors, and the drain and health loops: input, output and timers.
- `IdentityMerge.OrderOfArrivalIrrelevant`: leaves out the deprecated single `tmpx` field, which is documented to depend on the order of arrival; warnings are not modelled.
- `ContextMerge.OrderOfArrivalIrrelevant`: leaves out extra signal keys, which the last provider to arrive overwrites.
- Deep copies of cached answers and index records: answers and grants are values.
- `router/registry.go`: its secondary indexes keep stale entries on update, so there is no agreement to prove.
- Validators, provider configuration, reconciliation, circuit breakers and segment rules: branch by branch facts.
