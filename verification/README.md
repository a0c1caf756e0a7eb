# A verified model of the key pool, its rotation and its caches

This project models, in Dafny, how the proxy shares a pool of upstream API keys among
concurrent requests, and proves what it keeps: no key is used by two requests at once, a
cooling key is left alone, every request ends and is told the right thing, and counters,
token windows, the model cache, the usage merge and the log scrubber do what they are for.

`dafny verify dfyconfig.toml` checks everything.

## How it is built

Instants are whole microseconds; the table is a map from id to row.

| file | what it holds |
|---|---|
| `Sequences.dfy` | plain facts about sequences |
| `Cyclic.dfy` | positions on a ring: the arithmetic of the rotating pointer |
| `KeyRows.dfy` | a row, every write to the table, logs of writes and their replay |
| `TokenWindows.dfy` | the 24-hour and 7-day windows against the log of counted usage |
| `Picking.dfy` | the active snapshot, the anti-stacking scan, round robin |
| `Classifiers.dfy` | Retry-After (section 10.2.3 of RFC 9110), answers, the three classifiers |
| `KeyPool.dfy` | the key manager and the administrator's routes as objects, proved against the functions above |
| `Rotating.dfy` | the retry loop as methods, proved against a relation on turns; the verdict |
| `Coverage.dfy`, `RotationCoverage.dfy` | when a request tries every key before it gives up |
| `Protocol.dfy` | all requests together: a transition system interleaved at every await |
| `ProtocolVerdict.dfy` | verdict, picks and termination of a request in any run |
| `ProtocolSafety.dfy` | cooldowns, bounded bypass and the table's history over whole runs |
| `ModelCaching.dfy`, `CacheProtocol.dfy` | the model-list cache, alone and shared by concurrent callers |
| `UsageMerge.dfy` | merging the two usage windows upstream reports |
| `Redaction.dfy`, `Masking.dfy` | scrubbing log text and bound fields |

The sequential objects and the transition system share their functions, and
`Protocol.UninterruptedPick` and `Protocol.UninterruptedTurn` prove that a pick and an
iteration nobody interrupts are the same in both.

Some expectations about the code turn out false, and the exact condition is proved instead:

- "Every active key is tried before giving up": true for n active keys, for every stored
  pointer and all answers, exactly when n + margin > n(n-1)/2
  (`RotationCoverage.TriesAllIff`). With the default margin of 1 it already fails for four
  keys. Of requests whose answers all keep or all remove their keys it holds exactly when
  the margin, which the settings do not check, is not negative
  (`RotationCoverage.UniformTriesAllIff`).
- "Session tokens never exceed weekly tokens": a counted success keeps this for a row
  exactly when its weekly window has not run out while its session window still runs, and
  a row for which it fails recovers exactly when its session window has run out; for
  completion tokens the weekly window may also run out while the session has none
  (`TokenWindows.CountedStaysWithinIff`; over whole histories
  `TokenWindows.StoredSessionOutgrowsIff`). The two windows tumble from their first event,
  although the API names them `rolling_24h_7d` (`app/schemas/api_key.py:138`).
- "A key has a cooldown exactly while it is depleted": a status patch keeps this exactly
  when the new status agrees with the cooldown stored (`KeyRows.PatchKeepsRuleIff`).
- "A fresh model list came from upstream within the lifetime": in any run, exactly when the
  last store was of a fetched list and not of the stale one standing in for a failed request
  (`CacheProtocol.FreshFromUpstreamIff`). The age of a fresh list has no bound
  (`ModelCaching.FailuresKeepStaleFresh`).
- "Probes, chat and model-list requests classify alike": for every row, probes and chat
  requests exactly unless the status is 404 or a 2xx reports token counts the integer columns
  cannot hold, where only the chat request raises; probes and model-list requests exactly
  unless it is 404 or a 2xx body cannot be read as a model list, where the model-list request
  raises before it records anything (`app/services/ollama_client.py:117-123`); chat and
  model-list requests exactly if both or neither raise so
  (`Classifiers.ClassifiersAgreeIff`).
- "Scrubbing is idempotent": exactly when no matched value is shorter than eight characters
  (`Redaction.IdempotentIff`).

## Model

| member | source | states |
|---|---|---|
| KeyRows.ReviveConserves | app/services/key_manager.py:87-104 | reactivation moves exactly the expired depleted keys to active, as many as it reports; disabled keys and all other rows are unchanged, none expired is left, repeating it changes nothing |
| KeyRows.StatusesPartition | app/services/key_manager.py:106-112 | the three status counts add up to the number of rows |
| KeyRows.RateLimitSleeps | app/services/key_manager.py:226-243 | a rate-limit record makes its key sleep for exactly the seconds asked for, at least one, and counts a failure; it is refused exactly if the key is gone or the sleep would outlast the year 9999 |
| KeyRows.SuccessCounts | app/services/key_manager.py:132-210 | a success makes its key active whatever it was and counts one request; one with usage feeds both windows with the prompt and completion tokens reported, a window that has run 24 hours or 7 days starting over |
| KeyRows.ResetWakesAll | app/api/v1/admin.py:248-265 | a reset makes every key active, forgets cooldowns, last codes and failures, and nothing else |
| KeyRows.PatchSetsStatus | app/api/v1/admin.py:148-153 | a patch gives one key the status named and changes nothing else in the table |
| KeyRows.CooldownIffDepleted | app/services/key_manager.py:132-255 | after any accepted log of writes without a status patch, a key has a cooldown exactly while it is depleted |
| KeyRows.PatchKeepsRuleIff | app/api/v1/admin.py:148-153 | a status patch keeps that rule exactly when the new status agrees with whether the key was depleted |
| KeyRows.PatchedKeyStaysDepleted | app/services/key_manager.py:89-96 | an active key patched to depleted stays so over any further log of writes, reactivations included, until a status patch, a reset, a deletion or a success, 401/403 or 429 report about it |
| KeyRows.CountersTellHistory | app/services/key_manager.py:143-254 | in any log of writes `total_requests` counts the successes since creation and `total_failures` the failures since creation or the last reset |
| KeyRows.UsageRefinesSuccess | app/services/key_manager.py:147-210 | for all token arguments a success with usage is refused exactly if a sum no longer fits its integer column, and otherwise differs from a plain one only in the windows and the last token time |
| KeyRows.CountersFit | app/services/key_manager.py:175-205 | so in any log of writes every token counter stays within its column |
| TokenWindows.FoldIsLastSegment | app/services/key_manager.py:162-180 | the stored window is the last of a cut of everything counted into segments, each shorter than a window and opening at least one length after the one before |
| TokenWindows.WindowSumsSinceStart | app/services/key_manager.py:162-180 | stored counters are the sums of everything counted since the stored start, all within one length of it |
| TokenWindows.NothingLost | app/services/key_manager.py:162-180 | totals of the closed windows plus the stored counters equal everything ever counted |
| TokenWindows.RowWindowsFold | app/services/key_manager.py:147-210 | in any log of writes to the table both windows of a row are folds of what was counted for it since creation |
| TokenWindows.StoredWindowsRefineLog | app/services/key_manager.py:147-210 | the whole refinement for a row of the table: both windows at once, and when the session stays within the week |
| TokenWindows.SessionWithinWeekIff | app/services/key_manager.py:167-176 | session tokens are at most the weekly ones exactly when the weekly window is no younger than the session window |
| TokenWindows.SessionOutgrowsWeekIff | app/services/key_manager.py:167-179 | over any log, in any order of clock readings, the session exceeds the week, in prompt or in completion tokens, exactly from an event that restarts the week alone while the session has such tokens until one that restarts the session |
| TokenWindows.CountedStaysWithinIff | app/services/key_manager.py:162-180 | told from the row before the write: a counted success leaves the session within the week exactly when the session window restarts, or it was within the week and the weekly window does not restart; for completion tokens also when the weekly window restarts and the session has none |
| TokenWindows.StoredSessionOutgrowsIff | app/services/key_manager.py:162-180 | the same as for logs, for a row after any accepted log of writes |
| TokenWindows.FoldIsSuffix | app/services/key_manager.py:162-180 | even if clock readings go back a window holds exactly the sums from the event that opened it on, none a length or more later than it |
| TokenWindows.StoredWindowsAnyOrder | app/services/key_manager.py:147-210 | so do both stored windows of a row after any accepted log |
| TokenWindows.SessionCanOutgrowWeek | tests/test_rotation_cumsum.py:190-198 | three events after which the session counter exceeds the weekly one |
| Picking.Sorted | app/services/key_manager.py:72-79 | the snapshot lists each active id once, ascending |
| Picking.ScanExact | app/services/key_manager.py:42-62 | for any stored pointer the pick fails exactly when all listed keys are reserved, and then changes nothing; otherwise it takes the free key at the least cyclic distance, reserves only it and leaves the pointer just behind it |
| Picking.PassingBringsNearer | app/services/key_manager.py:44-61 | a pick that passes over a free key brings the pointer strictly nearer to it |
| Picking.SequentialIsRoundRobin | tests/test_key_manager.py:45-63 | in sequential picks with releases, pick i is the key i places on, modulo the length |
| Picking.SequentialIsFair | app/services/key_manager.py:44-61 | after k such picks each of n keys was chosen k/n times, rounded down or up, and which of the two |
| Classifiers.RetrySecondsMeaning | app/services/key_manager.py:297-303 | a missing, unparsable or NaN Retry-After gives a minute; a number gives at least a second and less than a second below a longer time asked for; only an infinite one raises |
| Classifiers.TruncateMeaning | app/services/key_manager.py:297-303 | a number is cut to the nearest whole one no further from zero, values below one and negative ones included |
| Classifiers.ParseUsageReads | app/services/rotation.py:313-336 | token counts are read from `usage` if it gives any, else from the body's own fields, and there are none in a body that does not decode |
| Classifiers.ModelsPlanDelivers | app/api/v1/proxy.py:97-128 | a model list is taken exactly from a 2xx it can be read from; the request raises exactly on an unreadable 2xx, an infinite Retry-After or a crash |
| Classifiers.NoReplyAgrees | app/api/v1/proxy.py:88-108 | without a reply chat and model-list requests treat the key alike: only a network failure counts against it; a probe without a status leaves it alone |
| Classifiers.NotedStatus | app/api/v1/proxy.py:109-128 | whoever records a reply notes its status, but the model-list request notes every 2xx as 200 |
| Classifiers.ClassifiersAgreeIff | app/services/_keys_ops/probe.py:35-45 | for every row, status, header and body: when two of the three classifiers change status, cooldown and counters alike and raise alike, each in both directions: the exceptions are 404, a 2xx body that is no readable model list and a 2xx that counts more tokens than a column holds |
| Classifiers.UnreadableListDisagrees | app/api/v1/proxy.py:97-128 | a 200 with a page that is no JSON: the model-list request raises and records nothing, chat and probe count a success |
| Classifiers.HugeCountDisagrees | app/services/rotation.py:209-226 | a 200 that reports ten quintillion tokens: the chat request raises and records nothing, the probe counts a success |
| KeyPool.KeyManager.PickNextKey | app/services/key_manager.py:33-62 | table, choice, pointer and reservations after a pick: the table is left alone if a key is active, else every expired key is revived; none chosen exactly if all active keys are reserved, else an unreserved active key is chosen and only it reserved |
| KeyPool.KeyManager.ReserveNextFree | app/services/key_manager.py:42-62 | the scanning loop does what the scan says, for any snapshot |
| KeyPool.KeyManager.Release | app/services/key_manager.py:64-67 | removes that id from the reservations and nothing else, however often it is called |
| KeyPool.KeyManager.LoadActive | app/services/key_manager.py:72-79 | lists exactly the active ids |
| KeyPool.KeyManager.ReactivateLocked | app/services/key_manager.py:87-104 | revives every expired key and returns their number, by which the active count grows |
| KeyPool.KeyManager.CountByStatus | app/services/key_manager.py:106-112 | the counting loop returns the number of rows of each status |
| KeyPool.KeyManager.RecordSuccess | app/services/key_manager.py:132-145 | makes the key active without a cooldown and counts a request, all other fields and rows kept; or raises and leaves the table alone if the key is gone |
| KeyPool.KeyManager.RecordSuccessWithUsage | app/services/key_manager.py:147-210 | the same, and adds the prompt and completion tokens reported to both windows, those that have run 24 hours or 7 days starting over; step by step as the code does |
| KeyPool.KeyManager.RecordUnauthorized | app/services/key_manager.py:212-224 | disables the key, or raises |
| KeyPool.KeyManager.RecordRateLimited | app/services/key_manager.py:226-243 | puts the key to sleep for exactly the seconds asked for, at least one, or raises if the key is gone or the instant cannot be stored |
| KeyPool.KeyManager.RecordServerError | app/services/key_manager.py:245-255 | counts a failure and keeps the status, or raises |
| KeyPool.KeyAdmin.CreateKey | app/api/v1/admin.py:72-101 | adds an active key with nothing counted, or answers that the value is taken and changes nothing |
| KeyPool.KeyAdmin.UpdateKey | app/api/v1/admin.py:138-156 | sets the status named, if the key exists |
| KeyPool.KeyAdmin.DeleteKey | app/api/v1/admin.py:163-175 | removes that row and no other |
| KeyPool.KeyAdmin.ResetKeyStates | app/api/v1/admin.py:248-268 | resets every row and reports their number |
| Rotating.StatusExact | app/services/rotation.py:84-158 | the client's status told from the attempts alone: an upstream code exactly if one delivers, then that one's; 404 exactly if all were 404, at least one, with a model named; else 503 |
| Rotating.RequestStatusExact | app/services/rotation.py:84-158 | the same for every request the loop runs |
| Rotating.StatusFromAnswers | app/services/rotation.py:84-158 | the status told from what upstream answered: the code of an answer passed through if there is one, 404 exactly if there was a call, all were answered 404 and a model was named, else 503 |
| Rotating.RequestStatusFromAnswers | app/services/rotation.py:84-158 | the same for the calls of every request the loop runs |
| Rotating.IterationsGranted | app/services/rotation.py:78-79 | an iteration for each active key, one if there is none, and the margin; none if that is negative |
| Rotating.VerdictUnique | app/services/rotation.py:130-158 | no series of attempts has two verdicts |
| Rotating.AttemptMovesKeys | app/services/rotation.py:183-276 | for every answer: an active key is disabled exactly on 401 and 403 and put to sleep, for as long as Retry-After asks, exactly on a 429 whose cooldown can be stored; which answers count a success or a failure; an attempt raises exactly on a crash or a cooldown or token sum that cannot be stored, and then, as on 404, leaves the table alone; no other key is touched |
| Rotating.AttemptEnds | app/services/rotation.py:183-276 | which answers end the request and which rotate: it delivers exactly a 2xx that can be recorded and the codes below 500 but 401, 403, 404 and 429; 404 rotates as missing; exactly the other recordable answers rotate as failed |
| Rotating.AttemptFeeds | app/services/rotation.py:209-226 | a recorded 2xx feeds both windows with the counts of its body, none from a stream; no other answer feeds them |
| Rotating.Rotation.WaitForFreeSlot | app/services/rotation.py:164-173 | at most a thousand naps, one if nothing is reserved, else ten seconds; reports whether it slept; sleeps not at all only if ten seconds were over before |
| Rotating.Rotation.DispatchOne | app/services/rotation.py:175-276 | makes one call with that key and records what its classified answer calls for; raises if recording does |
| Rotating.Rotation.Attempt | app/services/rotation.py:89-112 | one iteration is one turn of the pool, its key released again |
| Rotating.Rotation.Round | app/services/rotation.py:89-102 | a turn and, if it finds no key although some were active at the start, the wait after it; the loop goes on exactly after an attempt or a nap |
| Rotating.Rotation.TryKeys | app/services/rotation.py:89-128 | the loop's turns follow the pool; its flags sum up its outcomes; every turn that finds no key is followed by a wait, naps are taken nowhere else, and the loop stops before its last iteration only as the code does |
| Rotating.Rotation.ExecuteWithRotation | app/services/rotation.py:73-158 | the response is the verdict on the outcomes of turns that follow the pool and made exactly the calls upstream saw, with its answers, at most max(1, n) + margin of them; a starved turn is followed by a wait and another turn, and an undelivered request uses every iteration unless no key was active at its start or ten seconds were over before a first nap; the reservations are left as they were |
| Coverage.EnoughAttempts | app/services/rotation.py:78-120 | more than n(n-1)/2 attempts reach every key of a shrinking ring, whatever the answers |
| Coverage.WorstMisses | app/services/key_manager.py:44-61 | for every n there are n(n-1)/2 answers after which the last key is still untried |
| Coverage.CoveredIff | app/services/rotation.py:78-120 | k attempts cover n keys from every pointer and for all answers exactly when k > n(n-1)/2 |
| Coverage.UniformCovers | app/services/rotation.py:78-120 | if all answers keep, or all remove, the first n attempts hit n different keys |
| RotationCoverage.TurnDrivesRing | app/services/key_manager.py:42-61 | an uncontended turn tries the ring's current key and turns the ring |
| RotationCoverage.TurnsDriveRing | app/services/rotation.py:89-120 | a whole uncontended request drives the ring until it is empty |
| RotationCoverage.GivesUpAfterAll | app/services/rotation.py:78-120 | with n + margin > n(n-1)/2 a request that gives up has tried every active key |
| RotationCoverage.UnansweredTriedAll | app/services/rotation.py:130-158 | so has every uncontended request that ends without delivering or raising |
| RotationCoverage.UniformRequestCovers | app/services/rotation.py:78-120 | the first n turns of a request whose answers agree try n different keys, all of them |
| RotationCoverage.UniformGivesUpAfterAll | app/services/rotation.py:78-120 | a request that gives up after answers that all keep or all remove their keys has tried every active key |
| RotationCoverage.MissesLast | app/services/rotation.py:78-120 | with fewer iterations some request gives up without ever trying the last key |
| RotationCoverage.TriesAllIff | app/services/rotation.py:78-120 | "every active key is tried before giving up" holds exactly when n + margin > n(n-1)/2 |
| RotationCoverage.UniformTriesAllIff | app/services/rotation.py:78-120 | for requests whose answers agree the same holds exactly when the margin is not negative |
| Protocol.MutualExclusion | app/services/key_manager.py:33-67 | in every reachable state of any interleaving, with failures at any await before the release, no key is held twice, the reserved ids are exactly those held between pick and release, and the lock is held by exactly the request inside a pick |
| Protocol.ActionsTouch | app/services/key_manager.py:64-67 | a request changes no other request, administrators and probes change the table only, time the clock only |
| Protocol.NothingLeaks | app/services/rotation.py:106-112 | when no request is between pick and release nothing is reserved |
| Protocol.PickedKeyWasFree | app/services/key_manager.py:48-60 | a picked key was held by nobody, comes from the request's snapshot, and is held by it alone |
| Protocol.UninterruptedPick | app/services/key_manager.py:33-62 | the request can make the separate moves of a pick one after the other, and they lead to the table, choice, pointer and reservations of the manager's pick |
| Protocol.UninterruptedTurn | app/services/rotation.py:89-128 | it can make the separate moves of an iteration one after the other, and they lead to what a turn of the loop leads to, whether a key was found or not |
| Protocol.SomeoneProceeds | app/services/key_manager.py:34-62 | no deadlock: an unfinished request, the lock's holder, or a napper once its time has come can move |
| ProtocolVerdict.ChatAlwaysOk | app/services/rotation.py:84-158 | in every reachable state a chat request's flags sum up its attempts and its response is the verdict on them |
| ProtocolVerdict.ChatStatusExact | app/services/rotation.py:84-158 | the exact status code, for every chat request of every run that finishes without an exception |
| ProtocolVerdict.ChatStatusFromAnswers | app/services/rotation.py:84-158 | the same status, told from the answers the request heard in the run |
| ProtocolVerdict.BeginCounts | app/services/rotation.py:78-79 | a chat request begins with one iteration for each active key, one if there is none, and the margin; a model-list request picks at once |
| ProtocolVerdict.ModelListEnds | app/api/v1/proxy.py:79-131 | a model-list request that holds a key gets its list exactly on a 2xx with one in it, and throws exactly on an unreadable 2xx, a cooldown that cannot be stored or a crash |
| ProtocolVerdict.ModelListStarved | app/api/v1/proxy.py:84-86 | without a free key it ends without a list |
| ProtocolVerdict.MovesBounded | app/services/rotation.py:89-173 | from any state on a request moves no more often than a bound computed from that state |
| ProtocolVerdict.RequestTerminates | app/services/rotation.py:78-173 | a request makes at most 2006 moves per iteration, of which a chat has max(1, n) + margin and a model list one |
| ProtocolVerdict.WaitEnds | app/services/rotation.py:164-173 | in every reachable state a waiting request's deadline is ten seconds from its last scan, which began the wait, and its nap ends less than one backoff past it |
| ProtocolVerdict.StarvedWaits | app/services/rotation.py:91-102 | a chat request that finds all keys reserved waits for up to ten seconds, or ends at once if no key was active at its start |
| ProtocolVerdict.WaitLeaves | app/services/rotation.py:164-173 | it leaves its wait only on a wake-up that finds nothing reserved or a poll past its deadline, and then tries again while it has iterations, unless it never napped |
| ProtocolVerdict.PicksBounded | app/api/v1/proxy.py:79-86 | a chat request picks at most max(1, n) + margin times, a model-list request once |
| ProtocolSafety.StaysCooling | app/services/key_manager.py:226-243 | from a rate-limit record until the seconds it asked for, at least one, have passed the key is out, unless a success, patch, reset, deletion or later rate limit intervenes |
| ProtocolSafety.CooldownHonoured | app/services/key_manager.py:33-39 | a pick returns a rate-limited key only if the query it worked from, its last move before the scan, ran before that record or when the seconds asked for, at least one, had passed, or one of those writes came between |
| ProtocolSafety.BoundedBypass | app/services/key_manager.py:44-61 | in any run, while the active list stays n keys, a key free at every scan is taken by one of the next n scans, whoever makes them |
| ProtocolSafety.TableIsReplay | app/services/key_manager.py:116-255 | in every reachable state the table is the replay of the accepted writes of the run |
| ProtocolSafety.ReachableRows | app/services/key_manager.py:116-255 | so counters, both token windows and cooldown of every reachable row tell its history |
| ModelCaching.CleanedExact | app/services/model_cache.py:49-55 | cleaning keeps exactly the non-empty names, each once |
| ModelCaching.CleanedInOrder | app/services/model_cache.py:49-55 | in the order of their first appearance |
| ModelCaching.CleaningIdempotent | app/api/v1/proxy.py:145-149 | a stored list offered again comes back unchanged |
| ModelCaching.FetchEffects | app/services/model_cache.py:42-66 | only a listing with a name replaces the list; a failed request stores the old one anew; an exception or an empty list changes nothing |
| ModelCaching.FailuresKeepStaleFresh | app/api/v1/proxy.py:145-149 | after any number of failed fetches, each as the lifetime runs out, the same list is still fresh: its age has no bound |
| ModelCaching.Clean | app/services/model_cache.py:49-55 | the cleaning loop with its set of seen names does that |
| ModelCaching.ModelCache.Get | app/services/model_cache.py:22-27 | the list exactly if it is fresh |
| ModelCaching.ModelCache.Refresh | app/services/model_cache.py:36-66 | no fetch while fresh, else one fetch with its effects; the caller gets what the cache then knows |
| CacheProtocol.StoresSpaced | app/services/model_cache.py:36-66 | in any run of concurrent refreshers consecutive stores are more than the lifetime apart |
| CacheProtocol.LookAnswers | app/services/model_cache.py:22-27 | a caller that finds the list fresh has it at once, whoever holds the lock |
| CacheProtocol.ReturnAnswers | app/services/model_cache.py:42-66 | the caller that fetched gets what it fetched, cleaned, or else what the cache knew; the lock is free and nobody else is answered |
| CacheProtocol.StoredListIsUpstreams | app/api/v1/proxy.py:145-149 | a list in the cache is not empty, free of duplicates and empty names, and the cleaning of one list upstream really returned |
| CacheProtocol.FreshFromUpstreamIff | app/api/v1/proxy.py:145-149 | in any run, while the cache is fresh, upstream gave its list within the lifetime exactly when the last store was of a fetched list |
| CacheProtocol.SingleFlight | app/services/model_cache.py:37-41 | from a store until the lifetime has run nobody fetches and every caller answered, all waiters included, gets the stored list |
| UsageMerge.LastCountExact | app/services/usage_service.py:113-127 | the count used is that of the last entry for the name, cut towards zero, and 0 without one or if it is no number |
| UsageMerge.ReadWindow | app/services/usage_service.py:113-127 | the loop over one window keeps the merge of all entries read so far, and raises exactly on a named entry whose count is infinite or NaN |
| UsageMerge.ParseOfficial | app/services/usage_service.py:93-127 | unique names in order of first appearance, session before weekly, each with its last session and weekly count; usage cut to whole numbers; it raises exactly if a usage or a named count, even one overwritten later, is infinite or NaN |
| Redaction.NameUnique | app/core/logging.py:26-30 | at most one forbidden name starts a text, so the order of the alternatives does not matter |
| Redaction.MatchIsLongest | app/core/logging.py:26-30 | the match found is a reading of the text by the pattern, and the longest |
| Redaction.CutExact | app/core/logging.py:26-30 | the scan is exact: each piece of the text is a whole match exactly if one begins there and no word character stands before, else one character |
| Redaction.NamesRead | app/core/logging.py:9-19 | each of the seven forbidden names is recognised |
| Redaction.RedactsValuesOnly | app/core/logging.py:77-87 | scrubbing replaces each matched value by its preview and leaves all other text as it is |
| Redaction.RedactHides | app/core/logging.py:32-42 | of a matched value the scrubbed text shows the first characters, eight at most, and one ellipsis |
| Redaction.RescanFindsPreviews | app/core/logging.py:77-87 | scrubbed text falls into the same pieces again, with previews for values |
| Redaction.IdempotentIff | app/core/logging.py:77-87 | scrubbing twice equals once exactly when no matched value has fewer than eight characters |
| Masking.MasksExactly | app/core/logging.py:55-75 | along every path, of exactly the values under outermost keys that are one of the seven names in lower case, in dictionaries with fewer than three around them, no more than eight characters and an ellipsis are left; everything else keeps its shape and keys |
| Masking.MaskDict | app/core/logging.py:55-66 | the walk over a dictionary computes that and keeps all keys |
| Masking.MaskList | app/core/logging.py:68-75 | the walk over a list computes that |

## Left out

- HTTP, TLS and streaming bodies: an upstream answer is any status, header value, token counts, network error or other exception.
- SQLAlchemy sessions and date storage: each write is one step on the committed rows, and the identity map's stale copies are not modelled; `label`, `created_at`, `updated_at` and the usage columns of a row are dropped.
- After a failed commit the rollback may expire the row object whose `id` the `finally` of `app/services/rotation.py:112` and `app/api/v1/proxy.py:131` reads to release the key; that read failing, which would leave the id reserved, is not modelled: a held key is always released.
- Integer columns bound the token sums only; `total_requests` and `total_failures`, which SQL adds to, and status codes are unbounded.
- Cryptography: decrypting a key succeeds or fails; whether a new key's hash is already stored is a parameter.
- Header look-up for Retry-After (`app/services/key_manager.py:260-295`): the model starts from the header's value, read as a float.
- Response headers and bodies passed through by the proxy; the static model list used when the cache knows nothing.
- Dashboard, user tokens, authentication, settings, startup: none of it touches the pool except through the writes modelled.
- The cache and lock of the usage service, which repeat the model cache per key; of that file only the merge is modelled, with list-valued `models`; the period fields are copied and left out.
- Probes do not reserve keys, so they appear as writes that can come between any two steps.
- Clocks: wall-clock readings stored in the table are taken at or before the write; fairness of the lock's queue is not modelled, any waiter may enter next.
- TokenWindows.StoredWindowsRefineLog: stated for clock readings that do not go back for the key in question; with readings out of order a window may hold events older than its start, and `TokenWindows.StoredWindowsAnyOrder` says what it holds then.
- CacheProtocol.FreshFromUpstreamIff: a fetched list is dated by the instant its fetch hands it to the cache; the time between upstream's answer and that instant, spent recording the success, is not modelled.
- Masking.MasksExactly: dictionaries and lists are values, so an object reachable along two paths is two copies and masking in place is a new value; the function that lowers the case of a string is a parameter.
- Redaction.IdempotentIff: the table of word characters is a parameter that only has to contain the letters of the forbidden names.
