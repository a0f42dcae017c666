# Verification of the gateway and credential-executor state machines

A Dafny model of the asynchronous heart of this repository: the gateway's remote
feature-flag synchroniser and the credential cache it reads through, its dedup caches,
watcher, counters and limiters; the credential executor's RPC server and the managed
loop that serves one session after another; and three algorithms that stand alone, the
walk over `file:` dependencies, the unified-diff reader and the emoji search.

`dafny verify dfyconfig.toml` checks everything.

## How the model is built

The code is single-threaded but asynchronous, so each `await` is a step boundary. For
every stateful component there is

- a value-level state machine: a `State`, one function per handler or continuation, an
  `Event` for each thing the outside may do, and `Step`. Whatever the event loop holds
  (live timers, fetches in flight, pending handlers) is part of the state, and events
  may come in any order. A run is a sequence of events (`Runs.Run`); the theorems
  speak of every run or every reachable state;
- a class with the fields of the original, updated in place by methods with the
  original's branches and loops. Each method is proved to move the abstract value
  (`View()`) exactly as the state machine says.

`InsertionMap` is the JavaScript `Map` with its insertion order, which the evictions
rely on: overwriting a key keeps its place. `Text` has the string operations. Some
fields are bookkeeping that the original has no need of (when a read began, which
session wrote a value, what was dropped); no handler branches on them.

What the state machine's functions themselves do is fixed apart from their bodies: what
each step brings about is stated from the state before it and its event, with literal
constants (`FlagSteps`, `GetReadsWhenItMust`, `HandshakeIsAnswered`, `EnvelopeIsAnswered`,
`AfterEverySession`, `CapDropsOldest` and their neighbours).

`FlagRestart` adds to `FlagSync` what a fetch can come to (`CanCome`, `IsRun`): the
runs shown to stall are runs in that sense, while the safety theorems hold of more.

In `FlagSync` nothing assumes a single live timer or a single poll in flight: a poll
that outlives a `syncNow` overwrites the handle and leaves two timers, and the
theorems cover that.

## Where the code falls short of its comments or its purpose

The model follows the code. Each of these is a theorem with its exact condition:

- `dedup-cache.ts:106` says an unreserved update can be retried. It can if and only if
  neither it nor a higher update was finalised meanwhile (`RetryAfterUnreserve`,
  `UnreservedLowerIdIsLost`).
- `check-generic-examples.ts:158-186` takes an added line that starts with "++" for a
  file header or skips it. The report is exact if and only if there is none
  (`ReportIsExact`, `TrapIsLost`).
- `auth-fallback-count-tracker.ts:5-6` calls the shipped counts the exact volume, and
  `auth-fallback-reporter.ts:87-88` merges a batch back on any failure. The daemon's
  total is never too low, and it is too high for a key if and only if some flush holding
  it failed for the reporter (answer lost, body unreadable, late refusal) after the
  daemon had stored it (`DoubleCountedExactly`, `LostAnswerIsCountedTwice`).
- A feature-flag synchroniser that is stopped and started again can stall; one that is
  started once, as the gateway does it, cannot (`NoStall`, `RestartIsSafeExactly`,
  `RestartCanStall`).

## Model

Rows of class methods say what is particular about the method; its `ensures` always
fixes the answer and the whole new state, and what it does not change.

| member | source | states |
|---|---|---|
| FlagSync.NoStall | gateway/src/remote-feature-flag-sync.ts:90-302 | In every reachable state of a run with at most one `start`, whatever the order of fetch completions, timers, invalidations, `syncNow` and `stop` calls: while started, a fetch is in flight, a `syncNow` is active, a poll timer is live, or the pause for credentials has a live safety timer |
| FlagSync.NoStallAfterArmedStarts | gateway/src/remote-feature-flag-sync.ts:90-302 | The same for any number of restarts, provided each `start` finds the pause, if there is one, with its safety timer; a pause never loses its safety timer while started |
| FlagRestart.DoomedStalls | gateway/src/remote-feature-flag-sync.ts:90-349 | From every state that is started, paused and without safety timer and active `syncNow`, and whatever else is in flight, a continuation the code can meet ends with nothing due |
| FlagRestart.RestartIsSafeExactly | gateway/src/remote-feature-flag-sync.ts:90-302 | From every reachable stopped state, however often started and stopped before and whatever is in flight: no continuation of a `start` stalls before the next `start` if and only if a pause it finds still has its safety timer; without it, a continuation stalls in which every fetch comes to what its credential reads and the environment allow |
| FlagRestart.RestartNeedsArmedRecheck | gateway/src/remote-feature-flag-sync.ts:90-126 | With nothing else due, a restart whose first fetch finds no credentials, whatever its reads left in the cache, makes progress if and only if an already set waiting flag still has its safety timer |
| FlagRestart.LatePollLeavesStalePause | gateway/src/remote-feature-flag-sync.ts:207-293 | A poll that reports missing credentials after `stop`, whatever its reads left in the cache, sets the waiting flag again, and the safety timer it arms then fires without effect |
| FlagRestart.RestartCanStall | gateway/src/remote-feature-flag-sync.ts:90-349 | Concrete run of fifteen events, platform switched on, each fetch settling after its credential reads and as they allow, clock readings in step with the timers: it ends started, with no fetch, no timer and no active `syncNow`, so the no-stall property fails for a restart after a late poll |
| FlagSync.DelaysBounded | gateway/src/remote-feature-flag-sync.ts:201-293 | Every live timer, however many there are, is due within the longer of the two configured intervals; the doubling back-off never passes the maximum |
| FlagSync.IntervalBacksOff | gateway/src/remote-feature-flag-sync.ts:90-232 | Over any run: until a fetch succeeds, the interval is the initial one doubled once per failed poll and capped at the maximum; from the first success on, of a start, a poll or a `syncNow`, it stays the maximum |
| FlagSync.NothingBeginsAfterStop | gateway/src/remote-feature-flag-sync.ts:119-293 | After `stop` no fetch begins, whatever is in flight, pending or armed, until somebody calls `start` or `syncNow` |
| FlagSync.SyncFetchesNeverOverlap | gateway/src/remote-feature-flag-sync.ts:134-199 | At most one `syncNow` fetch is in flight, and only while the loop is active |
| FlagSync.LatestCallIsKnown | gateway/src/remote-feature-flag-sync.ts:134-199 | Every `syncNow` call, explicit or made by the listener or the safety timer, is remembered as the latest call or an earlier one |
| FlagSync.FlightsKnowInvalidations | gateway/src/remote-feature-flag-sync.ts:308-349 | A fetch begun after a credential invalidation answers its reads from no read older than that invalidation |
| FlagSync.NoSyncIsDropped | gateway/src/remote-feature-flag-sync.ts:134-199 | When a `syncNow` loop ends while started, its last fetch began no earlier than every `syncNow` call so far, and both of its credential reads began after every invalidation that preceded or made any of those calls |
| FlagSteps.StepsAreExact | gateway/src/remote-feature-flag-sync.ts:90-302 | In every run, each step does to the flags, the handle, the live timers and the fetches in flight exactly what its event calls for, told from the state before it without the handlers: who pauses, who schedules a poll, whose timer is cancelled, which fetch begins |
| FlagSteps.PausesExactlyWhenMissing | gateway/src/remote-feature-flag-sync.ts:90-293 | In every run, a step begins a wait for credentials if and only if a start or a poll settles without credentials, or a `syncNow` does while started with no round pending (lines 193-197, 216-218); it leaves exactly a safety timer of the maximal interval under the handle, and the timer named before is gone |
| FlagSteps.PollsAfterAnswer | gateway/src/remote-feature-flag-sync.ts:93-199 | In every run, a start, or a `syncNow` loop that ends while started, that succeeded or failed leaves a live poll timer of the current interval under the handle, of the maximal one after a success; a loop that ends so waits for credentials if and only if they were missing |
| FlagSteps.WakesAtOnce | gateway/src/remote-feature-flag-sync.ts:134-168 | In every run, while started and waiting with no `syncNow` active: a credential change, a due safety timer or a call of `syncNow` ends the wait, cancels the handle and begins exactly one fetch, the one `syncNow` awaits |
| FlagSteps.FetchesReadBoth | gateway/src/remote-feature-flag-sync.ts:330-349 | In every run, when a step begins a fetch it is only one, and it is answered, through the cache, by one read of the platform address and one of the API key, or by none when the platform features are off |
| FlagSync.RemoteFeatureFlagSync.StartSync | gateway/src/remote-feature-flag-sync.ts:90-95 | Started, one start fetch in flight, reads answered by the cache |
| FlagSync.RemoteFeatureFlagSync.ContinueStart | gateway/src/remote-feature-flag-sync.ts:93-108 | Success jumps to the maximal interval and schedules, missing credentials pause, an error keeps the interval and schedules |
| FlagSync.RemoteFeatureFlagSync.StopSync | gateway/src/remote-feature-flag-sync.ts:119-126 | Timer of the current handle cancelled, watch cleared, other live timers and flights untouched |
| FlagSync.RemoteFeatureFlagSync.SyncNow | gateway/src/remote-feature-flag-sync.ts:134-168 | A call during an active loop only asks for another round; otherwise the first round begins |
| FlagSync.RemoteFeatureFlagSync.ContinueSync | gateway/src/remote-feature-flag-sync.ts:170-199 | After a round: leave if stopped, go round again if asked, else pause or schedule exactly one next step |
| FlagSync.RemoteFeatureFlagSync.ContinuePoll | gateway/src/remote-feature-flag-sync.ts:210-230 | Interval reset, doubled up to the maximum, or pause |
| FlagSync.RemoteFeatureFlagSync.FinishPoll | gateway/src/remote-feature-flag-sync.ts:231-242 | The next poll is scheduled unless stopped, syncing or waiting |
| FlagSync.RemoteFeatureFlagSync.Pause | gateway/src/remote-feature-flag-sync.ts:257-293 | Waiting flag, subscription and safety timer are set together, once |
| FlagSync.RemoteFeatureFlagSync.Invalidate | gateway/src/remote-feature-flag-sync.ts:268-277 | Invalidation reaches the listener only while subscribed |
| FlagSync.RemoteFeatureFlagSync.TimerFired | gateway/src/remote-feature-flag-sync.ts:201-291 | A live timer fires once: a poll, or the safety net |
| CredentialCache.GetAfterInvalidateIsFresh | gateway/src/credential-cache.ts:36-119 | In every run, a `get` called after an `invalidate` is answered from a read of its own key that began after it, whether it hits the cache, joins a read in flight or starts one; a cache hit returns exactly what that read resolved to |
| CredentialCache.StaleReadNeverWrites | gateway/src/credential-cache.ts:93-119 | A read begun before the latest invalidation changes neither the cache nor the in-flight map when it settles |
| CredentialCache.OneReadPerKey | gateway/src/credential-cache.ts:93-119 | At most one read of the current generation is unsettled per key |
| CredentialCache.HitIsYoung | gateway/src/credential-cache.ts:36-50 | A cache hit is never a forced `get`, and its value is what a read resolved to less than a TTL ago |
| CredentialCache.YoungValueIsServed | gateway/src/credential-cache.ts:36-119 | Conversely, what a read of the current generation found is served for a TTL unless an invalidation or another read of the key comes in between |
| CredentialCache.GetReadsWhenItMust | gateway/src/credential-cache.ts:36-119 | In every run: a `get` answers from the cache if and only if it is not forced and has an unexpired entry; otherwise it awaits an unsettled read of its key, one already under way if there is one of the current generation, else a new one, and a new one only then |
| CredentialCache.Reachable | gateway/src/credential-cache.ts:36-119 | Invariant of every run: cached values come from settled reads of the current generation, the in-flight map is exactly the unsettled reads of it |
| CredentialCache.Cache.Get | gateway/src/credential-cache.ts:36-50 | Answer and new state are those of the specification: an unexpired entry, else the read in flight, else a new read |
| CredentialCache.Cache.Settle | gateway/src/credential-cache.ts:93-119 | A settled read writes the cache and leaves the in-flight map only within its generation; a failed one caches nothing |
| CredentialCache.Cache.InvalidateAll | gateway/src/credential-cache.ts:66-73 | Generation advances, cache and in-flight map are emptied, reads in flight go on |
| Framing.ChunkingIsIrrelevant | credential-executor/src/server.ts:159-215 | For any cut of a character stream into chunks, the sequence of handled lines and the leftover equal those of the whole stream at once |
| Framing.SplitAppend | credential-executor/src/server.ts:207-215 | Splitting a stream in two: the leftover of the first part is all the second needs |
| Framing.Split | credential-executor/src/server.ts:207-215 | The leftover holds no newline |
| Framing.SplitOfLines | credential-executor/src/server.ts:207-215 | Newline-terminated raw lines followed by an unfinished one are cut into exactly the non-blank ones, trimmed, and that leftover |
| Text.TrimOfPadded | credential-executor/src/server.ts:210-212 | Trimming undoes any white space put around a trimmed text |
| Text.TrimCutsBlankEnds | credential-executor/src/server.ts:210-212 | For every text, what trimming cuts off at either end is white space and nothing else |
| RpcServer.SessionNeverChanges | credential-executor/src/server.ts:261-283 | At most one handshake is ever accepted; once accepted, handshake and session id never change and no further acceptance is sent |
| RpcServer.AcceptedVersion | credential-executor/src/server.ts:261-283 | In every run, a handshake that was accepted names protocol version "0.1.0" |
| RpcServer.HandshakeIsAnswered | credential-executor/src/server.ts:261-283 | In every run, a line that holds a handshake draws at once the acknowledgement with its session id, positive if and only if none was accepted before and its version is "0.1.0"; only then are session, key and assistant id taken over |
| RpcServer.EnvelopeIsAnswered | credential-executor/src/server.ts:285-329 | In every run, a line that holds an envelope draws the refusal its case calls for (no handshake, unknown method, ill-formed payload), nothing for a response, and else starts its handler with the refs of that moment; only a credential update overwrites them |
| RpcServer.OtherLinesAreIgnored | credential-executor/src/server.ts:217-259 | A line that is no message, or another kind of message, changes nothing |
| RpcServer.OneReplyPerRequest | credential-executor/src/server.ts:285-366 | With handlers finishing in any order: while open, an envelope has exactly one reply precisely when it is answerable and its handler is not pending; never more than one; and every reply carries the id and method of its own request |
| RpcServer.SettledBeforeCloseIsAnswered | credential-executor/src/server.ts:285-341 | A handler that settles before close draws exactly one reply, with its own id, method and result or error, whatever happens afterwards |
| RpcServer.CallsAreLegitimate | credential-executor/src/server.ts:285-323 | A request starts at most one handler, calls start in the order of the requests, and nothing unregistered or refused by its schema is ever called |
| RpcServer.RepliesAreJustified | credential-executor/src/server.ts:285-360 | Every result or handler error answers a request whose handler was called; "method not found" only an unregistered method, "invalid request" only a registered one, and those two and "handshake required" only requests for which no handler ran |
| RpcServer.SilentAfterClose | credential-executor/src/server.ts:194-201 | After close nothing is written and no handler is called |
| RpcServer.CallsSeeOwnSession | credential-executor/src/server.ts:217-329 | No handler runs before the accepted handshake; each sees, when called, the values written by the handshake or by the last credential update handled since |
| RpcServer.EarlierRefsAreInvisible | credential-executor/src/server.ts:261-329 | Two servers given the same events but started over different refs send the same output and make the same calls with the same refs |
| RpcServer.ReceiveIsChunkIndependent | credential-executor/src/server.ts:159-215 | Feeding chunks one by one leaves the whole server as feeding their concatenation does |
| RpcServer.Reachable | credential-executor/src/server.ts:194-366 | Invariant of every run: replies fit envelopes, refs hold what the session wrote, the buffer holds no newline at rest |
| RpcServer.CredentialRefs.ApplyManagedCredentialRefs | credential-executor/src/managed-lazy-getters.ts:46-54 | Both refs are overwritten; an absent value clears its ref instead of keeping the old one |
| RpcServer.CesRpcServer.OnData | credential-executor/src/server.ts:159-163 | A closed server ignores data, an open one appends and processes |
| RpcServer.CesRpcServer.ProcessBuffer | credential-executor/src/server.ts:207-215 | The loop handles exactly the complete, non-blank lines in order and keeps the rest |
| RpcServer.CesRpcServer.ProcessHandshake | credential-executor/src/server.ts:261-283 | Only the supported version is accepted, and only then are session and refs written |
| RpcServer.CesRpcServer.ProcessEnvelope | credential-executor/src/server.ts:285-329 | Refused before the handshake, ignored if a response, refused if unknown or ill-formed, else called |
| RpcServer.CesRpcServer.HandlerSettled | credential-executor/src/server.ts:322-341 | The reply of a pending call goes out with its own id and method |
| RpcServer.CesRpcServer.Shutdown | credential-executor/src/server.ts:194-201 | The server stays closed |
| CommandString.ParsePrinted | credential-executor/src/server.ts:563-593 | Printing a well-formed command and parsing it gives it back |
| CommandString.SurvivesPrinting | credential-executor/src/server.ts:563-593 | Parsing the print of a command yields that command if and only if it is well formed |
| CommandString.ParsedIsWellFormed | credential-executor/src/server.ts:563-593 | Everything the parser accepts is well formed: digest without slash or space, profile without space, arguments non-empty and free of white space |
| CommandString.ParseIsStable | credential-executor/src/server.ts:563-593 | For every accepted input, parsing the print of the parse equals the parse |
| CommandString.TokensOfSpaced | credential-executor/src/server.ts:588-590 | Cutting spaced words at white space gives the words back |
| CommandString.ParseGapped | credential-executor/src/server.ts:563-593 | A well-formed command parses to itself with any white space around it and any white space between its arguments, as long as a space follows the reference |
| CommandString.RefusedExactly | credential-executor/src/server.ts:563-593 | For every input: refused as empty if and only if it is all white space; otherwise accepted if and only if the piece before the first space has a first slash with something on both sides, and refused by that piece if not |
| ManagedSessions.CallsSeeOwnSession | credential-executor/src/managed-main.ts:683-816 | Over any sequence of sessions sharing one set of refs, ended by the stream, by a transport error or by abort, and whatever the streams and handlers of ended sessions still deliver: every handler call comes after its own session's accepted handshake, and the shared refs it sees hold the session id, key and assistant id that this handshake or a later update in the same session wrote |
| ManagedSessions.SharedRefsFollowSession | credential-executor/src/managed-main.ts:729-765 | While a session is served and its handshake is accepted, the shared refs hold what that session wrote |
| ManagedSessions.EndedSessionsWriteNothing | credential-executor/src/server.ts:159-201 | Data, stream ends, stream errors and handler results of any session but the awaited one write no ref, no reply and no call, and touch no other session; the only guard is the server's `closed` flag |
| ManagedSessions.SessionsAreIsolated | credential-executor/src/managed-main.ts:683-816 | Although the refs are shared, a session is left exactly as it would be in a process of its own given what reaches it of the run (its stream, its handlers' results, the close an abort brings): same output, same handler calls, same values seen |
| ManagedSessions.OneSessionAtATime | credential-executor/src/managed-main.ts:703-816 | Every session but the one being served is closed; the loop leaves only on a shutdown signal; `rpcConnected` holds exactly from connection to cleanup |
| ManagedSessions.AfterEverySession | credential-executor/src/managed-main.ts:788-816 | In every run, the step after a session's end, whatever ended it, leaves the loop if and only if a shutdown signal occurred so far and else listens again; disconnected, without grants, refs as they were |
| ManagedSessions.NextConnectionIsServed | credential-executor/src/managed-main.ts:703-765 | In every run, a listening loop serves its next connection by a fresh open server and leaves all earlier ones alone |
| ManagedSessions.CrashHasCause | credential-executor/src/managed-main.ts:703-717 | In every run, the process has failed only if a `listen` failed while the loop was listening |
| ManagedSessions.AbortIsRemembered | credential-executor/src/managed-main.ts:683-702 | The signal is known to the loop if and only if there was one |
| ManagedSessions.ServingEndsBecause | credential-executor/src/managed-main.ts:766-784 | A served session ends if and only if its own stream ends or errors or a signal comes; its server is then closed |
| ManagedSessions.AbortLeaves | credential-executor/src/managed-main.ts:703-816 | From every reachable state of a process that has not failed, a signal gets the loop out within two continuations, with every server closed |
| ManagedSessions.CleanupEmptiesGrants | credential-executor/src/managed-main.ts:788-794 | The cleanup that ends every session leaves no temporary grant |
| ManagedSessions.GrantsAtSessionStart | credential-executor/src/managed-main.ts:703-816 | Whenever a session of any run starts, a temporary grant is present if and only if work left over from an ended session recorded it after the last cleanup (or since the process began) and nothing dropped it since |
| ManagedSessions.EmptyAtSessionStart | credential-executor/src/managed-main.ts:703-816 | In every run in which leftover work records no grant, every session starts with an empty store |
| ManagedSessions.GrantsExactly | credential-executor/src/managed-main.ts:788-794 | At any time of any run, a grant is present if and only if it was recorded and since then neither dropped nor swept by a session's end |
| ManagedSessions.OmittedCredentialsFailClosed | credential-executor/src/managed-lazy-getters.ts:76-106 | A session that names neither key nor assistant gets no managed options and only the environment's key from the shared refs, whatever earlier sessions wrote there |
| ManagedSessions.NamedCredentialsAreUsed | credential-executor/src/managed-lazy-getters.ts:46-106 | A session whose handshake names key and assistant, and that sends no update, gets exactly those from the getters at each of its calls |
| ManagedSessions.ServeLoop.ConnectionSettles | credential-executor/src/managed-main.ts:703-717 | A connection leads to a session, a failed listen ends the process |
| ManagedSessions.ServeLoop.Resume | credential-executor/src/managed-main.ts:717-816 | A server is made over the shared refs object, or the ended session is cleaned up: disconnected, grants cleared, loop left or resumed |
| ManagedSessions.ServeLoop.ReceiveChunk | credential-executor/src/managed-main.ts:719-776 | Data on the stream of any server made so far reaches that server over the shared refs object; all others stay as they are |
| ManagedSessions.ServeLoop.StreamSettles | credential-executor/src/managed-main.ts:774-784 | The server of the stream closes, and the loop moves on only if it awaits that server |
| ManagedSessions.ServeLoop.HandlerSettled | credential-executor/src/managed-main.ts:719-776 | A handler result goes to the server of its request, ended or not |
| ManagedSessions.ServeLoop.SignalAbort | credential-executor/src/managed-main.ts:703-816 | Listening ends the loop, serving closes the server and ends the session |
| UpdateDedup.NeverReservedAgain | gateway/src/dedup-cache.ts:66-139 | Once `set(u)` happened, `reserve(v)` with v <= u never again answers "reserved", despite expiry, eviction or any clock |
| UpdateDedup.MarkOnlyRises | gateway/src/dedup-cache.ts:115-139 | The high-water mark never falls |
| UpdateDedup.LiveReservationIsDuplicate | gateway/src/dedup-cache.ts:66-139 | For any clock, also one that steps back: until unreserved, capacity-evicted, or a reading is past the TTL of the reservation or of a response stored for it, every retry is a "duplicate", also when the mark has passed it |
| UpdateDedup.SecondReservationHasCause | gateway/src/dedup-cache.ts:66-139 | For any clock: two "reserved" answers for one id are separated by its unreserve, a clock reading past its TTL or a capacity eviction of its entry |
| UpdateDedup.StoredResponseIsServed | gateway/src/dedup-cache.ts:44-139 | For any clock: a stored response answers every lookup as long as no reading is past its TTL, unless overwritten or capacity-evicted; `unreserve` cannot remove it |
| UpdateDedup.DuplicateHasCause | gateway/src/dedup-cache.ts:66-80 | A "duplicate" answer goes back to a reservation or a stored response of that id within its TTL |
| UpdateDedup.AlreadyProcessedHasCause | gateway/src/dedup-cache.ts:80-84 | An "already processed" answer means that this or a higher update was finalised |
| UpdateDedup.ServedResponseWasStored | gateway/src/dedup-cache.ts:44-53 | A served response is one that a `set` of that id stored within the TTL |
| UpdateDedup.SizeIsBounded | gateway/src/dedup-cache.ts:66-139 | Size stays within `maxSize` in every run, and at one for a `maxSize` below 1 |
| UpdateDedup.EvictionTakesOldest | gateway/src/dedup-cache.ts:86-95 | A capacity eviction happens only when the unexpired entries alone fill the map, and takes the first inserted of those |
| UpdateDedup.ReservableAfterUnreserve | gateway/src/dedup-cache.ts:82-112 | In any single state, an id that is unreserved while reserved is reservable again if and only if it is above the mark |
| UpdateDedup.RetryAfterUnreserve | gateway/src/dedup-cache.ts:66-139 | Over a run: a reservation given up while it is held can be made again at once if and only if neither its own nor a higher update was finalised in between |
| UpdateDedup.UnreservedLowerIdIsLost | gateway/src/dedup-cache.ts:82-112 | Concrete run in which a lower id, unreserved after a higher one was finalised, is refused: the comment on `unreserve` does not always hold |
| UpdateDedup.DedupCache.Get | gateway/src/dedup-cache.ts:44-53 | Expired entries are dropped, reservations give no response |
| UpdateDedup.DedupCache.Reserve | gateway/src/dedup-cache.ts:66-104 | Live entry, mark, eviction and reservation in this order |
| UpdateDedup.DedupCache.Unreserve | gateway/src/dedup-cache.ts:107-112 | Only a reservation is removed |
| UpdateDedup.DedupCache.Set | gateway/src/dedup-cache.ts:115-139 | Mark raised, room made, an existing key keeps its place |
| UpdateDedup.DedupCache.EvictExpired | gateway/src/dedup-cache.ts:159-171 | Exactly the expired entries go, the order of the others stays |
| MessageDedup.ReservationIsExclusive | gateway/src/dedup-cache.ts:200-265 | Between two successful reservations of a key somebody gave it up: neither time nor capacity frees a claimed key |
| MessageDedup.MarkBlocksThroughTtl | gateway/src/dedup-cache.ts:210-265 | For any clock: after `mark`, or a `seen` that answers false, every reservation fails and every `seen` answers true as long as no reading is past the TTL of the key's latest mark, unless that mark is capacity-evicted |
| MessageDedup.EvictionTakesOldest | gateway/src/dedup-cache.ts:249-265 | A mark is capacity-evicted only when the unexpired marks alone fill the map, and it is the first inserted of those |
| MessageDedup.RefusalHasCause | gateway/src/dedup-cache.ts:200-265 | A refused reservation goes back to a claim of the key that nobody released since, or to a mark of it within the TTL |
| MessageDedup.ClaimedKeysAreUnmarked | gateway/src/dedup-cache.ts:200-265 | In every reachable state no key is both claimed and marked |
| MessageDedup.RetryAfterSettle | gateway/src/webhook-pipeline.ts:87-110 | Settling a claimed message makes its key reservable again if and only if it was neither rejected, intercepted nor forwarded |
| MessageDedup.RetryAfterError | gateway/src/webhook-pipeline.ts:21-41 | An error makes a claimed key reservable again if and only if it is the open circuit breaker |
| MessageDedup.SizeIsBounded | gateway/src/dedup-cache.ts:249-265 | The marks stay within `maxSize`, or one for a `maxSize` below 1 |
| MessageDedup.StringDedupCache.Has | gateway/src/dedup-cache.ts:210-219 | Claimed or unexpired keys are seen, an expired mark is dropped |
| MessageDedup.StringDedupCache.Reserve | gateway/src/dedup-cache.ts:230-234 | A key is claimed only when unseen |
| MessageDedup.StringDedupCache.Unreserve | gateway/src/dedup-cache.ts:240-242 | The claim goes, a mark stays |
| MessageDedup.StringDedupCache.Mark | gateway/src/dedup-cache.ts:249-265 | The claim becomes a mark, room is made first |
| MessageDedup.StringDedupCache.Seen | gateway/src/dedup-cache.ts:200-204 | An unseen key is marked |
| MessageDedup.StringDedupCache.EvictExpired | gateway/src/dedup-cache.ts:288-299 | Exactly the expired marks go |
| MessageDedup.HandleCircuitBreakerError | gateway/src/webhook-pipeline.ts:21-41 | The key is released exactly for an open breaker, whose Retry-After is returned |
| MessageDedup.ProcessInboundResult | gateway/src/webhook-pipeline.ts:87-110 | The key is released exactly when the answer is a 500 |
| CredentialWatcher.PollsNeverOverlap | gateway/src/credential-watcher.ts:228-276 | At most one poll reads at a time, in every run |
| CredentialWatcher.NoRequestIsLost | gateway/src/credential-watcher.ts:212-276 | Until `stop`, after every request a poll has started at or after it or one is still due; for a forced request, a forced poll has started or the due one will be forced |
| CredentialWatcher.DuePollStarts | gateway/src/credential-watcher.ts:220-275 | A due poll does start, forced if it must be, at the debounce or at the end of the running poll, also when a read threw |
| CredentialWatcher.RequestsAreServed | gateway/src/credential-watcher.ts:212-276 | Invariant of every stop-free run behind the two statements above |
| CredentialWatcher.ReportsExactlyNews | gateway/src/credential-watcher.ts:250-262 | In every reachable state a poll reports a service if and only if the consumer's credentials serialise differently from what was read, or the poll is forced and found any |
| CredentialWatcher.ConsumerHoldsLastFinishedPoll | gateway/src/credential-watcher.ts:250-266 | A consumer applying only `changedServices` of each event holds, for every service, credentials that serialise like those of the last finished poll |
| CredentialWatcher.PollsAreRequested | gateway/src/credential-watcher.ts:212-276 | In every run, stops included, no more polls have begun or are due than were asked for |
| CredentialWatcher.NothingBeginsAfterStop | gateway/src/credential-watcher.ts:125-276 | After `stop`, no poll begins or is due until somebody asks for one |
| CredentialWatcher.FinishedPollHasItsReads | gateway/src/credential-watcher.ts:240-266 | In every run, a poll that finishes compares for every service exactly what its own read of that service resolved to |
| CredentialWatcher.Watcher.ScheduleCheck | gateway/src/credential-watcher.ts:215-226 | The forced flag accumulates, the debounce restarts |
| CredentialWatcher.Watcher.DebounceFired | gateway/src/credential-watcher.ts:220-225 | The accumulated flag goes to the poll and is cleared |
| CredentialWatcher.Watcher.PollOnce | gateway/src/credential-watcher.ts:228-242 | A running poll only makes another pending |
| CredentialWatcher.Watcher.ReadSettled | gateway/src/credential-watcher.ts:240-275 | Reads in order, a throw skips the comparison but not the `finally` |
| CredentialWatcher.Watcher.Compare | gateway/src/credential-watcher.ts:250-262 | The changed services are exactly those whose value differs, or is present in a forced poll |
| CredentialWatcher.Watcher.StopWatching | gateway/src/credential-watcher.ts:125-141 | Debounce and pending poll are dropped |
| FallbackCounts.CountsAreConserved | gateway/src/auth-fallback-reporter.ts:78-134 | For every key and any overlap of flushes, failures and merges: increments equal buffered + held by unfinished flushes + acknowledged + dropped at the cap |
| FallbackCounts.DaemonExceedsByRepeated | gateway/src/auth-fallback-reporter.ts:90-134 | In every run, with any batch stored early, late or never and any answer lost: the daemon's total for a key is what is due (increments less buffered, undelivered and dropped) plus exactly what the daemon stored and the reporter merged back |
| FallbackCounts.DoubleCountedExactly | gateway/src/auth-fallback-reporter.ts:107-133 | The daemon never has less than is due, and has more for a key if and only if some flush holding that key failed for the reporter after the daemon had stored its batch |
| FallbackCounts.LostAnswerIsCountedTwice | gateway/src/auth-fallback-reporter.ts:107-133 | Concrete run: one request, a stored POST whose answer is lost, a second POST; the daemon has counted two |
| FallbackCounts.DropsOnlyAtCap | gateway/src/auth-fallback-count-tracker.ts:89-112 | A step of any run drops an amount only when a count of that key, without an entry, meets a full map at that very `add`: the request counted, or the count of the batch being merged back that the lemma names |
| FallbackCounts.AddConserves | gateway/src/auth-fallback-count-tracker.ts:89-112 | An `add` buffers its amount or, at the cap and for a new key, drops it; no other key moves |
| FallbackCounts.MergeConserves | gateway/src/auth-fallback-count-tracker.ts:71-75 | Merging back conserves every amount and keeps the window |
| FallbackCounts.KeyIsInjective | gateway/src/auth-fallback-count-tracker.ts:89-96 | With space-free guards and paths, equal composite keys mean equal triples |
| FallbackCounts.KeyTellsApart | gateway/src/auth-fallback-count-tracker.ts:16-19 | A triple is told apart from every other triple by its composite key if and only if none of its three parts contains a space, which is what the source says of them |
| FallbackCounts.KeyCountsTriple | gateway/src/auth-fallback-count-tracker.ts:46-112 | With space-free guards and paths, what is conserved per key is what was counted per triple |
| FallbackCounts.WindowsTile | gateway/src/auth-fallback-count-tracker.ts:55-65 | The windows of the shipped batches follow each other without gap or overlap from the start on |
| FallbackCounts.AuthFallbackCountTracker.AddCount | gateway/src/auth-fallback-count-tracker.ts:89-112 | An entry is bumped in place, a new one refused at the cap |
| FallbackCounts.AuthFallbackCountTracker.DrainCounts | gateway/src/auth-fallback-count-tracker.ts:55-65 | Everything is handed out and the window restarts, unless there is nothing |
| FallbackCounts.AuthFallbackCountTracker.MergeCounts | gateway/src/auth-fallback-count-tracker.ts:71-75 | The loop adds every count back |
| FallbackCounts.AuthFallbackReporter.Flush | gateway/src/auth-fallback-reporter.ts:90-92 | An empty drain sends nothing |
| FallbackCounts.AuthFallbackReporter.FlushSettled | gateway/src/auth-fallback-reporter.ts:106-133 | Delivered counts are gone, any failure merges them back |
| AuthRateLimiter.BlockedExactlyWhenHistorySays | gateway/src/auth-rate-limiter.ts:22-79 | With a non-decreasing clock, `isBlocked` holds if and only if the complete failure history since the last `clearIp` has at least `maxFailures`, and at least one, failures newer than now - window, unless the address was dropped at the hard cap; it never blocks on fewer, dropped or not |
| AuthRateLimiter.StateRefinesLog | gateway/src/auth-rate-limiter.ts:22-79 | With a non-decreasing clock: the time stamps kept for an address are the end of its history, and unless the address was dropped at the cap what is missing has expired |
| AuthRateLimiter.TrackedIpsBounded | gateway/src/auth-rate-limiter.ts:22-40 | The number of tracked addresses never exceeds the cap |
| AuthRateLimiter.CapDropsOldest | gateway/src/auth-rate-limiter.ts:26-34 | An address is dropped with failures in the window only when a new one fails while at least 50000 are tracked that all have some, and then it is the first inserted of those; so "dropped" in the rows above excuses nothing else |
| AuthRateLimiter.BelowCapNoneIsLost | gateway/src/auth-rate-limiter.ts:22-40 | With fewer than 50000 tracked, recording a failure leaves every other address as it was |
| AuthRateLimiter.Limiter.RecordFailure | gateway/src/auth-rate-limiter.ts:22-40 | Room is made only for a new address |
| AuthRateLimiter.Limiter.EvictForOne | gateway/src/auth-rate-limiter.ts:26-34 | Stale addresses go first, then the oldest |
| AuthRateLimiter.Limiter.IsBlocked | gateway/src/auth-rate-limiter.ts:43-61 | The shift loop drops the expired front and forgets an empty address |
| AuthRateLimiter.Limiter.ClearIp | gateway/src/auth-rate-limiter.ts:64-66 | The history of the address is gone |
| Throttle.AnswersAreSpaced | gateway/src/auth-fallback-log-throttle.ts:25-53 | With a non-decreasing clock, two true answers for a key lie at least a cooldown apart unless a call for another key cap-evicted its live stamp in between |
| Throttle.SilenceHasCause | gateway/src/auth-fallback-log-throttle.ts:25-32 | Every false answer has an earlier true one for its key within the cooldown |
| Throttle.StampsComeFromAnswers | gateway/src/auth-fallback-log-throttle.ts:25-53 | Every stamp in the map was left by a true answer at that time |
| Throttle.ValveRemovesOldest | gateway/src/auth-fallback-log-throttle.ts:36-50 | At the cap: expired stamps are purged; with none expired exactly one entry goes, the smallest stamp, which in a map in time order is the first inserted |
| Throttle.CapEvictsEarliest | gateway/src/auth-fallback-log-throttle.ts:36-50 | A stamp is lost within its cooldown only when a call finds 10000 other keys all within theirs, and no other stamp is earlier |
| Throttle.BelowCapNoneIsLost | gateway/src/auth-fallback-log-throttle.ts:36-50 | Below 10000 keys a call leaves the stamps of all other keys alone |
| Throttle.Reachable | gateway/src/auth-fallback-log-throttle.ts:25-53 | With a non-decreasing clock the map is always in time-stamp order and within the cap |
| Throttle.SizeIsBounded | gateway/src/rejection-rate-limiter.ts:16-52 | The size bound holds for any clock |
| Throttle.SortOfOrdered | gateway/src/rejection-rate-limiter.ts:38-48 | Sorting a map in time order changes nothing, so the sort and the insertion order agree |
| Throttle.CooldownThrottle.ShouldSpeak | gateway/src/rejection-rate-limiter.ts:16-52 | Silent within the cooldown, else the key moves to the end with a new stamp |
| Throttle.CooldownThrottle.Relieve | gateway/src/auth-fallback-log-throttle.ts:36-50 | Nothing is removed below the cap |
| Throttle.CooldownThrottle.DropOldest | gateway/src/rejection-rate-limiter.ts:38-48 | The sorted front is deleted in a loop until one more fits |
| InstallOrder.OrderFileDeps | apps/macos/scripts/install-file-deps.ts:51-67 | Ends on every finite graph; succeeds if and only if every package reachable from the root has a readable manifest and none lies on a cycle, and then yields every reachable package but the root once, each after all its own dependencies; a reported cycle or unreadable package is real and reachable |
| InstallOrder.Walk.Visit | apps/macos/scripts/install-file-deps.ts:55-65 | The recursive visit keeps `done`, `visiting` and `ordered` consistent and reports only real cycles |
| InstallOrder.NoCycleInOrder | apps/macos/scripts/install-file-deps.ts:51-67 | Nothing in a dependencies-first order lies on a cycle |
| InstallOrder.PathsDescend | apps/macos/scripts/install-file-deps.ts:51-67 | Along any path the position in such an order strictly falls |
| InstallOrder.ClosedHoldsReachable | apps/macos/scripts/install-file-deps.ts:51-67 | A set closed under dependencies holds everything reachable from its members |
| DiffParser.ReportIsExact | scripts/check-generic-examples.ts:149-195 | For any diff against a new tree, over any number of files and hunks: the parser reports exactly the added lines of followed files in order, under their true new-file numbers, with the line above whenever the diff has shown it and else "", if and only if no added text starts with "++" |
| DiffParser.TrapIsLost | scripts/check-generic-examples.ts:158-186 | Concrete diff: a new line "++x" is missing from the report |
| DiffParser.ReportedLinesAreTrue | scripts/check-generic-examples.ts:149-195 | Then every reported content is the line of the new tree at the reported number, and every non-empty predecessor the line above it |
| DiffParser.PreviousContentIsLineAbove | scripts/check-generic-examples.ts:123-195 | For a diff whose hunks beyond line 1 lead in with context, as `--unified=1` makes them (lines 257-281), and without an added "++": the `previousContent` of every reported line above 1 is exactly the preceding line of the new file |
| DiffParser.ReportsOnlyPlain | scripts/check-generic-examples.ts:175-192 | Whatever the added texts are, the parser never reports more lines than the diff adds without a leading "++" |
| DiffParser.ReportsEveryAddition | scripts/check-generic-examples.ts:149-195 | The specified report has one entry per added line of a followed file |
| DiffParser.ParsesInStep | scripts/check-generic-examples.ts:157-193 | Line by line, file, number, recorded context and report agree with the diff |
| DiffParser.ReadRenderedHunk | scripts/check-generic-examples.ts:167-169 | The number read from a hunk header is the new-file start it was printed from, with lengths given or omitted |
| DiffParser.StepRendered | scripts/check-generic-examples.ts:158-192 | What each kind of diff line does to the parser |
| DiffParser.ParseRendered | scripts/check-generic-examples.ts:156-157 | Splitting the text at newlines gives the rendered lines back |
| DiffParser.ParseUnifiedDiff | scripts/check-generic-examples.ts:149-195 | The loop with its mutable variables computes the fold the theorems are about, for every string |
| EmojiSearch.SearchEmoji | scripts/generate-emoji-catalog.ts:280-312 | For a non-empty query the two-pass four-bucket search returns the first `limit` entries of the stable sort by rank of all matching entries, also when shortcodes repeat; an empty query the head of the catalog |
| EmojiSearch.BucketsAreTheSort | scripts/generate-emoji-catalog.ts:282-311 | The four buckets in a row are that stable sort |
| EmojiSearch.SortIsStable | scripts/generate-emoji-catalog.ts:277-311 | The reference sort permutes, orders by rank and keeps the catalog order within a rank |
| EmojiSearch.EachShortcodeAtMostOnce | scripts/generate-emoji-catalog.ts:276-311 | For every catalog without repeated shortcodes, every query and every limit, each shortcode appears at most once in the result |
| EmojiSearch.ResultRepeatsLikeCatalog | scripts/generate-emoji-catalog.ts:276-311 | For a non-empty query the result repeats no shortcode at any limit if and only if the matching entries repeat none |
| EmojiSearch.FoundExactly | scripts/generate-emoji-catalog.ts:280-311 | Unlimited, the result holds exactly the catalog entries whose shortcode or some alias contains the query |
| EmojiSearch.FoundInOrder | scripts/generate-emoji-catalog.ts:286-311 | At any limit: shortcodes that start with the query come before those that contain it, those before aliases that start with it, and those before aliases that contain it |
| EmojiSearch.LimitCuts | scripts/generate-emoji-catalog.ts:280-312 | A limit keeps that many of the first entries; a negative one drops as many of the last |
| EmojiSearch.ShortcodePass | scripts/generate-emoji-catalog.ts:287-296 | The first pass fills the buckets of rank 0 and 1 and remembers exactly the shortcodes that matched |
| EmojiSearch.AliasPass | scripts/generate-emoji-catalog.ts:297-310 | The second pass fills the buckets of rank 2 and 3 and skips only entries already ranked |
| EmojiSearch.ScanAliases | scripts/generate-emoji-catalog.ts:299-307 | The inner loop, which stops at the first prefix, still finds both facts it is asked for |

## Left out

- FlagSync.NoSyncIsDropped: speaks of the last fetch of the loop, not of the flag store afterwards, because an older poll in flight may still write after it.
- FlagSync.NoStall: for one `start` per object; restarts are covered by `RestartIsSafeExactly` and the counterexample.
- ManagedSessions.CallsSeeOwnSession: what the refs hold when a handler is called; a handler that reads them again after a suspension sees their values at that time, which may be a later session's.
- ManagedSessions.EmptyAtSessionStart: which handlers record grants, and when, is left open: any session made so far may record or drop any grant at any time.
- CredentialWatcher.ConsumerHoldsLastFinishedPoll: up to equality of the serialised credentials, which is what the code compares.
- CredentialWatcher.NoRequestIsLost: a debounce restarted for ever keeps its poll due for ever; fairness of timers is not modelled.
- Throttle.CooldownThrottle.ShouldSpeak: one class stands for `AuthFallbackLogThrottle.shouldLog` and `RejectionRateLimiter.shouldSend`, which differ in the cooldown and in where the clock is read.
- DiffParser.ReportIsExact: numbers are unbounded, so line numbers beyond 2^53 are not rounded; headers that name no `b/` file (deleted or quoted names) are covered, provided no text added under them completes a `+++ ` line; combined diffs (`@@@`) are not.
- InstallOrder.OrderFileDeps: a manifest that cannot be read is an error value; path resolution and the spawning of the installs (lines 68-80) are left out.
- FallbackCounts.DoubleCountedExactly: a batch is stored whole or not at all, at most once per POST, before any accepting answer; amounts dropped at the key cap are not due, and the daemon's own opt-out is not modelled.
- EmojiSearch.SearchEmoji: `toLowerCase` is a parameter; how the catalog is built is left out.
- Every synchronous call takes one clock reading, passed in as `now`; statements that need a non-decreasing clock say so.
- Network, files, subprocesses, JSON and schema validation, logging and UTF-8 decoding are events, parameters or left out; framing is about strings.
- In `FlagSync` fetch outcomes are nondeterministic, so the "has authed successfully" guard, flag normalisation and the flag store do not appear; `FlagRestart.CanCome` ties them to the credential reads. Whether a timer fires when it is due is not modelled, except that the shown runs keep to it.
- The handler registry is a predicate on method names; prototype lookups on the registry object are not modelled.
- `refreshNow`, cleanup timers (a sweep is an event), `handleNewCommand`, `isNewCommand`, tracker `snapshot` and `reset`, and the reporter's timer would only add easy members.
- The managed bootstrap polling of the credential watcher appears only as direct poll requests.
- The pattern scan, suppression and commit-message parts of the generic-examples check are library regular expressions.
