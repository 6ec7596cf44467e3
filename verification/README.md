# little-gate, modelled and proved

little-gate is a gateway in front of language-model providers. This project models the parts of it
whose correctness depends on interleavings, byte positions or bookkeeping, and proves what they
promise:

- **Sign-in sessions** (`OAuthSessions`, `OAuthProtocol`, `OAuthAnswers`): the session table of the
  Codex sign-in manager as a class, every interleaving of starts, polls, callbacks, cancellations,
  saves, expiry and pruning as runs of a state machine whose steps are the code's critical sections,
  and what each of them does in every reachable state.
- **The refresh lease** (`AccountStore`, `RefreshLease`, `TokenHistory`, `TokenStarts`,
  `TokenOutcomes`, `TokenRuns`): the database rows as a class whose methods are single statements or
  transactions, any number of gateways refreshing tokens against them while administrators edit keys,
  and which write the stored tokens of a key come from.
- **In-place JSON rewriting** (`JsonText`, `IncludeUsage`, `IncludeUsageCorrect`,
  `IncludeUsageMeaning`): the byte scanners that find a member and splice `include_usage` in, proved
  against a concrete syntax tree that keeps every byte of white space (RFC 8259, sections 2 to 7).
- **Circuit breaker and retry budget** (`Resilience`, `HealthBook`, `BreakerProtocol`,
  `AttemptBudget`): generation-stamped attempts, a single probe, capped exponential cooldown, and a
  bounded number of attempts per request.
- **Session affinity** (`AffinityBook`, `AffinityRuns`): a bounded sliding-expiry map that refines the
  history of its bindings, which never forgets, and what any sequence of calls may conclude from its
  answers.
- **Request overrides** (`JsonTree`, `RequestOverrides`, `OverrideRules`, `OverridePaths`,
  `Templates`): validation and application of path edits to JSON bodies, what a path text spells and
  what a template in a value becomes.
- **Prices** (`Pricing`, `PriceCatalogue`, `TierKeys`, `PriceStorage`, `CatalogueMerge`): sparse
  overrides in key names compiled to cumulative tiers, tier selection and cost, the stored form,
  duplicate names and aliases.
- **Encrypted-content recovery** (`EncryptedContent`, `SanitizedItems`, `RecoveryRuns`): cleaning a
  body, the book of rejected digests, and what every sequence of calls of one request among others may
  strip and does.
- **The form encoder with its query reader** (`FormCodec`, `QueryText`, `Unicode`).

Code that updates state is a method or a class here, with its effect tied to a function on values;
the properties are lemmas about those functions, over every input and every run. What such a function
computes is stated once more without it: by what the history of a run shows, by printers and
spellings of the texts it reads, or by the members and numbers a value shows. Time is a parameter
of each step (the protocols take a clock that does not run backwards where they need one), identifiers
of sessions and refresh attempts are fresh, and hashes are injective.

Where the code does not keep a promise on all inputs, the exact condition is proved instead, and a
lemma at a concrete input shows that the failing side happens:

- The usage rewrite looks for raw key bytes. A `stream_options` that is not an object is the one thing
  it refuses (`RefusesExactly`); `{"stream":true,"stream_options":null}` is such a request
  (`NullOptionsRefused`). Of all others the output names each of the two members once exactly when the
  request spells them without escapes (`SpellingDecides`). The request `{"stream":true,"stream\u005foptions":{}}` comes out with two of them (`EscapedNameFails`).
- The query reader does not unescape keys. Every key is read back with its first non-empty value
  exactly when each key that has one is made of unreserved characters (`QueryUndoesForm`); `a[b]` is
  lost (`BracketKeyIsLost`).
- Remembering digests in a full deque can drop one of them, depending on the order a hash set hands
  them out. No order does exactly when the overflow leaves the front of the deque free of them
  (`RememberKeepsAll`); `FullDequeForgets` shows an order that loses one and an order that does not.
- A stored price card reads back exactly when its thresholds are positive and increasing
  (`StoredCardReadsBack`), as those of compiled cards are (`CardMeansRow`). The law asks of the decimal
  spelling only that it keeps the card's own numbers, and every card has such a spelling
  (`SpellingExists`); a card with falling thresholds is lost (`FallingThresholdsAreLost`).
- A written login need not complete: the save can be reported as an error, a late callback can expire
  the session, or pruning can drop it (`WrittenOutcomes`, `SavedThenCompletedOrExpired`);
  `LateCallbackExpiresWritten` is a run from the empty manager that ends so.
- The account is loaded before the lease is taken, and a response without a refresh token stores the
  loaded one again. An attempt refreshes with the stored refresh token exactly when the history leads
  from its load and from now to the same write (`RefreshesWithStoredCredentialsExactly`). No write
  since the load is enough, and where every kept token was loaded after the last new one the condition
  is that no new one has come since the load (`RotationDecides`). `StaleRefreshHappens` is a run in
  which another attempt's write makes a holder's token stale if it rotated and does not if it kept the
  token; `OldTokenComesBack` is one in which a kept token replaces a newer one, so that the simpler
  condition fails there.
- An edit of a key that only renames it writes back the secret it had read. Access token and refresh
  credentials of a key belong together exactly when the history leads from the stored secret to the
  key's last write (`PairedExactly`). They do unless an edit that had read the key before that write
  landed after it, and when edits of a key do not overlap this is exact (`PairedUnlessPutBack`).
  `RenamePutsOldTokenBack` is a run that leaves an old access token beside new credentials;
  `OverlappingEditRestores` one in which a second, overlapping edit repairs that.

## Model

| member | source | states |
|---|---|---|
| OAuthSessions.CodexOAuthManager.PruneSessions | backend/src/codex_oauth.rs:1382-1394 | keeps exactly the sessions within their tombstone period, a Pending one counted from its deadline |
| OAuthSessions.CodexOAuthManager.ReserveStartingTarget | backend/src/codex_oauth.rs:1308-1330 | reserves a (provider, replaced key) target unless a start or a Pending session already has it |
| OAuthSessions.CodexOAuthManager.ReleaseStartingTarget | backend/src/codex_oauth.rs:1173-1193 | dropping an armed start guard frees its target and touches no session |
| OAuthSessions.CodexOAuthManager.CommitSession | backend/src/codex_oauth.rs:1264-1296 | the new Pending session enters the table and gives its reservation back in one step |
| OAuthSessions.CodexOAuthManager.GetSession | backend/src/codex_oauth.rs:1332-1351 | a poll expires an overdue Pending session, changes no other record, and returns what the table then shows |
| OAuthSessions.CodexOAuthManager.CancelSession | backend/src/codex_oauth.rs:1353-1373 | cancels a Pending session unless its save has passed the gate; says whether the session exists |
| OAuthSessions.CodexOAuthManager.FindByState | backend/src/codex_oauth.rs:1445-1463 | returns a browser session with that state, and none only if there is none |
| OAuthSessions.CodexOAuthManager.ClaimBrowserCallback | backend/src/codex_oauth.rs:1438-1566 | every rejection of a callback in the code's order, the expiry of an overdue session, and the single-use claim |
| OAuthSessions.CodexOAuthManager.MarkSessionStage | backend/src/codex_oauth.rs:1810-1821 | moves the stage of a live session only and reports whether the session was cancelled |
| OAuthSessions.CodexOAuthManager.MarkSessionError | backend/src/codex_oauth.rs:1823-1842 | ends a live session with an error, once |
| OAuthSessions.CodexOAuthManager.MarkSessionCompleted | backend/src/codex_oauth.rs:1844-1864 | completes a live session with the key its login went to, once |
| OAuthProtocol.StepKeepsInv | backend/src/codex_oauth.rs:1204-1864 | the inductive invariant: records consistent, targets unique, codes handed out once, tasks right about their session, writes and cancellations disjoint |
| OAuthProtocol.EveryRun | backend/src/codex_oauth.rs:1204-1864 | the invariant holds after every sequence of events from the empty manager |
| OAuthProtocol.CancelledNeverWritten | backend/src/codex_oauth.rs:1683-1741 | in no interleaving is a login written for a session that is cancelled before or after; the table shows Cancelled for exactly the cancelled sessions |
| OAuthProtocol.OneSignInPerTarget | backend/src/codex_oauth.rs:1308-1330 | live reservations plus Pending sessions of a target never exceed one, and a start is refused exactly when there is one |
| OAuthProtocol.TerminalForever | backend/src/codex_oauth.rs:1810-1864 | a terminal record never changes again, to the last field, and a pruned session never returns |
| OAuthProtocol.RecordsAgree | backend/src/codex_oauth.rs:1113-1132 | terminal status, Finished stage and terminal time coincide; a key exactly when Completed, and it is the key the login was saved under |
| OAuthProtocol.CodeHandedOutOnce | backend/src/codex_oauth.rs:1516-1566 | the authorization code of a browser session is handed out at most once over a whole run |
| OAuthProtocol.WrittenOutcomes | backend/src/codex_oauth.rs:1724-1765 | all that can become of a Pending session whose login is written: completion with that key, failure when the landed save was reported as an error, expiry by a late callback, or pruning |
| OAuthProtocol.SavedThenCompletedOrExpired | backend/src/codex_oauth.rs:1504-1515 | from every reachable state a callback in time can be saved and completed; a repeated callback after the deadline expires the same session although its login is written |
| OAuthProtocol.LateCallbackExpiresWritten | backend/src/codex_oauth.rs:1504-1515 | a concrete run from the empty manager: started, answered, saved, and expired by the same callback at the deadline, with the login written |
| OAuthProtocol.TableMoves | backend/src/codex_oauth.rs:1332-1566 | an event about one session changes that record only, never its target, and never a terminal record |
| OAuthAnswers.PollExpiresExactly | backend/src/codex_oauth.rs:1332-1351 | in every run a poll expires a Pending session if and only if its deadline has come and it is not Finalizing, with code and time, and changes nothing else; no login is or will be written for a session expired so |
| OAuthAnswers.CancelEndsExactly | backend/src/codex_oauth.rs:1353-1373 | a cancellation ends a session as Cancelled if and only if it is Pending and not Finalizing; no login is or will be written for it |
| OAuthAnswers.CallbackAnsweredExactly | backend/src/codex_oauth.rs:1465-1566 | the code is handed out if and only if the session is Pending, in time, not answered yet and waits for this very state, and the callback brings a code and no error |
| OAuthAnswers.CallbackRefused | backend/src/codex_oauth.rs:1465-1566 | every other callback expires the session it is too late for, fails the one it brings an error for, or has no effect; with another state it never has any |
| OAuthAnswers.CallbackRejections | backend/src/codex_oauth.rs:1438-1566 | what each reason for refusing a callback says about the session |
| OAuthAnswers.CommitShows | backend/src/codex_oauth.rs:1264-1296 | a committed start shows a Pending session for the target it had reserved and gives the reservation back |
| OAuthAnswers.PruneForgetsExactly | backend/src/codex_oauth.rs:1382-1394 | a session is forgotten if and only if 300 s have passed since it ended or, if Pending, since its deadline |
| OAuthAnswers.DeviceReadyShows | backend/src/codex_oauth.rs:1592-1640 | an approved device sign-in goes on Exchanging if and only if its session is still Pending; else its task ends |
| OAuthAnswers.OverdueNeverWritten | backend/src/codex_oauth.rs:1683-1699 | a task that finds the deadline past at the check inside the gate never saves, whatever follows |
| OAuthAnswers.FailureShows | backend/src/codex_oauth.rs:1823-1842 | a failing task ends its session with its code if that is still Pending, and no other record changes |
| OAuthAnswers.CompletionShows | backend/src/codex_oauth.rs:1844-1864 | after a save a session that is still Pending is Finalizing and completes with the key of its login; an ended one stays as it is |
| AccountStore.Database.TryAcquireRefreshLease | backend/src/codex_oauth.rs:402-445 | takes the lease when it is free, expired or already the caller's, and changes nothing otherwise |
| AccountStore.LeaseExcludes | backend/src/codex_oauth.rs:402-476 | a lease keeps every other owner out until its time and not a moment longer; its owner may renew it and give it up, no one else can |
| AccountStore.Database.ReleaseRefreshLease | backend/src/codex_oauth.rs:447-476 | clears the lease of its own owner only |
| AccountStore.Database.PersistTokenRefresh | backend/src/codex_oauth.rs:482-578 | writes the new secret, the refresh token brought or kept, and the status, and drops the lease, in one transaction and only for the lease's owner |
| AccountStore.Database.UpdateUpstreamKey | backend/src/db.rs:1419-1466 | an edit stores the secret it was given with the other columns, whatever the key holds by then, and touches no account |
| AccountStore.Database.UpdateAuthStatus | backend/src/codex_oauth.rs:580-613 | sets the status of that account and nothing else |
| AccountStore.Database.SaveLogin | backend/src/codex_oauth.rs:783-969 | which key a login goes to, exactly when it is refused, that refusal changes nothing, and that one account stays attached to one key |
| RefreshLease.StepKeepsInv | backend/src/codex_oauth.rs:1894-2062 | every event of any gateway keeps the store consistent and every attempt's view of it right |
| RefreshLease.EveryRun | backend/src/codex_oauth.rs:1894-2062 | the invariant holds after every interleaving, from every start with consistent tables and any leases already held by living attempts |
| RefreshLease.LeaseTakenExactly | backend/src/codex_oauth.rs:402-445 | in every run an attempt gets the lease if and only if nobody took it, the last to touch the key gave it up or wrote, or the time it was taken until has come; a refusal changes nothing |
| RefreshLease.LoginsAndStatuses | backend/src/codex_oauth.rs:580-613 | a login leaves its account active with new tokens and no lease, setting a status changes that status, and neither touches another row |
| RefreshLease.WritesAreFenced | backend/src/codex_oauth.rs:482-578 | a refresh write lands only with nothing on its key between its own acquisition and it |
| RefreshLease.PersistWritesExactly | backend/src/codex_oauth.rs:482-578 | the persist of a holder writes exactly when no acquisition, login or write touched the key since it took the lease, edits of the key aside; what it then stores with and without a new refresh token; else the tables stay as they are |
| RefreshLease.OneWritePerAcquisition | backend/src/codex_oauth.rs:1929-2058 | each acquisition yields at most one credential write |
| RefreshLease.WritesFollowAcquisitions | backend/src/codex_oauth.rs:1929-2058 | the writes of a key land in the order its leases were acquired |
| RefreshLease.OneKeyPerAccount | backend/src/codex_oauth.rs:838-864 | in every reachable store an account is attached to one key, which exists |
| TokenHistory.TokensStep | backend/src/codex_oauth.rs:1894-2062 | after every event each stored token, and each one an attempt or an edit holds, is the one the history calls for: followed through kept refresh tokens to their load and through edits to their read |
| TokenHistory.EveryRunKeepsTokens | backend/src/codex_oauth.rs:1894-2062 | so they are after every interleaving of refreshes, logins and edits, from every start whose own tokens are numbered so |
| TokenStarts.EveryStoreStarts | backend/src/codex_oauth.rs:402-445 | runs may start from every consistent store whose two lease columns are set together, whatever leases it holds and whether or not its tokens belong together, with the owners as attempts that may still write |
| TokenOutcomes.PairedExactly | backend/src/admin.rs:3355-3427 | access token and refresh credentials of a key belong together if and only if the history leads from the stored secret to the last write, or they did so at the start and there was none |
| TokenOutcomes.PairedUnlessPutBack | backend/src/admin.rs:3355-3427 | they do as long as no edit has landed after the last write that had read before it; with edits of the key one at a time, if and only if |
| TokenRuns.RenamePutsOldTokenBack | backend/src/admin.rs:3366-3420 | a concrete run: a rename reads the key, a refresh writes, the rename lands, and the old access token stands beside the new credentials |
| TokenRuns.OverlappingEditRestores | backend/src/admin.rs:3366-3420 | the same run with a second edit that read in between and lands last: the tokens belong together although the first edit put the old one back |
| TokenOutcomes.RefreshesWithStoredCredentialsExactly | backend/src/codex_oauth.rs:1903-1930 | an attempt holds the stored refresh token if and only if the history leads from its load and from now to the same write |
| TokenOutcomes.RotationDecides | backend/src/codex_oauth.rs:2009-2026 | no write since the load is enough; if and only if no new refresh token came since the load, where every kept one had been loaded after the last new one |
| TokenRuns.StaleRefreshHappens | backend/src/codex_oauth.rs:1903-1930 | a concrete run that ends with an attempt holding the lease after another's write, its refresh token stale if that write rotated and current if not |
| TokenRuns.OldTokenComesBack | backend/src/codex_oauth.rs:2009-2012 | a concrete run in which a kept refresh token replaces a newer one, so that an attempt is stale although no new token came since its load |
| IncludeUsage.ScanJsonValueEnd | backend/src/openai.rs:325-408 | the scanning loop computes the end of a value as the specification scanner does |
| IncludeUsage.FindObjectKeyValueSpan | backend/src/openai.rs:110-323 | the search loop, with its depth count and in-string skipping, finds the first depth-one key that a colon follows |
| IncludeUsage.FindRootObjectEnd | backend/src/openai.rs:98-108 | the index of a closing brace at the end, trailing white space aside |
| IncludeUsage.InjectIncludeUsageIntoObject | backend/src/openai.rs:410-440 | puts the member first in an object and refuses anything else |
| IncludeUsage.EnsureIncludeUsage | backend/src/openai.rs:38-96 | the three ways of rewriting, the two of passing through and the error, as a function of bytes and decoded header |
| IncludeUsageCorrect.StringSkips | backend/src/openai.rs:340-350 | reading a well-formed string body from its start, escapes and all, leads to its closing quote and not before |
| IncludeUsageCorrect.ValuePasses | backend/src/openai.rs:325-408 | counting brackets over any well-formed value, nested or with brackets in strings, leaves the depth as it was |
| IncludeUsageCorrect.ValueEndsExactly | backend/src/openai.rs:325-408 | the scanner stops exactly at the end of any well-formed value |
| IncludeUsageCorrect.SearchMembers | backend/src/openai.rs:219-323 | the search passes every member with another key, whatever its value holds, and stops at the wanted one |
| IncludeUsageCorrect.KeySearchExact | backend/src/openai.rs:110-217 | the span returned is that of the root member with these key bytes, never of a nested key or a string value, and none exactly when there is no such member |
| IncludeUsageCorrect.ReplaceIsSplice | backend/src/openai.rs:69-76 | splicing a new value over a member's span yields the text of the tree with that member replaced |
| IncludeUsageCorrect.SpliceObject | backend/src/openai.rs:55-77 | the same for a whole document, every other byte kept |
| IncludeUsageMeaning.InjectRewrites | backend/src/openai.rs:410-440 | injected bytes are the text of the object with include_usage as its first member, the rest unchanged |
| IncludeUsageMeaning.AppendOptions | backend/src/openai.rs:79-95 | a missing stream_options is appended after the last member, with a comma exactly when there is one |
| IncludeUsageMeaning.EditOptions | backend/src/openai.rs:55-77 | an existing stream_options is edited in place |
| IncludeUsageMeaning.EnsureRewrites | backend/src/openai.rs:38-96 | for every well-formed object with usable options the bytes written are the text of the edited tree |
| IncludeUsageMeaning.RefusesExactly | backend/src/openai.rs:38-96 | a streaming request is refused if and only if its stream_options is there and is no object |
| IncludeUsageMeaning.NullOptionsRefused | backend/src/openai.rs:38-96 | a concrete request, plainly spelled and accepted by the decoder, whose null stream_options is refused |
| IncludeUsageMeaning.OtherRootsUntouched | backend/src/openai.rs:98-108 | a body whose root is no object passes through byte for byte |
| IncludeUsageMeaning.UsageOnMeans | backend/src/openai.rs:38-96 | the edited tree is well formed, differs in include_usage alone, and editing it again changes nothing |
| IncludeUsageMeaning.SpellingDecides | backend/src/openai.rs:110-323 | for every request that is not refused, the output names each member once with include_usage true if and only if the request spelled the names without escapes |
| IncludeUsageMeaning.EscapedNameFails | backend/src/openai.rs:110-217 | a concrete request whose escaped stream_options, an object or null, makes the output name that member twice |
| IncludeUsageMeaning.StreamingRequestKeepsItsMembers | backend/src/openai.rs:38-96 | a plainly spelled streaming request comes out well formed with the same other members and include_usage true, and a second pass changes no byte |
| Resilience.CooldownIsCapped | backend/src/resilience.rs:11-15 | the wait is the base doubled per failure, capped, and saturation never shows |
| Resilience.CooldownBounds | backend/src/resilience.rs:11-15 | at least 30 s and the configured duration, at most the larger of 300 s and that duration |
| Resilience.CooldownMonotone | backend/src/resilience.rs:11-15 | never shorter after more failures or for a longer configured duration |
| Resilience.CooldownDoubles | backend/src/resilience.rs:11-15 | each further failure doubles the wait until the cap |
| Resilience.CooldownSchedule | backend/src/resilience.rs:11-15 | without a configured duration: 30, 60, 120, 240 and then 300 seconds |
| HealthBook.RuntimeHealthBook.constructor | backend/src/health.rs:114-121 | threshold at least one, duration at least one millisecond, nothing recorded |
| HealthBook.RuntimeHealthBook.TryBeginAttempt | backend/src/health.rs:131-160 | refuses while open or while a probe is owned, hands a half-open breaker to one probe |
| HealthBook.RuntimeHealthBook.FinishNeutral | backend/src/health.rs:162-170 | a dropped attempt gives its probe back and decides nothing |
| HealthBook.RuntimeHealthBook.FinishSuccess | backend/src/health.rs:172-208 | a current success closes the breaker and starts a new generation; a stale one counts only |
| HealthBook.RuntimeHealthBook.FinishFailure | backend/src/health.rs:210-249 | a current failure opens the breaker for the cooldown; a stale one counts only |
| HealthBook.RuntimeHealthBook.ResetId | backend/src/health.rs:251-259 | closes the breaker and invalidates every attempt outstanding |
| HealthBook.RuntimeHealthBook.DeferUntil | backend/src/health.rs:261-266 | keeps the breaker open until the later of the two times |
| HealthBook.ResetProviderCircuit | backend/src/admin.rs:2707-2760 | all endpoints and keys of a provider restart, keys with an exhausted quota stay shut until it returns, no other breaker moves |
| BreakerProtocol.StepKeepsInv | backend/src/health.rs:131-380 | tokens are bounded by the counters, distinct where current, and a probe owner is a living attempt |
| BreakerProtocol.RunKeepsInv | backend/src/health.rs:131-380 | the invariant holds in every interleaving of begins, results, drops, resets and deferrals |
| BreakerProtocol.OneProbeDecides | backend/src/health.rs:359-380 | while open-until is set at most one outstanding token is current, and it is a probe that began after the wait |
| BreakerProtocol.RefusedExactly | backend/src/health.rs:131-160 | an attempt is refused exactly during the wait or while a living attempt holds the probe: no run shuts the breaker for ever |
| BreakerProtocol.SuccessCloses | backend/src/health.rs:172-208 | after every run a current success ends the wait and the count of failures, a probe's makes all tokens so far stale, and every attempt that asks later is admitted until a current failure or a deferral, whatever is outstanding |
| BreakerProtocol.ResetCloses | backend/src/health.rs:251-259 | the same after a reset, which makes all tokens so far stale |
| BreakerProtocol.DeferralStores | backend/src/health.rs:261-266 | a deferral stores the later of its time and a stored wait and makes all tokens so far stale |
| BreakerProtocol.TotalsCount | backend/src/health.rs:172-249 | over every run the totals count each result reported for a living attempt once, current or stale |
| BreakerProtocol.RunWaits | backend/src/health.rs:131-266 | a stored wait outlasts every later event but a reset |
| BreakerProtocol.StaleResultIsADrop | backend/src/health.rs:172-249 | in every continuation, a result whose token is no longer current leaves the breaker as if the attempt had been dropped, the totals aside |
| BreakerProtocol.FailureOpens | backend/src/health.rs:210-249 | after every run a current failure counts one more, makes every token handed out so far stale, and stores exactly the wait: 30 s or the configured duration from the threshold on or after a probe, doubled per failure before it, capped |
| BreakerProtocol.FailureKeepsAttemptsOut | backend/src/health.rs:210-249 | after a current failure no attempt begins before the stored wait is over, in any interleaving without reset |
| BreakerProtocol.DeferralKeepsAttemptsOut | backend/src/health.rs:261-266 | the same after a deferral, which never shortens a wait |
| BreakerProtocol.WaitsNeverShorten | backend/src/health.rs:236-248 | over whole runs, of two current failures with no current success and no reset between them the later starts the longer wait or an equal one |
| AttemptBudget.RetryBudget.ProviderAvailable | backend/src/resilience.rs:47-53 | whether a provider has sends left of its maximum, taken as at least one |
| AttemptBudget.RetryBudget.NoteSend | backend/src/resilience.rs:55-57 | counts one send for that provider |
| AttemptBudget.RetryBudget.CreditConnectedSetup | backend/src/resilience.rs:71-73 | gives one credit, which does not add up |
| AttemptBudget.RetryBudget.Begin | backend/src/resilience.rs:82-100 | grants an attempt when one is left and the pause fits before the deadline; spends the credit either way |
| AttemptBudget.RetryBudget.BeginTurn | backend/src/resilience.rs:75-80 | spends a credit instead of an attempt, if there is one |
| AttemptBudget.RetryBudget.BeginForProvider | backend/src/resilience.rs:59-69 | refuses a provider at its maximum without spending anything |
| AttemptBudget.StepKeepsInv | backend/src/resilience.rs:47-100 | every call keeps counts, pauses, deadline, credits and per-provider sends in bounds |
| AttemptBudget.RunKeepsInv | backend/src/resilience.rs:47-100 | the bounds hold after every sequence of calls |
| AttemptBudget.GrantsAreBounded | backend/src/resilience.rs:82-100 | at most three counted grants, 500 ms and 1000 ms apart at least, uncounted ones no more than credits, and no grant of either kind at or past the deadline |
| AttemptBudget.ProviderSendsAreBounded | backend/src/resilience.rs:47-69 | no provider is sent to more often than the larger of one and its maximum, for a caller with fixed limits who notes one send after each counted grant for a provider |
| AttemptBudget.GrantedExactly | backend/src/resilience.rs:82-100 | after every sequence of calls an attempt is granted if and only if fewer than three were, and the pause of 500 or 1000 ms with its jitter and the wake-up are before the deadline |
| AttemptBudget.TurnGrantedExactly | backend/src/resilience.rs:75-80 | a turn spends a credit if there is one and is then granted exactly before the deadline, else it is like any attempt |
| AttemptBudget.ProviderGrantedExactly | backend/src/resilience.rs:59-69 | a provider sent to as often as its maximum is refused without spending anything, any other is like any attempt |
| AttemptBudget.SendsAreCounted | backend/src/resilience.rs:55-57 | a provider's count is the number of sends noted for it |
| AttemptBudget.ThreeAttemptsFit | backend/src/resilience.rs:82-100 | a request with time for the pauses gets its three attempts, however the jitter falls, and no fourth |
| AffinityBook.EnsureCapacity | backend/src/affinity.rs:493-530 | when the map is full, drops all that expired, then the least recently seen, and no more than needed |
| AffinityBook.OnlyOldKeysGo | backend/src/affinity.rs:493-530 | a live key is evicted only if as many others as there is room for were seen when it was or later, and those stay |
| AffinityBook.AffinityBook.EnsureEntryCapacity | backend/src/affinity.rs:493-512 | makes room for an entry; exactly the avoidances of evicted live keys go with them |
| AffinityBook.AffinityBook.constructor | backend/src/affinity.rs:104-110 | empty, with room for at least one entry |
| AffinityBook.AffinityBook.Clear | backend/src/affinity.rs:101-103 | forgets everything, the generation counter included |
| AffinityBook.AffinityBook.Lookup | backend/src/affinity.rs:112-132 | a binding found was issued for the key, is the latest made for it, was refreshed less than one time to live ago, and is touched; an expired one is dropped |
| AffinityBook.AffinityBook.ClaimTarget | backend/src/affinity.rs:143-193 | never changes a live binding; else becomes the key's binding with the next generation, within capacity, and takes only the avoidances of evicted keys away |
| AffinityBook.AffinityBook.Confirm | backend/src/affinity.rs:195-213 | a binding issued for the key succeeds exactly while the key has an entry and nothing newer was made for it; any success is on the newest generation of that key |
| AffinityBook.AffinityBook.MigrateTarget | backend/src/affinity.rs:224-258 | rebinds the key with the next generation, confirmed, lifts its avoidance and takes only those of evicted keys away besides |
| AffinityBook.AffinityBook.RefreshIfProvider | backend/src/affinity.rs:260-277 | touches and confirms exactly when the key is bound to that provider |
| AffinityBook.AffinityBook.RefreshIfTarget | backend/src/affinity.rs:279-300 | a binding issued for the key succeeds exactly while the key has an entry and nothing newer was made for it; no other binding does |
| AffinityBook.AffinityBook.ClearIfProvider | backend/src/affinity.rs:302-312 | drops the binding exactly when it is bound to that provider |
| AffinityBook.AffinityBook.MarkProviderFailed | backend/src/affinity.rs:314-341 | the key is no longer bound to the provider and avoids it until the given time, within capacity |
| AffinityBook.AffinityBook.IsProviderAvoided | backend/src/affinity.rs:343-359 | whether an avoidance of that provider is in force; an expired one is dropped |
| AffinityBook.AffinityBook.PurgeProvider | backend/src/affinity.rs:361-369 | drops exactly the bindings and avoidances of the provider |
| AffinityBook.AffinityBook.BindingCountsByProvider | backend/src/affinity.rs:385-394 | drops what expired and counts the confirmed keys of every provider |
| AffinityBook.BindingMade | backend/src/affinity.rs:143-193 | a new binding keeps generations distinct and bounded, entries ideal and the map in capacity |
| AffinityRuns.PerformAll | backend/src/affinity.rs:112-394 | every sequence of calls between two clears is a run: each answer agrees with the history of creating claims and migrations |
| AffinityRuns.BindingsEndForGood | backend/src/affinity.rs:195-300 | in every run a binding handed out is taken back only for its own key and only while nothing newer was made for it; after a migration never again |
| AffinityRuns.OneBindingPerGeneration | backend/src/affinity.rs:112-258 | in every run bindings handed out with one generation are for one key and one target |
| AffinityRuns.ConfirmedExactly | backend/src/affinity.rs:112-300 | in every run a binding handed out says it is confirmed if and only if its generation was migrated to, or confirmed or refreshed with success by an earlier call |
| RequestOverrides.BodyPathSegments | backend/src/request_overrides.rs:396-422 | trimmed segments of a path, or why it has none |
| RequestOverrides.SetBodyPath | backend/src/request_overrides.rs:424-448 | the walk down that makes missing or scalar parents objects sets the path in an object and refuses other bodies |
| RequestOverrides.SetGets | backend/src/request_overrides.rs:424-448 | the path then holds the value, and every incomparable path what it held |
| RequestOverrides.RemoveGets | backend/src/request_overrides.rs:450-464 | the path and all below it are gone, every incomparable path is untouched |
| RequestOverrides.EditsCommute | backend/src/request_overrides.rs:424-464 | edits of incomparable paths commute, even where one turns a scalar into an object |
| OverrideRules.SplitUndoesJoin | backend/src/request_overrides.rs:396-422 | a joined path splits back into its segments |
| OverrideRules.CanonicalIsExact | backend/src/request_overrides.rs:250-255 | two rules have one canonical key exactly when scope and segments agree |
| OverrideRules.CheckRule | backend/src/request_overrides.rs:231-256 | a rule passes exactly when its path is valid, its root is not the gateway's and its value is short enough |
| OverrideRules.ValidateBodyOverrides | backend/src/request_overrides.rs:178-259 | the body rules pass exactly when the configuration and their list are short enough, every rule is acceptable and no two of a scope share a path |
| OverrideRules.ApplyOneRule | backend/src/request_overrides.rs:279-304 | one rule's edit, with templates expanded, or its error |
| OverrideRules.ApplyScope | backend/src/request_overrides.rs:279-304 | the rules of one scope in stored order, up to the first error |
| OverrideRules.ApplyBodyOverridesToValue | backend/src/request_overrides.rs:279-304 | the rules for all requests, then those for this kind |
| OverrideRules.FailsExactly | backend/src/request_overrides.rs:279-304 | with valid paths, fails if and only if the body is no object and some rule sets; removals alone leave such a body as it is |
| OverrideRules.UnrelatedPathsUntouched | backend/src/request_overrides.rs:424-464 | no path incomparable with every applied rule's path changes |
| OverrideRules.LastRuleDecides | backend/src/request_overrides.rs:279-304 | the last rule to speak about a path decides what is there |
| OverrideRules.ValidatedOverridesAreSafe | backend/src/request_overrides.rs:390-394 | validated overrides never fail on an object and leave model, stream and type, however capitalised, and all below them alone |
| OverrideRules.StorageOrderIrrelevant | backend/src/request_overrides.rs:150-157 | any interleaving of the scopes' rules in storage gives the same result |
| OverrideRules.OrderIrrelevant | backend/src/request_overrides.rs:279-304 | rules with pairwise incomparable paths may be applied in any order |
| OverridePaths.TrimsExactly | backend/src/request_overrides.rs:396-422 | trimming a text gives another if and only if that is it without the white space around it |
| OverridePaths.WhiteExactly | backend/src/request_overrides.rs:396-422 | white space is the 25 characters of the Unicode property |
| OverridePaths.SegmentsExactly | backend/src/request_overrides.rs:396-422 | a path text is accepted as some segments if and only if it spells them: padded segments joined by dots, 16 and 512 bytes at most |
| OverridePaths.CountsBytes | backend/src/request_overrides.rs:396-422 | the limit on a path counts the bytes of its UTF-8 form |
| OverridePaths.ReservedExactly | backend/src/request_overrides.rs:390-394 | a root is reserved if and only if it is model, stream or type in any capitalisation |
| OverridePaths.PassedRulesKeepOff | backend/src/request_overrides.rs:231-256 | a rule passes if and only if its path spells segments with another root and a value it sets is short enough |
| OverridePaths.AppliedExactly | backend/src/request_overrides.rs:150-157 | which rules a request for models, a chat completion and a response each meet |
| Templates.PlainTextStays | backend/src/request_overrides.rs:485-487 | a text without the template is left as it is |
| Templates.FirstTemplateExpands | backend/src/request_overrides.rs:485-487 | the first template of any text becomes the request id, and the rest is expanded likewise |
| Templates.ValuesExpandEverywhere | backend/src/request_overrides.rs:466-483 | at every place of a value, through objects and arrays, texts are expanded and names, lengths and all other values are kept |
| Templates.LastTextDecides | backend/src/request_overrides.rs:279-304 | the last rule to set a text at a path leaves it there with its templates replaced |
| Templates.WindowIdIsSet | backend/src/request_overrides.rs:279-304 | a concrete rule for responses sets a member below a missing object to the request id; a chat completion does not meet it |
| Pricing.TotalInputTokens | backend/src/pricing.rs:262-268 | the sum of the non-negative input counts, held at the 64-bit maximum |
| Pricing.LastBelow | backend/src/pricing.rs:196-203 | the tier chosen lies below the total and all later ones do not |
| Pricing.CostExactly | backend/src/pricing.rs:205-223 | a request has a cost exactly when each kind of token it used has a rate in its tier, and the cost is the sum over the kinds |
| Pricing.TotalExactly | backend/src/pricing.rs:262-268 | the total is the sum of all input used, up to the 64-bit maximum |
| Pricing.TierApplies | backend/src/pricing.rs:196-211 | with rising thresholds the rates that apply are those of the tier whose threshold is below the total with no other between, else the base |
| Pricing.BillExactly | backend/src/pricing.rs:205-223 | a bill exists if and only if every kind used has a rate, and is the rates per million times the tokens, input and both kinds of cached input apart from output |
| PriceCatalogue.ParseKey | backend/src/price_sync.rs:312-335 | whether a key names a charge and threshold, is no tier key, or has a threshold that makes the row unusable |
| TierKeys.KeysRead | backend/src/price_sync.rs:312-335 | for each rate, number and zeros in front: the key spelled with the printed digits names the rate above that number, with a k above a thousand times it, and is unusable exactly when that is 0 or no 64-bit integer |
| TierKeys.KeysMean | backend/src/price_sync.rs:312-335 | a key is read as a rate above a threshold if and only if it spells that |
| TierKeys.UnusableExactly | backend/src/price_sync.rs:312-335 | a key makes its row unusable if and only if it is a tier's name without digits or with a number out of range |
| TierKeys.TwoHundredThousand | backend/src/price_sync.rs:312-335 | the key of the long-context input price means 200000, and the same with a further qualification means no tier |
| TierKeys.NamesExactly | backend/src/price_sync.rs:305-339 | a member overrides a rate above a threshold if and only if its key spells that and its value is not null |
| TierKeys.UnplacedExactly | backend/src/price_sync.rs:336-338 | which members make a row partial: a key with cost in it that is neither a rate nor a tier's name, and a value |
| TierKeys.BaseRatesByName | backend/src/price_sync.rs:293-303 | each base rate of a compiled card comes from the member with its name, and is missing if there is none |
| PriceCatalogue.CollectOverrides | backend/src/price_sync.rs:305-339 | the table of overrides, the partial mark, and an error exactly when some member is unusable |
| PriceCatalogue.Cumulate | backend/src/price_sync.rs:340-357 | tiers in strictly increasing order, one per threshold, each rate the override of the highest threshold up to it that names the charge, else the base |
| PriceCatalogue.LitellmCard | backend/src/price_sync.rs:291-360 | a row compiles exactly when it sets a base rate and all its prices and thresholds are usable; partial exactly when some cost has no place |
| PriceCatalogue.OverridesExactly | backend/src/price_sync.rs:305-339 | the table holds for a charge and threshold the price of the last member that names them, and nothing else |
| PriceCatalogue.SelectedRate | backend/src/pricing.rs:196-211 | the tier selected for a total carries the rates the table gives at that total |
| PriceCatalogue.CardMeansRow | backend/src/price_sync.rs:291-360 | thresholds are positive and increasing, and the rate charged is that of the override with the highest threshold below the total input that names the charge, else the base rate |
| PriceCatalogue.RowRateIsOne | backend/src/price_sync.rs:305-339 | a row means one rate for a charge at a total |
| PriceStorage.FromV2Json | backend/src/pricing.rs:77-139 | the card a stored value spells, with thresholds checked against the one before |
| PriceStorage.ReadsExactly | backend/src/pricing.rs:77-139 | a stored value is read as a card if and only if it spells it, member by member in version 2, and its thresholds are positive and increasing |
| PriceStorage.WritesExactly | backend/src/pricing.rs:177-194 | what is written spells the card in four members and no more |
| PriceStorage.StoredCardReadsBack | backend/src/pricing.rs:177-194 | writing a card and reading it back gives the card exactly when its thresholds are positive and increasing, else nothing, for every spelling that keeps the card's numbers |
| PriceStorage.SpellingExists | backend/src/pricing.rs:336-348 | every card has a spelling of its numbers that reads back |
| PriceStorage.FallingThresholdsAreLost | backend/src/pricing.rs:118-125 | a concrete card with falling thresholds is written and then refused |
| CatalogueMerge.GroupByName | backend/src/price_sync.rs:411-415 | the rows of every name, in order |
| CatalogueMerge.KeepUnique | backend/src/price_sync.rs:416-423 | keeps, in the order of names, exactly the rows whose name no other row has; kept and newly failed rows add up to all |
| CatalogueMerge.AddAliases | backend/src/price_sync.rs:427-444 | one copy under each alias that exactly one kept model claims, in the order of aliases |
| CatalogueMerge.Finalize | backend/src/price_sync.rs:406-446 | refuses exactly when no surviving row has a price; else conserves rows |
| CatalogueMerge.BelowMeans | backend/src/price_sync.rs:411-415 | names are in dictionary order |
| CatalogueMerge.MergedNamesAreUnique | backend/src/price_sync.rs:406-446 | no two models of a merged catalogue share a name |
| CatalogueMerge.DuplicatesAreDropped | backend/src/price_sync.rs:416-423 | a name two rows share is nobody's, neither as an original nor as an alias |
| CatalogueMerge.AliasesExactly | backend/src/price_sync.rs:427-444 | a name no row has is in the catalogue exactly when one surviving row alone claims it, with that row's data |
| EncryptedContent.CleanItem | backend/src/encrypted_content.rs:205-227 | whether an item is affected and what is left of it |
| EncryptedContent.Sanitize | backend/src/encrypted_content.rs:198-254 | the cleaned body and count, or nothing when no item is affected or there is no input |
| EncryptedContent.SanitizedIsClean | backend/src/encrypted_content.rs:198-254 | no item is left to clean, unaffected items are equal and in order, other members but a dropped continuation are equal, and a second pass finds nothing |
| SanitizedItems.FateExactly | backend/src/encrypted_content.rs:205-227 | what an item becomes, by its type and members: itself, what is left without ciphertext and null content, or nothing |
| SanitizedItems.CleansExactly | backend/src/encrypted_content.rs:198-254 | a body is cleaned if and only if its input has an item to clean, and counts those |
| SanitizedItems.CleanedBody | backend/src/encrypted_content.rs:198-254 | the cleaned body lists what its items become in order; a continuation is dropped if and only if it is a websocket's without a tool's output left; nothing else changes |
| SanitizedItems.DigestsExactly | backend/src/encrypted_content.rs:124-196 | the digests recorded are those of the ciphered items' texts that are not empty |
| EncryptedContent.RecoveryBook.Lookup | backend/src/encrypted_content.rs:35-48 | the digests of a session seen less than one time to live ago, which is touched; an expired one is dropped |
| EncryptedContent.RecoveryBook.Remember | backend/src/encrypted_content.rs:50-79 | live sessions stay, one of the oldest makes room for a new one, the digests go to the session in the order handed out; at most 512 distinct ones each |
| EncryptedContent.RememberedOnlyAdds | backend/src/encrypted_content.rs:50-79 | a session gains only digests remembered under it |
| EncryptedContent.RememberedAll | backend/src/encrypted_content.rs:50-79 | with room for them, all digests remembered are kept |
| SanitizedItems.KnownWhileAlive | backend/src/encrypted_content.rs:35-79 | digests remembered with room are known for one time to live and not a moment longer |
| SanitizedItems.LookupExtends | backend/src/encrypted_content.rs:35-48 | a lookup in time gives the session another time to live, one too late ends it |
| SanitizedItems.OthersRemembered | backend/src/encrypted_content.rs:50-69 | remembering keeps every other live session if there is room, else all but one of those seen longest ago |
| SanitizedItems.ExpiredForgotten | backend/src/encrypted_content.rs:50-69 | remembering forgets every session whose time is over, its own old digests included |
| EncryptedContent.RememberKeepsAll | backend/src/encrypted_content.rs:70-78 | every order of the set keeps all of its digests if and only if the overflow drops none of them |
| EncryptedContent.FullDequeForgets | backend/src/encrypted_content.rs:70-78 | a concrete full deque, one order of two digests that loses one of them and one that keeps both |
| EncryptedContent.RequestRecovery.FilterKnown | backend/src/encrypted_content.rs:106-122 | strips only items whose digest this request recorded or the session's live book entry knows |
| EncryptedContent.RequestRecovery.RecordFailure | backend/src/encrypted_content.rs:124-140 | records exactly the digests of the supported items, and remembers them under the session |
| EncryptedContent.RequestRecovery.PrepareRetry | backend/src/encrypted_content.rs:146-154 | succeeds at most once for a request and leaves no supported item with encrypted content |
| RecoveryRuns.PerformAll | backend/src/encrypted_content.rs:35-154 | every sequence of the calls of a new request and of others on a new book is a run: each call relates what was stored before and after as its method promises |
| RecoveryRuns.SessionsNeverMix | backend/src/encrypted_content.rs:35-140 | in every run the book knows of a session only digests others remembered under it and, if it is the request's own, those of failures the request recorded |
| RecoveryRuns.StrippedWasRejected | backend/src/encrypted_content.rs:106-140 | in every run an item a filter cleans away or strips has a digest that a failure of this request recorded or another request remembered under its session |
| RecoveryRuns.OneRetry | backend/src/encrypted_content.rs:142-154 | in every run at most one call for a retry succeeds |
| RecoveryRuns.RecordedAreStripped | backend/src/encrypted_content.rs:106-140 | in every run a filter leaves no item whose text a failure of this request recorded, and a body without ciphered items as it is |
| RecoveryRuns.RetriesExactly | backend/src/encrypted_content.rs:142-154 | in every run a call for a retry succeeds if and only if recovery is on, none succeeded before and the input has a ciphered item |
| FormCodec.EncodeComponent | backend/src/codex_oauth.rs:3362-3378 | the loop escapes each byte on its own |
| FormCodec.DecodeQueryValue | backend/src/admin.rs:4516-4551 | the loop decodes escapes from the left, malformed ones as themselves |
| FormCodec.QueryString | backend/src/admin.rs:4557-4567 | the first part whose raw trimmed key is the one asked for and whose value is not empty |
| FormCodec.DecodeUndoesEncode | backend/src/codex_oauth.rs:3362-3378 | decoding an encoded component gives its exact bytes |
| FormCodec.ReadsEncodedKeys | backend/src/codex_oauth.rs:3354-3360 | for every form and key, the reader finds the first non-empty value whose encoded key is the one asked for |
| FormCodec.QueryUndoesForm | backend/src/admin.rs:4515-4567 | every key reads back its first non-empty value if and only if each key that has one is made of unreserved characters |
| FormCodec.BracketKeyIsLost | backend/src/codex_oauth.rs:3362-3378 | the key a[b] is stored but read back only under its encoded spelling |
| QueryText.EncodesFromTheLeft | backend/src/codex_oauth.rs:3362-3378 | an unreserved character encodes to itself, a space to a plus, any other byte to a percent sign and two capital digits |
| QueryText.UnreservedExactly | backend/src/codex_oauth.rs:3362-3378 | which characters are unreserved |
| QueryText.PlusDecodes | backend/src/admin.rs:4516-4551 | a plus decodes to a space |
| QueryText.EscapeDecodes | backend/src/admin.rs:4516-4551 | an escape with digits in either case decodes to its byte |
| QueryText.OtherDecodes | backend/src/admin.rs:4516-4551 | every other byte, a percent sign without two digits behind it included, decodes to itself |
| QueryText.TrimsExactly | backend/src/admin.rs:4557-4567 | trimming bytes gives others if and only if those are they without the white-space characters around them |
| QueryText.PartsExactly | backend/src/admin.rs:4557-4567 | every part of a query gives one key one raw value: both trimmed, cut at the first equals sign |
| QueryText.ReaderFindsFirst | backend/src/admin.rs:4557-4567 | for any query the reader answers with the decoded value of the first part that gives the key one that is not empty |

## Left out

- IncludeUsage.EnsureIncludeUsage: what the typed decoder read from the request is a parameter; decoding, its recursion limit, number ranges and UTF-8 validity are not modelled, and the nesting count is unbounded rather than 32 bits wide.
- AttemptBudget.RetryBudget.Begin: one reading of the clock serves both the availability check and the remaining time before the pause; the random jitter and the moment of waking are parameters.
- RequestOverrides.SetBodyPath: the walk keeps the objects it passes, because a value has no cursor into its middle; the update in place through a reference is not captured.
- OverrideRules.ApplyBodyOverridesToValue: after an error the original has already edited its argument; the partly edited body is not returned here.
- CatalogueMerge.AddAliases: sorting an alias's indices and dropping repeats is stated as all of them being equal.
- EncryptedContent.Sanitize: decoding and encoding the body are not modelled, so a body is a JSON tree or absent; a digest stands for its text.
- EncryptedContent.RequestRecovery.FilterKnown: the request's trace of retries and the settings that enable recovery are plain fields; their reporting is not modelled.
- FormCodec.DecodeQueryValue: the replacement of ill-formed UTF-8 after decoding is left out; the bytes of an encoded text are well formed.
- PriceCatalogue.LitellmCard: reading decimals, and their precision and overflow, are a parameter from values to prices; a row that is no object is the caller's business.
- PriceStorage.FromV2Json: spelling and reading numbers are parameters; the older card format and error texts are left out.
- AccountStore.Database.SaveLogin: id tokens, e-mail addresses, encryption, quota columns and the creation and update times are left out; a token is the number of the write that first stored it.
- HealthBook.RuntimeHealthBook.FinishSuccess: the latency average, status codes and error texts are left out, and generation and probe numbers do not wrap around.
- HealthBook.RuntimeHealthBook.FinishFailure: status codes and error texts are left out.
- HealthBook.ResetProviderCircuit: one uninterrupted call, where the code gives the book's lock back between a reset and the deferral after it; BreakerProtocol has both as events of their own, with any others between them.
- OAuthProtocol.EveryRun: a task may stop between any two of its steps except between a save and its mark; warnings, polling intervals and the browser state's randomness are left out.
- RefreshLease.EveryRun: the waiting loop of a gateway that does not get the lease is any number of attempts; lease times are parameters of each attempt, so no assumption on clocks is made. Deleting a key is no event; an edit that sets a secret is refused for these keys, and every other edit is one.
- The `quote` compiler for the gateway's own catalogue format and the TOML reader: the same shape as the LiteLLM compiler without accumulation.
- Header overrides, their limits and their reserved names: a flat map, without the path reasoning of bodies.
- Purging a single upstream key or endpoint from the affinity book, and deriving the routing key from a request.
- HTTP, TLS, sockets, timers, hashing, encryption, identifier generation and logging.
- The iteration order of hash maps is arbitrary wherever the code uses one.
