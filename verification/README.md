# NomadPosting: a verified model of the posting control plane

NomadPosting prepares posts for X and for Nostr, has an operator approve the exact
payload, picks an egress endpoint, publishes, and records what happened. This project
models the logic that makes those decisions and proves what it is relied on for:

- **Egress** (`EgressTypes`, `Patterns`, `ProbeHistory`, `EgressRegistry`, `EgressSelection`,
  `EgressSelector`, `EgressRuns`): the health counters mean exactly a statement about the
  whole history of probes; the random draws of a selection are in bijection with the
  selectable endpoints, one first draw per country; over every run of probes and selections
  adjacent leases differ in country and each lease is sound.
- **Approval and job lifecycle** (`Domain`, `Approval`, `ReceiptTable`, `AuditLog`,
  `JobStore`, `Service`, `MoveHistory`, `Lifecycle`, `StopRace`): in every interleaving of any
  number of callers over atomic store calls, what is dispatched is what was created and approved;
  states are conserved; approval happens at most once; and it is said exactly what can still
  happen after the emergency stop is turned on.
- **Publication and encodings** (`Text`, `Utf8`, `Decimal`, `Hex`, `JsonText`, `NostrEvent`,
  `NostrPublish`, `XLength`, `XPublish`, `OAuthStates`): round trips and injectivity of the
  encodings, the two publication protocols, the weighted length, and one-time states.
- **Sealing** (`Sealing`, `StoreContexts`): the envelope frame over an abstract cipher, and
  the context each record is sealed under.
- **Recovery and tokens** (`Recovery`, `RecoveryRace`, `AuthTokens`): the sliding window on
  wrong recovery codes, one request at a time and with logins that overlap; which codes get
  seen; and the tables of sessions and sign-in ceremonies.

`Wrappers`, `Ordering` and `Platform` hold shared definitions. `dafny verify dfyconfig.toml`
checks everything.

## Conventions

- A time is a whole number of nanoseconds since Go's zero `Time`; instant 0 is `IsZero`.
- A `Text` is what a `range` loop over a Go string sees: Unicode scalars, and single bytes
  that are not UTF-8, which keep their identity. `Utf8` relates it to bytes both ways.
- Random values, clocks, replies of relays, signer and HTTP transport, and refreshed tokens
  are inputs. A random index is any function that stays below its bound or fails. Walking a
  Go map is an arbitrary choice of the next key.
- SHA-256, AES-GCM and the formatting of times are function parameters. Where a claim needs
  a law of theirs (opening inverts sealing, accepts only sealings, fails in another context;
  hashes do not collide; formatted times differ), the law is stated in the claim or in `Valid()`.
- Whether the database takes an audit row, whether a session can be issued and whether a
  response reaches the client are inputs; the JSON forms of receipts and audit events are
  pairs of functions.
- Methods hold the loops and updates of the source and are proved against functions; the
  lemmas are about those functions.
- A method that the source runs under a lock, and each call to the store, is one atomic step.

## Findings

- `Time.Sub` saturates, so with a maximum health age of the largest `Duration` no age is too
  old; `EligibleIffHistory` states the condition exactly, and `AncientProbeIsEligible` gives
  an endpoint that is eligible beyond the limit.
- The approval encoding is injective up to the identity of schedule bytes that are not
  UTF-8, and no further (`BadScheduleBytesCollide`). The service only passes formatted
  times, for which it is injective. `docs/SECURITY.md:139` says that approval also covers the
  media set and geotags; the code hashes content, two destinations and the schedule.
- A record written in the first millisecond of 1970 is read back with the zero time and its
  context no longer matches (`ReadContextIsWriteContext`); for every other time it does.
- `ErrNoEligibleAlternate` is never returned by a selector that `NewSelector` accepts.
- The comments on X publication (`internal/platform/x.go:37`, `internal/platform/x.go:52`)
  speak of a definitive 401, but the retry test looks at the status alone: a 401 whose body
  could not be read, or was too large, is retried too, and the receipt then keeps UNKNOWN if
  the second reply is a definite refusal (`RetryAfterUnreadable` is such a call).
- The emergency stop is read before the commit of an approval and before the read of the job
  to dispatch. Both can go through after it is turned on (`ApprovalOutrunsStop`,
  `DispatchOutrunsStop` are runs from the empty store). `StopIsOutrunIff` says exactly when:
  some run that keeps the stop on still approves or dispatches if and only if a call that had
  read the stop as off was, at that moment, about to do so. Such a run creates no job under an
  ID that one of those calls already names, which drawn IDs rule out in practice.
- The table of states lets a plain transition take DRAFT to APPROVED without a hash. The
  service never asks for it, and if some caller did, nothing unfaithful would be dispatched:
  `DispatchesAreFaithful` holds with such callers, and a job without a hash is not dispatched
  at all (`UnhashedIsNotDispatched`).
- An operation can fail after its change was made: `Approve`, `Cancel` and `EmergencyStop`
  return the error of their audit write although the job is approved or cancelled, or the
  stop set. `CreateDraft` ignores that error.
- A recovery code is replaced before the session is issued and before the new code is sent, and
  errors of the response are discarded. So one login can leave nobody with a code that works
  (`LoginCanLoseCode`). `CodeInForceIsShownIff` says exactly when the code in force has been
  shown: when the last request that issued a code (a login, a rotation, or the bootstrap
  registration) got its session and its response arrived. A lost response is all it takes; the
  session can only fail if the random source does, which since Go 1.24 ends the process instead.
- The recovery limit is checked before a login waits for its turn, so logins that overlap can
  exceed it: with m in flight at most, 5 + m consecutive failures always span the window
  (`OverlappingGuessesAreLimited`), and 4 + m can fall on one instant
  (`OverlappingGuessesReachTheBound`), which for two logins is six.
- Probes never lift a quarantine; only `SetHealth` does.
- A session ends at its expiry instant, a ceremony just after it; purging respects both.

## Assumptions of the lifecycle

Drawn job IDs do not repeat. Where a result needs more, it says so: `HashedIffApproved` that
no plain transition took this job from DRAFT to APPROVED, and the results about the emergency
stop that none did so while it was on.

## Model

| member | source | states |
|---|---|---|
| `ProbeHistory.CountersRefineHistory` | internal/egress/health.go:22-50 | After any history, quarantine holds exactly if there was a hard failure or three failures in a row; otherwise the counter is the number of trailing failures, even though it wraps at 32 bits |
| `ProbeHistory.EligibleIffHistory` | internal/egress/types.go:86-95 | An endpoint is eligible exactly when its history is clean, its last probe succeeded with a non-zero time, and its age is from 0 to the limit (any age, if the limit is the largest Duration) |
| `ProbeHistory.AncientProbeIsEligible` | internal/egress/types.go:86-95 | With the largest Duration as the limit, an endpoint probed longer ago than that is eligible |
| `ProbeHistory.DifferencesSaturate` | internal/egress/types.go:86-95 | Differences of times are exact within 64 bits and stay at the limits beyond |
| `ProbeHistory.HardFailuresAre` | internal/egress/health.go:32-36 | Which checks are hard, and that any of them quarantines at once whatever else the report says |
| `ProbeHistory.CounterWraps` | internal/egress/health.go:34-46 | After any history the counter is the number of failures since it was last reset, modulo 2 to the 32 |
| `ProbeHistory.HealthIsLastWord` | internal/egress/health.go:33-47 | The health flag is what the last probe said that was not a success on a quarantined endpoint |
| `EgressRegistry.RunRefinesHistories` | internal/egress/registry.go:63-82 | After any run of probes on a fresh registry each record holds the health of its own accepted history; keys and endpoints stay |
| `EgressRegistry.EligibleAfterRunIff` | internal/egress/health.go:22-50 | Eligibility after any run, as a statement about the probes alone |
| `EgressRegistry.QuarantineIsPermanent` | internal/egress/health.go:22-50 | No later probe of either kind lifts a quarantine |
| `Ordering.LessIsLexicographic` | internal/egress/registry.go:84-102 | Strings are compared at the first difference, a prefix being smaller |
| `Patterns.EndpointsAre` | internal/egress/types.go:61-78 | Endpoints are accepted exactly with ID and country matching the patterns, a known provider, and a region of 1 to 64 bytes that is not blank |
| `Patterns.JobIDsMatch` | internal/egress/types.go:31-49 | Job IDs are accepted exactly if they match the pattern |
| `EgressRegistry.SortedViewIsUnique` | internal/egress/registry.go:84-102 | Sorting any walk of the map gives the one sequence in the order of IDs |
| `EgressRegistry.RegisterAll` | internal/egress/registry.go:21-36 | Succeeds exactly for a non-empty list of valid endpoints with distinct IDs and then holds just those, unprobed; otherwise the error is that of the first offending endpoint |
| `EgressRegistry.Walk` | internal/egress/registry.go:84-93 | Whatever order the map is walked in, every record comes out exactly once |
| `EgressRegistry.Registry.New` | internal/egress/registry.go:21-36 | The registry so built is well formed and fresh |
| `EgressRegistry.Registry.Resolve` | internal/egress/registry.go:38-49 | Finds exactly the registered IDs; the syntax check excludes none of them |
| `EgressRegistry.Registry.SetHealth` | internal/egress/registry.go:51-61 | Replaces the health of one registered endpoint and nothing else |
| `EgressRegistry.Registry.MarkProbe` | internal/egress/registry.go:63-82 | The field updates amount to one step of the history machine |
| `EgressRegistry.Registry.ApplyProbe` | internal/egress/health.go:22-50 | The same for a full probe report; a refused report changes nothing |
| `EgressRegistry.Registry.Snapshot` | internal/egress/registry.go:84-102 | Returns the one view sorted by ID |
| `EgressSelection.DrawsAreBijective` | internal/egress/selector.go:86-121 | An endpoint is selectable exactly if some pair of draws chooses it, and then only one pair does |
| `EgressSelection.DrawsHitCandidates` | internal/egress/selector.go:86-121 | Every pair of draws chooses an eligible, allowed endpoint outside the previous country, in the country of the first draw |
| `EgressSelection.CandidatesAreHit` | internal/egress/selector.go:86-121 | Every such endpoint is chosen by some pair of draws |
| `EgressSelection.DrawsAreInjective` | internal/egress/selector.go:86-121 | Different pairs of draws choose different endpoints |
| `EgressSelection.CountriesAreDrawnOnce` | internal/egress/selector.go:98-110 | Each country with a selectable endpoint is exactly one first draw, however many endpoints it has |
| `EgressSelection.NostrSelection` | internal/egress/selector.go:86-152 | What the lease says; success exactly with enough eligible countries and draws that succeed; too few countries and failed draws are the only errors, and "no eligible alternate" never occurs |
| `EgressSelection.LeaseFollowsDraws` | internal/egress/selector.go:109-152 | The lease names exactly the endpoint that the two draws choose, and carries the ID drawn |
| `EgressSelection.SelectionIsRefused` | internal/egress/selector.go:66-84 | Which bad inputs are refused, in which order, and what is selected otherwise |
| `EgressSelection.XIsRefused` | internal/egress/selector.go:124-141 | Each reason for which X gets no lease, exactly |
| `EgressSelection.FailedProbeShrinksCandidates` | internal/egress/health.go:22-50 | A failed probe makes no endpoint or country selectable and makes its target ineligible |
| `EgressSelector.GroupEligible` | internal/egress/selector.go:86-96 | The grouping loop holds exactly the allowed, eligible endpoints, each once, under its country |
| `EgressSelector.OtherCountries` | internal/egress/selector.go:101-108 | Whatever order the groups are walked in, the result is the sorted listing of the other countries |
| `EgressSelector.SortGroup` | internal/egress/selector.go:114-116 | The sorted group is the listing of that country's eligible endpoints by ID |
| `EgressSelector.Selector.New` | internal/egress/selector.go:39-60 | Accepts exactly the policies with at least three countries, valid codes, positive limits and a registered stable endpoint |
| `EgressSelector.Selector.Select` | internal/egress/selector.go:66-122 | The lease or error is the one function of contents, policy, inputs and draws, in any map order |
| `EgressSelector.Selector.SelectStableX` | internal/egress/selector.go:124-136 | For X, the one stable endpoint in France or an error |
| `EgressRuns.SelectionIsSound` | internal/egress/selector.go:66-152 | One Nostr lease: registered, allowed, eligible when issued, three eligible countries, not the previous country |
| `EgressRuns.RunsAreSafe` | internal/egress/selector.go:66-152 | Over any run of probes and selections: adjacent leases differ in country, every lease is sound, "no eligible alternate" never occurs |
| `EgressRuns.RecordsFollowProbes` | internal/egress/selector.go:66-122 | Selections leave the registry as the probes alone made it |
| `EgressRuns.OnlyGoodStandingIsLeased` | internal/egress/selector.go:66-152 | From a fresh registry, a lease names an endpoint whose whole probe history up to then is in good standing, with a last probe at a non-zero time and within the health age |
| `EgressRuns.CandidatesIffGoodStanding` | internal/egress/selector.go:86-121 | After any run of probes, the selectable endpoints are exactly those registered, allowed, outside the previous country and in recent good standing by their history |
| `EgressRuns.DrawsRangeOverGoodHistories` | internal/egress/selector.go:86-121 | Some pair of draws chooses an endpoint exactly if its probe history is such |
| `EgressRuns.XIsLeasedIffStableEndpointIsGood` | internal/egress/selector.go:124-136 | After any run of probes, X gets a lease exactly when the stable endpoint is in France, in good standing by its history and recent enough; the lease is then that endpoint's |
| `Domain.TwoPassesAreOneFold` | internal/domain/state.go:39-46 | The two replacement passes equal one pass that turns each CRLF or lone CR into one LF |
| `Domain.NormalizationMeaning` | internal/domain/state.go:39-46 | No CR is left, all other characters stay in order, and there are as many LF as there were line endings |
| `Domain.NormalizationIsIdempotent` | internal/domain/state.go:39-46 | Normalizing accepted content again changes nothing |
| `Domain.NormalizationJoinsLines` | internal/domain/state.go:39-46 | Normalized text is the lines of the original, however ended, joined by line feeds |
| `Domain.RefusedContent` | internal/domain/state.go:39-46 | Content is refused exactly if it is not UTF-8, has a NUL, or is blank, all read before normalization |
| `Domain.RefusedEncoding` | internal/domain/state.go:48-55 | There is no hash exactly without a destination or without acceptable content |
| `Domain.EncodingOfPlain` | internal/domain/state.go:56-69 | The very bytes hashed, for text that needs no escapes |
| `Domain.TransitionsAre` | internal/domain/state.go:18-37 | The table of transitions, edge by edge |
| `Domain.ReadApprovalOfEncoded` | internal/domain/state.go:48-69 | A reader recovers content, destinations and schedule from the hashed JSON |
| `Domain.ApprovalEncodingInjective` | internal/domain/state.go:48-69 | Equal encodings exactly if equal normalized content, equal destinations, and schedules equal up to bytes that are not UTF-8 |
| `Domain.ApprovalEncodingInjectiveOnTimes` | internal/domain/state.go:48-69 | On schedules in UTF-8 the encoding is injective |
| `Domain.BadScheduleBytesCollide` | internal/domain/state.go:48-69 | Two different schedule bytes that are not UTF-8 share an encoding |
| `Approval.DraftHoldsOrigin` | internal/app/service.go:96-105 | The stored row of a new draft holds its destinations, its schedule cut to the millisecond, and content that opens to the text given |
| `Approval.PreviewShowsOrigin` | internal/app/service.go:112-133 | A row that holds its origin previews exactly the original content and its approval hash, unless erased |
| `Approval.HashNamesOrigin` | internal/domain/state.go:48-69 | Without collisions, one hash names one content, one set of destinations and one stored schedule |
| `Approval.HashOfPlain` | internal/app/service.go:124-131 | The hash shown is that of the very bytes, with an empty schedule or the formatted one |
| `Approval.ContentOpensForItsJob` | internal/app/service.go:96-121 | Sealed content opens for the job it was sealed for and for no other |
| `Approval.ApprovableIff` | internal/app/service.go:135-158 | An approval goes through exactly for a draft with content, the stop off and its own non-empty hash; each refusal exactly |
| `Approval.DispatchableIff` | internal/app/service.go:162-184 | A job is handed out exactly if approved, unerased, due and with its own hash, and then with its original content; each refusal exactly |
| `JobStore.SQLite.CreateJob` | internal/store/sqlite.go:177-190 | Inserts the row unless the ID is taken |
| `JobStore.RowRoundTrip` | internal/store/sqlite.go:177-201 | A job comes back as it went in, with its times cut to the millisecond |
| `JobStore.SQLite.ApproveJob` | internal/store/sqlite.go:233-240 | Approves exactly a draft with content, recording hash and time |
| `JobStore.SQLite.TransitionJob` | internal/store/sqlite.go:242-251 | Moves a job exactly if the move is in the table and the job is in the expected state, and changes nothing else |
| `JobStore.SQLite.DestroyJobContent` | internal/store/sqlite.go:253-260 | Erases the sealed content of exactly the jobs that still have it, marks them, sets the update time, and keeps the rest of the row |
| `JobStore.SQLite.SetLastNostrCountry` | internal/store/sqlite.go:262-268 | Records the country and the update time and changes nothing else of the job |
| `JobStore.SQLite.PurgeResolvedJobsBefore` | internal/store/sqlite.go:397-404 | Removes exactly the old COMPLETE, FAILED and CANCELLED jobs and counts them; their receipts go too, and every other job keeps its receipts in order |
| `JobStore.SQLite.AddReceipt` | internal/store/sqlite.go:270-291 | Adds one sealed row exactly if the receipt encodes, entropy is there and its job exists; the row reads back as the receipt with its new ID, unless created in the first millisecond of 1970 |
| `JobStore.SQLite.ListReceipts` | internal/store/sqlite.go:293-328 | The receipts read from the rows of the job by time, or an error as soon as one does not open |
| `ReceiptTable.ListedReceiptOpens` | internal/store/sqlite.go:270-328 | A receipt sealed when added opens and decodes to the same receipt when listed |
| `ReceiptTable.MovedReceiptOpensIff` | internal/store/sqlite.go:293-328 | In another row a sealed receipt opens exactly if job and millisecond are its own |
| `ReceiptTable.ReadingIsExact` | internal/store/sqlite.go:302-327 | Either every row opens and is listed in its place, or nothing is listed |
| `ReceiptTable.Select` | internal/store/sqlite.go:293-297 | The rows of the job in order of time, rows of one time in any order |
| `ReceiptTable.SelectionIsExact` | internal/store/sqlite.go:293-297 | Any such selection has exactly the rows of the job, each as often as the table |
| `ReceiptTable.ListingIsExact` | internal/store/sqlite.go:293-328 | A listing, in whatever order equal times come, succeeds exactly when every row of the job opens, and shows each of them and nothing else |
| `ReceiptTable.CascadeIsExact` | internal/store/sqlite.go:393-404 | Deleting jobs leaves the rows of every kept job, in order, and none of any other |
| `JobStore.SQLite.AddAudit` | internal/store/sqlite.go:330-347 | Appends the row of one event, sealed under the context of its time, or fails and leaves the log as it was |
| `AuditLog.LoggedEventOpens` | internal/store/sqlite.go:330-384 | A logged event that survives its JSON form reads back, unless logged in the first millisecond of 1970 |
| `AuditLog.MovedEventOpensIff` | internal/store/sqlite.go:330-384 | In another row a sealed event opens exactly if the millisecond is its own |
| `Service.Service.CreateDraft` | internal/app/service.go:80-110 | Succeeds exactly on acceptable content, a destination, entropy and a new ID; stores a draft that holds the normalized input, and logs it if it can |
| `Service.Service.Preview` | internal/app/service.go:112-133 | Shows what the stored row opens to, with its hash |
| `Service.Service.Approve` | internal/app/service.go:135-158 | Approves exactly a draft whose recomputed hash is the non-empty one quoted, with the stop off; otherwise changes nothing and says why; fails after the change if it cannot be logged |
| `Service.Service.PayloadForDispatch` | internal/app/service.go:162-184 | Hands out content exactly when the job is approved, due, its hash matches, and the stop is off |
| `Service.Service.Cancel` | internal/app/service.go:186-195 | Cancels exactly the jobs in DRAFT, APPROVED, ROUTING and FAILED, and logs that or fails after the change |
| `Service.Service.Reconcile` | internal/app/service.go:197-206 | Only UNKNOWN and PARTIAL may be reconciled; the request goes on record and nothing else changes |
| `Service.Service.EmergencyStop` | internal/app/service.go:220-236 | Sets stop, reason and time, a set stop having a reason and a cleared one none; logs it or fails after the change |
| `MoveHistory.EntriesBalanceExits` | internal/store/sqlite.go:233-251 | Entries to a state minus exits from it are 1 if the job is there and 0 otherwise |
| `MoveHistory.DraftEnteredOnce` | internal/domain/state.go:18-37 | Only creation enters DRAFT |
| `MoveHistory.ApprovedAtMostOnce` | internal/store/sqlite.go:233-240 | However many callers compete, a job is approved at most once |
| `MoveHistory.FinalStatesAreFinal` | internal/domain/state.go:18-37 | No move follows COMPLETE or CANCELLED |
| `MoveHistory.UnknownIsNotRepublished` | internal/domain/state.go:18-37 | Between UNKNOWN and a later PUBLISHING the job was PARTIAL or FAILED |
| `MoveHistory.PublishingIsNotCancelled` | internal/domain/state.go:18-37 | Between PUBLISHING and a later CANCELLED the job was FAILED |
| `MoveHistory.PublishingIsRouted` | internal/domain/state.go:18-37 | Between APPROVED or FAILED and a later PUBLISHING the job was ROUTING |
| `Lifecycle.NextKeepsInv` | internal/app/service.go:80-195 | Every atomic step of every operation keeps the invariant that ties rows, pending calls and dispatches to what each job was created from |
| `Lifecycle.RunsKeepInv` | internal/app/service.go:80-195 | The invariant holds after every interleaving from the empty store |
| `Lifecycle.ApprovedContentIsFixed` | internal/app/service.go:135-158 | A job that carries a hash was approved once, under the approval hash of its original content, destinations and schedule, and still shows that content until erased |
| `Lifecycle.HashedIffApproved` | internal/store/sqlite.go:233-251 | When no plain transition takes it from DRAFT to APPROVED, a job carries a hash exactly if it was ever approved |
| `Lifecycle.ErasedContentIsGone` | internal/store/sqlite.go:253-260 | In every run a job is marked erased exactly if its sealed content is gone |
| `Lifecycle.UnhashedIsNotDispatched` | internal/app/service.go:162-184 | A job without a hash is never dispatched |
| `Lifecycle.DispatchesAreFaithful` | internal/app/service.go:160-184 | Every payload handed out is the original content under its approval hash, read in state APPROVED after exactly one approval, not before its schedule; this holds even if callers bypass `ApproveJob` |
| `Lifecycle.RunsConserveStates` | internal/store/sqlite.go:233-251 | In every reachable state entries and exits balance, DRAFT was entered once and APPROVED at most once |
| `Lifecycle.StopBlocksApprovalAndDispatch` | internal/app/service.go:135-169 | While the stop stays on, no call has read it as off and no caller bypasses `ApproveJob`, no run approves or dispatches anything |
| `Lifecycle.ClearedApprovalIgnoresStop` | internal/app/service.go:136-156 | An approval that has read the stop as off commits although it has been turned on since |
| `StopRace.StopIsOutrunIff` | internal/app/service.go:135-184 | With the stop on, some run that keeps it on and stays within a time approves or dispatches exactly if some thread that had read it as off was about to |
| `StopRace.RunKeepsCalm` | internal/app/service.go:135-184 | If none was about to, no such run approves or dispatches, and none becomes about to |
| `StopRace.ThreadActs` | internal/app/service.go:135-184 | If one was about to, at most two of its own calls do it |
| `StopRace.ApprovalOutrunsStop` | internal/app/service.go:135-158 | A run of six steps from the empty store that approves while stopped |
| `StopRace.DispatchOutrunsStop` | internal/app/service.go:162-184 | A run of nine steps from the empty store that dispatches while stopped |
| `Lifecycle.UndisturbedApproval` | internal/app/service.go:135-158 | Not interleaved, the steps of an approval change the jobs as the service operation does |
| `Lifecycle.UndisturbedDispatch` | internal/app/service.go:162-184 | Not interleaved, the steps of a dispatch hand out what the service operation does, or nothing |
| `Lifecycle.UndisturbedCancel` | internal/app/service.go:186-195 | Not interleaved, the steps of a cancellation change the jobs as the service operation does |
| `Utf8.DecodeOfEncode` | internal/app/service.go:96-132 | The bytes sealed at creation decode to the same text at preview |
| `Utf8.EncodeOfDecode` | internal/app/service.go:120-132 | Decoding loses no byte of any byte string |
| `Utf8.LengthOfEncode` | internal/platform/nostr.go:182-209 | The length that limits are checked against is the number of bytes |
| `Utf8.BytesCarryValue` | internal/app/service.go:96 | How many bytes each code point takes and how they carry its bits |
| `Text.BlankIffTrimmed` | internal/domain/state.go:39-46 | Blank is what trimming Unicode white space on both sides leaves empty |
| `Decimal.OfIntInjective` | internal/store/sqlite.go:571-577 | Different integers are written differently |
| `Decimal.ReadNatOfNat` | internal/platform/nostr.go:158-170 | A numeral followed by anything but a digit reads back |
| `JsonText.ReadQuotedOfQuote` | internal/platform/nostr.go:158-170 | A quoted string reads back, with HTML escaping on or off, up to the identity of bytes that are not UTF-8 |
| `JsonText.PlainIsUnchanged` | internal/platform/nostr.go:158-170 | Characters that need no escape stand for themselves between the quotes |
| `JsonText.EscapesAre` | internal/platform/nostr.go:158-170 | Every other character and how it is written, with HTML escaping on and off |
| `NostrEvent.ReadEventOfSerialized` | internal/platform/nostr.go:158-209 | The canonical serialization of every valid event reads back to that event |
| `NostrEvent.SerializationIsInjective` | internal/platform/nostr.go:158-209 | Valid events with one serialization are one event |
| `NostrEvent.WriteTextOfPlain` | internal/platform/nostr.go:162-169 | Text is written without HTML escaping |
| `NostrEvent.SerializationOfPlain` | internal/platform/nostr.go:158-170 | The very bytes of an event whose key and content need no escapes |
| `NostrEvent.TagsOfPlain` | internal/platform/nostr.go:158-170 | The very bytes of tags |
| `NostrEvent.SerializableIff` | internal/platform/nostr.go:182-209 | Events are valid exactly with the hexadecimal of 32 bytes as key, no negative numbers, no nil slices, UTF-8 text and at most 65536 bytes of content |
| `NostrEvent.LowerHexIs` | internal/platform/nostr.go:276-282 | Lower-case hexadecimal of a length is the encoding of half as many bytes |
| `NostrEvent.ReadArrayOfWriteArray` | internal/platform/nostr.go:158-170 | Arrays of items that read back read back |
| `NostrPublish.NostrConnector.New` | internal/platform/nostr.go:72-93 | Accepts exactly a signer, a publisher and three distinct, well-formed relay IDs |
| `NostrPublish.AllDistinct` | internal/platform/nostr.go:85-91 | Sorting and comparing neighbours finds any repeated relay ID |
| `NostrPublish.NostrConnector.SignNostrEvent` | internal/platform/nostr.go:214-274 | At most one signing request, for a valid event of an allowed kind; returns a signature only for that unchanged event and its ID |
| `NostrPublish.NostrConnector.SignatureIsAcceptedIff` | internal/platform/nostr.go:214-274 | A signed event is accepted exactly if it is the one requested, under its own ID and the signer's key, with 64 bytes of signature |
| `NostrPublish.NostrConnector.Submit` | internal/platform/nostr.go:117-140 | One copy to each relay in order, results aligned with relays, acceptances counted |
| `NostrPublish.SubmissionsAlign` | internal/platform/nostr.go:117-130 | The n-th copy went to the n-th relay, and the n-th result is its own |
| `NostrPublish.NostrConnector.Publish` | internal/platform/nostr.go:98-141 | Either nothing is submitted, or the requested event, signed once, goes once to each relay; COMPLETE, PARTIAL or FAILED as at least 2, 1 or 0 accept |
| `NostrPublish.RelayCodesAreClosed` | internal/platform/nostr.go:143-153 | Result codes come from a closed set whatever relays write, and "ok" means accepted |
| `NostrPublish.QuorumIs` | internal/platform/nostr.go:131-140 | COMPLETE exactly when two of the three relays accept, FAILED exactly when none does, PARTIAL otherwise |
| `NostrPublish.PublishableIs` | internal/platform/nostr.go:100-102 | Text is publishable exactly if it is UTF-8, not blank, and at most 65536 bytes |
| `NostrPublish.RelayIDIs` | internal/platform/nostr.go:79-83 | Relay names are exactly those of at most 128 bytes, not blank, without separators |
| `NostrPublish.IdentifierNamesContent` | internal/platform/nostr.go:173-180 | Without collisions, an event ID names one event |
| `XLength.UrlLengthIsMatch` | internal/platform/x.go:28 | The scanner finds a URL exactly where the pattern matches, as far as it extends |
| `XLength.FindAllUrls` | internal/platform/x.go:253-258 | The leftmost, non-overlapping matches |
| `XLength.XRuneWeight` | internal/platform/x.go:264-281 | The loop adds up the weights of the runes |
| `XLength.XWeightedLength` | internal/platform/x.go:253-262 | The match-and-gap loop computes the left-to-right weight |
| `XLength.WeightAcrossWhitespace` | internal/platform/x.go:253-281 | Whitespace cuts a text: weight(a + c + b) = weight(a) + 1 + weight(b) |
| `XLength.UrlWeighs23` | internal/platform/x.go:253-262 | A URL weighs 23 however long it is, and a scheme alone what its letters weigh |
| `XLength.RuneWeightsAre` | internal/platform/x.go:264-281 | Which code points weigh 1, all others weighing 2 |
| `XLength.ValidateXText` | internal/platform/x.go:233-249 | Accepts exactly valid, non-blank text without forbidden controls whose weight is at most 280 |
| `XPublish.RequestCarriesContent` | internal/platform/x.go:129-137 | The request body reads back to the approved content |
| `XPublish.BodyOfPlain` | internal/platform/x.go:129-133 | The very bytes of the request, for text that needs no escapes |
| `XPublish.RepliesAre` | internal/platform/x.go:145-174 | Every reply is exactly one of success, definite refusal and ambiguous |
| `XPublish.RefusalsAre` | internal/platform/x.go:181-217 | What each refusal is called |
| `XPublish.XConnector.PublishOnce` | internal/platform/x.go:129-175 | One transmission; what each reply does to the receipt and the error |
| `XPublish.XConnector.Publish` | internal/platform/x.go:94-127 | At most two transmissions of one body, counted; the second exactly after status 401 and a usable refreshed token; no error exactly with COMPLETE and a non-blank ID; ambiguous errors leave UNKNOWN |
| `XPublish.RetryAfterUnreadable` | internal/platform/x.go:94-127 | A first 401 with an unreadable or too large body is retried; a definite refusal then leaves UNKNOWN with an error that is not ambiguous |
| `OAuthStates.PurgeChangesNoResult` | internal/platform/xoauth.go:124-131 | Every attempt yields what it would if nothing were ever purged |
| `OAuthStates.RedeemedIffIssued` | internal/platform/xoauth.go:252-267 | An attempt yields a verifier exactly when its state was issued with that verifier and binding less than five minutes ago and not touched since |
| `OAuthStates.AttemptsUseUp` | internal/platform/xoauth.go:252-267 | Any attempt that reaches the lookup uses the state up |
| `OAuthStates.RefusedEvents` | internal/platform/xoauth.go:104-144 | Attempts without a binding or a state of 32 bytes are refused and use nothing up; issuing leaves no expired state behind |
| `OAuthStates.UnpurgedComesFromBegin` | internal/platform/xoauth.go:104-144 | What is pending comes from one Begin that nothing has touched since |
| `OAuthStates.XOAuthManager.Begin` | internal/platform/xoauth.go:104-144 | Purges what has expired, in any order, and adds the new state |
| `OAuthStates.XOAuthManager.ConsumeState` | internal/platform/xoauth.go:252-267 | Removes the state and yields its verifier or nothing |
| `Sealing.OpenInvertsSeal` | internal/secure/envelope.go:52-111 | Opening inverts sealing for every plaintext, context and draw |
| `Sealing.OpenOnlySealed` | internal/secure/envelope.go:77-111 | Opening succeeds only on version, nonce, wrapped key, nonce and ciphertext sealed under the same context |
| `Sealing.SplitOfSealed` | internal/secure/envelope.go:77-101 | The parser finds the parts that the printer wrote |
| `Sealing.FrameLayout` | internal/secure/envelope.go:52-111 | Where each part is with the sizes of AES-GCM; what is shorter, or of another version, is refused |
| `Sealing.OpensInContext` | internal/secure/envelope.go:52-111 | A sealing opens under its own context and no other |
| `Sealing.Envelope.Seal` | internal/secure/envelope.go:52-75 | The appended buffer is a sealing, and opens to the plaintext |
| `Sealing.Envelope.Open` | internal/secure/envelope.go:77-111 | The offsets never leave the input, whatever it is; the result is that of the frame |
| `StoreContexts.StoredTime` | internal/store/sqlite.go:562-569 | What a time becomes in the database and when it keeps its millisecond |
| `StoreContexts.MillisAre` | internal/store/sqlite.go:562-569 | A millisecond count is the distance from the epoch rounded toward the past, and 0 reads back as the zero time |
| `StoreContexts.EpochIs1970` | internal/store/sqlite.go:562 | The epoch is the start of 1970, counted in days |
| `StoreContexts.ContextsAre` | internal/store/sqlite.go:571-577 | The contexts as they are written |
| `StoreContexts.DrawnIDsAreHex` | internal/app/service.go:242-248 | Drawn IDs are 32 hexadecimal digits, and differ when the bytes drawn do |
| `StoreContexts.ReceiptContextInjective` | internal/store/sqlite.go:571-573 | Job ID and millisecond can be told from a receipt context, colons in the ID or not |
| `StoreContexts.ContextInjective` | internal/store/sqlite.go:562-577 | With hexadecimal job IDs no two records share a context |
| `StoreContexts.FreeFormIDsCollide` | internal/app/service.go:242-248 | With other job IDs they could |
| `StoreContexts.ReadContextIsWriteContext` | internal/store/sqlite.go:270-328 | The context on reading is that on writing exactly when the millisecond is not 0 |
| `Recovery.RecentIsSuffix` | internal/auth/passkeys.go:402-414 | The filter keeps exactly the failures newer than fifteen minutes, the end of the record |
| `Recovery.ForgettingIsHarmless` | internal/auth/passkeys.go:402-414 | What a check cuts off no later check would count |
| `Recovery.RunsKeepInv` | internal/auth/passkeys.go:329-420 | Over every run the window is the end of the failures since the last rotation, less only old ones |
| `Recovery.GuessesAreLimited` | internal/auth/passkeys.go:402-420 | One request at a time: between rotations, any six consecutive failures span fifteen minutes |
| `Recovery.LimitedIffFiveRecent` | internal/auth/passkeys.go:329-337 | A login is limited exactly when five failures since the last rotation are newer than fifteen minutes |
| `Recovery.DenialsAreRecorded` | internal/auth/passkeys.go:329-420 | Exactly the denied logins are recorded as failures, and exactly a new code clears them |
| `Recovery.AnswersAre` | internal/auth/passkeys.go:240-375 | When each answer is given |
| `Recovery.OnlyLatestCodeAccepted` | internal/auth/passkeys.go:377-400 | Exactly the most recently issued code is accepted |
| `Recovery.IssueIsAnswered` | internal/auth/passkeys.go:329-375 | A request adds a code exactly under its guard, and its answer shows that code exactly if session and response succeed |
| `Recovery.LastCodeIsLastIssue` | internal/auth/passkeys.go:377-393 | Over any run the code in force is that of the last request that issued one |
| `Recovery.CodeInForceIsShownIff` | internal/auth/passkeys.go:240-283 | Over any run without repeated codes, some answer showed the code in force exactly if the last issuing request, be it login, rotation or bootstrap registration, did not lose it |
| `Recovery.LoginCanLoseCode` | internal/auth/passkeys.go:329-356 | One login after which the old code is refused and no answer ever showed the new one |
| `Recovery.Manager.RegisterFinish` | internal/auth/passkeys.go:240-283 | The end of a registration, bootstrap or not, does to the fields what one step of the run does to the state, with the same answer |
| `RecoveryRace.NextKeepsBound` | internal/auth/passkeys.go:329-356 | Every check, failure and rotation keeps the window and the logins in flight within the bound |
| `RecoveryRace.OverlappingGuessesAreLimited` | internal/auth/passkeys.go:329-420 | With at most m logins in flight, any 5 + m consecutive failures between rotations span fifteen minutes |
| `RecoveryRace.OverlappingGuessesReachTheBound` | internal/auth/passkeys.go:329-356 | For every m a run with at most m logins in flight puts 4 + m failures on one instant |
| `RecoveryRace.AloneIsServed` | internal/auth/passkeys.go:329-356 | A login that overlaps no other does what the serial step does |
| `Recovery.Manager.AllowRecoveryAttempt` | internal/auth/passkeys.go:402-414 | The in-place filter over a shared array keeps exactly the recent failures |
| `Recovery.Manager.RecordRecoveryFailure` | internal/auth/passkeys.go:416-420 | Appends, growing the array when it is full |
| `Recovery.Manager.RotateRecoveryCode` | internal/auth/passkeys.go:377-393 | A lost rotation changes nothing; an issued one replaces the code and clears the failures |
| `Recovery.Manager.RecoveryLogin` | internal/auth/passkeys.go:329-356 | One login, from the passkey gate to the session, does to the fields what one step of the run does to the state, with the same answer |
| `Recovery.Manager.RecoveryRotate` | internal/auth/passkeys.go:358-375 | One request for a new code, likewise |
| `AuthTokens.TableHoldsIssued` | internal/auth/passkeys.go:546-557 | Whatever is in a table was issued; whatever was issued is there unless it had expired when a purge came |
| `AuthTokens.LiveIffIssued` | internal/auth/passkeys.go:546-557 | For an entry within its lifetime, being in the table is having been issued and not touched since: purging changes no answer |
| `AuthTokens.Manager.PurgeLocked` | internal/auth/passkeys.go:546-557 | Purges both tables in any order of their keys |
| `AuthTokens.Manager.BeginCeremony` | internal/auth/passkeys.go:428-441 | Purges, then records the new ceremony |
| `AuthTokens.Manager.ConsumeCeremony` | internal/auth/passkeys.go:460-479 | Gives out a ceremony exactly when it was begun with this token, kind and CSRF token at most five minutes ago and not asked for since; uses it up whatever the answer |
| `AuthTokens.Manager.IssueSession` | internal/auth/passkeys.go:481-497 | Records the new session, then purges |
| `AuthTokens.Manager.SessionForRequest` | internal/auth/passkeys.go:504-518 | Authenticates exactly the token of a session issued less than the lifetime ago and not logged out or replaced since |
| `AuthTokens.Manager.Logout` | internal/auth/passkeys.go:520-531 | After it the token has no session |

## Left out

- HTTP handlers, cookies, templates and the browser code (`internal/web`): user interface.
- SQL text, migrations, connection settings, and failures of the database itself: each statement is one atomic operation on a map.
- The listing of audit events beyond reading one row, and the plain-text mode of the store without a sealer.
- `ReceiptTable.ListedReceiptOpens`: the JSON of a receipt is a pair of functions; the claim is for receipts that survive it, as those with text in UTF-8 do.
- SHA-256, AES-GCM, Schnorr signatures and WebAuthn: abstract functions with stated laws, or not modelled.
- The timer loop of the health monitor, and `probeAll`: runs contain arbitrary probes instead.
- `EgressRuns.RunsAreSafe`: runs contain no `SetHealth`, which can lift a quarantine; the allowed countries do not change after the selector is built.
- `ProbeHistory.EligibleIffHistory`: times are unbounded integers, so a 64-bit overflow of a date thousands of years away is not modelled; the saturation of `Time.Sub` is.
- Error messages are reduced to codes; `Retry-After` and the wrapped causes of errors are not kept.
- `NostrPublish.NostrConnector.Publish`: the timeout of each submission is one of the replies, and the relay authentication event of NIP-42 is only covered as an allowed kind.
- Decoding of OAuth states and cookies from base64: a value arrives decoded, or as none. The exchange and refresh of OAuth tokens, their storage and the check of scopes are not modelled.
- `Recovery.GuessesAreLimited`: requests are handled one after another; `RecoveryRace` has the bound for logins that overlap. In both, the clock does not go back.
- `Recovery.Manager.RecoveryLogin`: the session issued at the end is an outcome here; the table of sessions is `AuthTokens`.
- `AuthTokens.Manager.SessionForRequest`: the clock never goes back from one call to the next.
- The regular expression engine: matches are described by what a match is, and found by a scanner proved to find exactly those.
- `cmd/`, the socket broker and the endpoint catalog: configuration and straight-line gates.
- Listing of jobs, cost text of previews, infrastructure and scripts: no deep property.
