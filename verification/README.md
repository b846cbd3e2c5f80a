# A verified model of the API management stack and its neighbours

A Dafny model of the platform's request gate and of the services that stand beside it, with proofs of what they
promise. `dafny verify dfyconfig.toml` checks everything.

`RateScopes`, `GatewayCounters`, `GatewayOutcomes`, `AiCacheServes`, `ApiKeyRecords`, `AgentMemoryRecords` and `IpGrammar`
say what the modules they are named after decide and write, in the fields of what they are given.

The gate: an API is described by a **catalog** definition, successive definitions are compared by **versioning**, a
**consumer** holds entitlements to a major version, **scopes** say what a credential covers, **rate limits** and
**quotas** count what got that far, and the **gateway** runs the five stages in order and records each request. API
keys carry an **address allowlist** and a lifecycle of their own. Beside the gate: the **AI answer cache**, **agent
memory**, the **agent run** loop, financial **accounts**, and the durable **application catalog** that several
containers seed, load and extend over one table.

Where the source changes state, the model does too: stores and services are classes whose methods are proved against
pure step functions, loops are loops with invariants, and the theorems are about those step functions over every run.
Where it interleaves (quota calls, rate checks, cache lookups, key creations, rotations and revocations, containers of
the application catalog) the model is a state machine over the points at which another caller may run. `JsMap` is a `Map` with its insertion order, `Sorting` is `filter` and the
stable `sort`, `Text` is `split`, `trim` and numerals, `IsoText` the date part of `toISOString`.

## Main results

1. *Releases.* Along a chain of sufficient releases every pair is sufficient, whatever lies between. On one major, a call
   still reaches the same operation exactly when a declaration of that id still answers it and none of another id, old or
   added, is declared ahead of them all; and where it does, every consumer's call is kept exactly when the later version
   is in the same environment, is not retired, and asks for nothing the weakest holder of the old scopes lacks. Which
   requests every compatible release keeps resolving is an iff on the old definition alone.
2. *Quota periods.* The closed-form period is the calendar window, for daily, monthly and annual periods and every reset
   day from 1 to 28, exactly when no year handed to `Date.UTC` lies in 0..99; the windows then tile time.
3. *Quotas under interleaving.* A hard quota admits exactly its limit's worth of unit calls however the calls overlap;
   a mark is reported once when it is positive and reached, and once more for every call that read below it and counted
   after it was reached, so never twice when calls do not overlap. A soft or billable quota admits every call.
4. *Rate limits.* In any order of arrival, and however counters are shared, the pruned log counts what the full history
   holds exactly when nothing still wanted was pruned by a later arrival. In time order and with separate counters it
   never is, so no window-long interval ever lets more than the ceiling through; nor, however checks overlap, when no
   arrival from past the interval is counted ahead of one inside it. Adding limits never allows more, in any order and
   however counters are shared, while nothing a refusing limit still wants has been pruned by another.
   Waiting as advised is enough, whatever the counter held, exactly for a limit per
   second, or a fixed window in its first second.
5. *The gate.* A request counts against exactly the limits that name no other API, operation, consumer or tenant than it
   resolved to, on the counters kept for those; other consumers' calls leave a consumer's limits as they were.
   A quota's total is what was allowed plus what the quota itself refused; earlier refusals cost nothing; windows and
   hard quotas hold through the whole gate; and exactly which requests leave a record, and what it says.
6. *Addresses.* Bitwise matching is equality of blocks of the address space; printing and parsing round-trip for full,
   compressed, dotted and mapped forms, and nothing but those forms is accepted.
7. *Cache.* Every hit is the latest live value its own tenant stored for that input, within what the policy lets be stored
   and for how long, and a lookup answers as an unbounded map would exactly unless a full store has pushed that value out
   since; so a cache never filled loses nothing. What is invalidated stays out, until it is set again, exactly when no lookup that had read it has yet to write it back.
8. *Application catalog.* Under any interleaving, crash and restart, everything served is recorded, one `create` per id
   is acknowledged, and what was acknowledged is served again after a reload. What is served under an id is the row
   itself in every run of given builds and given creates if and only if whatever any seed can write, and whatever can be
   created ahead of its row, agrees with the seeds that load.
9. *Agent memory, agent runs, API keys, accounts.* Caps, eviction by age, isolation and forgetting; bounded runs whose
   promises admit one result for each world; keys that once rejected stay rejected, and what overlapping creations,
   rotations and revocations do to them; closed accounts that stay closed.

## Where the code does not do what is said of it

Each is proved, with the exact condition and a concrete input.

- A compatible release can change what a request reaches, or lose it. `Releases.ResolutionKept` and
  `Releases.StillResolvesExactly` say when; `Releases.AddedFirstCaptures` is a minor release that declares its addition
  first, `Releases.SwappedTakesOver` a patch without a single reported change that swaps two operations. The schema
  refuses a repeated method and path and not a repeated operation id, of which a diff sees only the last declaration:
  `Releases.RepeatedIdLoses` is a patch without changes that drops a route.
- Nor need a call that still reaches its operation stay allowed: `Releases.EveryCallKeptExactly` says for all consumers
  when it does. `Releases.RepeatedIdTightens` and `Releases.HiddenAheadTightens` are patches without changes that put a
  scope on the route reached; in the second no id was repeated before.
- `Scopes.ComposesExactly`: what a scope covers covers nothing more, except for a scope whose resource and action are
  both `*` (`Scopes.CoversNotTransitiveOutsideVocabulary`). The scope in the middle is then the bare `*`, which
  `assertValidScopes` refuses to issue and an entitlement's minimum length of three refuses to hold.
- `QuotaPeriods.PeriodIsCalendarWindow` and `QuotaPeriods.FirstCenturyMisplaced`: years 0..99 are read as 1900..1999.
  `QuotaPeriods.KeyNamesWindow` and `QuotaPeriods.YearTenThousandCollides`: keys cut from ISO text collide for years that
  print with six digits.
- `Quotas.ReportedTwiceExactly` and `Quotas.OverlapReportsTwice`: overlapping calls report one mark twice when one of them
  read below it and counted after it was reached. By `Quotas.ThresholdAlerted` a threshold of zero is never
  reported (`Quotas.ZeroNeverAlerted`).
- `RateLimits.AdviceEnoughExactly`: a caller who is refused and waits as advised can be refused again, unless the limit is
  per second or its fixed window was in its first second. The store slides under either strategy; by
  `RateLimits.AdvisedWait` a fixed limit advises waiting for its window's end and a sliding one always a second.
  `RateLimits.AdviceFallsShort` is one call a minute, under both.
- `RateLimits.CountExactly`: a count falls short exactly when a hit still wanted was pruned by a later arrival.
  `RateLimits.ClockStepsBack` does it with timestamps that go backwards, `RateLimits.SharedCounterForgets` with two limits
  of one id and different windows.
- So adding a limit can let a call through that was refused. `SharedCounters.MoreLimitsNeverAllow` and
  `SharedCounters.WiderLimitsNeverAllow` say when it cannot; `SharedCounters.NarrowerSharedAllows` adds five a second to
  two a minute under one id, and the third call passes.
- Overlapping checks keep a window by `RateRaces.WindowHoldsUnderOverlap`, unless a check is overtaken on a counter:
  `RateRaces.OvertakenPassesCeiling` allows three calls of one second under a limit of two.
- `Gateway.RecordedExactly` and `Gateway.AllowedRecordFits`: a record the schema rejects makes the request fail after it
  was counted, and leaves no record; `Gateway.BilledWithoutRecordHappens` does it with a correlation id of 65 characters.
- `AiCaches.KeyDeterminesInput` and `AiCaches.PlatformSharesKeys`: the platform itself and a tenant named "platform" share
  keys; the entry's own organization is what keeps a hit from crossing.
- `AiCaches.LookupExactly`: a full store loses what an unbounded one would serve. `AiCacheRaces.InvalidatedStaysOutExactly`
  and `AiCacheRaces.InvalidatedComesBack`: a hit writes back the entry it read, and so brings back what was invalidated
  meanwhile; `AiCacheRaces.SetUndoneExactly` and `AiCacheRaces.SetRemoved`: it also undoes, or removes, what was set.
- A tenant id with a colon: `AiCaches.InvalidatedExactly` says whose entries an invalidation drops, and by
  `AiCaches.InvalidationReachesAnother` invalidating tenant "a" drops those of tenant "a:b".
- `IpAllowlist.ReadAsV4Exactly` and `IpAllowlist.GroupsNeverMatchV4`: only the dotted spelling of a mapped address is
  normalised; `IpAllowlist.MappedGroupsRefused` is `::ffff:a00:1` under a rule for 10.0.0.1.
- `AppCatalogAgreement.RowsServedExactly`: a container can serve a definition other than the row, exactly when a seed
  disagrees with one that loads (`AppCatalogDefinitions.SeedingRaceServesAnother`, and
  `AppCatalogDefinitions.PartSeedingServesAnother` where the first need not load, with `AppCatalogAgreement.RefusedSeedRace`
  as the input) or a create that disagrees with a seed can come ahead of its
  row (`AppCatalogDefinitions.CreateRaceServesAnother`, `AppCatalogAgreement.LateCreateServesAnother`). One build with a
  seed is enough: `AppCatalogAgreement.OneBuildServesRowsExactly`, and `AppCatalogAgreement.OneBuildRace` as the input.
- `AgentMemoryRuns.RecallExactly`: expired memories still use up the recall limit, and
  `AgentMemoryRuns.DeadCrowdOutLiveReachably` reaches a store where one hides the only live memory.
- `AgentMemoryRuns.ForgetUserExact`: forgetting the empty user id forgets everybody's
  (`AgentMemoryRuns.EmptyIdForgetsReachably`), and by `AgentMemoryRuns.ForgetConversationExact` the empty conversation id
  every conversation (`AgentMemoryRuns.EmptyConversationForgetsReachably`). `AgentMemoryRuns.NamedElsewhereSurvives`: what is promised to clear
  everything about a person keeps the conversation, session and organization memories that name them
  (`AgentMemoryRuns.NamedElsewhereReachably`).
- `ApiKeys.ReplacementExpiry`: rotating a key that has expired yields one that lives a second longer.
  `ApiKeys.RotationPassesCeiling`: rotating goes past the ceiling on active keys. `ApiKeys.RotatedPastCeilingAndExpiry` is
  a run that does both.
- `ApiKeyCreations.CeilingHoldsExactly` and `ApiKeyCreations.NamesStayApartExactly`: the ceiling on active keys, and one key
  to a name, hold over every run exactly when no two creations of an organization, or of a name, overlap;
  `ApiKeyCreations.TwoAtOnce` breaks both. `ApiKeys.RotatedTwice` and `ApiKeys.RotatedTwiceOneName`: two rotations of a key
  on one day leave two live keys of one name. The database schema holds names unique, and refuses the second of either.
- `ApiKeyRaces.ExpiryMovesLaterExactly` and `ApiKeyRaces.OverlapMovesExpiryLater`: of two overlapping rotations the second
  can move an expiry later (`ApiKeyRaces.OverlapHappens`). `ApiKeyRaces.RotationDecidedAtRead`,
  `ApiKeyRaces.RevocationLeavesReplacement` and `ApiKeyRaces.ReplacementVerifies`: a revocation between a rotation's read
  and its creation leaves the replacement alive (`ApiKeyRaces.RevocationOutlived`).

## Model

| member | source | states |
|---|---|---|
| `Versioning.AnalyseCompatibility` | packages/api-versioning/src/versioning.ts:109-267 | reports exactly the declared differences of two definitions, each once; breaking exactly when callers break, and the bump that follows |
| `Versioning.CompareOperation` | packages/api-versioning/src/versioning.ts:152-236 | for an operation in both definitions, finds exactly its differences, each once |
| `Versioning.VisitOld` | packages/api-versioning/src/versioning.ts:138-236 | after the old operations: every difference about them and the API, none other, none twice |
| `Versioning.VisitNew` | packages/api-versioning/src/versioning.ts:238-247 | adds exactly the operations only the new definition has |
| `Versioning.Summarise` | packages/api-versioning/src/versioning.ts:249-267 | breaking, required bump and sufficiency follow from the differences alone |
| `Versioning.KindsThatBreak` | packages/api-versioning/src/versioning.ts:63-75 | the seven kinds of change that break, and that no other does |
| `Versioning.ChangesInFields` | packages/api-versioning/src/versioning.ts:126-247 | every kind of change in the fields of what is held under its id before and after |
| `Versioning.BreakingExactly` | packages/api-versioning/src/versioning.ts:63-75 | differences are breaking exactly when authentication differs or some held operation is gone, moved, of another verb or idempotency, classified lower, or newly needs a scope |
| `Versioning.RequiredBumpExactly` | packages/api-versioning/src/versioning.ts:249-267 | the bump required is major exactly when callers break, else minor exactly when an id is new, else a patch |
| `Versioning.SufficientExactly` | packages/api-versioning/src/versioning.ts:249-287 | the version moved far enough exactly when it is later, in its major if callers break, in its minor if an id is new |
| `Releases.BumpComposes` | packages/api-versioning/src/versioning.ts:278-287 | the bump between two versions is the larger of the bumps through any version in between |
| `Releases.RequiredBumpComposes` | packages/api-versioning/src/versioning.ts:109-267 | a composite diff requires at most the larger of what its two steps require |
| `Releases.ChainSufficient` | packages/api-versioning/src/versioning.ts:109-287 | if each release of a chain is a sufficient bump over the one before, every pair is |
| `Releases.AuthenticationKept` | packages/api-versioning/src/versioning.ts:126-136 | along a chain on one major, callers authenticate as they did |
| `Releases.CompatibleOperation` | packages/api-versioning/src/versioning.ts:63-75 | what a diff without breaking changes leaves of an operation: it exists, at the same path and verb, as idempotent, no less classified, needing no new scope |
| `Releases.AccessKept` | packages/api-consumer/src/consumer.ts:232-314 | for the operation its id finds: on one major, an allowed call stays allowed at every later release exactly when that release is in the same environment and not retired, for every consumer and instant |
| `Releases.ResolvesToExactly` | packages/api-catalog/src/catalog.ts:342-367 | a request reaches an operation id exactly when a declaration of it answers and none of another id is ahead of them all |
| `Releases.ResolutionKept` | packages/api-catalog/src/catalog.ts:342-367 | across a compatible release a request reaches the same operation exactly when a declaration of its id still answers and none of another id, old or added, overtakes it; one does still answer when the declaration diffed answered |
| `Releases.StillResolvesExactly` | packages/api-versioning/src/versioning.ts:109-267 | a request still resolves at every compatible release exactly when some diffed declaration, the last of its id, answers it |
| `Releases.OnlyAdditionsOvertake` | packages/api-catalog/src/catalog.ts:342-367 | with ids unique and the old order kept, only an added operation can overtake |
| `Releases.AppendingKeepsResolution` | packages/api-catalog/src/catalog.ts:342-367 | a compatible release that only appends leaves a request with its operation, when no id declared up to it is declared again further down |
| `Releases.UniqueIdsHeld` | packages/api-catalog/src/catalog.ts:158-170 | which holds throughout of a definition that repeats no id |
| `Releases.ChainAppends` | packages/api-catalog/src/catalog.ts:342-367 | appending step by step is appending overall |
| `Releases.AllowedAtReached` | packages/api-consumer/src/consumer.ts:232-314 | a call that was allowed and still reaches its operation id is allowed exactly in the same environment, not retired, with the scopes the declaration reached asks for granted |
| `Releases.CallKeptExactly` | packages/api-consumer/src/consumer.ts:106-111 | along a chain on one major: when a working call still resolves, when it reaches the same operation, and when it is then allowed |
| `Releases.EveryCallKeptExactly` | packages/api-keys/src/scopes.ts:103-120 | for all consumers whose entitlements hold a scope: every call is kept exactly when environment and lifecycle allow and the weakest holding of the scopes asked before satisfies those asked now |
| `Releases.CallsKeepWorking` | packages/api-consumer/src/consumer.ts:110-111 | end to end: along sufficient releases that append and repeat no id up to the operation, a call keeps reaching it and keeps being allowed, exactly when the release is in its environment and not retired |
| `Releases.AddedFirstCaptures` | packages/api-catalog/src/catalog.ts:342-367 | concrete minor release, sufficient and order-keeping, whose first-placed addition takes an old request |
| `Releases.SwappedTakesOver` | packages/api-catalog/src/catalog.ts:342-367 | concrete patch with no change reported, which swaps two operations and so re-routes a request |
| `Releases.RepeatedIdLoses` | packages/api-catalog/src/catalog.ts:158-170 | concrete patch with no change reported, after which a route under a repeated id is gone |
| `Releases.RepeatedIdTightens` | packages/api-catalog/src/catalog.ts:158-170 | concrete patch with no change reported, after which such a route requires a scope, and a consumer loses it |
| `Releases.HiddenAheadTightens` | packages/api-catalog/src/catalog.ts:158-170 | the same from a definition that repeats no id |
| `Catalog.VersionRoundTrip` | packages/api-catalog/src/catalog.ts:446-453 | reading the printed version gives back its three numbers |
| `Catalog.FirstAnswer` | packages/api-catalog/src/catalog.ts:342-367 | the first declared operation that answers the verb and path, or none of them does |
| `Catalog.AnswersExactly` | packages/api-catalog/src/catalog.ts:342-367 | an operation answers a verb that is its own in either letter case and a path of as many parts, each the declared one or in place of a parameter, whatever the query; and which paths are refused for their dots |
| `Catalog.ApiClassification` | packages/api-catalog/src/catalog.ts:208-216 | no operation is classified above it, and it is PUBLIC or some operation's own |
| `Catalog.LastDeclarationWins` | packages/api-versioning/src/versioning.ts:109-136 | the `Map` keyed by operation id holds the last declaration of each id |
| `Consumers.FindEntitlement` | packages/api-consumer/src/consumer.ts:232-314 | the first entitlement for the API and the version's major, or there is none |
| `Consumers.AllowedExactly` | packages/api-consumer/src/consumer.ts:232-314 | allowed exactly for an active consumer in the API's environment, a version not retired, and a first entitlement to its major that is unexpired, covers the operation and grants its scopes |
| `Consumers.AllowedEarlier` | packages/api-consumer/src/consumer.ts:232-314 | a call allowed at one instant was decided the same at every earlier one: only expiry depends on time |
| `Scopes.ComposesExactly` | packages/api-keys/src/scopes.ts:103-116 | what a scope covers covers nothing it does not, exactly unless its resource and action are both `*` |
| `Scopes.CoversTransitive` | packages/api-keys/src/scopes.ts:103-116 | so for every scope of the documented form, covering is transitive |
| `Scopes.CoversNotTransitiveOutsideVocabulary` | packages/api-keys/src/scopes.ts:103-116 | with a wildcard resource it is not: three concrete scopes |
| `Scopes.CoversByParts` | packages/api-keys/src/scopes.ts:103-116 | covering is: the same resource, and the action the same, held as a wildcard, or write held for read |
| `Scopes.ValidExactly` | packages/api-keys/src/scopes.ts:36-40 | the scopes the vocabulary permits |
| `Scopes.SatisfyAllTransitive` | packages/api-keys/src/scopes.ts:118-120 | sets of scopes satisfy through an intermediate set |
| `Scopes.SatisfyFewer` | packages/api-keys/src/scopes.ts:118-120 | requiring fewer scopes never loses satisfaction |
| `Scopes.SatisfyThroughWeakest` | packages/api-keys/src/scopes.ts:118-120 | what the weakest holding of some scopes satisfies, every holding of them does |
| `Scopes.WeakestSatisfies` | packages/api-keys/src/scopes.ts:118-120 | and it is such a holding |
| `Calendar.MakeDayIsMonthStart` | packages/api-quota/src/quota.ts:119-144 | the closed form of `Date.UTC` day numbers is the calendar's month start, for every year and month index |
| `Calendar.UtcClosedForm` | packages/api-quota/src/quota.ts:119-144 | `Date.UTC` of year, month and day, out-of-range months included, has a closed form, years 0..99 counting as 1900..1999 |
| `Calendar.CivilAtMidnight` | packages/api-quota/src/quota.ts:119-144 | the civil date of a midnight is the date it was made from |
| `QuotaPeriods.PeriodIsCalendarWindow` | packages/api-quota/src/quota.ts:119-144 | start and end are the calendar boundaries around the instant exactly when no year passed to `Date.UTC` is in 0..99 |
| `QuotaPeriods.InstantInWindow` | packages/api-quota/src/quota.ts:119-144 | start <= at < end exactly when the year asked for the start is not in 0..99 |
| `QuotaPeriods.WindowsTile` | packages/api-quota/src/quota.ts:119-144 | two windows are the same one or do not meet |
| `QuotaPeriods.WindowsAbut` | packages/api-quota/src/quota.ts:119-144 | a window's end is the next window's start |
| `QuotaPeriods.FirstCenturyMisplaced` | packages/api-quota/src/quota.ts:119-144 | in the first century the window does not hold the instant |
| `QuotaPeriods.KeyNamesWindow` | packages/api-quota/src/quota.ts:119-144 | two instants share a period key exactly when they share a window, or are a collision of six-digit years |
| `QuotaPeriods.YearTenThousandCollides` | packages/api-quota/src/quota.ts:119-144 | two instants in different windows with one key |
| `QuotaPeriods.PeriodKeyHasNoColon` | packages/api-quota/src/quota.ts:119-144 | a period key never holds the separator of store keys |
| `QuotaPeriods.KeyReads` | packages/api-quota/src/quota.ts:119-144 | a key reads as the day, month or year its window starts on, in years of four digits |
| `IsoText.DateReads` | packages/api-quota/src/quota.ts:119-144 | the date text of an instant reads as its year, month and day |
| `Quotas.InMemoryQuotaUsageStore.Consume` | packages/api-quota/src/quota.ts:170-187 | adds the calls to one total and returns it; every other total stays |
| `Quotas.StoreKeyInjective` | packages/api-quota/src/quota.ts:170-187 | distinct quotas and periods never share a total |
| `Quotas.Crossed` | packages/api-quota/src/quota.ts:231-270 | the thresholds strictly above the total before and at most the total after |
| `Quotas.ConsumeQuota` | packages/api-quota/src/quota.ts:231-270 | one call alone adds to the total and is told it; in overage exactly past the limit, and refused exactly when so on a hard quota |
| `Quotas.RunKeepsInvariant` | packages/api-quota/src/quota.ts:231-270 | under any interleaving totals are the calls counted, and what a call has read is never above the total |
| `Quotas.HardQuotaHolds` | packages/api-quota/src/quota.ts:231-270 | under any interleaving a hard quota admits at most its limit, and of unit calls exactly the limit's worth |
| `Quotas.SoftQuotaAdmitsAll` | packages/api-quota/src/quota.ts:231-270 | under any interleaving a soft or billable quota admits every call it counts |
| `Quotas.VerdictByTotal` | packages/api-quota/src/quota.ts:231-270 | under any interleaving a call is told the total its own count left, is in overage exactly past the limit, and is refused exactly when so on a hard quota |
| `Quotas.MarkReported` | packages/api-quota/src/quota.ts:231-270 | under any interleaving a mark is reported at least once exactly when it is positive and reached |
| `Quotas.MarkReportedOnce` | packages/api-quota/src/quota.ts:231-270 | without overlap, exactly once |
| `Quotas.ReportsExactly` | packages/api-quota/src/quota.ts:231-270 | under any interleaving the reports of a mark are one if it is positive and reached, plus one for each call that read below it and counted after it was reached |
| `Quotas.ReportedTwiceExactly` | packages/api-quota/src/quota.ts:231-270 | so more than one exactly when there is such a call |
| `Quotas.ThresholdAlerted` | packages/api-quota/src/quota.ts:231-270 | the same of the thresholds the decisions list |
| `Quotas.ZeroNeverAlerted` | packages/api-quota/src/quota.ts:231-270 | a quota with a threshold of zero, counted and not reported |
| `Quotas.OverlapReportsTwice` | packages/api-quota/src/quota.ts:231-270 | two overlapping calls that report one mark twice |
| `RateLimits.InMemoryRateCounterStore.Hit` | packages/api-rate-limit/src/rate-limit.ts:145-169 | keeps what is inside the window, adds this request, returns how many that is |
| `RateLimits.ApplicableLimits` | packages/api-rate-limit/src/rate-limit.ts:185-213 | holds exactly the limits that apply to the request |
| `RateLimits.ApplicableOrdered` | packages/api-rate-limit/src/rate-limit.ts:185-213 | narrowest first, then by priority |
| `RateLimits.ApplicableStable` | packages/api-rate-limit/src/rate-limit.ts:185-213 | ties keep the order they were configured in, none lost or repeated |
| `RateLimits.CounterKeysApart` | packages/api-rate-limit/src/rate-limit.ts:215-228 | limits with distinct colon-free ids never share a counter |
| `RateLimits.DistinctIdsApart` | packages/api-rate-limit/src/rate-limit.ts:215-228 | so a list with distinct such ids has separate counters throughout |
| `RateLimits.CheckRate` | packages/api-rate-limit/src/rate-limit.ts:244-313 | every applicable counter takes the request whatever the outcome; allowed exactly when no refusing limit is above its ceiling; a refusal describes the first breached refusing limit, an allowance the tightest limit, a shadow limit only flags |
| `RateLimits.EvaluateAll` | packages/api-rate-limit/src/rate-limit.ts:244-313 | the same of the loop over the applicable limits |
| `RateLimits.HitAllOwn` | packages/api-rate-limit/src/rate-limit.ts:244-313 | each applicable counter grows by this one request, whatever the decision |
| `RateLimits.CountAtAlone` | packages/api-rate-limit/src/rate-limit.ts:244-313 | what a limit counts does not depend on the limits evaluated before it |
| `RateLimits.HitAllPrunes` | packages/api-rate-limit/src/rate-limit.ts:145-169 | a counter takes exactly the counts made on it, by every limit that shares it, each pruning by its own window |
| `RateLimits.PrunedExactly` | packages/api-rate-limit/src/rate-limit.ts:145-169 | in any order, a pruned list holds what the full one does after a cutoff exactly when no hit after it was pruned by a later arrival; otherwise less |
| `RateLimits.CountExactly` | packages/api-rate-limit/src/rate-limit.ts:145-169 | over any run, in any order and however counters are shared, the stored count is the full one exactly so |
| `RateLimits.PrunedIsFull` | packages/api-rate-limit/src/rate-limit.ts:145-169 | in time order and with separate counters it always is |
| `RateLimits.RateDecisionExact` | packages/api-rate-limit/src/rate-limit.ts:244-313 | a request is allowed exactly when no applicable refusing limit is above its ceiling in the full history |
| `RateLimits.RefusalIsNarrowest` | packages/api-rate-limit/src/rate-limit.ts:244-313 | the limit a refusal names is breached, and no breached refusing limit is narrower or of higher priority |
| `RateLimits.WindowNeverExceeded` | packages/api-rate-limit/src/rate-limit.ts:145-169 | in every interval as long as its window a refusing limit lets through at most `burst ?? limit` |
| `RateLimits.ClockStepsBack` | packages/api-rate-limit/src/rate-limit.ts:145-169 | a counter whose clock steps back, and which undercounts |
| `RateLimits.SharedCounterForgets` | packages/api-rate-limit/src/rate-limit.ts:215-228 | two limits of one id that count each request twice and prune each other, in time order |
| `SharedCounters.CountAtExactly` | packages/api-rate-limit/src/rate-limit.ts:145-169 | the count a limit decides on is the full history's exactly when nothing it still wants was pruned; otherwise less, in any order and with any sharing |
| `SharedCounters.MoreLimitsNeverAllow` | packages/api-rate-limit/src/rate-limit.ts:244-313 | adding limits never turns a refusal into an allowance, in any order and with any sharing, as long as nothing a refusing limit still wants was pruned by another on its counter |
| `SharedCounters.WiderLimitsNeverAllow` | packages/api-rate-limit/src/rate-limit.ts:215-228 | so in time order it never does while no limit is narrower than a refusing one whose counter it shares |
| `SharedCounters.ApartLimitsNeverAllow` | packages/api-rate-limit/src/rate-limit.ts:244-313 | nor, with separate counters, in whatever order the limits are listed |
| `SharedCounters.NarrowerSharedAllows` | packages/api-rate-limit/src/rate-limit.ts:215-228 | calls at 0, 100 and 5000 under two a minute: the third is refused, and allowed once five a second is added under the same id |
| `RateRaces.AloneIsCheck` | packages/api-rate-limit/src/rate-limit.ts:244-313 | a check whose counts nothing interrupts is the check as it runs alone, in its counts and its verdict |
| `RateRaces.RunInvariant` | packages/api-rate-limit/src/rate-limit.ts:113-121 | however checks overlap, each counter holds its counts pruned in turn, and each count returned what those before it leave in the window |
| `RateRaces.WindowHoldsUnderOverlap` | packages/api-rate-limit/src/rate-limit.ts:113-121 | however checks overlap, a refusing limit lets through at most its ceiling in a window-long interval, for each counter, when no arrival from past it was counted ahead of one inside it |
| `RateRaces.OvertakenPassesCeiling` | packages/api-rate-limit/src/rate-limit.ts:145-169 | a schedule in which one is, and three calls pass where two may |
| `RateLimits.AdvisedWait` | packages/api-rate-limit/src/rate-limit.ts:230-242 | what a caller is told to wait under each window strategy |
| `RateLimits.RetryCounts` | packages/api-rate-limit/src/rate-limit.ts:145-169 | a retry fits exactly when the store would count it within the ceiling |
| `RateLimits.WaitEnoughExactly` | packages/api-rate-limit/src/rate-limit.ts:145-169 | waiting is enough whatever the counter held exactly when it is a whole window and the ceiling is not zero |
| `RateLimits.AdviceEnoughExactly` | packages/api-rate-limit/src/rate-limit.ts:262-313 | the advised wait is, exactly for a limit per second or a fixed window in its first second |
| `RateLimits.AdviceFallsShort` | packages/api-rate-limit/src/rate-limit.ts:262-313 | a limit of one a minute under either strategy whose advice is not enough |
| `RateScopes.MovesExactly` | packages/api-rate-limit/src/rate-limit.ts:185-228 | a check moves a counter exactly when a limit whose own ids are absent or the request's keeps it for the request |
| `RateScopes.SharesCounterExactly` | packages/api-rate-limit/src/rate-limit.ts:215-228 | two requests share a limit's counter exactly when they have the same consumer, tenant, consumer and operation, or API, by its scope, or always for a global one; the platform and a tenant named "platform" count as one |
| `RateScopes.OthersDropped` | packages/api-rate-limit/src/rate-limit.ts:185-228 | requests to another API or operation, or of another consumer or tenant, can be dropped from any run: the limit's counter and its verdict on the next request stay |
| `RateScopes.PermitsMeans` | packages/api-rate-limit/src/rate-limit.ts:244-313 | a request is let through exactly when no refusing limit about it finds its ceiling passed |
| `RateScopes.GlobalCountsAll` | packages/api-rate-limit/src/rate-limit.ts:185-228 | a global limit that names nothing counts every request |
| `RateScopes.ScopesInOrder` | packages/api-rate-limit/src/rate-limit.ts:185-213 | endpoint, consumer, tenant, API and global limits are looked at in that order, within a scope by priority |
| `RateScopes.NextCallAllowed` | packages/api-rate-limit/src/rate-limit.ts:244-313 | after so many calls at one instant the next is allowed exactly when the burst, or else the limit, has room, or a whole second, minute, hour or day has gone by |
| `RateScopes.DecisionTells` | packages/api-rate-limit/src/rate-limit.ts:262-313 | what a decision says is left, under which limit, and whether a shadow limit would have refused |
| `Gateway.FirstDenial` | packages/api-policy/src/api-policy.ts:180-189 | the first denying document, and none exactly when none denies |
| `Gateway.ApiGateway.Check` | packages/api-management/src/management.ts:149-342 | one request takes the counters, records and audit trail to the step function's state and returns its result |
| `Gateway.ApiGateway.Conclude` | packages/api-management/src/management.ts:344-411 | records, then audits an entitlement or policy refusal, unless the record is rejected |
| `Gateway.BilledExactly` | packages/api-management/src/management.ts:149-342 | a quota total moves, by one, exactly for a request that got past the rate stage |
| `Gateway.RefusalsDoNotCount` | packages/api-management/src/management.ts:149-342 | catalog, entitlement and policy refusals change no counter; rate refusals change no quota |
| `Gateway.RecordedExactly` | packages/api-management/src/management.ts:344-411 | one record telling the outcome is written exactly when it fits the schema; otherwise the call throws with its counters already moved |
| `Gateway.AllowedRecordFits` | packages/api-management/src/management.ts:61-83 | when an allowed request's record fits |
| `Gateway.BilledWithoutRecord` | packages/api-management/src/management.ts:61-83 | any allowed and metered request with a correlation id of 65 characters is counted and not recorded |
| `Gateway.BilledWithoutRecordHappens` | packages/api-management/src/management.ts:149-342 | an API, a consumer, a quota and a request for which this happens |
| `Gateway.QuotaConserved` | packages/api-management/src/management.ts:149-342 | over any run a quota's total is what it allowed plus what it refused |
| `Gateway.HardQuotaAtGate` | packages/api-management/src/management.ts:149-342 | over any run the requests allowed under a hard quota are the smaller of its limit and its total |
| `Gateway.SoftQuotaAtGate` | packages/api-management/src/management.ts:280-310 | over any run a soft or billable quota refuses nothing, and what it allowed is its total |
| `Gateway.SharedTotalExactly` | packages/api-management/src/management.ts:280-310 | two calls are billed to one total exactly when their quotas have one id and they fall in one calendar window, in years of four digits |
| `Gateway.RateSeesAuthorized` | packages/api-management/src/management.ts:149-342 | rate counters are exactly those of the requests that passed the first three stages |
| `Gateway.WindowHoldsAtGate` | packages/api-management/src/management.ts:149-342 | through the whole gate no window-long interval exceeds a refusing limit's ceiling |
| `Gateway.OneRecordPerRequest` | packages/api-management/src/management.ts:149-411 | when records fit, a run leaves one record per request, in order, matching its outcome |
| `GatewayCounters.CountsExactly` | packages/api-management/src/management.ts:249-260 | a request moves a counter exactly when it got past three stages and a limit that names no other API, operation, consumer or tenant keeps it for the ones resolved to; the counter's text in full |
| `GatewayCounters.ConsumersApart` | packages/api-management/src/management.ts:249-260 | without every other consumer's calls a consumer's own counters hold the same, over any run |
| `GatewayCounters.RefusedByOwnCalls` | packages/api-management/src/management.ts:249-278 | where every limit is per consumer, whether a call is rate limited depends on that consumer's calls alone |
| `GatewayCounters.WindowHoldsInFields` | packages/api-management/src/management.ts:249-278 | in no second, minute, hour or day does a refusing limit let more through than its burst, or else its limit, for what it is kept for |
| `GatewayOutcomes.StagesInOrder` | packages/api-management/src/management.ts:149-342 | which stage refuses and with what code: each only past the ones before it |
| `GatewayOutcomes.AccessRefusedFor` | packages/api-consumer/src/consumer.ts:232-314 | the reason a known consumer is refused a known operation is the first that holds, by its code |
| `GatewayOutcomes.RecordInFields` | packages/api-management/src/management.ts:313-378 | every field of the record of a request, allowed or refused |
| `GatewayOutcomes.AuditedExactly` | packages/api-management/src/management.ts:380-398 | an access or policy refusal is entered in the audit trail with its consumer, stage and code; nothing else is |
| `GatewayOutcomes.ThrowsExactly` | packages/api-management/src/management.ts:61-83 | a request fails after it was decided exactly when a field of its record is out of its schema's bounds |
| `IpAllowlist.ReadIpv4` | packages/api-keys/src/ip-allowlist.ts:116-129 | the loop over four parts reads exactly what the grammar of dotted quads does |
| `IpAllowlist.AssembleInPlace` | packages/api-keys/src/ip-allowlist.ts:131-173 | the sixteen bytes written in place are the groups left of `::`, zeros, the groups right of it |
| `IpAllowlist.GroupOfBytes` | packages/api-keys/src/ip-allowlist.ts:131-173 | two bytes give back the group they were split from |
| `IpAllowlist.Matches` | packages/api-keys/src/ip-allowlist.ts:181-197 | the byte-and-mask loop decides agreement on the leading bits |
| `IpAllowlist.MaskedByte` | packages/api-keys/src/ip-allowlist.ts:181-197 | masking two bytes alike with the top n bits set is comparing their leading n bits |
| `IpAllowlist.MatchIsSameBlock` | packages/api-keys/src/ip-allowlist.ts:181-197 | matching is: same family, and equal floor(address / 2^(W-p)) |
| `IpAllowlist.AddressAllowedExactly` | packages/api-keys/src/ip-allowlist.ts:34-45 | allowed exactly when the list is empty or some entry parses and its block holds the address |
| `IpAllowlist.MatchMonotoneInPrefix` | packages/api-keys/src/ip-allowlist.ts:181-197 | what matches a prefix matches every shorter one |
| `IpAllowlist.HostBitsIrrelevant` | packages/api-keys/src/ip-allowlist.ts:181-197 | rules of one block match the same addresses |
| `IpAllowlist.FullFormRoundTrip` | packages/api-keys/src/ip-allowlist.ts:104-178 | eight printed groups parse to their sixteen bytes |
| `IpAllowlist.CompressedFormRoundTrip` | packages/api-keys/src/ip-allowlist.ts:104-178 | so they do with any one run of zero groups written `::` |
| `IpAllowlist.PrintedGroupsSpell` | packages/api-keys/src/ip-allowlist.ts:104-178 | a group printed in hex is read back as itself |
| `IpAllowlist.DottedAndMappedRoundTrip` | packages/api-keys/src/ip-allowlist.ts:104-129 | a dotted quad and its `::ffff:` form parse to the same four bytes |
| `IpAllowlist.ReadAsV4Exactly` | packages/api-keys/src/ip-allowlist.ts:104-114 | a text is read as IPv4 exactly when it is dotted, or dotted after `::ffff:` |
| `IpAllowlist.GroupsNeverMatchV4` | packages/api-keys/src/ip-allowlist.ts:104-197 | an address spelled in groups, in full or compressed, matches no IPv4 rule, mapped or not |
| `IpAllowlist.MappedGroupsRefused` | packages/api-keys/src/ip-allowlist.ts:34-45 | a rule for 10.0.0.1 admits `::ffff:10.0.0.1` and refuses `::ffff:a00:1` |
| `IpGrammar.Ipv4Exactly` | packages/api-keys/src/ip-allowlist.ts:116-129 | four numbers of one to three digits and at most 255 joined by dots, and nothing else, are an IPv4 address |
| `IpGrammar.Ipv6Exactly` | packages/api-keys/src/ip-allowlist.ts:131-178 | eight groups of one to four hex digits, or no more than eight about one double colon, and nothing else, are an IPv6 address, brackets aside |
| `IpGrammar.BracketsDoNotMatter` | packages/api-keys/src/ip-allowlist.ts:131-134 | brackets about an address make no difference |
| `IpGrammar.MappedExactly` | packages/api-keys/src/ip-allowlist.ts:104-114 | only `::ffff:` in any letter case ahead of four short numbers makes a mapped address |
| `IpGrammar.CidrExactly` | packages/api-keys/src/ip-allowlist.ts:78-96 | a range is an address with every bit, or with a prefix length no longer than it |
| `IpGrammar.SecondSlashEnds` | packages/api-keys/src/ip-allowlist.ts:78-80 | what follows a second slash is not looked at |
| `AiCaches.KeyDeterminesInput` | packages/ai-cache/src/cache.ts:89-106 | two inputs share a key exactly when they agree on everything, the platform counting as a tenant named "platform" |
| `AiCaches.PlatformSharesKeys` | packages/ai-cache/src/cache.ts:89-106 | the platform and a tenant named "platform" share every key |
| `AiCaches.InvalidatedExactly` | packages/ai-cache/src/cache.ts:396-411 | an organization's invalidation drops its own entries, those of ids that extend its id past a colon, and those of one kind when its id ends in that kind |
| `AiCaches.InvalidationReachesAnother` | packages/ai-cache/src/cache.ts:396-411 | invalidating "a" drops the entries of "a:b" |
| `AiCaches.AiCache.Get` | packages/ai-cache/src/cache.ts:190-242 | a lookup's result and the entries and counters it leaves |
| `AiCaches.AiCache.Set` | packages/ai-cache/src/cache.ts:251-295 | which values are stored, until when, and what is pushed out |
| `AiCaches.InMemoryCacheStore.Put` | packages/ai-cache/src/cache.ts:380-390 | a new key in a full store evicts the oldest entry, an old one keeps its place |
| `AiCaches.RunRefines` | packages/ai-cache/src/cache.ts:190-331 | in every reachable state each entry is what an unbounded map of latest sets holds for its tenant's input |
| `AiCaches.HitIsLatest` | packages/ai-cache/src/cache.ts:190-242 | a hit returns the latest unexpired, uninvalidated value that tenant set for that input |
| `AiCaches.SizeBounded` | packages/ai-cache/src/cache.ts:371-390 | never more than max(1, maxEntries) entries, nor more than sets |
| `AiCaches.LookupsAccounted` | packages/ai-cache/src/cache.ts:190-242 | hits, misses and skipped add up to the lookups |
| `AiCaches.LookupExactly` | packages/ai-cache/src/cache.ts:190-331 | with ids the key text cannot confuse, a lookup answers as an unbounded map of latest sets does exactly unless the value is live there and a full store has pushed it out since it was set |
| `AiCaches.ExactUntilFull` | packages/ai-cache/src/cache.ts:190-331 | so while no set has found the store full and its key absent, every lookup does |
| `AiCaches.FewSetsNeverFill` | packages/ai-cache/src/cache.ts:380-390 | which is so when there have been no more sets than there is room |
| `AiCacheServes.ServedWasSet` | packages/ai-cache/src/cache.ts:190-295 | whatever is served was set by that tenant for that input, enabled and allowed, no longer than permitted, without personal data where that is skipped, and within its own or the policy's time to live |
| `AiCacheServes.SetServedExactly` | packages/ai-cache/src/cache.ts:251-295 | from any state, a set that meets these is served until its time is up and not after; one that fails any changes nothing |
| `AiCacheServes.SavingsCredited` | packages/ai-cache/src/cache.ts:233-235 | a lookup that serves it credits the cost and tokens it was set with |
| `AiCacheServes.PushedOutExactly` | packages/ai-cache/src/cache.ts:380-390 | a new key goes last and pushes the first out of a full store; an old key keeps its place |
| `AiCacheServes.CountersExactly` | packages/ai-cache/src/cache.ts:190-295 | over any run hits, misses, skipped and writes are the lookups served, not served, not asked, and the sets stored |
| `AiCacheServes.LookupLeaves` | packages/ai-cache/src/cache.ts:190-242 | what a lookup leaves of the entry it finds, and what it credits |
| `AiCacheServes.DropsExactly` | packages/ai-cache/src/cache.ts:303-331 | which entries an invalidation or a purge drops, each counted as an eviction |
| `AiCacheRaces.AloneIsGet` | packages/ai-cache/src/cache.ts:190-242 | a read and what follows it, with nothing in between, are the lookup as it runs alone |
| `AiCacheRaces.OthersAreWhole` | packages/ai-cache/src/cache.ts:251-331 | every other operation does to the entries what it does alone |
| `AiCacheRaces.InvalidatedStaysOutExactly` | packages/ai-cache/src/cache.ts:303-324 | what an invalidation drops stays out, in every run that does not set it, exactly when no lookup that had read an entry under the prefix has yet to write it back |
| `AiCacheRaces.InvalidatedComesBack` | packages/ai-cache/src/cache.ts:190-242 | for any cache, tenant and value: invalidated between a lookup's read and its write, the entry is back and is served |
| `AiCacheRaces.SetUndoneExactly` | packages/ai-cache/src/cache.ts:190-242 | a write-back undoes a set that came in between exactly when that set another value or expiry |
| `AiCacheRaces.SetRemoved` | packages/ai-cache/src/cache.ts:201-208 | a lookup that read an expired entry removes a value set since |
| `AppCatalogs.InternalApplicationTable.Create` | apps/governance-tool/src/persistent-app-catalog.ts:126-151 | an insert under the unique constraint |
| `AppCatalogs.PersistentAppCatalog.Register` | apps/governance-tool/src/persistent-app-catalog.ts:168-178 | refused while sealed, otherwise as inherited; never touches the table |
| `AppCatalogs.PersistentAppCatalog.Create` | apps/governance-tool/src/persistent-app-catalog.ts:126-159 | row before map, each failure leaving both as they were; the catalog is sealed again |
| `AppCatalogs.PersistentAppCatalog.WriteSeed` | apps/governance-tool/src/persistent-app-catalog.ts:51-117 | every seed id has a row afterwards, earlier rows standing |
| `AppCatalogs.PersistentAppCatalog.Load` | apps/governance-tool/src/persistent-app-catalog.ts:51-117 | serves the rows that still parse, or writes and serves the seed, or with neither serves nothing; a seed that does not load is written and not served |
| `AppCatalogs.RegisterAll` | packages/governance-tool-core/src/catalog.ts:26-43 | the map of a list, each application under its own key, none when one is invalid or repeated |
| `AppCatalogs.RegistersExactly` | packages/governance-tool-core/src/catalog.ts:26-43 | a list registers exactly when everything in it validates and no two share an environment and an id |
| `AppCatalogRuns.RunInvariant` | apps/governance-tool/src/persistent-app-catalog.ts:51-159 | in every reachable state of any number of containers: what is served or acknowledged is recorded, and one writer owes each unacknowledged row |
| `AppCatalogRuns.AloneCreates` | apps/governance-tool/src/persistent-app-catalog.ts:126-159 | the steps of a create with nothing in between: refused, in conflict, or recorded, served and acknowledged |
| `AppCatalogRuns.AloneLooks` | apps/governance-tool/src/persistent-app-catalog.ts:51-117 | what a container does when it first looks: serve the rows that parse, or nothing, or go on to seed |
| `AppCatalogRuns.FailuresLeave` | apps/governance-tool/src/persistent-app-catalog.ts:126-151 | what a crash, and an insert that fails, leave |
| `AppCatalogRuns.ServedIsRecorded` | apps/governance-tool/src/persistent-app-catalog.ts:119-126 | every served id is a row, whatever its definition |
| `AppCatalogRuns.OneCreatePerId` | apps/governance-tool/src/persistent-app-catalog.ts:126-159 | at most one create per id is acknowledged |
| `AppCatalogRuns.WrittenIsAcknowledged` | apps/governance-tool/src/persistent-app-catalog.ts:153-158 | once the row is in, registering cannot fail |
| `AppCatalogRuns.RowsOutlive` | apps/governance-tool/src/persistent-app-catalog.ts:51-159 | no step changes or removes a row |
| `AppCatalogRuns.AcknowledgedSurvives` | apps/governance-tool/src/persistent-app-catalog.ts:51-117 | after any crashes, a reload serves an acknowledged application whose row still parses |
| `AppCatalogRuns.LostCreateIsRecorded` | apps/governance-tool/src/persistent-app-catalog.ts:126-151 | a create whose insert commits and then fails is recorded, unserved, and refused when asked again |
| `AppCatalogDefinitions.LoadedServesRows` | apps/governance-tool/src/persistent-app-catalog.ts:51-117 | a container that found rows serves every row that parses and nothing but rows, until it crashes |
| `AppCatalogDefinitions.ServedIsTheRow` | apps/governance-tool/src/persistent-app-catalog.ts:51-159 | every container serves the rows themselves in every run whose seeds give one definition per id that no create reuses for another |
| `AppCatalogDefinitions.SeedingRaceServesAnother` | apps/governance-tool/src/persistent-app-catalog.ts:51-117 | any two seeds that load and disagree yield a run in which a container serves what is not the row |
| `AppCatalogDefinitions.PartSeedingServesAnother` | apps/governance-tool/src/persistent-app-catalog.ts:65-82 | so does a seed that need not load, when what it writes first under an id is not what a seed that loads has under it |
| `AppCatalogDefinitions.CreateRaceServesAnother` | apps/governance-tool/src/persistent-app-catalog.ts:126-159 | so does a create, by a container with nothing to seed, that takes a seeded id for another definition |
| `AppCatalogAgreement.RunTraced` | apps/governance-tool/src/persistent-app-catalog.ts:51-159 | in every run of given builds and creates, an id no first row can do without is recorded as soon as anything is |
| `AppCatalogAgreement.LateCreateServesAnother` | apps/governance-tool/src/persistent-app-catalog.ts:51-159 | a create after the first row and ahead of a seeded id's own yields a run in which a container serves what is not the row |
| `AppCatalogAgreement.RowsServedExactly` | apps/governance-tool/src/persistent-app-catalog.ts:51-159 | for builds, loading or not, and creates: every run of them serves the rows if and only if whatever a seed can write, and whatever can be created ahead of its row, agrees with the seeds that load |
| `AppCatalogAgreement.RowsServedExactlyWhenSeedsAgree` | apps/governance-tool/src/persistent-app-catalog.ts:51-117 | in runs that create nothing: if and only if the seeds do |
| `AppCatalogAgreement.LoadingSeedsAgreeExactly` | apps/governance-tool/src/persistent-app-catalog.ts:51-117 | where every seed loads, that is one definition per id |
| `AppCatalogAgreement.OneBuildServesRowsExactly` | apps/governance-tool/src/persistent-app-catalog.ts:51-159 | for one build with a seed: if and only if its seed agrees with itself and every create it accepts agrees with it or has the id of its first application |
| `AppCatalogAgreement.OneBuildRace` | apps/governance-tool/src/persistent-app-catalog.ts:51-159 | containers of one build and one create, and a run in which they serve two definitions |
| `AppCatalogAgreement.RefusedSeedRace` | apps/governance-tool/src/persistent-app-catalog.ts:65-82 | a build whose seed is written and refused, beside one that loads, and a run in which the second serves what is not the row |
| `AgentMemory.InMemoryMemoryStore.Find` | packages/agent-memory/src/testing.ts:18-61 | only visible stored entries, most recent first, at most the limit, and a visible one left out only when that many at least as recent are not |
| `AgentMemory.InMemoryMemoryStore.DeleteScope` | packages/agent-memory/src/testing.ts:69-90 | exactly the entries of the scope go, and the count is how many |
| `AgentMemory.InMemoryMemoryStore.Touch` | packages/agent-memory/src/testing.ts:105-111 | each id found is accessed now, once more |
| `AgentMemory.MemoryService.Remember` | packages/agent-memory/src/memory.ts:187-250 | the refusals in order, then room is made and the entry stored |
| `AgentMemory.MemoryService.EnforceScopeLimit` | packages/agent-memory/src/memory.ts:364-383 | deletes exactly the excess of the subject, oldest first |
| `AgentMemory.MemoryService.Recall` | packages/agent-memory/src/memory.ts:263-296 | what is recalled, and that exactly that is touched |
| `AgentMemory.MemoryService.ForgetUser` | packages/agent-memory/src/memory.ts:339-352 | both durable scopes are swept, and the count is what went |
| `AgentMemory.MemoryService.ForgetConversation` | packages/agent-memory/src/memory.ts:324-331 | the conversation scope is swept, and the count is what went |
| `AgentMemoryRecords.RememberedExactly` | packages/agent-memory/src/memory.ts:187-250 | what a memory is refused for, or the entry it is stored as, with its time to live |
| `AgentMemoryRecords.RememberedStays` | packages/agent-memory/src/memory.ts:187-250 | a refused memory changes nothing and a stored one is there as answered |
| `AgentMemoryRecords.SameSubjectExactly` | packages/agent-memory/src/memory.ts:364-372 | the cap counts together one tenant, one scope, and the user, conversation or session the scope is for |
| `AgentMemoryRecords.RecalledExactly` | packages/agent-memory/src/memory.ts:263-296 | while the limit has room for all a recall may see, it returns exactly what of that is live |
| `AgentMemoryRecords.MaySeeIsVisible` | packages/agent-memory/src/testing.ts:18-61 | what a recall may see: the tenant's, in a readable scope, about a subject named, for the agent, and matching |
| `AgentMemoryRecords.RecallTouches` | packages/agent-memory/src/testing.ts:105-111 | exactly what a recall returns is marked used, now and once more |
| `AgentMemoryRecords.DroppedExactly` | packages/agent-memory/src/testing.ts:63-103 | forgetting one memory takes it only from its own tenant; a purge takes what has expired |
| `AgentMemoryRuns.RememberEvictsOldest` | packages/agent-memory/src/memory.ts:364-383 | only entries of the same subject make room, as many as needed, none accessed later than a survivor |
| `AgentMemoryRuns.RememberKeepsOthers` | packages/agent-memory/src/memory.ts:187-250 | the subject then holds one more or exactly its cap; every other subject is untouched |
| `AgentMemoryRuns.RunInvariant` | packages/agent-memory/src/memory.ts:364-417 | after any run no subject exceeds the cap and every scoped entry names its subject |
| `AgentMemoryRuns.RecallIsolated` | packages/agent-memory/src/memory.ts:263-296 | nothing recalled is expired, of another tenant, an unreadable scope, or a subject the caller did not name; most recent first |
| `AgentMemoryRuns.RecallMissesOnlyOlder` | packages/agent-memory/src/testing.ts:18-61 | a live visible entry is left out only when the limit is filled by entries at least as recent |
| `AgentMemoryRuns.RecallExactly` | packages/agent-memory/src/memory.ts:263-296 | after any run a recall is the first live memories up to its limit exactly when all within the limit are live or none past it is |
| `AgentMemoryRuns.DeadCrowdOutLive` | packages/agent-memory/src/memory.ts:263-296 | with room for one, a more recent dead entry hides the live one |
| `AgentMemoryRuns.DeadCrowdOutLiveReachably` | packages/agent-memory/src/memory.ts:263-296 | two calls reach such a store |
| `AgentMemoryRuns.ForgetUserExact` | packages/agent-memory/src/memory.ts:339-352 | exactly that person's durable entries go, if and only if the id is not empty or the tenant has none |
| `AgentMemoryRuns.EmptyIdForgetsReachably` | packages/agent-memory/src/memory.ts:339-352 | a reachable store in which the empty id forgets somebody |
| `AgentMemoryRuns.ForgetConversationExact` | packages/agent-memory/src/memory.ts:324-331 | exactly that conversation's own entries go, if and only if the id is not empty or the tenant has no conversation memories |
| `AgentMemoryRuns.EmptyConversationForgetsReachably` | packages/agent-memory/src/memory.ts:324-331 | a reachable store in which the empty id ends a conversation |
| `AgentMemoryRuns.NamedElsewhereSurvives` | packages/agent-memory/src/memory.ts:327-352 | a memory that names the person survives exactly in conversation, session and organization scope |
| `AgentMemoryRuns.NamedElsewhereReachably` | packages/agent-memory/src/memory.ts:327-352 | a reachable store in which one does |
| `AgentRuns.Run` | packages/agent-runtime/src/runtime.ts:157-366 | at most the tighter step limit; no call, recorded or lost, begun late, cancelled or over budget; each call sent the whole conversation; the stop reason, limit, output, totals and error fit what happened |
| `AgentRuns.Loop` | packages/agent-runtime/src/runtime.ts:188-357 | the same of the loop with the exceptions it catches |
| `AgentRuns.Conclude` | packages/agent-runtime/src/runtime.ts:278-303 | an answer without tool calls ends the run; a truncated one is not an answer |
| `AgentRuns.RunTools` | packages/agent-runtime/src/runtime.ts:306-327 | fails exactly when executing or recording a result throws |
| `AgentRuns.OvershootIsOneCall` | packages/agent-runtime/src/runtime.ts:199-256 | however a run ends, its token budget is overshot by at most the last call made |
| `AgentRuns.TranscriptExtends` | packages/agent-runtime/src/runtime.ts:215-327 | every conversation sent extends the earlier ones unchanged |
| `AgentRuns.ResultDetermined` | packages/agent-runtime/src/runtime.ts:157-366 | what is promised of a run admits one result for each world and limits |
| `AgentRuns.BegunInTime` | packages/agent-runtime/src/runtime.ts:188-212 | no step begins cancelled, past the agent's own time or the policy's, or with the agent's tokens spent; nor are there more than either allows |
| `AgentRuns.StepRecords` | packages/agent-runtime/src/runtime.ts:215-327 | each step is the reply to the whole conversation before it, recorded, with its tools' answers recorded, and only the last one stops the run |
| `AgentRuns.StoppedMeans` | packages/agent-runtime/src/runtime.ts:188-366 | what each way of stopping says of the last step, the output, and of what would have come next |
| `AgentRuns.AnswerIsComplete` | packages/agent-runtime/src/runtime.ts:278-303 | an answer cut off is never taken for one |
| `AgentRuns.TokensAddUp` | packages/agent-runtime/src/runtime.ts:215-256 | the budget counts every recorded step's tokens, and the cost every step's |
| `ApiKeys.InMemoryApiKeyStore.Create` | packages/api-keys/src/in-memory-store.ts:53-68 | stores the record under the next id |
| `ApiKeys.ApiKeyService.Create` | packages/api-keys/src/service.ts:117-176 | the refusals in order, otherwise the new record |
| `ApiKeys.ApiKeyService.Revoke` | packages/api-keys/src/service.ts:208-237 | revoked, and a second time changes nothing |
| `ApiKeys.ApiKeyService.Rotate` | packages/api-keys/src/service.ts:250-313 | a replacement and an expiry for the original, or an error and no change |
| `ApiKeys.ApiKeyService.Verify` | packages/api-keys/src/service.ts:327-443 | the verdict by the checks in order, and a use recorded only when verified |
| `ApiKeys.NextIdIsNew` | packages/api-keys/src/in-memory-store.ts:53-68 | counter ids never collide |
| `ApiKeyRecords.CreateRefusedFor` | packages/api-keys/src/service.ts:117-134 | why a creation is refused: the first of its checks that fails, names and unrevoked keys counted over the organization |
| `ApiKeyRecords.CreatedRecord` | packages/api-keys/src/service.ts:136-152 | the one record a creation writes, field by field, and when it expires |
| `ApiKeyRecords.RevokedRecord` | packages/api-keys/src/service.ts:208-237 | a revocation marks one unrevoked key of its own organization and nothing else |
| `ApiKeyRecords.RotateRefusedFor` | packages/api-keys/src/service.ts:250-285 | why a rotation is refused |
| `ApiKeyRecords.ReplacementRecord` | packages/api-keys/src/service.ts:264-285 | the replacement a rotation issues, field by field |
| `ApiKeyRecords.VerdictExactly` | packages/api-keys/src/service.ts:327-443 | what a presented key is told: the first check that fails, of the first record under its hash |
| `ApiKeyRecords.JudgedAs` | packages/api-keys/src/service.ts:327-443 | when that record is revoked, expired, closed to the address, or without an organization |
| `ApiKeyRecords.UsedRecord` | packages/api-keys/src/service.ts:327-443 | a key that verifies is marked used, when and from where, once more; one that does not leaves no trace |
| `ApiKeyRecords.UsesCounted` | packages/api-keys/src/service.ts:327-443 | over any run a key's count of uses is the verifications that accepted it |
| `ApiKeys.CreateKeepsCeiling` | packages/api-keys/src/service.ts:117-134 | a created key leaves its organization within the ceiling on active keys |
| `ApiKeys.RotationPassesCeiling` | packages/api-keys/src/service.ts:250-313 | a rotation adds one active key whatever the ceiling |
| `ApiKeys.VerifiedExactly` | packages/api-keys/src/service.ts:327-443 | accepted exactly when well formed, of this environment, of an available organization, and the first record under its hash is unrevoked, unexpired and open to the address |
| `ApiKeys.RunIsLater` | packages/api-keys/src/service.ts:208-313 | along any run expiries only move earlier, revocations stay, no record is lost, reordered or re-keyed |
| `ApiKeys.RejectedStaysRejected` | packages/api-keys/src/service.ts:327-443 | rejected once as revoked or expired, a key never verifies at that instant or later |
| `ApiKeys.RotatedRecord` | packages/api-keys/src/service.ts:250-313 | rotation changes only the original's expiry and adds one record with the same organization, scopes and addresses |
| `ApiKeys.RotatedStops` | packages/api-keys/src/service.ts:250-313 | a rotated key stops by the end of its grace period, whatever follows |
| `ApiKeys.GraceKeepsWorking` | packages/api-keys/src/service.ts:250-313 | before that it verifies exactly as it did |
| `ApiKeys.ReplacementExpiry` | packages/api-keys/src/service.ts:451-475 | the replacement expires no later than the original exactly when the original had a second left |
| `ApiKeys.RotatedNamesExactly` | packages/api-keys/src/service.ts:270 | two rotations name their replacements alike exactly when they are on one day, in years of four digits |
| `ApiKeys.RotatedTwice` | packages/api-keys/src/service.ts:250-313 | a key rotated twice has two unrevoked replacements, of one name exactly when it was on one day |
| `ApiKeys.RotatedTwiceOneName` | packages/api-keys/src/service.ts:122-126 | a run of one creation and two rotations after which two live keys share a name |
| `ApiKeys.RotatedPastCeilingAndExpiry` | packages/api-keys/src/service.ts:250-313 | a run that rotates an expired key of an organization at its ceiling |
| `ApiKeyRaces.RevocationStays` | packages/api-keys/src/service.ts:208-313 | however rotations and revocations overlap, no key changes what it is and none comes back from revocation |
| `ApiKeyRaces.AloneIsRotate` | packages/api-keys/src/service.ts:250-313 | the steps of a rotation with nothing in between are the rotation as it runs alone |
| `ApiKeyRaces.AloneIsRevoke` | packages/api-keys/src/service.ts:208-237 | and those of a revocation the revocation |
| `ApiKeyRaces.ExpiryMovesLaterExactly` | packages/api-keys/src/service.ts:287-296 | in any state of any interleaving, a step moves an expiry later exactly when it writes by a read whose expiry, and whose grace, end later than what is stored |
| `ApiKeyRaces.AloneNeverLater` | packages/api-keys/src/service.ts:250-313 | a rotation that encloses no other write to the key's expiry never does |
| `ApiKeyRaces.OverlapMovesExpiryLater` | packages/api-keys/src/service.ts:250-313 | of two rotations that both read first, the second write moves the expiry later exactly when the key was not to stop within the first grace period, and by no more than the time between them |
| `ApiKeyRaces.OverlapHappens` | packages/api-keys/src/service.ts:250-313 | a key created for an hour and rotated by two callers ten seconds apart, whose expiry moves later |
| `ApiKeyRaces.ReplacementIgnoresRevocation` | packages/api-keys/src/service.ts:259-285 | a rotation that has read creates its replacement unrevoked, whatever was revoked since |
| `ApiKeyRaces.RotationDecidedAtRead` | packages/api-keys/src/service.ts:255-285 | whatever runs between a rotation's read and its creation, a replacement is created exactly when the read found the key unrevoked and the lifetime left is permitted |
| `ApiKeyRaces.RevocationLeavesReplacement` | packages/api-keys/src/service.ts:208-313 | a run in which the key is revoked midway: the key is revoked, the replacement is not |
| `ApiKeyRaces.ReplacementVerifies` | packages/api-keys/src/service.ts:327-443 | and is accepted wherever the key was, until its own expiry |
| `ApiKeyRaces.RevocationOutlived` | packages/api-keys/src/service.ts:208-313 | that key revoked while being rotated, and a replacement that verifies for the rest of the hour |
| `ApiKeyCreations.AloneIsCreate` | packages/api-keys/src/service.ts:117-176 | the steps of a creation with nothing in between are the creation as it runs alone |
| `ApiKeyCreations.CeilingWithOverlap` | packages/api-keys/src/service.ts:128-134 | with at most `m` creations of an organization past their count at once, its active keys never pass the ceiling by more than `m - 1`, whatever runs but rotations |
| `ApiKeyCreations.NamesWithOverlap` | packages/api-keys/src/service.ts:122-126 | with at most `m` creations of a name under way at once, no more than `m` keys bear it |
| `ApiKeyCreations.OverlapAddsUp` | packages/api-keys/src/service.ts:117-176 | where one creation would be allowed, any number of the same key at once all are, and count and name grow by as many |
| `ApiKeyCreations.CeilingHoldsExactly` | packages/api-keys/src/service.ts:128-134 | one key short of the ceiling, it holds over every such run if and only if `m` is at most one |
| `ApiKeyCreations.NamesStayApartExactly` | packages/api-keys/src/service.ts:122-126 | names stay apart over every such run if and only if `m` is at most one |
| `ApiKeyCreations.TwoAtOnce` | packages/api-keys/src/service.ts:117-176 | an organization allowed one key that has two, of one name |
| `Accounts.AccountService.OpenAccount` | packages/accounts/src/service.ts:66-144 | refused for a code in use or a class against its type, otherwise active |
| `Accounts.AccountService.ChangeStatus` | packages/accounts/src/service.ts:342-391 | refused for a closed account or an empty reason, otherwise only the status changes |
| `Accounts.AccountService.CloseAccount` | packages/accounts/src/service.ts:206-243 | closed exactly when the balance is zero |
| `Accounts.AccountService.AssertCanPost` | packages/accounts/src/service.ts:316-333 | passes exactly when the account is found and its status admits the direction |
| `Accounts.InMemoryAccountStore.FindByCode` | packages/accounts/src/testing.ts:19-25 | found exactly when some account of the tenant has the code |
| `Accounts.OverdraftIsABound` | packages/accounts/src/account.ts:246-287 | the overdraft check is a bound of the limit, or of zero without one, unless negative balances are allowed unbounded |
| `Accounts.PostingRespects` | packages/accounts/src/account.ts:206-287 | an admitted journal moves no closed or blocked balance, raises no frozen one, and passes no overdraft bound |
| `Accounts.PostedExactly` | packages/accounts/src/account.ts:206-287 | a journal is posted exactly when its debits are its credits and each of its lines fits; then each balance moves by its lines |
| `Accounts.LineIs` | packages/accounts/src/account.ts:206-287 | what status and side admit a line, and which balances an account may be left at |
| `Accounts.OpenedExactly` | packages/accounts/src/service.ts:66-144 | why an account is not opened, or the account opened, with its class |
| `Accounts.StatusExactly` | packages/accounts/src/service.ts:206-391 | why a status does not change, or what changes; closing asks for a zero balance |
| `Accounts.RunKeeps` | packages/accounts/src/service.ts:66-391 | over any run: closed at zero, inside the overdraft, one account per code, books in balance |
| `Accounts.FromEmptyBooks` | packages/accounts/src/service.ts:66-391 | so it is from empty books |
| `Accounts.ClosedForGood` | packages/accounts/src/service.ts:342-391 | a closed account stays closed, at zero |
| `Accounts.FrozenOnlyFalls` | packages/accounts/src/account.ts:206-237 | while frozen, a balance never rises |

## Left out

- Quotas.Crossed: `limit * threshold` is exact here; the source multiplies floating-point numbers.
- Quotas.ConsumeQuota: `calls` is a natural number; a negative or fractional count is not modelled.
- Quotas.HardQuotaHolds: the exact count is for calls of one, as the gate makes them; larger calls are bounded only.
- QuotaPeriods.PeriodIsCalendarWindow: instants are unbounded integers, so invalid dates and the end of `Date`'s range at
  8.64e15 milliseconds are not modelled.
- QuotaPeriods.KeyNamesWindow: for years of up to six digits, which is all that `Date` can print.
- Calendar.UtcClosedForm: arguments are integers; `NaN` and fractional arguments are not modelled.
- Catalog.VersionRoundTrip: numbers are unbounded; the source loses precision above 2^53.
- Catalog.FirstAnswer: the verb's upper-casing is modelled for ASCII letters.
- Releases.StillResolvesExactly: of what a schema checks across fields, only what these results use is modelled; they hold of definitions with repeated routes too.
- RateLimits.RateDecisionExact: in time order, and with counters of distinct limits distinct, which `RateLimits.DistinctIdsApart` gives for colon-free distinct ids; without either, `RateLimits.CountExactly` says what a counter holds.
- RateLimits.CheckRate: here calls do not overlap; checks that do are in `RateRaces`.
- Gateway.ApiGateway.Check: policy documents are functions from their context to a denial or nothing; evaluating one, response headers, status and duration are not modelled.
- Gateway.OneRecordPerRequest: requests run one at a time and sinks do not fail.
- AiCaches.InvalidatedExactly: a digest holds no colon, as hexadecimal does not.
- AiCaches.KeyDeterminesInput: SHA-256 is an injective digest of a fixed length, and the JSON text a faithful rendering of what it is given.
- AiCaches.RunRefines: here operations run one at a time; lookups that overlap others are in `AiCacheRaces`.
- AiCacheRaces.AloneIsGet: the counters of hits and misses are not part of the overlapping runs.
- AiCaches.AiCache.Set: a value is its serialized text; serializing and the entry schema are not modelled.
- AppCatalogRuns.RunInvariant: a database error while seeding ends the load, as a crash does; other containers' reads are single steps.
- AppCatalogs.PersistentAppCatalog.Load: an application is its environment, id and definition, its schema is a yes or no answer, and the seed is of the container's own environment.
- AgentMemory.InMemoryMemoryStore.Find: the search is any test on a text; lower-casing is not modelled.
- AgentMemoryRuns.RememberKeepsOthers: a new entry's id is taken to be fresh, as a random identifier is.
- AgentMemoryRuns.RunInvariant: calls do not overlap; two overlapping `remember` calls could both find room for one.
- AgentRuns.Run: the gateway, tools, conversation store, clock and abort signal are arbitrary functions of the step; which tools are offered, parsing of the output, review and audit are not modelled.
- ApiKeys.RunIsLater: here calls do not overlap; rotations and revocations that do are in `ApiKeyRaces`. Nothing in the service sets a deletion mark, so there is none.
- ApiKeyRaces.RevocationStays: creations and verifications are single steps, and a rotation reads the clock once.
- ApiKeyCreations.CeilingWithOverlap: revocations, rotations and verifications are single steps beside the creations, and the store is the in-memory one, which does not hold names unique.
- SharedCounters.MoreLimitsNeverAllow: the condition is sufficient; whether a count that falls short also lets a call through depends on every other limit of the configuration.
- RateRaces.WindowHoldsUnderOverlap: for separate counters, which `RateLimits.DistinctIdsApart` gives.
- ApiKeys.ApiKeyService.Create: a new key is its hash; generating keys, descriptions, prefixes and security events are not modelled, and the scope and allowlist validators only answer yes or no.
- Accounts.RunKeeps: the ledger is not part of the account package; here it posts what the two checks admit, whole balanced journals at a time and without overlap, one currency an account.
- Catalog lifecycle transitions, publishability and findings: a table and reports, easy members.
- Migration plans and release assertions of versioning, consumer reviews, analytics summaries, overage cost and headers: reports and arithmetic on one body.
- Scope and allowlist validation messages: only what the gate and keys use of them is modelled.
- Prisma stores, event and audit sinks, loggers, NestJS wiring and the UI.
