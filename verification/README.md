# Account pool, wire codec and keyed stores: verification model

This project models, in Dafny 4.11, the parts of grok2api and of its login client whose correctness is a matter of state and
arithmetic rather than of network traffic, and proves what they keep over whole runs and on all inputs.

* **The account pool** (`PoolMeta`, `PoolOps`, `PoolRuns`, `Tallies`, `StatusStacks`, `Switches`, `Reasons`, `Renewals`,
  `Sweeps`, `FreeUsageRuns`, `ModelBlocks`, `BlockRuns`, `Rotation`, `Tiers`, `InFlight`, `Load`, `FailoverChain`,
  `ChainOrder`, `ChainRotation`, `StickyPath`, `ExpiredAccounts`, `AccountPool`, `Deviations`).
  Each account has a mutable record with a failure count, a status stack, an end marker, a label, flags, model blocks
  and counters; 23 operations of the pool and of its health probes rewrite it.
  `PoolOps` gives every operation as a function of the record, the arguments and the clock. The class `AccountPool`
  performs the operations in place, in the shape of the program, and each is proved to be the corresponding event of
  `PoolRuns` or, when it goes over all accounts, a run of such events. There the policies are proved for every finite
  sequence of events: what a record holds is told by small machines that see the account's events and nothing else
  (counters and times, status stack, switches and reasons, blocks, renewal hold). Selection, for one account and for a
  failover chain, is specified over lists and the loops are proved to compute it.
* **The codec** (`Repetition`, `Protobuf`, `GrpcWeb`, `CreateSession`). Varints, fields and messages as in the Protocol
  Buffers encoding ("Base 128 Varints", "Message Structure"), frames and trailers as in the gRPC-Web protocol document,
  and the nested create-session request. Printing and parsing undo each other; the parsers are total.
* **The cookie splitter** (`SetCookie`), a heuristic for undoing the folding of Set-Cookie headers (section 4.1.1 of
  RFC 6265) into one comma-separated line, with the exact condition under which it does.
* **The keyed stores** (`Affinity`, `AuthStore`): a map of entries that lapse, and an account map in one file behind a
  read cache.

`Wrappers`, `Sequences`, `Text`, `Scanning` and `Latch` hold the vocabulary shared by these. Check everything with
`dafny verify dfyconfig.toml`.

Conventions. The clock is a `real` argument; one operation sees one clock value. An absent key of a stored dictionary is its
default (an empty string, an empty list or map, `None`). Text on the wire is its UTF-8 bytes; whether bytes are printable
text is a parameter, of which "printable text has no line feed" is assumed where needed and, to show how a URL is lost,
that text stays text with a printable ASCII character before it. Random draws and shuffles are arbitrary: a result that
mentions them holds for every outcome.

## Where the code differs from its own description

The model follows the code. Each of these is stated as an exact condition for all inputs, and shown at one input; for
the records of accounts that is a run from an empty pool.

* Enabling an account by hand does not end a cooldown entered through a failure, although the comment on `is_in_cooldown`
  lists it as a recovery (`PoolRuns.EnableEndsCooldownIff`, `Deviations.EnabledAccountStillCools`).
* Disabling does not last: a token renewal enables an account disabled by hand, and a late free-usage error one disabled
  by hand or for quota (`Switches.StepSwitches`, `Switches.DisabledIffUnlifted`; `Deviations.RenewalEnables`,
  `Deviations.FreeUsageErrorEnables`).
* The full path to a failover chain does not read the expired label that single acquisition and the affinity fast path
  respect, so a renewal failure, which is meant to take the account out of request polling, leaves every full-path chain
  as it was (`ExpiredAccounts.ExpiryMarkIsInvisibleToChains`, `ExpiredAccounts.ExpiredIsCandidateAfterRunIff`;
  `ExpiredAccounts.RenewalFailureStillChained`). A preferred account that the fast path refuses for it may then be put at
  the head by the full path (`ExpiredAccounts.RefusedAccountHeadsFullPath`, `FailoverChain.PreferredLeadsAfterRun`).
* A merging upsert can drop the entry of another user, namely one whose principal is the user of the new entry
  (`AuthStore.OtherAccountsSurviveIff`, `AuthStore.UpsertMayDropAnotherUser`).
* A preferred account is meant to be considered even outside the window of the round robin, but the window is cut out
  at the cursor after the account has been put first, and so may leave it out
  (`ChainRotation.PreferredIsConsideredIff`, `ChainRotation.PreferredIsPassedOver`).
* A failure report that the model is gone counts two failed requests (`Tallies.TotalsAreCounted`,
  `Deviations.MissingModelCountsTwice`).
* A sticky chain can hold two accounts of one user (`StickyPath.StickyChainUsersDistinctIff`,
  `StickyPath.StickyChainMayRepeatUser`).
* Without a warm pool state the backups of a sticky chain are not checked for cooldown
  (`StickyPath.ColdStickyChainCoolingIff`, `StickyPath.ColdStickyChainAfterRunIff`,
  `StickyPath.ColdStickyChainMayCool`). With file-backed stores there is never any.
* A success reported late relabels an account disabled by hand or for quota as cooling
  (`PoolRuns.LateSuccessRelabelsDisabled`; `Deviations.DisabledAccountLabelledCooling`,
  `Deviations.QuotaDisabledAccountLabelledCooling`).
* A plain expiry mark is lost at the next successful probe if the account had been renewed before
  (`PoolRuns.ExpiryMarkOutlivesProbe`, `Deviations.ExpiryMarkIsLost`).
* A block with a TTL laid over a durable block replaces it by a temporary one (`ModelBlocks.DurableAfterBlockIff`,
  `Deviations.DurableBlockLapses`).
* A failure report that leads to a free-usage cooldown releases the in-flight marks of other requests too
  (`AccountPool.FailureReleasesOneIff`, `Deviations.FailureReleasesThree`).
* Cookies without attributes, or with other characters in their names, stay folded
  (`SetCookie.UnfoldingUndoesFoldingIff`, `SetCookie.BareCookiesStayFolded`).
* A URL of a reply is lost when a nested message that holds it reads as printable text itself
  (`CreateSession.WalkFindsTheLeavesIff`, `CreateSession.ShortUrlIsLost`, `CreateSession.UrlIsLost`).
* A read of the account map need not notice a file written by another process, however long ago
  (`AuthStore.ReadIsCurrentIff`, `AuthStore.PromptReadsStayStale`, `AuthStore.ForeignWriteStaysUnseen`).

## Model

| member | source | states |
|---|---|---|
| `PoolRuns.CoolingIffUnrecoveredFailure` | grok2api/pool/account_pool.py:834-869 | over every run of operations on any accounts, with any clock values: an account is cooling iff it failed (or began cooling) and no successful probe or explicit clear came after that |
| `PoolRuns.CountIffUnrecoveredFailure` | grok2api/pool/account_pool.py:851-857 | the same fact on the stored failure count |
| `PoolRuns.CoolingAfterEvent` | grok2api/pool/account_pool.py:872-932 | one event makes an account cooling iff the event is a failure of that account, or it was cooling and the event is not its recovery |
| `PoolRuns.CoolingIsClockFree` | grok2api/pool/account_pool.py:834-869 | in every reachable record the answer to "in cooldown?" is the same at all times: the clock alone never readmits an account |
| `PoolRuns.StepKeepsInv` | grok2api/admin/settings_store.py:738-783 | every one of the 23 modelled operations keeps: a status stack or end marker implies a positive count, and the stored label fits flags, count and blocks; it also says exactly when the count is positive afterwards |
| `PoolRuns.RunKeepsInv` | grok2api/admin/settings_store.py:738-783 | that invariant holds in every state reachable from an empty pool |
| `PoolRuns.UnrecoveredFailureOfConcat` | grok2api/pool/account_pool.py:851-857 | a run may be cut anywhere: what came before counts as the account starting out cooling |
| `PoolRuns.RunKeepsStreaks` | grok2api/pool/account_pool.py:1797-2013 | in every reachable state a failure streak comes with a failure count |
| `Tallies.StepTally` | grok2api/pool/account_pool.py:239-466 | every operation moves the counters, streaks, times and the end marker of a record as it moves a small machine that knows no labels, patches, stacks or blocks |
| `Tallies.RecordFollowsTally` | grok2api/pool/account_pool.py:1741-2013 | after every run they are those that the account's events tell this machine |
| `Tallies.TotalsAreCounted` | grok2api/admin/settings_store.py:923-970 | from an empty pool: successes are the success reports, failures the failure reports and soft kicks, a report that the model is gone counting twice, and requests are the sum of both |
| `Tallies.TouchDefaults` | grok2api/admin/settings_store.py:923-970 | a failure counted without a streak of its own is one more in a row, and without an end marker of its own leaves the marker |
| `Tallies.StreakIsCounted` | grok2api/pool/account_pool.py:3379-3473 | after every run the stored probe streak is the number of failed probes since the last successful probe, clear, or success reported while not cooling |
| `Tallies.CoolingByHistory` | grok2api/pool/account_pool.py:3424-3450 | one more event makes an account cooling iff it is a failure by the streak its history tells, or the account was cooling and the event is no recovery |
| `Tallies.ProbesEscalateIff` | grok2api/pool/account_pool.py:3379-3450 | failed probes in a row, none for free usage, leave an account cooling iff it was, or the streak before them and their number reach the threshold |
| `StatusStacks.StepStack` | grok2api/pool/account_pool.py:202-223 | for every operation that records no free-usage error: a failure adds its entry to the stack read before any handler ran, and the count is its length; a kick counts one more; a recovery empties the stack; nothing else changes it |
| `StatusStacks.StackListsFailures` | grok2api/pool/account_pool.py:202-223 | over every run without recorded free-usage errors the stack lists the failures since the last recovery, the fifty newest, with kinds and times |
| `StatusStacks.FirstHitIsAlone` | grok2api/pool/account_pool.py:302-343 | on a reachable account that is not cooling a free-usage error is the only entry and counts one |
| `StatusStacks.FurtherHitStacksIff` | grok2api/pool/account_pool.py:302-343 | on a cooling account it adds an entry iff thirty seconds have passed since the last one and fewer than four are counted |
| `StatusStacks.HitAfterKicks` | grok2api/pool/account_pool.py:302-343 | on an account that only kicks made cool it is the only entry, and the exact count |
| `PoolRuns.LabelAgreesWithScheduling` | grok2api/admin/settings_store.py:759-783 | in every reachable state a cooling account is labelled cooldown, disabled or quota_disabled, one labelled cooldown is cooling at every time, and for an enabled account the two are equivalent |
| `PoolRuns.ShownLabel` | grok2api/pool/account_pool.py:674-787 | what a reachable record without a renewal hold shows: its stored label or, when it has none, the one the next write would store |
| `PoolRuns.WrongLabelIsCorrected` | grok2api/pool/account_pool.py:674-787 | a record labelled normal by mistake is shown as cooling iff it is |
| `Renewals.LabelGoesBySwitches` | grok2api/admin/settings_store.py:759-783 | whatever an operation writes, the label goes by quota mark, enabled flag and failure count, in this order, in all but one case: a success reported while the end marker lies ahead labels the account as cooling |
| `Renewals.RenewalHoldStepIff` | grok2api/pool/account_pool.py:1120-1290 | for every operation: the renewal status blocks afterwards iff the operation is a renewal failure or sign-on mark, or an expiry mark on an account never renewed, or it blocked before and the expiry is not cleared |
| `Renewals.StepLabels` | grok2api/admin/settings_store.py:759-783 | for every operation: the stored label is "expired" afterwards iff the operation asks for it on an enabled account without quota mark or failure count, or it was and the operation leaves it |
| `Renewals.HoldIffUncleared` | grok2api/pool/account_pool.py:1120-1290 | after every run the renewal status blocks iff something made it block (or it began so) and the expiry was not cleared since |
| `Renewals.LabelIffUncleared` | grok2api/admin/settings_store.py:759-783 | after every run the stored label is "expired" iff something gave it (or it began so) and nothing since took it away |
| `Renewals.ShownExpiredIff` | grok2api/pool/account_pool.py:761-772 | after every run, at every time, an account is shown as expired iff one of the two still stands |
| `Renewals.RenewalHoldLasts` | grok2api/pool/account_pool.py:761-772 | after a renewal failure or sign-on mark an account is labelled expired at every time until its expiry is cleared, whatever else happens |
| `PoolRuns.ExpiryMarkOutlivesProbe` | grok2api/pool/account_pool.py:1120-1148 | a plain expiry mark survives a successful probe iff the previous renewal status was not "ok" |
| `PoolRuns.ExpiryMarkShowsIff` | grok2api/pool/account_pool.py:1120-1148 | a plain expiry mark shows iff the last renewal status is not "ok", or the account is enabled, not disabled for quota and not cooling |
| `Deviations.EnabledAccountStillCools` | grok2api/pool/account_pool.py:2016-2039 | a run after which an account is enabled and cooling at every time |
| `Deviations.QuotaDisabledAccountLabelledCooling` | grok2api/admin/settings_store.py:963-966 | a run after which an account disabled for quota is labelled cooldown |
| `Deviations.DisabledAccountLabelledCooling` | grok2api/admin/settings_store.py:963-966 | the same for an account disabled by hand |
| `Deviations.ExpiryMarkIsLost` | grok2api/pool/account_pool.py:1120-1148 | a run that shows an expiry mark and loses it at the next successful probe |
| `Deviations.DurableBlockLapses` | grok2api/pool/account_pool.py:2091-2109 | a run after which a durable block is over |
| `Deviations.FailureReleasesThree` | grok2api/pool/account_pool.py:1816-1858 | three requests in flight, and none after one failure report |
| `Deviations.RenewalEnables` | grok2api/pool/account_pool.py:1184-1185 | a run in which renewing a token enables an account disabled by hand |
| `Deviations.MissingModelCountsTwice` | grok2api/pool/model_health.py:420-460 | one report of a missing model, after which two failed requests are counted |
| `Deviations.FreeUsageErrorEnables` | grok2api/pool/account_pool.py:393-396 | a run in which a free-usage error enables an account disabled for quota |
| `PoolRuns.EnableEndsCooldownIff` | grok2api/pool/account_pool.py:2016-2039 | enabling by hand leaves the account cooling iff it has a failure count or a status stack |
| `PoolRuns.LateSuccessRelabelsDisabled` | grok2api/admin/settings_store.py:963-966 | a success reported for an account disabled by hand or for quota labels it cooldown when its end marker lies in the future, and otherwise leaves the label |
| `FreeUsageRuns.StackStaysDisciplined` | grok2api/pool/account_pool.py:302-343 | over every run of free-usage hits on a clear account, for any clock past zero, even one that steps back, the count equals the stack length, stays in 1..4, and neighbouring entries are at least 30 s apart |
| `FreeUsageRuns.StackRecordsCountedErrors` | grok2api/pool/account_pool.py:302-343 | for a clock that does not run backwards, on every clear account the stack holds exactly the hits that a simple rule counts: the first, and then each with room and 30 s of distance; on an account held for renewal also one after the end marker, which displaces the oldest when there is no room |
| `FreeUsageRuns.UntilNeverDecreases` | grok2api/pool/account_pool.py:345-357 | a free-usage hit never moves the end marker backwards |
| `FreeUsageRuns.DisplayTtlBounds` | grok2api/pool/account_pool.py:226-236 | the displayed wait is nondecreasing in the count, from 900 s to 3600 s |
| `PoolOps.FreeUsageCount` | grok2api/pool/account_pool.py:330-343 | the stored free-usage count lies in 1..4 |
| `ModelBlocks.StackedUntil` | grok2api/pool/account_pool.py:2096-2109 | after TTL blocks t1..tk of lengths d1..dk the end is the maximum over j of tj + (dj + ... + dk) |
| `ModelBlocks.BlockedSpanIsBlockedTime` | grok2api/pool/account_pool.py:790-831 | within an interval the model is blocked exactly on an initial part of the computed length |
| `ModelBlocks.BlockedTimeIsConserved` | grok2api/pool/account_pool.py:2096-2109 | for nondecreasing times the total blocked time is d1 + ... + dk |
| `ModelBlocks.DurableAfterBlockIff` | grok2api/pool/account_pool.py:2091-2109 | a durable block remains after a block request iff the request has no TTL and no temporary source, so a TTL request replaces a durable block |
| `ModelBlocks.PruningIsInvisible` | grok2api/pool/account_pool.py:625-660 | eager pruning, lazy pruning and the direct test agree for every model at every time from the prune on, in both modes |
| `ModelBlocks.PrunedCount` | grok2api/pool/account_pool.py:641-660 | pruning removes exactly the lapsed entries and as many as it counts |
| `BlockRuns.StepHolds` | grok2api/pool/account_pool.py:2065-2162 | what every operation leaves, from then on, of the block of every model: who laid it, when, and until when |
| `BlockRuns.BlockedIffStands` | grok2api/pool/account_pool.py:790-831 | a model is blocked exactly while a block of it stands, and durably so iff that block has no end and no temporary source |
| `BlockRuns.SoftBlockIsThreeMinutesEach` | grok2api/pool/account_pool.py:345-420 | a free-usage error blocks its model for three minutes an error counted |
| `BlockRuns.StepDurable` | grok2api/pool/account_pool.py:2065-2162 | for every operation: a durable block stands afterwards iff the operation lays it, or it stood and is not lifted or replaced |
| `BlockRuns.DurableIffUnlifted` | grok2api/pool/account_pool.py:790-831 | after every run, at every time, a model is durably blocked iff something laid a durable block (or it stood from the start) and nothing lifted or replaced it since |
| `Rotation.AcquirePoolIsBest` | grok2api/pool/account_pool.py:1664-1712 | the pool to pick from is empty iff every candidate is token-expired, cooling, labelled expired, or both disabled and quota-disabled; otherwise it holds only acquirable candidates, and only fully eligible ones if there is any |
| `Rotation.NothingToPickIff` | grok2api/pool/account_pool.py:1638-1712 | the same with excluded accounts |
| `Tiers.TierAfterRunIff` | grok2api/pool/account_pool.py:1638-1712 | what each of the four tiers asks of an account after any run, told by the run |
| `Tiers.AcquirePoolIsTier` | grok2api/pool/account_pool.py:1659-1712 | when somebody passes the test of a tier and nobody a stricter one, the pool is all who pass it, in their order |
| `Tiers.AcquirePoolSettlesLast` | grok2api/pool/account_pool.py:1659-1712 | soft-blocked accounts are in the pool only if nobody is fully eligible, durably blocked ones only if nobody has at most a soft block, and disabled ones only if nobody is enabled |
| `Tiers.CandidatesAreTier` | grok2api/pool/account_pool.py:2949-3010 | the same for the candidates of a chain and its window, in order |
| `Tiers.CandidatesSettleLast` | grok2api/pool/account_pool.py:2949-3010 | the same three preferences for the candidates of a chain |
| `Tiers.ExpansionIsExact` | grok2api/pool/account_pool.py:2998-3023 | when the window has nobody to offer, the candidates are the first fully eligible accounts, eight or two an attempt, of the first 32 outside the window, or of as many as the window has places |
| `Tiers.PoolShowsNoCooling` | grok2api/pool/account_pool.py:834-869 | whatever is stored, an account with any sign of cooling is in no pool to pick from |
| `Tiers.ChainShowsNoCooling` | grok2api/pool/account_pool.py:834-869 | nor in any full-path chain |
| `Rotation.EligibleAfterRunIff` | grok2api/pool/account_pool.py:1067-1117 | after any run an account is fully eligible iff its token is live, the model is not blocked, and no failure, no switching off, no renewal hold and no expired label of it still stands, each told by the history of the run |
| `Switches.StepSwitches` | grok2api/admin/settings_store.py:738-756 | for every operation: the account is enabled afterwards iff the operation enables it, or it was enabled and the operation does not disable it; the quota mark never comes to stand on an enabled account |
| `Switches.DisabledIffUnlifted` | grok2api/pool/account_pool.py:2016-2062 | after every run an account is switched off iff something switched it off (or it began so) and nothing on since |
| `Switches.RunKeepsQuota` | grok2api/pool/account_pool.py:2243-2264 | in every reachable state an account disabled for quota is not enabled |
| `Reasons.StepBoard` | grok2api/pool/account_pool.py:2349-2482 | every operation moves the switches, reason, sources and renewal status of a record as it moves a small machine of their own |
| `Reasons.RecordFollowsBoard` | grok2api/pool/account_pool.py:2016-2062 | after every run they are those that the account's events tell this machine; a source is on record only while the account is off for its quota |
| `Reasons.ProbeLiftsIff` | grok2api/pool/account_pool.py:3346-3360 | a successful probe switches a reachable account on iff it is off, not for quota, and the source or reason on record blames a probe |
| `Reasons.CleanUpLiftsIff` | grok2api/pool/account_pool.py:3476-3508 | the same for the clean-up of accounts kicked by probes |
| `Reasons.SnapshotLiftsIff` | grok2api/pool/account_pool.py:2349-2443 | a healthy snapshot switches an account on iff it is off for quota, or its source or the reason of its being off says so |
| `Rotation.QuotaDisabledIsInNoTier` | grok2api/pool/account_pool.py:1664-1712 | after any run an account disabled for quota is in no tier, of acquisition or of the chain |
| `FailoverChain.QuotaDisabledIsNeverChained` | grok2api/pool/account_pool.py:2949-3023 | after any run an account disabled for quota is in no full-path chain |
| `Rotation.AdmittedAfterRunIff` | grok2api/pool/account_pool.py:2949-2966 | the test of the failover chain after any run: the same without the expired label |
| `Rotation.HeldAccountsAreNeverAcquired` | grok2api/pool/account_pool.py:1638-1738 | after any run an account with an unrecovered failure, an uncleared renewal hold or a standing expired label is in no pool to pick from |
| `Rotation.RoundRobinIsFair` | grok2api/pool/account_pool.py:1398-1414 | any m consecutive picks among n accounts, from any cursor, take each one floor(m/n) or ceil(m/n) times |
| `Rotation.TimesPickedBounds` | grok2api/pool/account_pool.py:1398-1414 | the exact number of rounds each position has had |
| `InFlight.NeverAboveOutstanding` | grok2api/pool/account_pool.py:1506-1541 | marks never claim more requests than are outstanding, for any clock |
| `InFlight.PromptMarksAreExact` | grok2api/pool/account_pool.py:1506-1541 | if no gap lets marks lapse, they are the saturating counter of picks and releases |
| `InFlight.PurgingIsInvisible` | grok2api/pool/account_pool.py:1448-1453 | purging changes no later read |
| `InFlight.PurgeKeepsLive` | grok2api/pool/account_pool.py:1448-1453 | a purge keeps exactly the marks that still count |
| `ChainRotation.FreshAccounts` | grok2api/pool/account_pool.py:2867-2886 | a selection works on the live accounts whose token has more than a minute left, in order, preferred ones first |
| `ChainRotation.PreferredFirstIsStable` | grok2api/pool/account_pool.py:2876-2886 | moving the preferred accounts to the front keeps the order of both kinds |
| `ChainRotation.PreferredIff` | grok2api/pool/account_pool.py:2876-2886 | an account is preferred iff its key or its user is the preference, or its key ends in "::" and the preference |
| `ChainRotation.WindowFollowsCursor` | grok2api/pool/account_pool.py:2887-2923 | in round robin the i-th account of the window is the one i places after the cursor, going round, as far as there is room, preferred ones first; with room for all it is all of them |
| `ChainRotation.CursorMoves` | grok2api/pool/account_pool.py:2887-2923 | the cursor goes round the fresh accounts one by one, and stays while there is room for all |
| `ChainRotation.WindowOfOtherModes` | grok2api/pool/account_pool.py:2887-2923 | the windows of the other modes, which do not use the cursor |
| `ChainRotation.WindowsAreFair` | grok2api/pool/account_pool.py:2887-2923 | m consecutive round-robin selections in a pool larger than a window open their windows with each account floor(m/n) or ceil(m/n) times |
| `ChainRotation.PreferredIsConsideredIff` | grok2api/pool/account_pool.py:2876-2917 | in a pool larger than a window, round robin considers the account it has put first for the preference iff the cursor is at it or the window comes round to it |
| `ChainRotation.PreferredIsPassedOver` | grok2api/pool/account_pool.py:2876-2917 | a concrete chain without the preferred account, though that is healthy and idle |
| `ChainRotation.EvenChainFollowsCursor` | grok2api/pool/account_pool.py:2867-3123 | when accounts are eligible, of different users and evenly loaded, the chain is the stretch that begins at the cursor |
| `FailoverChain.ChainIsCorrect` | grok2api/pool/account_pool.py:2867-3123 | every chain is the beginning of a rearrangement of the de-duplicated candidates; its accounts are live, unexpired, not cooling and of pairwise different users; lesser tiers never mix in when the window has a fully eligible account |
| `FailoverChain.ChainUsersDiffer` | grok2api/pool/account_pool.py:3025-3034 | no two accounts of a chain have the same user id, nor, where neither has one, the same key |
| `FailoverChain.ChainLength` | grok2api/pool/account_pool.py:3098-3123 | the chain has as many accounts as there are candidate users, up to the attempts requested or else configured, and at least one if there is any |
| `FailoverChain.ChainIsEmptyIff` | grok2api/pool/account_pool.py:2949-3023 | the chain is empty iff the window has no account that is usable under any fallback and the slice after it no eligible one |
| `FailoverChain.CandidatesAreSound` | grok2api/pool/account_pool.py:2949-3023 | the candidates of every tier are usable and not cooling |
| `FailoverChain.DedupIsExact` | grok2api/pool/account_pool.py:3025-3034 | de-duplication keeps one entry for every user and invents none |
| `FailoverChain.DedupKeepsFirst` | grok2api/pool/account_pool.py:3025-3034 | the first entry of each user is kept, after as many entries as there are users before it |
| `FailoverChain.SortedIsStable` | grok2api/pool/account_pool.py:3053-3084 | the ordering is an ascending, stable permutation |
| `FailoverChain.PreferredLeadsIff` | grok2api/pool/account_pool.py:3088-3115 | a preferred account leads the chain iff there is a preferred candidate and the first one in the ranking has at most one failure in a row and no block of the model, or there is no other account; in the first case it is that one |
| `FailoverChain.PreferredLeadsAfterRun` | grok2api/pool/account_pool.py:3088-3115 | after any run, when the window has a fully eligible account, a preferred account leads the chain iff there is a preferred candidate |
| `ChainOrder.ChainAscends` | grok2api/pool/account_pool.py:3041-3109 | without a preferred account the chain ascends by its sort key; with one, the preferred accounts and the others each do |
| `Load.ChainOrderIs` | grok2api/pool/account_pool.py:3041-3084 | of two accounts of a chain, both preferred or neither, the first is the better one by the rule of the mode |
| `Load.LessUsedIff` | grok2api/pool/account_pool.py:1561-1581 | an account is used less iff it is healthier, or as healthy with fewer requests, those in flight counted twice more, or the same of both and its last use is longer ago |
| `Load.BestPenaltyIff` | grok2api/pool/account_pool.py:1417-1438 | the penalty is never negative, and zero iff the account has no failures, no requests in flight and no time left to cool |
| `Load.FailureInRowCosts` | grok2api/pool/account_pool.py:1417-1438 | a failure in a row costs three points |
| `Load.FailureRateCosts` | grok2api/pool/account_pool.py:1417-1438 | the rate of failed requests costs up to five points |
| `Load.CoolingCosts` | grok2api/pool/account_pool.py:1417-1438 | every half minute of cooling left costs a point |
| `Load.RequestInFlightCosts` | grok2api/pool/account_pool.py:1417-1438 | each of the first four requests in flight costs two and a half points, the fifth two, and no other any |
| `Load.HealthIsFailureRate` | grok2api/pool/account_pool.py:1417-1438 | after any run, of two accounts that are not cooling and have nothing in flight, the healthier is the one with the lower rate of failed requests |
| `Load.NotedLasts` | grok2api/pool/account_pool.py:1506-1522 | a note counts one more request, for ninety seconds |
| `Load.ReleasedLasts` | grok2api/pool/account_pool.py:1525-1541 | a release leaves one less, for ninety seconds again |
| `Load.SoftUseLasts` | grok2api/pool/account_pool.py:1493-1522 | being noted counts as use for forty-five seconds |
| `FailoverChain.FailedAccountsAreNeverChained` | grok2api/pool/account_pool.py:2735-3123 | after any run an account with an unrecovered failure is in no full-path chain |
| `ExpiredAccounts.RenewalFailureStillChained` | grok2api/pool/account_pool.py:1200-1238 | in every mode, an account whose renewal has just failed is labelled expired and still is the whole chain of a pool that has no other |
| `ExpiredAccounts.ExpiryMarkIsInvisibleToChains` | grok2api/pool/account_pool.py:2949-3123 | a renewal failure, sign-on mark or expiry mark on any account leaves the whole full-path chain as it was |
| `ExpiredAccounts.ExpiryMarkEndsFastPath` | grok2api/pool/account_pool.py:2783-2792 | a renewal failure or sign-on mark takes the affinity fast path from the preferred account |
| `ExpiredAccounts.RefusedAccountHeadsFullPath` | grok2api/pool/account_pool.py:2735-3129 | in every mode, a preferred account that the fast path refuses for a failed renewal is put at the head by the full path |
| `ExpiredAccounts.AgreeingChains` | grok2api/pool/account_pool.py:2940-3123 | the chain is a function of flags, cooldown, blocks, counters and times of the accounts, not of their labels |
| `ExpiredAccounts.ExpiredCandidateIff` | grok2api/pool/account_pool.py:2949-3023 | an account labelled expired is a candidate iff the tier in use admits one |
| `ExpiredAccounts.ExpiredIsCandidateAfterRunIff` | grok2api/pool/account_pool.py:2949-2966 | after any run, when the window has a fully eligible account, one labelled expired is a candidate iff its token is live, no failure and no switching off of it still stands, and the model is not blocked |
| `ExpiredAccounts.UncutChainHolds` | grok2api/pool/account_pool.py:3025-3123 | with different users and no cut the chain holds exactly the candidates |
| `StickyPath.FastPathAsksMore` | grok2api/pool/account_pool.py:2762-2804 | whatever is stored, the fast path asks what single acquisition asks of a fully eligible account, and on top of it a name, a token, no quota mark and at most one failure in a row |
| `StickyPath.TakesFastPathAfterRunIff` | grok2api/pool/account_pool.py:2762-2804 | after any run the fast path is taken iff the request prefers an account with a usable token, no unrecovered failure, switching off, renewal hold or expired label, and no block of the model |
| `StickyPath.ShortStickyChainTakesAll` | grok2api/pool/account_pool.py:2811-2842 | while the sticky chain has places left, every cached account that may be a backup is in it |
| `StickyPath.StickyChainIsSound` | grok2api/pool/account_pool.py:2762-2842 | the sticky chain starts with an eligible account, respects the limit, and checks backups against the warm state if there is one |
| `StickyPath.FailedAccountsAreNeverSticky` | grok2api/pool/account_pool.py:2811-2842 | were the stored records the warm state, an account with an unrecovered failure would be in no sticky chain |
| `StickyPath.StickyChainUsersDistinctIff` | grok2api/pool/account_pool.py:2811-2850 | no two accounts of a sticky chain have the same user iff no account taken from the cache (one that may be a backup, with places left after those before it) counts as the sticky account's user and any two taken have different users |
| `StickyPath.StickyChainMayRepeatUser` | grok2api/pool/account_pool.py:2811-2850 | a concrete sticky chain with two backups of one user, though the warm state is there |
| `StickyPath.ColdStickyChainCoolingIff` | grok2api/pool/account_pool.py:2805-2842 | without warm state the sticky chain holds a cooling account iff one is among the first other fresh accounts of the cache |
| `StickyPath.ColdStickyChainAfterRunIff` | grok2api/pool/account_pool.py:2805-2842 | after any run: without warm state the sticky chain holds an account with an unrecovered failure iff one is among the first other fresh accounts of the cache |
| `StickyPath.ColdStickyChainMayCool` | grok2api/pool/account_pool.py:2805-2842 | such a chain after a run from an empty pool, with a backup that has just failed |
| `AccountPool.AccountPool.PatchMeta` | grok2api/admin/settings_store.py:738-756 | the patched record, its label derived anew, and no other record changed |
| `AccountPool.AccountPool.TouchStats` | grok2api/admin/settings_store.py:923-970 | counters, streak, end marker and label after a live request |
| `AccountPool.AccountPool.ReportSuccess` | grok2api/pool/account_pool.py:1741-1794 | the record becomes the specified success step; the in-flight mark is released |
| `AccountPool.AccountPool.ReportFailure` | grok2api/pool/account_pool.py:1797-2013 | the record becomes the specified failure step, including the stack read before the error handler ran |
| `AccountPool.AccountPool.HandleUpstreamErrorForModel` | grok2api/pool/model_health.py:355-461 | free-usage cooldown, or a block with a soft kick, on this account only |
| `AccountPool.AccountPool.ApplyFreeUsageCooldown` | grok2api/pool/account_pool.py:239-466 | the record becomes the specified free-usage step |
| `AccountPool.AccountPool.StackFreeUsage` | grok2api/pool/account_pool.py:267-357 | restack, cap and end-marker computation |
| `AccountPool.AccountPool.RecordModelProbeOutcome` | grok2api/pool/account_pool.py:3270-3473 | the record becomes the specified probe step, recovery or failure |
| `AccountPool.AccountPool.AddBlock` | grok2api/pool/account_pool.py:2065-2114 | the block entry with its stacked end |
| `AccountPool.AccountPool.RemoveBlock` | grok2api/pool/account_pool.py:2134-2162 | one block or all removed; nothing written when there is none |
| `AccountPool.AccountPool.PruneExpiredBlocksOf` | grok2api/pool/account_pool.py:625-660 | exactly the lapsed blocks go, and their number is returned |
| `AccountPool.AccountPool.PruneExpiredBlocks` | grok2api/pool/account_pool.py:625-660 | every account's lapsed blocks go, as a run of prune events; the number returned is that of all entries removed |
| `Sweeps.SweepsChangeNoFailure` | grok2api/pool/account_pool.py:625-660 | a sweep over all accounts in the middle of a run neither ends a failure nor adds one |
| `Sweeps.SweepKeepsPolicies` | grok2api/pool/account_pool.py:625-660 | a finished sweep changes no failure count and no renewal status |
| `AccountPool.AccountPool.KickFromPool` | grok2api/pool/account_pool.py:3188-3267 | soft kick into cooldown, or disabling |
| `AccountPool.AccountPool.ClearAccountCooldown` | grok2api/pool/account_pool.py:3132-3171 | count, stack, marker and streaks removed; the account is cooling at no later time |
| `AccountPool.AccountPool.PruneExpiredCooldowns` | grok2api/pool/account_pool.py:979-982 | nothing changes and zero is returned |
| `AccountPool.AccountPool.MarkAccountExpired` | grok2api/pool/account_pool.py:1120-1148 | the record becomes the specified expiry mark |
| `AccountPool.AccountPool.ClearAccountExpired` | grok2api/pool/account_pool.py:1151-1197 | the record becomes the specified expiry clear, re-enabling unless quota-disabled; at no time is it shown as expired |
| `AccountPool.AccountPool.RecordRenewalFailure` | grok2api/pool/account_pool.py:1200-1238 | renewal failure count one up and a blocking renewal status; at every time the account is shown as expired |
| `AccountPool.AccountPool.MarkSsoReauth` | grok2api/pool/account_pool.py:1249-1290 | sign-on attempt and sign-on failure marks; at every time the account is shown as expired |
| `AccountPool.AccountPool.SetAccountEnabled` | grok2api/pool/account_pool.py:2016-2062 | the flag as given; enabling also lifts the quota flag and every block |
| `AccountPool.AccountPool.SetQuota` | grok2api/pool/account_pool.py:2446-2482 | both flags as given |
| `AccountPool.AccountPool.SaveHealthyQuotaSnapshot` | grok2api/pool/account_pool.py:2349-2443 | a healthy snapshot re-enables iff the account was quota-disabled |
| `AccountPool.AccountPool.ReenableProbeKickAccounts` | grok2api/pool/account_pool.py:3476-3508 | exactly the accounts disabled by probes are re-enabled, as a run of events, and their number is returned |
| `AccountPool.AccountPool.SaveLastProbe` | grok2api/pool/model_health.py:464-516 | saving a probe snapshot derives the label anew and changes nothing else that is modelled |
| `AccountPool.AccountPool.NoteAccountPick` | grok2api/pool/account_pool.py:1506-1522 | one more mark, with a fresh lifetime |
| `AccountPool.NotedIsCounted` | grok2api/pool/account_pool.py:1506-1522 | a noted account has one more request in flight and was used just now, and no other account is touched |
| `AccountPool.PickLeavesNoLapsed` | grok2api/pool/account_pool.py:1448-1490 | except in round robin a pick leaves no lapsed mark behind |
| `AccountPool.ChainLeavesNoLapsed` | grok2api/pool/account_pool.py:3036-3128 | nor does a full-path chain |
| `AccountPool.AccountPool.ReleaseAccountPick` | grok2api/pool/account_pool.py:1525-1541 | one mark less, never below zero |
| `AccountPool.FailureReleasesOneIff` | grok2api/pool/account_pool.py:1816-1858 | a failure report takes exactly one request off those in flight iff no free-usage cooldown comes with it, or only one was in flight |
| `InFlight.ReleaseCount` | grok2api/pool/account_pool.py:1525-1534 | a release takes one request off the count, if there is any |
| `AccountPool.AccountPool.PickRoundRobin` | grok2api/pool/account_pool.py:1398-1414 | the account at the cursor, and the cursor advanced |
| `AccountPool.AccountPool.PickLeastUsed` | grok2api/pool/account_pool.py:1561-1581 | the first account with the least key |
| `AccountPool.AccountPool.Acquire` | grok2api/pool/account_pool.py:1599-1738 | fails iff every live account is excluded or unacquirable; otherwise returns a member of the best tier and counts one more request in flight on it |
| `AccountPool.AccountPool.CollectCandidates` | grok2api/pool/account_pool.py:2949-3023 | the loops over four tiers and the bounded expansion collect the specified candidates |
| `AccountPool.AccountPool.DropRepeatedUsers` | grok2api/pool/account_pool.py:3025-3034 | the loop with a set of seen users keeps each user's first entry |
| `AccountPool.AccountPool.RotatedWindow` | grok2api/pool/account_pool.py:2887-2923 | the window and the advanced cursor of each mode |
| `AccountPool.AccountPool.PinPreferred` | grok2api/pool/account_pool.py:3088-3109 | the preferred accounts moved to the front or to the back |
| `AccountPool.AccountPool.TryAcquireSequence` | grok2api/pool/account_pool.py:2735-3129 | the sticky chain or the full chain, the cursor, and the mark on the chain's head |
| `Protobuf.VarintRoundTrip` | grok-build-auth/xconsole_client/grpcweb.py:37-49 | reading a written varint gives the number back, for every natural number and whatever follows |
| `Protobuf.VarintIsCanonicalIff` | grok-build-auth/xconsole_client/grpcweb.py:85-94 | writing what was read gives the same bytes iff the encoding has no padding zero at its end |
| `Protobuf.EncodeVarint` | grok-build-auth/xconsole_client/grpcweb.py:37-49 | the loop writes the specified bytes; a negative number is refused |
| `Protobuf.ReadVarintAt` | grok-build-auth/xconsole_client/grpcweb.py:85-94 | the loop that ORs seven bits at a time reads the specified number; a missing byte is an error |
| `Protobuf.OrIsSumOfDisjoint` | grok-build-auth/xconsole_client/grpcweb.py:92 | OR-ing in bits above those present is adding |
| `Protobuf.EncodeTag` | grok-build-auth/xconsole_client/grpcweb.py:52-53 | field number and wire type packed by shift and OR; a negative field number is refused |
| `Protobuf.EncodeBytes` | grok-build-auth/xconsole_client/grpcweb.py:56-63 | tag, length and payload |
| `Protobuf.EncodeVarintField` | grok-build-auth/xconsole_client/grpcweb.py:66-67 | tag and number |
| `Protobuf.EncodeMessage` | grok-build-auth/xconsole_client/grpcweb.py:70-79 | succeeds iff no field number is negative, and then writes the fields in order |
| `Protobuf.DecodeMessage` | grok-build-auth/xconsole_client/grpcweb.py:97-137 | the index loop computes the specified fields or the first error, on every byte string |
| `Protobuf.FieldsAreStable` | grok-build-auth/xconsole_client/grpcweb.py:107-136 | a field that ends within the input is read the same whatever follows it |
| `Protobuf.DecodeOfConcat` | grok-build-auth/xconsole_client/grpcweb.py:97-137 | for a complete a, decoding a ++ b gives the fields of a and then those of b, or the error of b |
| `Protobuf.MessageRoundTrip` | grok-build-auth/xconsole_client/grpcweb.py:56-137 | decoding encoded string, bytes and varint fields gives the same numbers and payloads in order |
| `Protobuf.Fixed64IsRead` | grok-build-auth/xconsole_client/grpcweb.py:111-114 | eight bytes after a tag of type 1 are the chunk of the field, or as many as are left, and reading goes on after them |
| `Protobuf.Fixed32IsRead` | grok-build-auth/xconsole_client/grpcweb.py:129-133 | four bytes after a tag of type 5 likewise |
| `Protobuf.CutPayloadIsKept` | grok-build-auth/xconsole_client/grpcweb.py:115-128 | a payload cut short is kept as far as it goes, as text if printable, else with the length it claimed |
| `Protobuf.CutVarintIff` | grok-build-auth/xconsole_client/grpcweb.py:85-94 | reading a varint fails iff every byte left has its high bit set |
| `Protobuf.FieldErrorIff` | grok-build-auth/xconsole_client/grpcweb.py:107-136 | when and with which error a field fails to decode, on every byte string |
| `Protobuf.EncodingIsInjective` | grok-build-auth/xconsole_client/grpcweb.py:56-79 | messages with equal bytes are equal |
| `GrpcWeb.FrameRequest` | grok-build-auth/xconsole_client/grpcweb.py:143-145 | one data frame, which the parser reads back; refused from 2^32 bytes on |
| `GrpcWeb.FramesRoundTrip` | grok-build-auth/xconsole_client/grpcweb.py:157-161 | concatenated frames are read back in order, and a tail shorter than 5 bytes changes nothing |
| `GrpcWeb.ParseResponse` | grok-build-auth/xconsole_client/grpcweb.py:148-170 | the frame loop computes the specified response or error on every byte string |
| `GrpcWeb.AddTrailers` | grok-build-auth/xconsole_client/grpcweb.py:162-166 | the loop over lines adds one trimmed, lower-cased trailer for each line with a colon |
| `GrpcWeb.SplitHeaderText` | grok-build-auth/xconsole_client/grpcweb.py:163 | for all headers without CRLF within a line, splitting the header text at CRLF gives the lines back |
| `GrpcWeb.HeaderLinesGiveTheirMap` | grok-build-auth/xconsole_client/grpcweb.py:162-166 | all headers with no colon in the name and no CRLF in the line give the map of their trimmed, lower-cased names to their trimmed values, the last of equal names winning |
| `GrpcWeb.ResponseRoundTrip` | grok-build-auth/xconsole_client/grpcweb.py:148-170 | for all such headers, parsing data frames, a trailer frame and a short tail gives the messages in order, that map and its status |
| `GrpcWeb.StatusRoundTrip` | grok-build-auth/xconsole_client/grpcweb.py:169 | reading a status written in decimal gives it back |
| `GrpcWeb.ReportedStatus` | grok-build-auth/xconsole_client/grpcweb.py:148-170 | the status sent last among the trailers is the one reported, whatever the case of its name and the spaces around |
| `GrpcWeb.StatusIsThatOfTheTrailer` | grok-build-auth/xconsole_client/grpcweb.py:167-170 | on every body: a response has a status iff a trailer of that name came, and it is the number in it; a trailer that is no number is an error |
| `GrpcWeb.NoTrailersNoStatus` | grok-build-auth/xconsole_client/grpcweb.py:148-170 | data frames without a trailer frame give the messages and no status |
| `GrpcWeb.OtherTrailersNoStatus` | grok-build-auth/xconsole_client/grpcweb.py:148-170 | trailers none of which is the status are reported without one |
| `GrpcWeb.BadStatusIsReported` | grok-build-auth/xconsole_client/grpcweb.py:169 | a status sent last that is no number makes the response an error |
| `GrpcWeb.ParseIntIff` | grok-build-auth/xconsole_client/grpcweb.py:169 | a status is read iff it is digits with single underscores between, with or without a sign, and any spaces around |
| `GrpcWeb.SignedNumerals` | grok-build-auth/xconsole_client/grpcweb.py:169 | a minus sign negates the number, a plus sign and underscores do not count |
| `GrpcWeb.FlagTellsKind` | grok-build-auth/xconsole_client/grpcweb.py:157-161 | the high bit of the flag alone tells a trailer frame from a data frame |
| `GrpcWeb.BadMessageIsReported` | grok-build-auth/xconsole_client/grpcweb.py:157-161 | the first message that does not decode makes the response an error, whatever follows |
| `GrpcWeb.UsualStatusHeaders` | grok-build-auth/xconsole_client/grpcweb.py:162-169 | a status header with a space after the colon or without tells the status |
| `CreateSession.RequestRoundTrip` | grok-build-auth/xconsole_client/oauth_protocol.py:58-78 | for all four strings, decoding the request and its nested fields gives them back, and every nested message surfaces as bytes |
| `CreateSession.FirstFieldIsOpaque` | grok-build-auth/xconsole_client/grpcweb.py:118-128 | a payload that opens with field 1 starts with a line feed and so is never taken for text |
| `CreateSession.PayloadsAreShorter` | grok-build-auth/xconsole_client/oauth_protocol.py:104-106 | every decoded bytes payload is at least two bytes shorter than its message, which bounds the recursion |
| `CreateSession.ExtractUrls` | grok-build-auth/xconsole_client/oauth_protocol.py:95-109 | the recursive loop returns the specified URLs and terminates on every input |
| `CreateSession.IsUrlIff` | grok-build-auth/xconsole_client/oauth_protocol.py:98-101 | the URLs are the texts that open with "http://" or "https://" |
| `CreateSession.WalkFindsTheLeavesIff` | grok-build-auth/xconsole_client/oauth_protocol.py:95-109 | on every tree of nested messages with text at its leaves, the walk finds exactly the URLs at the leaves, at every depth and left to right, iff no nested message that holds a URL reads as printable text itself |
| `CreateSession.WalkFindsTheLeaves` | grok-build-auth/xconsole_client/oauth_protocol.py:95-109 | it does so when every nested message opens with field 1, as those of the request do |
| `CreateSession.ShortUrlIsLost` | grok-build-auth/xconsole_client/oauth_protocol.py:98-101 | any printable URL of 32 to 126 bytes is lost when it is field 4 of a nested message with no other field |
| `CreateSession.UrlIsLost` | grok-build-auth/xconsole_client/grpcweb.py:118-128 | such a reply with a concrete URL |
| `SetCookie.NextCookieBoundary` | grok-build-auth/xconsole_client/fingerprint.py:179-203 | the index of the first comma that is a boundary, or a negative number iff there is none |
| `SetCookie.SplitSetCookie` | grok-build-auth/xconsole_client/fingerprint.py:150-172 | the shrinking loop returns the specified cookies |
| `SetCookie.UnfoldingUndoesFoldingIff` | grok-build-auth/xconsole_client/fingerprint.py:150-203 | for every list, joining with ", " and splitting gives it back iff every cookie is non-empty, trimmed and without a boundary of its own, each but the last has a ";", and each but the first opens with a token and "=" |
| `SetCookie.UnfoldingUndoesFolding` | grok-build-auth/xconsole_client/fingerprint.py:150-203 | so do all lists of trimmed cookies that open with a token and "=", have a ";", and have no "=" between an inner comma and the next ";" |
| `SetCookie.BareCookiesStayFolded` | grok-build-auth/xconsole_client/fingerprint.py:194 | two cookies without attributes come back as one |
| `SetCookie.CookieIsSplitIff` | grok-build-auth/xconsole_client/fingerprint.py:194-201 | a cookie is split from the one before it iff its name, apart from a space before the "=", has only letters, digits, hyphens, underscores and dots |
| `SetCookie.BoundaryIgnoresNextCookie` | grok-build-auth/xconsole_client/fingerprint.py:179-203 | what follows a cookie after a comma neither adds a boundary to it nor takes one away |
| `SetCookie.InnerCommaStartsNothing` | grok-build-auth/xconsole_client/fingerprint.py:191-201 | such an inner comma is no boundary whatever cookies follow, even with Expires last |
| `SetCookie.SplittingLosesOnlySpacesAndCommas` | grok-build-auth/xconsole_client/fingerprint.py:150-172 | on every input nothing but whitespace and commas is lost, and the order is kept |
| `SetCookie.CookiesLookLikeCookies` | grok-build-auth/xconsole_client/fingerprint.py:150-203 | on every input each cookie but the last has a ";" and each but the first opens with a name and "="; only a blank line gives none |
| `SetCookie.NoAttributeNoSplit` | grok-build-auth/xconsole_client/fingerprint.py:194 | a line without ";" is never split |
| `Text.TrimmedAwayIff` | grok-build-auth/xconsole_client/fingerprint.py:150-172 | trimming removes tabs, line ends, separators and spaces, and nothing else |
| `Affinity.AffinityStore.BindAccount` | grok2api/store/affinity_redis.py:88-129 | the entry rewritten with hits, bind time and texts carried over, and a fresh lifetime |
| `Affinity.AffinityStore.GetEntry` | grok2api/store/affinity_redis.py:54-78 | the refreshed entry, written back and returned; nothing for an absent or lapsed key |
| `Affinity.AffinityStore.Forget` | grok2api/store/affinity_redis.py:132-135 | the key removed |
| `Affinity.AffinityStore.ClearForAccount` | grok2api/store/affinity_redis.py:138-177 | the scan removes exactly the live entries of the account and returns their number |
| `Affinity.ClearingRemovesExactly` | grok2api/store/affinity_redis.py:138-177 | no other entry changes at any later time |
| `Affinity.EntryIsItsHistory` | grok2api/store/affinity_redis.py:54-129 | after every timed run an entry exists iff no gap since its last absence reached its TTL and nothing removed it; hits count the touches since then, the bind time begins the current account's unbroken tenure, the texts are the last non-empty ones given |
| `Affinity.EntriesKeepTheirLifetime` | grok2api/store/affinity_redis.py:54-129 | an entry bound or read is kept for the whole seconds of the lifetime given, and for one at least |
| `Affinity.ReadRefreshes` | grok2api/store/affinity_redis.py:54-78 | a read counts a hit and leaves the bind time, unless that is zero, which reads as absent |
| `Affinity.BlankTextIsNone` | grok2api/store/affinity_redis.py:88-129 | blank text counts as none, and of other text nothing but spaces is lost |
| `Affinity.UnbrokenIsLive` | grok2api/store/affinity_redis.py:54-129 | an unbroken history gives the entry that sums it up |
| `Affinity.LiveIsUnbroken` | grok2api/store/affinity_redis.py:54-129 | a live entry has an unbroken history |
| `AuthStore.AuthStore.CachedRead` | grok2api/pool/auth_store.py:147-165 | cache hit or miss, and the time of the last check |
| `AuthStore.AuthStore.ReadAuthMap` | grok2api/pool/auth_store.py:200-231 | the map returned, with the second look under the lock, and the cache it leaves |
| `AuthStore.AuthStore.WriteAuthMap` | grok2api/pool/auth_store.py:269-310 | file and cache hold the map |
| `AuthStore.AuthStore.MutateAuthMap` | grok2api/pool/auth_store.py:313-337 | the mutator is applied to the file's map, which is written and returned |
| `AuthStore.AuthStore.UpsertAuthEntry` | grok2api/pool/auth_store.py:340-379 | the merged map is written; an empty id or a value that is no record changes nothing |
| `AuthStore.AuthStore.Merged` | grok2api/pool/auth_store.py:360-376 | the deletion loop removes exactly the other entries of the same user or token |
| `AuthStore.RunIsCoherent` | grok2api/pool/auth_store.py:136-165 | with one process the cache, when filled, always equals the file |
| `AuthStore.WritesReachTheFile` | grok2api/pool/auth_store.py:269-379 | what a write, a mutation and an upsert leave in the file |
| `AuthStore.ReadsAreCurrent` | grok2api/pool/auth_store.py:200-231 | with one process every read returns the map left by the last write, mutation or upsert, for any clock and any modification times |
| `AuthStore.FilledCacheIsTrustedIff` | grok2api/pool/auth_store.py:136-165 | a cache just filled is trusted for a quarter of a second whatever becomes of the file, and after that exactly while the file has the same modification time |
| `AuthStore.ReadIsCurrentIff` | grok2api/pool/auth_store.py:147-231 | in every state of cache and file, a read returns the file's map iff the cache is empty or holds that map, or neither look accepts it |
| `AuthStore.PromptReadsStayStale` | grok2api/pool/auth_store.py:200-231 | so any number of reads that take the lock at once keep returning the old map |
| `AuthStore.ForeignWriteStaysUnseen` | grok2api/pool/auth_store.py:200-231 | a cache filled by a read, a file then written elsewhere, and the old map returned after an hour |
| `AuthStore.MergingRunsKeepUnique` | grok2api/pool/auth_store.py:340-379 | from a map without duplicates every run of merging upserts keeps at most one key for each effective user and each token |
| `AuthStore.PlainUpsertKeepsUniqueIff` | grok2api/pool/auth_store.py:360-376 | an upsert without merging keeps that iff no other key has the same account |
| `AuthStore.UpsertDropsIff` | grok2api/pool/auth_store.py:360-376 | the new entry is stored and no other changes; another key is dropped iff it holds the same account (effective user or token) or its principal is the new entry's effective user |
| `AuthStore.OtherAccountsSurviveIff` | grok2api/pool/auth_store.py:360-376 | all entries of other accounts stay as they were iff none has the new entry's effective user as its principal |
| `AuthStore.UpsertMayDropAnotherUser` | grok2api/pool/auth_store.py:368-375 | a concrete entry of another user that is dropped |
| `AuthStore.EntrySurvivesRunIff` | grok2api/pool/auth_store.py:340-379 | over every run of merging upserts under other keys an entry stays as it was iff no upsert stores the same account or has its principal as user |

## Left out

* PostgreSQL and Redis: the pool and the account map are the file-backed ones, storage writes succeed, and no overlay is present.
* Deletion of accounts: hard kicks for quota or credit errors, the account-block branch of the model error handler, and the older removal after a failed renewal, which end in code that is not part of this model.
* Other writers of records: the clean-up after a registration, and code that rewrites the whole table of records.
* Parsing of error text and retry headers: that an error is a free-usage error, an empty reply or a missing model is an argument, and so is the TTL of a model block.
* Fields that are only displayed (reasons, codes, token counts, last error) and stored values of the wrong type.
* Token refresh, the layout migration before `acquire`, caches of summaries and of policy values; policy limits have their default values.
* Threads, locks and file locks: every operation is atomic.
* Weights of the random mode: the draw is an arbitrary member. The shuffle is an arbitrary permutation.
* AccountPool.AccountPool.HandleUpstreamErrorForModel: the account-block branch is not modelled, because it ends by deleting the account in code that is not part of this model.
* AccountPool.AccountPool.PatchMeta: a patch is a record of optional updates, not a dictionary walked key by key.
* AccountPool.AccountPool.Acquire: the periodic prune runs or not by an argument instead of by a timer.
* AccountPool.AccountPool.TryAcquireSequence: pool state is read complete; the batched loading of partial state is not modelled, because it gives the same records.
* Floating-point rounding: times and lengths are real numbers.
* Protobuf.DecodeMessage: the numeric views of fixed32 and fixed64 chunks, the hexadecimal rendering and the offset in the error text are not modelled; the chunk itself is.
* GrpcWeb.AddTrailers: trailer text is split, trimmed and lowered on its bytes; whitespace and letters outside ASCII, the replacement of invalid UTF-8, and the interpreter's limit on the digits of a status are not modelled.
* CreateSession.ExtractUrls: the interpreter's recursion limit is not modelled.
* SetCookie.SplitSetCookie: whitespace and alphanumeric characters are those of ASCII.
* Affinity.AffinityStore.GetEntry: stored values are entries; values left by other writers and malformed JSON are not modelled.
* AuthStore.AuthStore.WriteAuthMap: retries and failure of the atomic replace are not modelled; JSON text is the map it stands for.
* The lookup of a single account entry by id, user or suffix, the settings getters and setters, registration, captcha, mailbox and browser code: they would add only easy members or are network and user interface code.
