# Parcel delivery API: verified model

A Dafny 4.11 model of the three stateful parts of the parcel delivery API and proofs of what they keep over
whole runs.

1. **Refresh-token rotation** (`TokenTable`, `TokenFamilies`, `TokenRuns`, `TokenHistory`, `AuthEffects`,
   `SessionSlots`, `AuthService`). `AuthService` is a class over the user and token tables; each method is
   proved to do what `TokenTable.Next` says of its call, and `AuthEffects` says what that is, column by column.
   Over all serial runs, a token family is one chain of which only the tail can be live and which is one
   conversation of calls, a family with a reused token is dead for good, and the whole token table refines a
   machine with one slot per session.
2. **The delivery-cost job** (`Decimals`, `Rounding`, `Pricing`, `PriceError`, `DeliveryTable`,
   `DeliveryTotals`, `DeliveryJob`, `DeliveryRuns`, `DeliveryTraces`, `SoloRuns`, `DeliverySchedule`). The
   formula runs in a digit-level model of Python's decimal context and of the rounding of a MySQL column. For
   every rate, of any length and exponent, it is proved when the formula is exact, when a price is the nearest kopeck, when it
   fits its column, and that it is monotone. The batch loop is a method whose `LIMIT` picks arbitrary rows.
   Overlapping, crashing and resuming runs are a state machine with the Redis lock and a clock, of which the
   method is the undisturbed run.
3. **The response cache over owner-scoped reads** (`Parcels`, `ParcelService`, `ResponseCache`). Requests,
   writes, expiry and evictions interleave; every response is tied to the columns of a recent database
   state, also where the cache key does not name the owner.

`Scopes` is the printing and reading of the scope claim. `Wrappers` holds the optional value.

Assumptions, made where the model leaves the program:

- Service calls of `AuthService` are serial transactions, and the uuids and raw tokens they draw are new
  (`TokenTable.Fresh`). `hash_token` is an injective constructor. Whether a password matches is an argument
  of the call. The clock is an argument too, in microseconds, and need not be monotone.
- The DATETIME columns of a token (app/models/refresh_token.py:42-58) hold whole seconds: MySQL rounds what is
  stored to the nearest one, half a second up (`TokenTable.ToSecond`), and app/services/auth.py:85 compares the
  stored second with the unrounded clock.
- MySQL runs in strict mode: a value outside its DECIMAL column is refused with the whole transaction.
  Rounding into a column is half away from zero. An exchange rate is not negative, and the two price
  coefficients have their defaults (app/core/settings.py:62-63).
- SQL compares strings exactly. docker-compose.yml:52 runs a MySQL whose default collation ignores case, under
  which `list_owned` and `get_owned` can disagree (`ParcelService.ListedNotFetched`).
  `ParcelService.CollationExact` says that they agree exactly when SQL equality is equality, and
  `ParcelService.AgreementOverHistories` for which callers they agree when it ignores case.
- A Redis key is present strictly before its expiry time, and ticks happen exactly on time: where the lock's
  time to live is a multiple of the interval, the instant of expiry decides which ticks work.
- A handler's count and page come from one database snapshot. Cache keys are compared by what goes into the
  hash. A session id the middleware has just generated owns nothing, and nobody writes under it before the
  response reveals it (`ResponseCache.Enabled`).

Where the code and its documentation differ, the model follows the code:

- docs/ARCHITECTURE.md:259 says the job releases its lock. It never does, and with the default 330 s lock
  and 5-minute ticks every second tick is skipped (`DeliverySchedule.DefaultSchedule`); the advice at
  app/core/settings.py:65-66 to keep the lock shorter than the interval is not followed by the defaults.
- app/tasks/routes.py:53-54 says the manual trigger still deduplicates concurrent invocations. It takes the
  lock away from an active run; runs stay exclusive exactly when none was active (`DeliveryRuns.ManualTrigger`).
- app/schemas/parcel.py:3 says the schema mirrors the database checks. It admits 14 digits of declared value and
  the column holds 12, so a validated body is stored exactly when its value is below 10^10 dollars
  (`ParcelService.CreatedExactly`, `ParcelService.SchemaWiderThanColumn`).
- app/schemas/parcel.py:3-4 keeps values decimal to avoid rounding in pricing. A rate of 16 or 17 digits, which
  app/services/rates.py:36 can return, rounds in the formula and again in the column, and the stored price can
  miss the nearest kopeck (`PriceError.KopeckMissed`); `PriceError.HalfKopeckExactly` says exactly when.

## Model

| member | source | states |
|---|---|---|
| TokenTable.Find | app/services/auth.py:168-176 | a token is found exactly when some row has its hash |
| TokenFamilies.ChainUnique | app/services/auth.py:96-109 | a family's rows admit one order: one head, one successor each |
| TokenFamilies.TailIsUnreplaced | app/services/auth.py:98-99 | exactly the last row of a family has no successor |
| TokenFamilies.HeadHasNoPredecessor | app/services/auth.py:144-160 | nothing was ever rotated into the first row of a family |
| TokenFamilies.OnlyTailLive | app/services/auth.py:80-110 | every row but the last is revoked and replaced, so at most one row of a family is live |
| TokenFamilies.FamilyUser | app/services/auth.py:100-109 | all rows of a family belong to one user |
| TokenFamilies.NearestSecond | app/models/refresh_token.py:42-58 | a time is stored as the nearest whole second of 10^6 microseconds, and as the later one half way; no other second is as near |
| TokenFamilies.StoredBefore | app/models/refresh_token.py:42-58 | a refresh before expiry is stored no later than the expiry, and earlier if and only if it came more than half a second before it |
| TokenFamilies.StoredLifetime | app/services/auth.py:192-193 | the two times of a row are stored exactly a lifetime apart, and the expiry is moved by at most half a second |
| TokenFamilies.RotationDeadline | app/services/auth.py:85-110 | the k-th rotation is stored no later than first issue + k lifetimes, and earlier if and only if one of the first k rotations was stored before its predecessor's expiry |
| TokenFamilies.ChainSurvivesRevocation | app/services/auth.py:178-184 | no bulk or single revocation breaks a chain |
| TokenFamilies.ChainGrows | app/services/auth.py:96-110 | rotating the live, unexpired tail extends the chain by the successor, linked at the stored second of the rotation, at the latest that of the expiry |
| TokenFamilies.RotationKeepsInv | app/services/auth.py:96-110 | rotation keeps unique hashes, lifetimes and the chain shape of every family |
| TokenFamilies.IssueKeepsInv | app/services/auth.py:144-160 | a new family keeps the invariant |
| TokenFamilies.CallEffect | app/services/auth.py:50-142 | a call opens one family, or rotates one live unexpired row of an existing user, or only revokes live rows; tokens are issued in exactly the first two cases |
| TokenFamilies.NextKeepsInv | app/services/auth.py:50-160 | the invariant is inductive over every call |
| TokenFamilies.ChainStep | app/services/auth.py:75-142 | a family's chain changes only by appending, and only when its tail is refreshed |
| TokenFamilies.FamilyStart | app/services/auth.py:50-73 | a family begins as one row, and only by a successful register or login |
| TokenRuns.RunKeepsInv | app/services/auth.py:50-184 | every run from a good table ends in a good table |
| TokenHistory.FamilyHistory | app/services/auth.py:50-122 | after any run a family's rows are the rows its calls issued, in call order, with their times: a register or login, then refreshes each presenting the token of the answer before, before that token expired; no other call issued one of them |
| TokenHistory.EarlyIsStoredEarly | app/services/auth.py:85-110 | a rotation is stored before its predecessor's expiry if and only if its call came more than half a second before that expiry |
| TokenHistory.DeadlineMet | app/services/auth.py:85-110 | on the clock the k-th rotation comes strictly before first issue + k lifetimes; its column is below that second if and only if one of the first k calls came more than half a second early |
| TokenHistory.LastMicrosecond | app/services/auth.py:85-110 | a run whose refresh, a microsecond before expiry, is stored at the second of the expiry |
| TokenHistory.ReachableFamily | app/services/auth.py:50-184 | in every reachable state each family is one unique chain with one user, only the tail possibly live, every rotation within its deadline on the clock and in the columns, its head issued by a register or login of the run and each later row by the next refresh |
| TokenRuns.WriteOnce | app/services/auth.py:85-110 | over every run no row disappears, and `revoked_at` and `replaced_by_jti` never change once set |
| TokenRuns.RunEvolves | app/services/auth.py:124-142 | over every run a revoked row is frozen and a live row keeps its identity columns |
| TokenRuns.ReuseKillsFamily | app/services/auth.py:80-83 | presenting a revoked token is rejected, leaves its family without a live row and changes no other family |
| TokenRuns.DeadStaysDead | app/services/auth.py:178-184 | in every continuation a dead family keeps exactly its rows and none of its tokens refreshes |
| TokenRuns.ReuseIsFinal | app/services/auth.py:80-83 | after a reuse, in every continuation no row joins the family and no token of it refreshes |
| TokenRuns.RotatesAtMostOnce | app/services/auth.py:96-110 | over any run a raw token rotates successfully at most once |
| TokenRuns.RunCounts | app/services/auth.py:144-160 | a run adds one row per token issued; live rows grow by no more than the sessions opened |
| TokenRuns.ReachableCounts | app/services/auth.py:144-160 | from empty tables: rows = registers + logins + refreshes that succeeded, live rows at most registers + logins |
| TokenRuns.LogoutAllEffect | app/services/auth.py:132-142 | exactly the live rows of the user become revoked |
| TokenRuns.LoggedOutUntilLogin | app/services/auth.py:132-142 | a user without live tokens has none and is issued none until they register or log in |
| TokenRuns.LogoutAllHolds | app/services/auth.py:132-142 | after `logout_all`, in every continuation, no live token and no issue before the next login; other users' rows untouched |
| AuthEffects.UnknownEffect | app/services/auth.py:168-176 | a token no row has the hash of: rejected, nothing changes, for refresh and logout |
| AuthEffects.ReuseEffect | app/services/auth.py:80-83 | a revoked token: rejected, exactly the rows of its family that were not revoked get the second of the call, every other column and row stays |
| AuthEffects.RefusalEffect | app/services/auth.py:85-94 | an expired token or one whose user is gone: rejected, that row alone gets the second of the call |
| AuthEffects.RotationEffect | app/services/auth.py:96-122 | a good token: every column of its row and of its successor, every other row unchanged, the answer's user, role and token |
| AuthEffects.LogoutEffect | app/services/auth.py:124-130 | a live token's row gets the second of the call, a revoked one's stays |
| AuthEffects.RegisterEffect | app/services/auth.py:50-63 | a taken address changes nothing; a new one gets a user of role "user" and a token row, in every column |
| AuthEffects.LoginEffect | app/services/auth.py:65-73 | a wrong password changes nothing; the right one adds a token row, in every column, and answers the user's role |
| AuthEffects.UnknownEmailEffect | app/services/auth.py:65-70 | an address no user has: rejected, nothing changes |
| AuthEffects.RemovalEffect | app/services/auth.py:90-94 | removing a user leaves the token rows, and none of the user's tokens refreshes |
| AuthEffects.RevocationDated | app/services/auth.py:80-184 | in every reachable table every `revoked_at` is the second of a call of the run that found the row live |
| SessionSlots.SummaryIsTail | app/services/auth.py:75-110 | a family's session is what its tail row says |
| SessionSlots.KnownExactly | app/services/auth.py:168-176 | a token has a row exactly when one session knows it, the session of the row's family |
| SessionSlots.GoodExactly | app/services/auth.py:80-94 | a token fills its session's slot, unexpired, for an existing user, exactly when its row passes the three checks |
| SessionSlots.RefreshRefines | app/services/auth.py:75-122 | refresh swaps the slot for the good token, empties it for any other known token, does nothing for an unknown one |
| SessionSlots.LogoutRefines | app/services/auth.py:124-130 | logout empties the slot of the token in it and ignores a stale token |
| SessionSlots.LogoutAllRefines | app/services/auth.py:132-142 | logout-all empties exactly the user's slots |
| SessionSlots.CallRefines | app/services/auth.py:50-142 | every call does to the table what the slot machine does, with the same answer |
| SessionSlots.RunRefines | app/services/auth.py:50-142 | every run of the service is a run of the slot machine with the same outcomes |
| AuthService.AuthService.GetRefreshToken | app/services/auth.py:168-176 | finds the one row with the token's hash |
| AuthService.AuthService.Register | app/services/auth.py:50-63 | new state and answer of a register call; emails stay unique |
| AuthService.AuthService.Login | app/services/auth.py:65-73 | new state and answer of a login call |
| AuthService.AuthService.IssueTokens | app/services/auth.py:144-166 | adds the first row of a new family and keeps the invariant |
| AuthService.AuthService.RevokeTokensOf | app/services/auth.py:178-184 | each row of the family not yet revoked gets the second of the call, and every other row stays |
| AuthService.AuthService.RotateToken | app/services/auth.py:96-110 | closes the row, links and adds its successor |
| AuthService.AuthService.Refresh | app/services/auth.py:75-122 | new state and answer in each of the five outcomes; invariant kept |
| AuthService.AuthService.Logout | app/services/auth.py:124-130 | new state and answer; invariant kept |
| AuthService.AuthService.LogoutAll | app/services/auth.py:132-142 | new state and answer; invariant kept |
| Decimals.ExactWithinPrecision | app/tasks/delivery.py:71-73 | a result of at most 28 digits is exact |
| Decimals.HalfEvenNearest | app/tasks/delivery.py:71-73 | dropping digits goes to the nearest coefficient, ties to even |
| Rounding.ContextRoundIsRounded | app/tasks/delivery.py:71-73 | the context's result, carry included, has at most 28 digits and is the rounded integer at its scale |
| Rounding.RoundedNearest | app/tasks/delivery.py:71-73 | that integer is a multiple of the unit kept, within half a unit, even at a tie |
| Rounding.ContextRoundNearest | app/tasks/delivery.py:71-73 | no decimal of at most 28 digits, of any exponent, is nearer to the exact result |
| Rounding.RoundedMonotone | app/tasks/delivery.py:71-73 | rounding to 28 digits keeps order, across lengths |
| Rounding.StoredMonotone | app/models/parcel.py:66-69 | context and column together keep the order of values, whatever the two exponents |
| Decimals.HalfUpIsRounding | app/models/parcel.py:66-69 | storing into two decimals is one rounding division, ties away from zero |
| Decimals.RoundingError | app/models/parcel.py:66-69 | the stored number is within half a unit of the exact one |
| Pricing.FormulaExact | app/tasks/delivery.py:60-73 | the formula drops no digit if and only if the product is below 10^28 |
| Pricing.ExactForEveryParcel | app/tasks/delivery.py:60-73 | it drops none for any parcel if and only if the rate's coefficient is at most 9523809523863945: all rates of 15 digits and some of 16 |
| Pricing.FormulaValue | docs/ARCHITECTURE.md:230-232 | for every rate, the formula's value is (0.5 weight + 0.01 value) × rate in real arithmetic if and only if the digits of the product beyond the 28th are zeros |
| Pricing.CostClosedForm | app/tasks/delivery.py:100-110 | a product below 10^28, at any exponent, is stored as the exact price rounded once, half away from zero |
| Pricing.FourDecimalCost | app/tasks/delivery.py:71-73 | for a four-decimal rate and a product below 10^28, kopecks = ((5w + d) r + 500000) div 10^6 |
| Pricing.PriceFitsExactly | app/models/parcel.py:66-69 | for every parcel and rate, after both roundings, the price fits its column if and only if the exact price is below 9999999999.9949999999999999995 |
| Pricing.EveryPriceFits | app/models/parcel.py:49-69 | every parcel's price fits if and only if 104999999.9994 × rate is below that number |
| Pricing.SafeRates | app/models/parcel.py:49-69 | among four-decimal rates, if and only if the rate is at most 95.2380 |
| Pricing.CostMonotone | app/tasks/delivery.py:71-73 | cost is monotone in weight, value and rate, for every pair of rates in order |
| PriceError.HalfKopeckExactly | app/tasks/delivery.py:103-109 | a price that fits is within half a kopeck of the exact one, and is the exact one rounded once, if and only if it is not below a half kopeck by no more than the unit the context rounds to |
| PriceError.KopeckMissed | app/services/rates.py:36 | a 17-digit rate and a parcel whose stored price is more than half a kopeck off |
| PriceError.CostError | app/tasks/delivery.py:103-109 | for every parcel and rate the error is at most half a kopeck plus half the unit the context rounds to, one part in 2 × 10^27 |
| DeliveryTable.PricedTwice | app/tasks/delivery.py:100-110 | two batches at one rate are one batch |
| DeliveryTotals.TotalError | app/tasks/delivery.py:100-110 | after a complete run in which no price was rounded twice, the costs sum to the documented total up to n half kopecks |
| DeliveryTotals.TotalErrorAnyRate | app/tasks/delivery.py:100-110 | at every rate, up to n half kopecks and one part in 2 × 10^27 |
| DeliveryJob.DeliveryJob.AcquireLock | app/tasks/delivery.py:27-40 | succeeds exactly when the key is absent or expired, and then sets it for the time to live |
| DeliveryJob.DeliveryJob.FetchUnpriced | app/tasks/delivery.py:43-57 | any distinct pending rows, as many as there are up to the limit |
| DeliveryJob.DeliveryJob.PriceBatch | app/tasks/delivery.py:103-109 | a batch is committed whole, or refused whole when a price does not fit |
| DeliveryJob.DeliveryJob.PricePending | app/tasks/delivery.py:96-110 | terminates; for every choice of rows, equals one pass and returns the pending count, or stops, after a whole number of batches, at a price that does not fit |
| DeliveryJob.DeliveryJob.Recalc | app/tasks/delivery.py:76-120 | skipped under a held lock, rate failure touches no row, otherwise the batch loop; the lock is never released |
| DeliveryJob.DeliveryJob.ManualRecalc | app/tasks/routes.py:51-58 | never skipped, whatever the lock |
| DeliveryJob.StillUnfit | app/tasks/delivery.py:103-109 | a refused batch leaves a whole number of fitting batches committed and an unfitting row pending |
| DeliveryJob.SafeRateCompletes | app/tasks/delivery.py:99-110 | at every rate at which all prices fit, the job completes, prices everything and keeps all rows in their columns |
| DeliveryRuns.StepKeepsInv | app/tasks/delivery.py:89-110 | every step of every interleaving keeps each row as it arrived or at the price of a started run |
| DeliveryRuns.PricedForever | app/tasks/delivery.py:103-109 | a priced row never becomes pending again and no other column changes |
| DeliveryRuns.SameRate | app/tasks/delivery.py:94-110 | overlapping runs at one rate end in the table of a single run |
| DeliveryRuns.AnyInterleaving | app/tasks/delivery.py:89-110 | the three facts above for every trace from every table, manual triggers included |
| DeliveryRuns.CommitKeepsLedger | app/tasks/delivery.py:99-110 | a commit of the only active run writes only pending rows |
| DeliveryRuns.CrashAndResume | app/tasks/delivery.py:99-110 | non-overlapping runs, cut off anywhere, parcels arriving: updates + pending = initial + arrived; each priced row in exactly one batch, at the rate of its run |
| DeliveryRuns.CompleteRun | app/tasks/delivery.py:99-110 | once a run finds nothing left, every row was priced exactly once |
| DeliveryRuns.AcquisitionsApart | app/tasks/delivery.py:27-40 | without manual deletes, acquisitions are at least a time to live apart |
| DeliveryRuns.TimedExclusion | app/tasks/delivery.py:89-91 | if every run ends within the time to live, no two are ever active together and each cost is written at most once |
| DeliveryRuns.ManualTrigger | app/tasks/routes.py:51-56 | the manual trigger always starts a run; runs stay exclusive exactly when none was active |
| SoloRuns.RunIsJob | app/tasks/delivery.py:94-110 | every undisturbed trace of one run, whatever rows it fetches, has the outcome of the batch loop, with the count of its log |
| SoloRuns.RunEnds | app/tasks/delivery.py:99-110 | such a trace exists from every idle run |
| SoloRuns.Recovery | app/tasks/delivery.py:99-102 | a run can crash anywhere; after its lock expires a fresh run at a safe rate can start, and every way it goes undisturbed prices all that was pending |
| DeliveryTraces.EveryRowAccounted | app/tasks/delivery.py:89-110 | after every interleaving the rows are the initial and the arrived ones, each as it came or at the formula price of its own weight and value at a rate some run of the trace fetched |
| DeliveryTraces.EndsExactly | app/tasks/delivery.py:96-110 | a run ends by a crash, a fetch of nothing or a refused batch and in no other way, and its end writes no row |
| DeliveryTraces.OverForGood | app/tasks/delivery.py:96-110 | a run that has ended commits nothing more, in every continuation |
| DeliverySchedule.WorkingTicks | app/tasks/scheduler.py:28-37 | the job works on exactly the ticks divisible by ceil(ttl / interval) |
| DeliverySchedule.DefaultSchedule | app/core/settings.py:65-69 | with the defaults, on every second tick |
| DeliverySchedule.RoundsAreTrace | app/tasks/delivery.py:27-40 | rounds of one attempt at the lock and any other steps of the run state machine leave exactly the lock of the schedule |
| DeliverySchedule.ScheduleIsTrace | app/tasks/scheduler.py:28-37 | after any number of rounds from any table, the tick can start a run if and only if the schedule works, on the multiples of ceil(ttl / interval) |
| ParcelService.SortedUnique | app/services/parcel.py:142-144 | the id order of a result is unique |
| ParcelService.List | app/services/parcel.py:109-145 | a page holds only the owner's parcels that pass the filters, at most `limit` of them |
| ParcelService.ParcelService.CreateFromDto | app/services/parcel.py:34-72 | new table or the reason for refusal; the new row's columns are the body's and the owner's; rows keep fitting their columns |
| ParcelService.CreatedExactly | app/schemas/parcel.py:15-16 | a schema-valid body is stored if and only if its type is known and its value fits the narrower column; then it is one new pending row with the body's columns |
| ParcelService.CreateEffect | app/services/parcel.py:45-72 | which of the four answers any body gets, and of a stored row every column |
| ParcelService.HistoryKeepsBody | app/services/parcel.py:59-66 | after every history a parcel holds what its body said; it is unpriced until an event prices it, and then has the formula price of the body at the last such rate |
| ParcelService.SchemaWiderThanColumn | app/models/parcel.py:54-57 | the least declared value that the schema admits and the column refuses |
| ParcelService.ParcelService.GetOwned | app/services/parcel.py:74-107 | found exactly when the parcel is in the owner's unfiltered list; missing and foreign told apart |
| ParcelService.ParcelService.ListOwned | app/services/parcel.py:109-145 | over the table's columns: how many rows match owner and filters, and at every offset the (offset + k)-th of them in id order at place k |
| ParcelService.ListExactly | app/services/parcel.py:109-145 | the same of the specification, which is the only page with that property |
| ParcelService.GetExactly | app/services/parcel.py:74-107 | missing if and only if the id is not in the table, refused if and only if the owner column says another, otherwise the row |
| ParcelService.CollationExact | app/services/parcel.py:90-122 | listing and fetching agree on ownership, in either mode, if and only if SQL string equality is exact |
| ParcelService.ListedNotFetched | app/services/parcel.py:90-122 | ignoring case, a parcel its owner, spelling the uuid in capitals, can list and not fetch |
| ParcelService.AgreesForCanonical | app/services/parcel.py:90-122 | ignoring case, on a table of canonically spelled owners, a caller's two reads agree if and only if the caller's id is canonical or its canonical spelling owns nothing |
| ParcelService.AgreementOverHistories | app/middlewares/session.py:39-56 | the same after every history whose creators spelled their ids canonically |
| ParcelService.Pagination | app/services/parcel.py:132-145 | pages put end to end are the id-sorted filtered list, no gap, no repeat, length `total` |
| ParcelService.CostFilterPartitions | app/services/parcel.py:125-130 | `has_cost` true and false split the list |
| ParcelService.VisibleToCreator | app/services/parcel.py:59-107 | over histories mixing both modes a parcel is visible to exactly its creator in its creation mode, bar the empty session id |
| ResponseCache.NothingToSee | app/services/parcel.py:118-145 | an owner of nothing lists the empty page and has no cacheable detail |
| ResponseCache.HandleExactly | app/api/parcel.py:117-192 | the handlers' answer is the only one that agrees with the table's columns: total, slice and every column of each item of a list; missing, forbidden or every column of the item of a detail |
| ResponseCache.AssignSessionId | app/middlewares/session.py:39-56 | the request's session is its valid header or the generated id, and always a uuid |
| ResponseCache.KeyNamesOwner | app/core/cache.py:61-80 | the key names the owner exactly when the session was not generated |
| ResponseCache.OwnerExactly | app/middlewares/session.py:39-56 | the owner is the bearer's subject, the session header where it is a uuid, otherwise the generated id |
| ResponseCache.KeysCollide | app/core/cache.py:56-80 | two requests share an entry if and only if target and identity header agree, an absent header counting as "anon" |
| ResponseCache.TraceState | app/core/cache.py:132-160 | clock and table after any trace are those of its last tick and last write |
| ResponseCache.Unhindered | app/core/cache.py:132-160 | time can pass and entries can be lost at any point; with bearer headers any write and any new request is possible too |
| ResponseCache.Forgotten | app/core/cache.py:132-160 | a lost entry or an abandoned request leaves everything else as it was |
| ResponseCache.HitIsGood | app/core/cache.py:141-146 | a hit answers as the handler did within ttl + gap, or as it does now |
| ResponseCache.ReadIsGood | app/core/cache.py:148-158 | a miss answers from the current table; only successes go on to the cache |
| ResponseCache.StoreIsGood | app/core/cache.py:150-158 | what is stored is at most `gap` old, and empty under a key that names no owner |
| ResponseCache.StepKeepsInv | app/core/cache.py:132-160 | every step keeps every entry, pending request and past response good |
| ResponseCache.BoundedStaleness | app/core/cache.py:132-160 | every response of every interleaving agrees with the table's columns for its owner, on a state at most ttl + gap old; exactly current for generated sessions |
| ResponseCache.OnlyOwnParcels | app/core/cache.py:56-80 | whoever filled the cache, a response shows only the requesting owner's parcels |
| ResponseCache.SharedEntriesAreEmpty | app/core/cache.py:64-80 | an entry shared by callers without a usable session id is the empty page |
| ResponseCache.UndisturbedCall | app/core/cache.py:141-158 | a request nothing interrupts adds one response: a hit repeats the entry and changes nothing else, a miss agrees with the current table's columns and caches exactly a success for the time to live |
| ResponseCache.RepeatedFor | app/core/cache.py:150-156 | a later request with the key repeats a cached success if it comes before the time to live is over, and otherwise reads the table |
| ResponseCache.RedisCache.Serve | app/core/cache.py:134-158 | a hit serves the entry and changes nothing; a miss agrees with the table's columns and stores only success |
| Scopes.ScopeRoundTrip | app/core/security.py:116-159 | the claim reads back as its scopes exactly when they are non-empty and free of white space |
| Scopes.GrantsExactly | app/core/security.py:159-161 | a token grants exactly the required scopes it was printed from |

## Left out

- Overlapping refresh calls on one token: `_get_refresh_token` takes no row lock, so the token theorems are about serial calls.
- bcrypt, SHA-256, JWT signing and expiry, and the drawing of uuids and tokens: abstract inputs.
- HTTP plumbing: cookies, the CSRF and admin-token comparisons, error envelopes, OpenAPI, rate limiting, metrics, logging.
- The exchange-rate service and its retries: a run is given a rate or none.
- The parcel-type list and its key without identity: no owner, so only easy members.
- JSON text of cached payloads: answers are compared by value.
- Switching the ownership mode while cache entries persist, and the foreign key of `parcel.user_id`.
- ORM identity maps and partial flushes: a batch of prices reaches the table in one commit.
