# Verified model of the account service

A Dafny model of five parts of the account service and proofs about them. Each part keeps state; each is
specified by something simpler that it must agree with.

1. **Redis circuit breaker.** `RollingWindow` and `CircuitBreaker` are classes over the same fields as the
   original: a ring of one-second buckets with an 18-band histogram, counters, and a CLOSED, OPEN and HALF_OPEN
   machine. The specification is a breaker that keeps the whole event log and recomputes everything from it
   (`BreakerSpec.dfy`); every method is proved to move both alike (`Breaker.dfy`). What it decides is stated once more
   as numbers of events in the log (`BreakerDecisions.dfy`). Safety, load, recovery and no-wedge results are then about
   all runs of the specification (`BreakerRuns.dfy`), and the race of timer and command about all interleavings of
   protected calls (`ProtectedCalls.dfy`).
2. **Filters, cursor and documents.** The recursive compiler from Mongo-style filters to SQL threads a mutable
   parameter array (`FilterCompiler.dfy`). Its text is parsed back by a parser with OR below AND below NOT and
   evaluated in SQL's three-valued logic (`Sql.dfy`), and is proved to mean what the filter means
   (`FilterTheorems.dfy`), with the exact condition where a dropped operator makes a difference
   (`NegatedSizes.dfy`). `FieldColumns.dfy` has which columns a filter reads, which rows it selects and which filters
   are refused. On the compiler stand the keyset cursor (`Cursor.dfy`) and the update and save paths of the document
   layer (`Documents.dfy`).
3. **Identity index.** The inverted index of lookup keys, as a class over its table (`IdentityIndex.dfy`), with its
   own flat filter builder (`IndexFilter.dfy`), against a scan of the users table over whole runs with time, expiry
   and the sweeper (`IndexRuns.dfy`), lookups of addresses that several users lay claim to (`IndexClaims.dfy`), the
   sweeper between single statements (`SweeperRuns.dfy`), and its rebuild (`Backfill.dfy`).
4. **Email migration and session tokens.** The handlers as methods on the table and the index
   (`Migration.dfy`, `MigrationController.dfy`), what each asks for and leaves column by column (`MigrationRules.dfy`),
   whole migrations in either order (`MigrationRuns.dfy`), the login that finishes an interrupted one
   (`LoginFinalization.dfy`) in a run from empty tables (`MovedBack.dfy`), migrations that overlap
   (`OverlappingMigrations.dfy`, `OverlappingRuns.dfy`) or expire (`ExpiredMigrations.dfy`), all that may happen to an
   account move by move (`AccountMoves.dfy`), the stored token lists (`Sessions.dfy`, `SessionRuns.dfy`), and how long
   a token issued stays in them (`SessionLife.dfy`).
5. **Local rate limiter.** The fixed-window limiter with its fallback mode and lazy sweep (`RateLimiter.dfy`), and
   its answers request by request (`LocalWindows.dfy`).

Time is a number of milliseconds passed to each call, which reads it once, and the backfill once for every user;
runs have monotone time. Jitter, random tokens, new ids and the replies of Redis are parameters, so the results
hold for all of them. Rates are reals. The HMAC of a normalised address stands for the address itself, hashes of
tokens for themselves. A database statement is one step. User ids are numbers that stand for the ordered keys.

## Where the obvious claim is false

- `inflight` does not stay below `maxInflight`: probes are limited by `halfOpenProbes` alone. The exact condition is
  `BreakerRuns.MaxInflightHoldsIffProbesFit`.
- `aggregate` also counts the bucket from n seconds ago when nothing has been recorded in the current second. The
  exact condition is `LatencyWindow.AggregateIsLastSeconds`. A release records before it aggregates, so its own
  decisions are always over the last n seconds.
- `$not` with `$size` drops every operator beside the `$size`. On a row the meaning stays if and only if the size
  decides there, that is, the dropped operators hold on a column of that size and none is false on NULL:
  `NegatedSizes.NegatedSizeIsExactIff`, and for the text `NegatedSizes.NegatedSizeTextIsExactIff`. With
  `FilterTheorems.CompiledMeaning` these are the only places where text and filter part
  (`NegatedSizes.TextPartsOnlyAtNegatedSizes`). A row where they do: `FilterTheorems.NegatedSizeDropsItsNeighbours`.
- A filter with an empty operator object, or with an `$or` branch that compiles to nothing, is no SQL:
  `FilterTheorems.CompilesToValidSql`, in both directions. An empty `$or` list puts no constraint at all.
- Rotating a refresh token at capacity can evict a sibling, although the code's comment speaks of one pull and one
  push: `SessionRuns.RotationKeepsSiblings`.
- The newest history entry of a migration can stay pending after success, if and only if an older entry for the same
  address was still pending: `MigrationRuns.NewestEntrySucceeds`. Two ways in which this comes about: two requests
  made with one document (`OverlappingMigrations.OverlappingRequestsLeaveNewestPending`), and a login that finishes an
  interrupted migration (`LoginFinalization.InterruptedMigrationEndsPending`) before the account moves away and back
  (`LoginFinalization.LoginLeavesNewestEntryPending`). `OverlappingRuns.OverlappingRequestsHappen` and
  `MovedBack.AwayAndBackHappens` have a run from empty tables for each.
- The guard against a second pending migration (`migration.controller.ts:440`) looks at the document the caller was
  authenticated with. An accepted request finds none in the table if and only if, since that document was read, no
  other request of the account was accepted that is still to be completed:
  `OverlappingMigrations.GuardHoldsIffNoneOutstanding`, over every run of requests, clicks, logins and finalisations.
- The lookups of former and pending addresses are not scans of the table: a later claimant who is deleted takes the
  row along (`IndexClaims.DeletedClaimIsLost`). A claimant is found if and only if nobody else has claimed since
  (`IndexClaims.ClaimantIsFoundIffLast`); where claims are never shared they are scans
  (`IndexClaims.UnsharedClaimsAreScans`).
- Not every account that a finalisation deletes was confirmed to be overridden: two accounts may be accepted for one
  free address, and the second to finalise deletes the first (`OverlappingMigrations.LatecomerDeletesTheFirst`, from
  empty tables `OverlappingRuns.LatecomerHappens`). The exact condition is `OverlappingMigrations.DeletionIsConfirmedIff`.
- A pending migration cannot always be completed or replaced. Once its links have expired with a side unverified, the
  account has the address pending forever, as far as the service goes; only the maintenance scripts clear it, or another
  request that was under way since before the migration began. The exact condition is
  `ExpiredMigrations.PendingForeverIffStuck`, and for a late run `ExpiredMigrations.LateRunPendsForeverIff`.
- Finalisation does not always raise the token version. It does if and only if some account, another or this one,
  holds the new address at that moment: `MigrationRuns.VersionRisesIffTaken`. In a run with idle others somebody
  does, if only the placeholder; a run in which the holder goes in between: `OverlappingMigrations.HolderGoneKeepsVersion`.
- A request and two clicks do not always move the account: they do if and only if the second click comes within 24
  hours of the request, and every address stays otherwise: `MigrationRuns.MigrationMovesTheAccount`.

## Model

| member | source | states |
|---|---|---|
| LatencyWindow.BandIsFirst | src/config/redisCircuitBreaker.ts:263-269 | The band of a latency is the first whose upper bound is at least it; the last band takes the rest. |
| LatencyWindow.BandsAreMonotone | src/config/redisCircuitBreaker.ts:203-208 | A higher latency never falls into a lower band. |
| LatencyWindow.BandOf | src/config/redisCircuitBreaker.ts:263-270 | The loop with its early exit finds that band. |
| LatencyWindow.RollingWindow.constructor | src/config/redisCircuitBreaker.ts:231-241 | Between 1 and 64 empty buckets, which hold the empty event log. |
| LatencyWindow.RollingWindow.Record | src/config/redisCircuitBreaker.ts:247-279 | The ring of buckets, with its reuse of stale ones, goes on holding the event log, now one event longer. |
| LatencyWindow.RecordKeepsRing | src/config/redisCircuitBreaker.ts:248-260 | Overwriting the slot of the new second leaves every bucket holding exactly the events of its own second, and loses no bucket that is still the newest of its slot. |
| LatencyWindow.RollingWindow.Aggregate | src/config/redisCircuitBreaker.ts:281-302 | The sum over the ring equals statistics recomputed from the event log, over the seconds still held that lie in the window. |
| LatencyWindow.AggregateIsLastSeconds | src/config/redisCircuitBreaker.ts:281-302 | That is exactly the last n seconds if and only if something was recorded in the current second or nothing was recorded n seconds ago. |
| LatencyWindow.TallySplits | src/config/redisCircuitBreaker.ts:292-300 | Statistics of disjoint sets of seconds add up. |
| LatencyWindow.Merge | src/config/redisCircuitBreaker.ts:292-300 | The histogram loop adds two statistics band by band. |
| LatencyWindow.Counted | src/config/redisCircuitBreaker.ts:260-278 | One event raises the total, one band, and the one of errors and timeouts that its outcome names. |
| Percentiles.MassIsTotal | src/config/redisCircuitBreaker.ts:260-278 | In every aggregate the histogram's mass is the total, and errors plus timeouts do not exceed it. |
| Percentiles.PercentileUs | src/config/redisCircuitBreaker.ts:325-336 | The cumulative loop returns the bound of the first band that reaches the rank; for an empty window 0. |
| Percentiles.PercentileIsNearestRank | src/config/redisCircuitBreaker.ts:325-336 | For 1 to 100 percent the loop stops inside the histogram, at the band of the nearest-rank element of the sorted latencies, and answers that band's bound. |
| Percentiles.PercentilesAreOrdered | src/config/redisCircuitBreaker.ts:381-397 | p50 is at most p95, which is at most p99, and so for any two percentages. |
| BreakerSpec.Clamp | src/config/redisCircuitBreaker.ts:150-195 | The result lies in every range and recovers with no more successes than probes; a configuration is left alone if and only if it already did. |
| BreakerSpec.ClampIsNearest | src/config/redisCircuitBreaker.ts:150-195 | A setting out of its range becomes the nearest value within it, and one within it stays. |
| BreakerSpec.AcquireKeepsSound | src/config/redisCircuitBreaker.ts:409-463 | Acquiring keeps the bound on calls in flight, probe conservation, the thresholds in CLOSED and the order of times. |
| BreakerSpec.ReleaseKeepsSound | src/config/redisCircuitBreaker.ts:466-534 | So does releasing, with either detector tripping or recovery closing. |
| BreakerSpec.JudgedOutcomes | src/config/redisCircuitBreaker.ts:471-531 | A release leaves the state, trips, or closes; it closes only from HALF_OPEN on a success, and a failing probe always trips. |
| Breaker.CircuitBreaker.constructor | src/config/redisCircuitBreaker.ts:364-367 | A new breaker is the breaker with an empty log, under the clamped configuration. |
| Breaker.CircuitBreaker.Acquire | src/config/redisCircuitBreaker.ts:409-437 | The counters and the state move as the breaker that keeps the whole event log does, with the same answer. |
| Breaker.CircuitBreaker.Decide | src/config/redisCircuitBreaker.ts:409-437 | The branches of acquire, state by state. |
| Breaker.CircuitBreaker.AcquireHalfOpen | src/config/redisCircuitBreaker.ts:439-463 | Deadline, probe budget and concurrency limit in this order; the deadline re-arms OPEN. |
| Breaker.CircuitBreaker.TripOpen | src/config/redisCircuitBreaker.ts:557-573 | The jittered cooldown is stored and the opening counted only when not already OPEN. |
| Breaker.CircuitBreaker.Release | src/config/redisCircuitBreaker.ts:466-534 | Ring buffer, totals, consecutive counters and state move as the breaker that recomputes everything from the log; what that breaker does is in the three results of `BreakerDecisions` on closed, probing and open circuits. |
| Breaker.CircuitBreaker.Enter | src/config/redisCircuitBreaker.ts:467-477 | Recording and booking append one event to the log, and every counter still agrees with it. |
| Breaker.CircuitBreaker.Judge | src/config/redisCircuitBreaker.ts:471-531 | Consecutive-failure trips, probe failures, recovery and the statistical detector, as decided from the log. |
| Breaker.CircuitBreaker.CheckRecovery | src/config/redisCircuitBreaker.ts:476-490 | Closing asks for enough successes, the p99 and the error rate, and not for the timeout rate. |
| Breaker.CircuitBreaker.CheckStatisticalOpen | src/config/redisCircuitBreaker.ts:537-555 | Decides as the detector on the recomputed statistics, which by `BreakerDecisions.ClosedTripsIff` is a matter of how many calls of the last seconds failed, timed out or were quick. |
| BreakerDecisions.ClosedTripsIff | src/config/redisCircuitBreaker.ts:491-555 | From every sound closed state, a release opens the circuit, with the configured cooldown plus jitter, if and only if the last `consecutiveFailOpen` calls failed, or `consecutiveTimeoutOpen` timed out since the last success, or enough calls ended in the last seconds and of them enough failed, or enough timed out, or fewer than 99 in 100 lay within a histogram bound below `p99UsOpen`; the calls are counted as positions in the log. |
| BreakerDecisions.HalfOpenClosesIff | src/config/redisCircuitBreaker.ts:471-490 | From every sound probing state, a success closes the circuit if and only if enough probes have been released and, of the calls of the last seconds, at least 99 in 100 lie within a histogram bound not above `p99UsRecovery` and not too many failed; any other outcome reopens it. |
| BreakerDecisions.OpenStaysOpen | src/config/redisCircuitBreaker.ts:466-534 | A late release while the circuit is open only enters the log. |
| BreakerDecisions.AdmittedIff | src/config/redisCircuitBreaker.ts:409-463 | A call is admitted if and only if a slot is free and the circuit is closed, or is open with its cooldown over, or is probing with probes left and its deadline to come. |
| BreakerDecisions.AcquireMoves | src/config/redisCircuitBreaker.ts:409-463 | What acquiring leaves: an admitted call takes a slot, a refused one is counted under its cause, an open circuit past its cooldown starts probing, and one past its probing deadline opens again. |
| BreakerRuns.FreshIsSound | src/config/redisCircuitBreaker.ts:344-362 | A fresh breaker is the base case of every run. |
| BreakerRuns.CountersAgree | src/config/redisCircuitBreaker.ts:356-362 | Over every run: outcomes add up to releases, admitted is released plus in flight, openings are half-openings plus one while OPEN, probes are conserved in HALF_OPEN, and in CLOSED both consecutive counters are below their thresholds. |
| BreakerRuns.LoadIsBounded | src/config/redisCircuitBreaker.ts:419-462 | While the circuit does not close, admitted calls stay within the probe budget times the whole cooldowns elapsed. |
| BreakerRuns.LoadOfOutageIsBounded | src/config/redisCircuitBreaker.ts:419-462 | From a trip at t0 to t1 without closing, at most `halfOpenProbes * floor((t1 - t0) / openCooldownMs)` calls are admitted, whatever jitter and interleaving. |
| BreakerRuns.MaxInflightHoldsIffProbesFit | src/config/redisCircuitBreaker.ts:411-462 | In-flight calls never exceed the larger of `maxInflight` and `halfOpenProbes`; they never exceed `maxInflight` if and only if `halfOpenProbes` does not. |
| BreakerRuns.NoWedge | src/config/redisCircuitBreaker.ts:419-462 | From every sound state with nothing in flight, one acquire after `halfOpenMaxMs` and a second after the longest cooldown: at least one is admitted. |
| BreakerRuns.RecoveryIsGuaranteed | src/config/redisCircuitBreaker.ts:471-490 | After an outage out of the window, any interleaving of enough quick successful probes closes the circuit on exactly the last release, for every clamped configuration. |
| BreakerRuns.QuickWindowIsHealthy | src/config/redisCircuitBreaker.ts:478-483 | Successes within 1000 microseconds satisfy both recovery thresholds of every clamped configuration. |
| ProtectedCalls.PendingCall.Finish | src/config/redisCircuitBreaker.ts:626-636 | The first of timer and command releases the breaker, the other does nothing. |
| ProtectedCalls.EveryInterleavingIsAccounted | src/config/redisCircuitBreaker.ts:613-658 | Under every interleaving of calls, deadlines and command results: in flight is the number of admitted unsettled calls, within the bound; a settled call was released exactly once, any other never. |
| ProtectedCalls.SlotsCannotLeak | src/config/redisCircuitBreaker.ts:638-645 | An unsettled call can always be settled by its deadline, which frees exactly its slot, even when its command hangs. |
| ProtectedCalls.IdleIsBalanced | src/config/redisCircuitBreaker.ts:613-621 | A fresh breaker with no calls is the base case of every interleaving. |
| ProtectedCalls.DoneStaysDone | src/config/redisCircuitBreaker.ts:626-636 | Nothing that happens later changes a settled or rejected call or releases it again. |
| ProtectedCalls.FirstToSettleCounts | src/config/redisCircuitBreaker.ts:626-658 | Whoever settles a call first enters the log, a deadline as a timeout; whoever comes second changes nothing. |
| Sql.AndChainReads | src/db/filter.ts:157-157 | A chain of parenthesised clauses joined by AND is parsed as the conjunction of their readings, whatever follows. |
| Sql.OrChainReads | src/db/filter.ts:175-177 | The same for OR, which binds weaker. |
| Sql.WrappedNotReads | src/db/filter.ts:64-66 | NOT before an emitted clause negates that clause and no more. |
| Sql.HoleReads | src/db/filter.ts:173-173 | An empty pair of parentheses is no expression, and neither is anything around it. |
| FilterCompiler.BuildExpr | src/db/filter.ts:20-50 | The text and the values appended to the shared parameter array are those of the specification, for every starting length; which rows that text selects and which fields are refused is in `FieldColumns`. |
| FilterCompiler.BuildOperatorExpr | src/db/filter.ts:52-158 | The same for an operator object, stopping at the first error. |
| FilterCompiler.BuildOperator | src/db/filter.ts:56-154 | The same for one operator, with the special cases of null, empty lists and negated sizes. |
| FilterCompiler.BuildWhere | src/db/filter.ts:160-192 | The same for a filter: the array only grows, by exactly the filter's values, and the text is numbered from its old length. |
| FilterCompiler.BuildSubs | src/db/filter.ts:168-187 | The same for the sub-filters of `$or`, which keeps empty ones, and of `$and`, which drops them. |
| FilterTheorems.CompilesToValidSql | src/db/filter.ts:160-192 | A filter that speaks compiles to text that parses if and only if it has no empty operator object and no `$or` branch that compiles to nothing; it then parses to the conjunction of its entries' trees, so no clause is captured by a neighbour. |
| FilterTheorems.OperandReads | src/db/filter.ts:20-158 | Every emitted operand, in any context, is parsed back as its own tree. |
| FilterTheorems.PlaceholdersAreConsecutive | src/db/filter.ts:35-48 | The placeholders of the text, in order, are exactly the consecutive indexes just appended, each once. |
| FilterTheorems.CompiledMeaning | src/db/filter.ts:160-192 | Under the final parameters or any extension, the parsed text has the filter's three-valued meaning on every row, where what stands beside a negated `$size` is dropped. |
| FilterTheorems.NothingDroppedMeansExact | src/db/filter.ts:57-63 | Nothing is dropped if and only if no negated `$size` has a neighbour; where nothing is dropped the meaning is the filter's own. |
| FilterTheorems.NegatedSizeDropsItsNeighbours | src/db/filter.ts:59-62 | A row on which such a filter and its compiled text differ. |
| NegatedSizes.NegatedSizeIsExactIff | src/db/filter.ts:57-63 | On a row, a negated operator object with a `$size` means the same without its neighbours if and only if all of them hold when the column has that size and none is false when it is NULL. |
| NegatedSizes.NegatedSizeTextIsExactIff | src/db/filter.ts:57-63 | The same for the compiled text of such a filter, under any extension of its parameters. |
| NegatedSizes.TextPartsOnlyAtNegatedSizes | src/db/filter.ts:57-63 | A whole filter's text has the filter's own meaning on every row where the size decides at each of its negated sizes: text and filter part nowhere else. |
| FieldColumns.KeyFilterSelectsKey | src/db/filter.ts:20-50 | Over a keyed table the text compiled from `{_id: k}` selects exactly the row whose key is k. |
| FieldColumns.FieldFilterSelectsColumn | src/db/filter.ts:46-49 | The text compiled from `{field: v}` selects exactly the rows with v in that field's column, and none for NULL. |
| FieldColumns.JsonFieldFilterSelects | src/db/filter.ts:28-44 | On a JSONB field a string asks for a list that has it as an element, and a list for one that contains it. |
| FieldColumns.ListFilterSelects | src/db/filter.ts:35-37 | On a plain field a list asks for that list. |
| FieldColumns.NamedColumnsDecide | src/db/filter.ts:160-192 | Two rows that agree on the columns of the fields a filter names get the same answer, however deep they are named. |
| FieldColumns.RefusedIffUnknown | src/db/columns.ts:58-66 | A filter is refused if and only if it names, at any depth, a field that is neither `_id` nor has a column, or uses an operator the compiler does not know where it looks at operators; the error says which. |
| FieldColumns.UnknownFieldIffNamed | src/db/columns.ts:58-66 | With known operators only, it is refused for an unknown field if and only if it names one. |
| FieldColumns.TrueIffAllEntries | src/db/filter.ts:160-192 | A filter is true of a row if and only if all its entries are. |
| FieldColumns.TrueIffSubs | src/db/filter.ts:168-187 | `$and` is true if and only if all its sub-filters are, and `$or` if and only if one is or it is empty. |
| FieldColumns.TrueIffAllOps | src/db/filter.ts:52-158 | An operator object is true if and only if all its operators are. |
| FieldColumns.OperatorIsTrueIff | src/db/filter.ts:71-154 | When each operator is true of a cell: comparisons need both sides present, `$ne` takes NULL for a value, an empty `$in` is never and an empty `$nin` always true. |
| Cursor.BeyondReads | src/db/User.ts:212-217 | `(where) AND id > $n` reads as the conjunction of the filter's own reading and the bound, whatever the filter's text. |
| Cursor.BeyondIsSuffix | src/db/User.ts:212-224 | The rows beyond any wanted row are the rest of what is wanted. |
| Cursor.WantedIsExact | src/db/User.ts:205-226 | The rows wanted of a table beyond an id are exactly those on which the filter means true, each once, in ascending id order. |
| Cursor.RefusedIffIllFormed | src/db/User.ts:208-219 | The database can read the text if and only if the filter is well formed. |
| Cursor.Scan | src/db/User.ts:205-226 | The paged loop terminates and yields page after page, each query seeing the table as it then is; a filter that does not compile gives its error, and one whose text is no SQL a syntax error. |
| Cursor.StaticYieldsWanted | src/db/User.ts:205-226 | Over a table that does not change, that is exactly the wanted rows, across page boundaries. |
| Cursor.StayerIsYieldedOnce | src/db/User.ts:205-226 | A row that is there and matches at every query is yielded exactly once, whatever other rows come, go and change between the pages. |
| Cursor.YieldsAscend | src/db/User.ts:205-226 | In every case ids ascend, so no row is yielded twice. |
| Cursor.YieldedWasWanted | src/db/User.ts:205-226 | Every row yielded was there and matched at one of the queries. |
| Cursor.Page | src/db/User.ts:211-219 | One page is the next 500 matching rows beyond the last id. |
| Emails.NormalizeIsIdempotent | src/utils/email-normalize.util.ts:2-4 | The canonical form of a canonical address is itself. |
| Emails.NormalizeIs | src/utils/email-normalize.util.ts:2-4 | The canonical form is what stands between the surrounding blanks, letter by letter in lower case. |
| IdentityIndex.ExpectedAreKeysInForce | src/services/identity-index.service.ts:100-115 | The keys of a document that are not expired are the keys the four conditions add one by one. |
| IdentityIndex.UpdateAndInsertAgree | src/db/UserIdentityIndex.ts:150-218 | A patch naming every column leaves the same row whether it updates or inserts. |
| IdentityIndex.PatchChangesNamed | src/db/UserIdentityIndex.ts:150-218 | A patch changes the columns it names and keeps the others; a row without kind or owner is refused. |
| IdentityIndex.SyncedIs | src/services/identity-index.service.ts:118-183 | After a synchronisation a row is there if and only if the document calls for it, column by column, or it is another user's and the document calls for nothing under its key. |
| IdentityIndex.Index.UpdateOne | src/db/UserIdentityIndex.ts:150-218 | Update or insert under a key, refused when a NOT NULL column stays empty or the owner does not exist, with all else unchanged. |
| IdentityIndex.Index.DeleteMany | src/db/UserIdentityIndex.ts:230-237 | Deletes exactly the user's rows outside the kept keys. |
| IdentityIndex.Index.Sync | src/services/identity-index.service.ts:118-183 | Afterwards the user's expected keys lead to it, whoever held them, it holds no others, and nobody else's other rows changed. |
| IdentityIndex.Index.ExpectedKeys | src/services/identity-index.service.ts:100-115 | The set built key by key. |
| IdentityIndex.Index.ResolveEmailIdentity | src/services/identity-index.service.ts:41-59 | The loop answers with the first active row of primary, previous and pending. |
| IdentityIndex.Index.Sweep | src/db/migrations.ts:142-158 | Deletes exactly the expired rows and counts them. |
| IndexFilter.BuildIndexOperator | src/db/UserIdentityIndex.ts:60-104 | One operator's clause and values, or the refusal of one it has no case for. |
| IndexFilter.BuildIndexWhere | src/db/UserIdentityIndex.ts:54-112 | The nested loops emit the specification's text and push exactly its values onto the shared array, or give the first refusal; an array operand is taken for an object with operator 0. |
| IndexFilter.FlatTextReads | src/db/UserIdentityIndex.ts:108-111 | Bare as they are, the joined clauses are parsed as their conjunction, a negated list included. |
| IndexFilter.FlatTextMeans | src/db/UserIdentityIndex.ts:54-112 | Under the final parameters or any extension, a text that is not empty has its filter's three-valued meaning. |
| IndexFilter.StaleRowsAreSelected | src/services/identity-index.service.ts:179-182 | The pruning DELETE selects exactly the user's rows under other keys. |
| IndexFilter.LiveRowIsSelected | src/services/identity-index.service.ts:68-71 | The pending lookup selects exactly an unexpired row under the key, and none without an expiry. |
| IndexFilter.RefusedIff | src/db/UserIdentityIndex.ts:60-104 | A filter is refused if and only if it has an operator that is none of the seven, or a list that is not empty. |
| IndexFilter.FirstErrorIs | src/db/UserIdentityIndex.ts:60-104 | The error is that of the first part that has one. |
| IndexFilter.HoldsIff | src/db/UserIdentityIndex.ts:54-112 | A filter is true of a row if and only if every part is: the cell of its column equals the value, or all operators are true of it. |
| IndexRuns.StepKeepsAgreement | src/services/identity-index.service.ts:118-183 | Saving with synchronisation, updates of unindexed columns, cascading deletes, sweeps and time keep every row implied by its owner's document and every primary and OAuth key in place. |
| IndexRuns.RunKeepsAgreement | src/services/identity-index.service.ts:118-183 | So over every run. |
| IndexRuns.ReachableAgrees | src/services/identity-index.service.ts:118-183 | So at every moment since the tables were created empty. |
| IndexRuns.ActiveRowsAreExpected | src/services/identity-index.service.ts:29-32 | The owner of every active row exists and expects its key at that moment. |
| IndexRuns.LookupsAreScans | src/services/identity-index.service.ts:61-82 | After every run, with no further synchronising, the primary and OAuth lookups equal scans of the users table. |
| IndexRuns.ResolverIsTruthful | src/services/identity-index.service.ts:41-59 | What the resolver answers is true of the table now, and a current holder comes before any former or pending one. |
| IndexRuns.PendingIsTruthful | src/services/identity-index.service.ts:67-73 | The pending lookup names only a user about to move to that address. |
| SweeperRuns.SyncIsStatements | src/services/identity-index.service.ts:121-182 | A synchronisation is its upserts, each naming every column, and its prune, one statement after the other. |
| SweeperRuns.RunIsStatements | src/services/identity-index.service.ts:118-183 | So every run of the acts above is a sequence of statements: writes and deletes of users, upserts, prunes, firings of the sweeper and passing time. |
| SweeperRuns.UpsertKeepsAlike | src/db/UserIdentityIndex.ts:150-218 | On two indexes with the same active rows an upsert leaves the same active rows, whether it finds a row to update or inserts one that has been swept. |
| SweeperRuns.SweeperIsUnobservable | src/db/migrations.ts:142-158 | Firings of the sweeper inserted anywhere between the statements of any number of synchronisations, interleaved in any way with each other and with writes, deletes and time, change no later answer of any lookup. |
| IndexClaims.ClaimantIsFoundIffLast | src/services/identity-index.service.ts:41-73 | After any run since the tables were created, a user who has had an address or is about to move there is found under it if and only if nobody else has been saved with a claim to it since. |
| IndexClaims.DeletedClaimIsLost | src/services/identity-index.service.ts:67-73 | A run after which a user about to move to an address is not found under it: another claimed it later and was deleted. |
| IndexClaims.UnsharedClaimsAreScans | src/services/identity-index.service.ts:41-73 | Over every run in which no two users ever have a claim to an address at one time, the lookups of former and of pending addresses equal scans of the users table. |
| IndexClaims.LookupsLead | src/services/identity-index.service.ts:41-73 | The lookups lead where the index leads from the key of that kind; the resolver tries own, former and pending addresses in this order, and answers a verification for an own address only. |
| Backfill.BackfillIdentityIndexes | src/services/identity-index.service.ts:186-199 | Whatever the index held, as long as its rows' owners exist, it ends with exactly the keys some user expects when its turn comes, each leading to the last user in id order who does, every user visited once. |
| Backfill.LastWinsIsLast | src/services/identity-index.service.ts:186-199 | A key is in the result if and only if some user expected it at its turn, and then leads to the last such user. |
| Backfill.SyncAllSettles | src/services/identity-index.service.ts:118-183 | Synchronising distinct users in a row, each at its own time, replaces all rows they owned by those of the last to expect each key. |
| Documents.Rewritten | src/db/User.ts:268-305 | The loops over push, pull, set, unset and increment compose, field by field and in this order. |
| Documents.PushAll | src/db/User.ts:270-283 | Appends the items and cuts the list, from the end for a negative slice. |
| Documents.PullAll | src/db/User.ts:285-289 | Removes every occurrence. |
| Documents.IncrementAll | src/db/User.ts:301-305 | Adds to a number, or to 0 for anything else. |
| Documents.AcceptedRowsStayUnique | src/db/migrations.ts:58-59 | A row written without a clash on email or login leaves the table without one. |
| Documents.ClashIffTaken | src/db/migrations.ts:58-59 | Two rows clash if and only if they have one email address, or one provider and one id with it; NULLs never clash. |
| Documents.UsersTable.ApplyUpdate | src/db/User.ts:253-338 | Rewrites exactly the touched columns of one row, never the id; an unknown field or a clash with a unique constraint changes nothing. |
| Documents.UpdateLeavesOthers | src/db/User.ts:253-338 | An update leaves alone the id and every column none of its operators names. |
| Documents.UpdateSets | src/db/User.ts:291-305 | A value set replaces what was pushed or pulled, an unset column is NULL or an empty array whatever was set, and an increment comes last, from 0 where no number stands. |
| Documents.UpdateLists | src/db/User.ts:268-289 | A column pushed to has the old items and the new, cut to the last or the first so many; one pulled from has all items but those equal to the value, also where it has just been pushed. |
| Documents.UsersTable.UpdateRow | src/db/User.ts:580-586 | The UPDATE of an existing row: the named columns of that row and nothing else, or nothing on a clash with a unique constraint. |
| Documents.UserDoc.constructor | src/db/User.ts:470-478 | A loaded document carries its values and nothing modified. |
| Documents.UserDoc.Assign | src/db/User.ts:356-368 | A write through the proxy changes one value and marks its field. |
| Documents.UserDoc.MarkModified | src/db/User.ts:485-487 | Marks a field without changing it. |
| Documents.UsersTable.InsertRow | src/db/User.ts:538-543 | The INSERT: the named columns over the column defaults, refused when the key is taken or a unique constraint would break. |
| Documents.EncodeAll | src/db/User.ts:566-579 | The loop encodes every field to be written: arrays for JSONB columns, a hash for a non-empty password. |
| Documents.UserDoc.Save | src/db/User.ts:489-496 | Inserts a new document and updates a loaded one. After an accepted save of a loaded document every assigned column has the assigned value itself, a non-empty password its hash, and every other column what it had. |
| Documents.UserDoc.Insert | src/db/User.ts:517-551 | A new document gets a fresh id if it has none and is new no longer; its row has the values given, a hash for a non-empty password, and the defaults in all other columns; on an unknown field, a taken key or a unique clash nothing changes. |
| Documents.UserDoc.Update | src/db/User.ts:553-595 | Writes the values of the modified fields and of the loaded arrays as they are, but a hash for a non-empty password, and becomes the stored row with nothing modified; on an unknown field, even where the row is gone, or on a unique clash nothing changes. |
| Documents.InsertedThenSaved | src/db/User.ts:517-595 | However many saves follow an insertion, the row has the values given and the defaults elsewhere; its password is hashed once. |
| Documents.CleanSaveWritesNothing | src/db/User.ts:554-563 | With nothing assigned, saving leaves the row alone if and only if the loaded arrays are still what is stored. |
| Documents.SaveWritesAssigned | src/db/User.ts:553-595 | Saving a document loaded without any set of columns, arrays included, whose scalars were assigned leaves exactly those columns with the values assigned, a non-empty password hashed, and all others alone. |
| Documents.SavingAgainChangesNothing | src/db/User.ts:572-591 | However such a document was loaded and however many saves follow an assignment, the row ends with the values assigned and all else as it was; a password is hashed once. |
| Documents.DisjointSavesCommute | src/db/User.ts:553-595 | Two documents of one row, each loaded without columns of its own, that modify disjoint scalars: any accepted saves in any order leave the row with the values assigned by whoever saved, a non-empty password hashed, and all else as it was. |
| Sessions.PersistSessionTokens | src/services/session.service.ts:107-130 | Pushes the hash and the id and changes nothing else of the row or of other rows; what the lists then hold is in `SessionLife.PersistKeeps`. |
| Sessions.RotateSessionTokens | src/services/session.service.ts:63-105 | Answers true if and only if the old token is stored; then pushes, cuts and pulls in this order, and otherwise changes nothing. |
| Sessions.RemoveRefreshToken | src/services/session.service.ts:133-145 | Removes exactly that hash. |
| Sessions.InvalidateAllSessions | src/services/session.service.ts:47-60 | Empties both lists and raises the token version by one. |
| SessionRuns.CallKeepsSound | src/services/session.service.ts:63-145 | Each call keeps at most 5 hashes and 20 ids, and the hashes a subsequence of the issue order. |
| SessionRuns.RunKeepsSound | src/services/session.service.ts:47-145 | So over every run, without duplicates when the issued hashes have none; the token version never decreases. |
| SessionRuns.CallsRevoke | src/services/session.service.ts:47-145 | A rotated or removed token and every token before an invalidation is unacceptable at once. |
| SessionRuns.GoneStaysGone | src/services/session.service.ts:47-145 | A hash that is gone never becomes acceptable again unless issued anew. |
| SessionRuns.RotationKeepsSiblings | src/services/session.service.ts:81-96 | Rotation replaces just the old token if and only if there was room for the push or the old token was the oldest. |
| SessionLife.PersistKeeps | src/services/session.service.ts:107-130 | After a login the new hash is last and before it stand the four newest of the old, in order; of the ids likewise the nineteen newest. |
| SessionLife.RotateKeeps | src/services/session.service.ts:63-105 | A rotation of a stored hash does the same and then takes that hash out; of any other it changes nothing. |
| SessionLife.RemoveKeeps | src/services/session.service.ts:133-145 | A removal takes out that hash and keeps all others in order. |
| SessionLife.VersionCountsInvalidations | src/services/session.service.ts:47-60 | Over every run the token version rises by one with each invalidation and with nothing else. |
| SessionLife.StoredIffLasts | src/services/session.service.ts:47-145 | Over every run with fresh hashes, a stored hash is stored at the end if and only if no call rotated it away, removed it or invalidated all sessions, and no call stored another while four newer ones were there: a rotation counts as such before it takes its old hash out. |
| SessionLife.IssuedIsStoredIffLasts | src/services/session.service.ts:63-130 | So it is of every hash that a login or a rotation issues, from the moment it is issued. |
| SessionLife.JtiIsStoredIffLasts | src/services/session.service.ts:47-130 | A stored access-token id is stored at the end if and only if no call invalidated all sessions and fewer than twenty more were stored. |
| SessionLife.IssuedJtiIsStoredIffLasts | src/services/session.service.ts:63-130 | So it is of every id that a login or a rotation stores. |
| RateLimiter.RobustRateLimiter.CheckLimit | src/robustRateLimiter.ts:128-142 | Degraded, probing and distributed branches, with the state they leave. |
| RateLimiter.RobustRateLimiter.TryRecoverFromFallback | src/robustRateLimiter.ts:148-159 | At most one probe in 30 seconds; a reply leaves fallback mode. |
| RateLimiter.RobustRateLimiter.DegradeToLocal | src/robustRateLimiter.ts:164-170 | Refuses in strict mode, changing nothing; else goes local. |
| RateLimiter.RobustRateLimiter.SweepExpiredWindows | src/robustRateLimiter.ts:176-183 | The lazy sweep deletes exactly the ended windows, when it runs. |
| RateLimiter.RobustRateLimiter.LocalRateLimit | src/robustRateLimiter.ts:187-219 | Fixed-window counting of one client; the answers over whole runs are those of `LocalWindows.LocalAnswersAreExact`. |
| RateLimiter.RobustRateLimiter.DistributedRateLimit | src/robustRateLimiter.ts:223-267 | Answers from the count Redis gives, degrading when it gives none. |
| RateLimiter.SweepingIsInvisible | src/robustRateLimiter.ts:172-183 | Over every monotone trace the answers equal those of a limiter that never sweeps. |
| RateLimiter.StrictModeNeverDegrades | src/robustRateLimiter.ts:161-170 | With fallback disallowed, no trace ever leaves distributed mode or touches the local cache. |
| RateLimiter.LocalLimitHolds | src/robustRateLimiter.ts:187-219 | Over every monotone trace each client gets at most the limit per window and at most twice the limit in any closed interval of one window's length. |
| LocalWindows.LocalAnswersAreExact | src/robustRateLimiter.ts:187-219 | Over every monotone trace a request answered locally is allowed if and only if fewer than the limit of its client fell into its window before it, and is told how many are left; it falls into the window of an earlier one that has not ended, and otherwise opens one of its own. |
| LocalWindows.AnsweredLocallyIff | src/robustRateLimiter.ts:128-170 | A request is answered locally if and only if that is permitted and Redis fails to count it, or the limiter is degraded and no ping, tried at most every 30 seconds, succeeds; it is refused where that is not permitted. Afterwards a limiter that may answer locally is degraded if and only if it has. |
| LocalWindows.RedisAnswers | src/robustRateLimiter.ts:223-267 | A count is allowed up to the limit until the end of the current window; a reply that is no number is refused. |
| Migration.SettleHistory | src/controllers/migration.controller.ts:112-138 | The first pending entry for the address is completed; without one a finished entry is appended. |
| Migration.SettledAt | src/controllers/migration.controller.ts:116-138 | Exactly one entry changes or is added, and the rest keep their places. |
| Migration.ProfileSurvives | src/utils/migration-data-preserver.ts:30-62 | A profile extracted from one document and applied to another is extracted from it again, an absent avatar apart; nothing else of the other changes, and the check after the save succeeds. |
| MigrationController.Handlers.CheckRequest | src/controllers/migration.controller.ts:430-553 | The refusals in the order of the code. A request is accepted if and only if the account exists, its document shows nothing pending, no unexpired grace period and no migration within ten days, nobody has the address, by a scan of the table, or somebody else has and the override is confirmed, and a local account gives a non-empty matching password. |
| MigrationController.Handlers.InitiateMigration | src/controllers/migration.controller.ts:430-562 | Table or index change if and only if all those conditions hold; an accepted request is stored, indexed and put into the history. |
| MigrationController.Handlers.FinalizeMigration | src/controllers/migration.controller.ts:34-391 | Finalises if and only if the caller's document and the row both have a pending migration and one token version, and otherwise changes nothing; else merges, renews or moves the account and synchronises. |
| MigrationController.Handlers.MergeAccounts | src/controllers/migration.controller.ts:70-141 | The other account goes first, then this one takes its address, its profile put back and its token version raised. |
| MigrationController.Handlers.RenewAccount | src/controllers/migration.controller.ts:180-234 | The account already holds the address. |
| MigrationController.Handlers.MoveAccount | src/controllers/migration.controller.ts:257-325 | Nobody holds the address; the token version stays. |
| MigrationController.Handlers.VerifyCurrentEmail | src/controllers/migration.controller.ts:649-739 | Finds the account by unexpired token or changes nothing; marks it, notes it in the history and finalises if that was the second side. |
| MigrationController.Handlers.VerifyNewEmail | src/controllers/migration.controller.ts:742-861 | The same for the new side, storing a placeholder account where nobody holds the address. |
| MigrationController.Handlers.ResendMigrationEmails | src/controllers/migration.controller.ts:864-906 | Refuses where nothing is pending, the links have expired or the last were sent within 30 seconds, changing nothing; else stores and indexes new links for another day. |
| MigrationController.Handlers.FinalizeByHand | src/controllers/migration.controller.ts:1055-1088 | Finalises if and only if both sides are verified, and otherwise changes nothing. |
| MigrationRules.AcceptedIff | src/controllers/migration.controller.ts:430-527 | Exactly when a request is accepted, by the caller's document, a scan of the table and the password. |
| MigrationRules.InitiationChangesIff | src/controllers/migration.controller.ts:430-562 | A request changes the table or the index if and only if it meets all those conditions. |
| MigrationRules.RefusalsHaveCauses | src/controllers/migration.controller.ts:430-527 | Each refusal has its own cause. |
| MigrationRules.RequestIsStored | src/controllers/migration.controller.ts:529-562 | What an accepted request leaves: the address, both tokens and no verification for a day, one more history entry, all else as before, and the pending address leading to the account. |
| MigrationRules.FinalizationIs | src/controllers/migration.controller.ts:34-391 | A finalised account column by column: the address moved, five days of grace, the migration columns cleared, the profile kept, the version raised if the address was taken; another holder is gone and every other row as before. |
| MigrationRules.HistoryIs | src/controllers/migration.controller.ts:116-138 | In its history the first entry pending for the address has succeeded with both sides verified, or one more is added; all others stay. |
| MigrationRules.LoginIs | src/controllers/auth.controller.ts:215-241 | A login finishes a migration only of an account with both sides verified, and leaves version, history and profile alone. |
| MigrationRules.ResendIs | src/controllers/migration.controller.ts:864-906 | The links are sent again if and only if something is pending, they have not expired and half a minute has passed; then the new ones live for a day and all else is as before. |
| MigrationRules.ResendWindow | src/controllers/migration.controller.ts:864-906 | After a request and idle time that is from half a minute until a day after the request, both included. |
| MigrationRules.VerifiedIs | src/controllers/migration.controller.ts:680-705 | Verifying a side marks it and the latest history entry, if that is the pending one, and nothing else. |
| MigrationRules.MarkIs | src/controllers/migration.controller.ts:680-739 | The migration is finalised at once if the other side was verified before, and not otherwise. |
| MigrationRules.HolderIs | src/controllers/migration.controller.ts:774-795 | Where nobody has the new address it gets an unverified local account, named after what stands before the @; where somebody has it nothing changes. |
| MigrationRuns.InitiateKeepsAgreement | src/controllers/migration.controller.ts:529-562 | Initiation keeps index and table in agreement. |
| MigrationRuns.FinalizeKeepsAgreement | src/controllers/migration.controller.ts:34-391 | So does finalisation, in each of its three branches; no unique constraint is violated. |
| MigrationRuns.VerifyKeepsAgreement | src/controllers/migration.controller.ts:649-861 | So do both verifications, placeholder included. |
| MigrationRuns.DocumentsMeet | src/controllers/migration.controller.ts:680-812 | Whichever side is verified first, finalisation leaves the same document. |
| MigrationRuns.MigrationMovesTheAccount | src/controllers/migration.controller.ts:34-861 | An accepted request, made with the current document or an older one, and one click on each link, in either order and with sweeps between. If the second click comes within 24 hours of the request, the account has the new address, the old one as previous and its profile kept, whoever held the new address is gone, and every other row is untouched. If it comes later, every account keeps its address. Either way index and table agree. |
| MigrationRuns.OrdersAgree | src/controllers/migration.controller.ts:649-861 | Clicked in time, both orders end in the same table, the time of finalisation apart. |
| MigrationRuns.LinksLeadToTheAccount | src/controllers/migration.controller.ts:667-763 | At either click, a link's token leads to that account and to no other, for 24 hours after the request and no longer. |
| MigrationRuns.BothAddressesResolve | src/controllers/migration.controller.ts:78-139 | After a migration clicked in time, the new address resolves to the account as primary, and the old one as previous exactly until the grace period ends, with sweeps at any time. |
| MigrationRuns.VersionRisesIffTaken | src/controllers/migration.controller.ts:78-98 | Finalisation raises the token version by one if and only if some account, another or this one, holds the new address, and otherwise leaves it. |
| MigrationRuns.NewestEntrySucceeds | src/controllers/migration.controller.ts:116-125 | The run adds one history entry, which ends as a success if and only if no older entry for that address was still pending. |
| MigrationRuns.OlderEntryKeepsNewestPending | src/controllers/migration.controller.ts:116-125 | Where an older entry for the address is still pending, the run moves the account and leaves its newest entry pending. |
| LoginFinalization.LoginKeepsAgreement | src/controllers/auth.controller.ts:209-241 | A login that finishes a migration takes an address nobody else holds, and keeps index and table in agreement. |
| LoginFinalization.BothMarkedHoldsPending | src/controllers/migration.controller.ts:529-803 | From an accepted request through idle time and both clicks, current side first, the index leads from the pending address to the account until the finalisation. |
| LoginFinalization.LoginFinishesInterruptedMerge | src/controllers/auth.controller.ts:215-241 | After a finalisation that got no further than deleting the holder, a login with the new address, while the links live, moves the account and leaves its history as it was. |
| LoginFinalization.InterruptedMigrationEndsPending | src/controllers/auth.controller.ts:209-241 | From the request on: if the second click's finalisation stops once it has deleted the other holder, one statement short of the whole run, and nobody has the address as an unexpired previous one, a login with the new address finds the account, finishes the migration and leaves its newest history entry pending. |
| LoginFinalization.LoginLeavesNewestEntryPending | src/controllers/auth.controller.ts:222-241 | A run that goes from there to another address and back ends with its newest history entry pending although it succeeded. |
| MovedBack.FreeAccountCanMove | src/controllers/migration.controller.ts:430-527 | An only account with nothing pending and no recent migration is accepted for every other canonical address, and clicks in time. |
| MovedBack.AwayAndBackHappens | src/controllers/migration.controller.ts:116-125 | From empty tables, for any addresses: one account is created, its migration is interrupted and finished by a login, and it moves away and back, ten days apart each; this is such a run, and its newest entry is pending. |
| AccountMoves.MoveSetsPending | src/controllers/migration.controller.ts:430-1088 | A pending address is set by an accepted request, removed by the click, login or manual finalisation that completes the migration, and left alone by everything else. |
| AccountMoves.PendingIffOutstanding | src/controllers/migration.controller.ts:430-1088 | Over any run, an account that had no pending address has one at the end if and only if some request of it was accepted and nothing after that completed its migration. |
| OverlappingMigrations.GuardHoldsIffNoneOutstanding | src/controllers/migration.controller.ts:440-449 | Whatever requests, clicks, logins, mails, finalisations and other statements come between reading the caller's document and deciding its request: an accepted request finds no pending migration if and only if no other request was accepted in between and is still to be completed. |
| OverlappingMigrations.BothRequestsAreAccepted | src/controllers/migration.controller.ts:440-553 | Two requests made with one document are both accepted, however long the second waits. |
| OverlappingMigrations.OverlappingRequestsLeaveNewestPending | src/controllers/migration.controller.ts:440-562 | Two such requests for one address and the clicks on the second's links: the account moves, and its newest history entry stays pending. |
| OverlappingMigrations.FreeAddressNeedsNoConfirmation | src/controllers/migration.controller.ts:484-507 | For an address nobody holds, the confirmation to override plays no part. |
| OverlappingMigrations.LatecomerDeletesTheFirst | src/controllers/migration.controller.ts:60-75 | Two accounts are accepted for one address and all four links are clicked in time, one account after the other: the first moves there, the second deletes it and takes the address. |
| OverlappingMigrations.FinalizationDeletesTheHolder | src/controllers/migration.controller.ts:60-75 | A finalisation deletes exactly the other holder of the address, if there is one. |
| OverlappingMigrations.DeletionIsConfirmedIff | src/controllers/migration.controller.ts:60-75 | All that a finalisation deletes was confirmed at the request or is a placeholder, if and only if whoever else holds the address is a placeholder or held it when the request was accepted. |
| OverlappingMigrations.HolderGoneKeepsVersion | src/controllers/migration.controller.ts:257-325 | After any accepted request, if the new link is clicked first, somebody holds the address; if they then go and the current link is clicked within 24 hours of the request, the account moves and keeps its token version. |
| OverlappingRuns.OverlappingRequestsHappen | src/controllers/migration.controller.ts:440-562 | From empty tables: one account asks twice with one document, both requests are accepted, and after two clicks its newest history entry is pending. |
| OverlappingRuns.LatecomerHappens | src/controllers/migration.controller.ts:60-75 | From empty tables: two accounts ask for a free address, neither confirming an override; both requests are accepted, the first to finalise moves there and the second deletes it. |
| ExpiredMigrations.MoveStaysStuck | src/controllers/migration.controller.ts:442-447 | Once an account is stuck, clicks, logins, resending, manual finalisation, anything elsewhere, and requests made with a document that shows the pending address leave it stuck, or delete it. |
| ExpiredMigrations.WayOut | src/controllers/migration.controller.ts:864-1088 | An account that is pending and not stuck has moves of its own that end its migration: by hand, by its links, or by new links sent in time. |
| ExpiredMigrations.EarlierDocumentFrees | src/controllers/migration.controller.ts:430-562 | A request under way with a document from before the migration frees the account, stuck or not: it is accepted in the end and its links lead on. |
| ExpiredMigrations.PendingForeverIffStuck | src/controllers/migration.controller.ts:442-447 | Whatever it and everybody else do, an account has an address pending while it exists, if and only if some side is unverified, its links do not lead on, they can no longer be sent again, and no request is under way with a document from before. |
| ExpiredMigrations.LateRunPendsForeverIff | src/controllers/migration.controller.ts:667-877 | A run whose second click comes too late ends so if and only if more than 24 hours have passed since the request, as in the very millisecond the links expire they may still be sent again, and no other request is under way since before. |
| ExpiredMigrations.LateRunHappens | src/controllers/migration.controller.ts:667-877 | From empty tables: one account is created, asks for an address and clicks both links too late; it keeps its address and has the other pending forever. |

## Left out

- BreakerRuns.RecoveryIsGuaranteed: one direction, for probes of at most 1000 microseconds; slower successes close the circuit or not depending on the thresholds.
- BreakerRuns.NoWedge: about the decision of two calls; that somebody makes them is up to the callers.
- Breaker.CircuitBreaker.Release: only after an admitted call; the `Math.max(0, ...)` guard is for `reset()`, which with calls in flight breaks the accounting and is not part of this model.
- Breaker.CircuitBreaker.Enter: the same, as the first half of a release.
- ProtectedCalls.PendingCall.Finish: the timer, the command and the monotonic clock are acts and parameters; a command that throws before returning a promise is one whose deadline settles the call.
- LatencyWindow.RollingWindow.Record: buckets are values in an array, so the histogram array of a bucket is replaced, not updated in place; the write-only `latencySum` is not modelled.
- FilterTheorems.CompiledMeaning: comparison of values, regular expressions and JSON containment are those of an arbitrary engine; one atomic condition such as `col = ANY($n)` is a single token of the text, and parentheses, AND, OR and NOT are the others.
- FieldColumns.JsonFieldFilterSelects: about the filter's meaning, which its text has by `FilterTheorems.CompiledMeaning`; what a JSONB value contains is up to the engine.
- NegatedSizes.TextPartsOnlyAtNegatedSizes: one direction for a whole filter, whose other conditions can hide a difference; both directions are proved per operator object and for the filter made of one.
- Cursor.Scan: the ids of all rows there will ever be lie below some bound, without which the loop need not end; each query sees one state of the table.
- Documents.UsersTable.ApplyUpdate: finds its row by id; the general filter is in `FilterCompiler.BuildWhere`.
- Documents.UserDoc.Insert: NOT NULL and CHECK constraints are left out, and `updated_at` does not move, here and in updates.
- Documents.DisjointSavesCommute: about saves the database accepts; a save it refuses changes nothing, by `Documents.UserDoc.Update`.
- IdentityIndex.Index.UpdateOne: finds its row by key, the only filter the service passes to it.
- IndexFilter.FlatTextMeans: for a text that is not empty; an empty filter ends in a database error.
- SweeperRuns.SweeperIsUnobservable: an `updateOne`, which is a SELECT and then an UPDATE or INSERT, is one step.
- IndexRuns.RunKeepsAgreement: each call is one step, so writers interleaved inside one synchronisation are not covered, except by `SweeperRuns.SweeperIsUnobservable`; addresses are in canonical form.
- Sessions.RotateSessionTokens: reading the stored token and updating the row is one step; extracting the access-token id, publishing the version and revoking ids in Redis are left out.
- SessionLife.StoredIffLasts: the hashes that calls issue are new, as those of random tokens are.
- RateLimiter.LocalLimitHolds: in runs without `resetLimit`; the constructor's `init` and the counters inside Redis are left out, and so is a pipeline whose promise is rejected.
- MigrationRuns.MigrationMovesTheAccount: other users are idle, but for the runs of `OverlappingMigrations.dfy` and `ExpiredMigrations.dfy`, and in between links are not sent again; history timestamps and `pendingFrom`, the column `migrationToken` that nothing sets, and the session tokens issued at the end are left out.
- MigrationController.Handlers.InitiateMigration: the validators' effect on the address is the precondition that lowering its case gives its canonical form; sending mail, the one-time link codes and password hashing are left out.
- MigrationRules.AcceptedIff: for addresses whose lower case is canonical; whether the password matches is a parameter.
- MigrationController.Handlers.FinalizeMigration: the duplicate-key recovery is left out, since agreement of index and table makes it unreachable; re-reading and re-saving the bio after the save is left out for the same reason.
- Emails.NormalizeIs: ASCII letters and blanks only.
- LoginFinalization.LoginLeavesNewestEntryPending: the password check and the rest of the login handler are left out.
- LoginFinalization.InterruptedMigrationEndsPending: one direction, for the current side clicked first.
- ExpiredMigrations.PendingForeverIffStuck: each call is one step, and the admin scripts are left out; what other parts of the program do to the account leaves its migration columns alone.
- Status and history display.
- Express handlers, cookies, CSRF, metrics export, logging, SMTP, OAuth exchange, JWT and password hashing.
- The Redis-backed limiters and one-time code stores, which are single get, set or delete calls.
- Schema migrations, validators, environment parsing and column tables, which would add only easy members.
