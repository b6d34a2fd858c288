# Verified models of the credit, access and scheduling cores

This project models the parts of the repository whose correctness is an argument rather than a
lookup, and proves those arguments with Dafny 4.11. `dafny verify dfyconfig.toml` checks all of it.

| area | modules |
|---|---|
| the append-only credit ledger: derived balance, cache, redelivery, grants | `LedgerEntries`, `CreditLedger`, `LedgerLaws`, `LedgerConservation`, `LedgerCache`, `LedgerDelivery`, `MonthlyGrants`, `LedgerRaces`, `LedgerReaders`, `LedgerReaderLaws` |
| money to credits and back, and the policy file behind it | `Credits`, `QuoteCeiling`, `CreditPolicyLoader` |
| marks that tell the search indexer which memberships changed | `AclDirty`, `AclProtocol`, `AclEqualTimes` |
| dealing test files out to CI shards | `ListScheduling`, `ShardSplit` |
| the CPU throttle sampler shared by request threads | `CpuSampler` |
| expanding a relation diagram to a depth | `RelationGraph` |
| what an accepted model catalog promises about prices | `LlmCatalog` |
| the passes one cron run makes | `DrainPasses` |
| encrypting stored columns under live writes, and filling blind indexes | `PiiConvert`, `BlindIndex` |

`Wrappers` holds Option, Result, Min, Max, blank text and one fact about set sizes.

How the source's forms are kept. Code that changes state is a class or a method with the source's own
branches (`CreditLedger.Ledger`, `AclDirty.MarkTable`, `PiiConvert.Table`, `BlindIndex.Column`,
`ShardSplit.Split`, `RelationGraph.Expand`, `DrainPasses.Passes`, the loaders), each proved against a
specification function or predicate; the laws are then proved about that specification. The protocols
with many actors (`AclProtocol`, `CpuSampler`, `LedgerReaders`) are state machines over single steps, and their
theorems range over every interleaving.

The database is a sequence or map of rows with the uniqueness keys the source's comments name; a refused insert is
an `Err`. Months are numbers. Floats are exact reals, rounded half to even as Python's `round` does.
Hashing, encryption, the clock and other writers are parameters, with what is assumed of them written out.

## What the proofs found

Where the code and its own documentation part, the model follows the code.

* **A pack does not always give exactly itself.** A purchase of c raises the balance by the larger of c and the
  debt D inherited from earlier months (their overspend since the first purchase, less everything bought). The
  documentation promises c. It is c if and only if D <= c (`LedgerLaws.PackGivesExactlyItself`);
  `LedgerLaws.RepeatBuyerIsGivenMore` is a repeat buyer whose pack of 10 adds 50.
* **The displayed allowance is not "grants only".** It is as if neither row had been posted exactly unless a charge of
  something was reversed (`LedgerLaws.AllowanceCancelsExactlyWhen`), and then it rises by the amount charged
  (`LedgerLaws.ReversalRaisesAllowance`). The two spendable buckets do cancel.
* **Reversing a purchase may not cancel.** The reversal keeps its month as the first one bought in, so months before
  the next purchase go on eating the other packs. It cancels if and only if none of those months was overspent or
  nothing bought would be left anyway (`LedgerLaws.PurchaseReversalCancelsExactlyWhen`);
  `LedgerLaws.RefundedPackStillCovers` is a ledger where it does not.
* **The balance cache can be relied on exactly while no month to come is cached**
  (`LedgerCache.StaysRightExactlyWhen`): any such entry can be made wrong by one posting and the passing of months.
  This is a limit of the interface: no caller in the repository passes a period to `balance_breakdown` or
  `balance_milli` (`spend_recorder.py:168`, `agent_views.py:628`, `:687` and `:715`), so all read the current month.
* **A cached balance need not be that of any moment.** Its figures come from separate statements, outside any
  transaction. Each is that of the rows at some moment, and the moments are in order
  (`LedgerReaders.CachedBalancesWereReadInOrder`), but a run caches 10 and 30 where the balance went from 10 and 50 to
  0 and 30 (`LedgerReaderLaws.OfNoMoment`). With a charge between the month's statement and the purchased ones, the
  cached balance is that of before or after if and only if the month's side was empty or bore the whole charge, or
  nothing bought was left (`LedgerReaderLaws.MixedIsOfOneMomentExactlyWhen`). With no posting of the user since the
  reader began it is right (`LedgerReaderLaws.UndisturbedStoreIsRight`); with one between the last statement and the
  store it is right exactly if nothing was left to spend (a charge), never (a purchase), or exactly if the row
  carries nothing (any other of the month).
* **Reversals that race all post.** Nothing but the check stands between them: n at once leave an entry at 1 - n times
  its value, which is zero if and only if n is 1 or the value is 0 (`LedgerRaces.ReversalsRaceExactlyWhen`).
* **A purchase's debt is read before its transaction.** The balance is that of an atomic purchase if and only if the
  debt has not changed since (`LedgerRaces.EarlyDebtIsRightExactlyWhen`); two packs delivered at once absorb one debt
  twice exactly when there is one (`LedgerRaces.TwoDeliveriesRaceExactlyWhen`, `LedgerRaces.DebtIsAbsorbedTwice`).
* **Two plans racing through a first read over-grant** unless one of them had nothing to add, and only then do not
  (`MonthlyGrants.TwoPlansOvergrantExactlyWhen`): 30 and 70 end at 100 (`MonthlyGrants.TwoPlansOvergrant`).
* **The quote is a ceiling exactly from a credit value of 0.001 USD.** Below it some cap lets a charge exceed the
  quote, and some balance lets a request that stopped in budget overdraw (`QuoteCeiling.QuoteIsCeilingExactlyWhen`,
  `QuoteCeiling.BudgetIsSafeExactlyWhen`). A budget of 0, which means "not enforced", also reaches users whose whole balance
  is worth half a micro-USD or less (`Credits.ZeroBudgetMeansNothingLeft`).
* **A positive pack can still grant nothing**: exactly when it is 0.0005 credits or less
  (`CreditPolicyLoader.PackGrantsNothingExactlyWhen`), which the loader means to refuse.
* **"Off for good" is not so for a thread already inside.** From any reachable state that is off, some continuation
  samples again if and only if some thread is past the check of `disabled` and not too early
  (`CpuSampler.SamplesAgainExactlyWhen`); two threads entering together reach such a state
  (`CpuSampler.OffWithOneInside`).
* **Release depends on mark times being distinct per scope.** A commit during a pass, over a claimed row that is
  still there, is forgotten by the release if and only if it carries the claimed time (`AclEqualTimes.CommitIsForgottenExactlyWhen`); `AclEqualTimes.EqualTimesForget`
  is a trace. Releasing by age would lose marks as well (`AclProtocol.ReleasingByAgeForgets`).
* **A long prompt's cached-read rate may be lower**, since the catalog compares only input and output rates
  (`LlmCatalog.CachedRateNeverFallsExactlyWhen`).
* **A rollback changes how a row reads exactly when its text is itself a token** that the keys open
  to something else (`PiiConvert.RollbackKeepsReadingExactlyWhen`; `PiiConvert.NestedTokensExist` is an instance).

## Model

| member | source | states |
|---|---|---|
| LedgerEntries.Insert | origin/search_engine/credit_ledger.py:142-171 | An insert either appends the row and keeps every uniqueness key, or is refused because some stored row collides with it. |
| LedgerEntries.SumWithout | origin/search_engine/credit_ledger.py:276-277 | Every aggregate is the aggregate of the table without a given row plus that row's own share. |
| LedgerEntries.FirstPurchaseIsEarliest | origin/search_engine/credit_ledger.py:335-337 | The first purchase month is the least month of any purchased row, and absent only when nothing was bought. |
| LedgerEntries.OverspendEnds | origin/search_engine/credit_ledger.py:339-346 | Grouping by the months that have rows gives the same overspend as summing over every month. |
| LedgerEntries.OthersRowsDoNotCount | origin/search_engine/credit_ledger.py:237-262 | A row of one user leaves every figure of every other user unchanged. |
| CreditLedger.Ledger.InvalidateBalance | origin/search_engine/credit_ledger.py:63-77 | Drops exactly the balance of the given month and of the current one. |
| CreditLedger.Ledger.EnsureMonthlyGrant | origin/search_engine/credit_ledger.py:113-173 | Posts the difference still owed to the plan, or nothing: no user, unlimited, already granted, downgrade, refused. |
| CreditLedger.Ledger.BalanceBreakdown | origin/search_engine/credit_ledger.py:202-273 | Returns the cached balance or grants, recomputes and caches; none exactly for no user or an unlimited plan. |
| CreditLedger.Ledger.PostCharge | origin/search_engine/credit_ledger.py:361-405 | Posts one charge row, or reports false having changed nothing. |
| CreditLedger.Ledger.PostManual | origin/search_engine/credit_ledger.py:408-445 | Appends exactly the given row and returns its id; fails without a reason and an actor, or where the row is refused, having changed nothing. |
| CreditLedger.Ledger.PostPurchase | origin/search_engine/credit_ledger.py:487-568 | Posts the grant and, where there is debt, its absorption row, both or neither. |
| CreditLedger.Ledger.ReverseEntry | origin/search_engine/credit_ledger.py:571-596 | Posts the negation once; refuses an unknown entry, a reversal, an entry reversed before, and then a missing reason or actor. |
| CreditLedger.RunAppends | origin/search_engine/credit_ledger.py:571-577 | Over any run no row is changed or removed, and no uniqueness key is ever broken. |
| CreditLedger.ChargeIsStampedWithItsMonth | origin/search_engine/credit_ledger.py:377-393 | An accepted charge is one row: the amount negated, in the request's month, or in the current one where none is given. |
| CreditLedger.NothingToPost | origin/search_engine/credit_ledger.py:379-380 | Nothing owed, no request, no reference or no buyer: the ledger is left alone. |
| CreditLedger.PostForgetsBothMonths | origin/search_engine/credit_ledger.py:63-77 | After a post neither the row's month nor the current one is cached for its user, and nothing else is dropped. |
| CreditLedger.AnyMonthIsReadFromTheRows | origin/search_engine/credit_ledger.py:229-270 | A month not yet cached, whichever it is, is cached as the rows have it. |
| LedgerLaws.ChargeSpendsMonthlyFirst | origin/search_engine/credit_ledger.py:205-226 | A charge of q takes the month's side first and the bought side for the rest; the total becomes max(0, total - q), from every ledger with no purchase stamped in a month to come. |
| LedgerLaws.PurchaseRaisesBalance | origin/search_engine/credit_ledger.py:448-484 | A first delivery of c raises the total by exactly max(c, D); with D <= 0 the bought side itself rises by c. |
| LedgerLaws.PackGivesExactlyItself | origin/search_engine/credit_ledger.py:455-456 | Buying c gives c if and only if the inherited debt D is at most c. |
| LedgerLaws.RepeatBuyerIsGivenMore | origin/search_engine/credit_ledger.py:462-465 | A concrete ledger where the next pack of 10 adds 50. |
| LedgerLaws.ReversalCancels | origin/search_engine/credit_ledger.py:571-596 | However many rows later, reversing a row that was not bought leaves both buckets as in the ledger with neither row, for every user and month. |
| LedgerLaws.PurchaseReversalCancelsExactlyWhen | origin/search_engine/credit_ledger.py:571-596 | Reversing a purchase leaves the buyer's buckets as in the ledger with neither row if and only if no month before the next purchase was overspent, or nothing bought would be left anyway. |
| LedgerLaws.RefundedPackStillCovers | origin/search_engine/credit_ledger.py:335-347 | A concrete ledger where it does not. |
| LedgerLaws.AllowanceCancelsExactlyWhen | origin/search_engine/credit_ledger.py:292-305 | For every row: the displayed allowance is as if neither row had been posted if and only if it is not a charge of something on the monthly side. |
| LedgerLaws.ReversalRaisesAllowance | origin/search_engine/credit_ledger.py:292-305 | Reversing a charge raises the displayed allowance by the amount charged. |
| LedgerConservation.CreditsAreConserved | origin/search_engine/credit_ledger.py:202-347 | After every disciplined run: granted and bought == net charged + spendable now + past months' unused allowance. |
| LedgerConservation.StepKeepsCovered | origin/search_engine/credit_ledger.py:361-402 | Every operation keeps overspend covered by purchases, if charges stay within the balance just before them. |
| LedgerConservation.NothingIsAbsorbed | origin/search_engine/credit_ledger.py:545-558 | In a disciplined run a purchase carries no debt and posts no absorption row. |
| LedgerCache.StepKeepsCoherent | origin/search_engine/credit_ledger.py:63-77 | Each read, post, expiry and month end keeps the current month's cached balances equal to recomputation. |
| LedgerCache.CacheAgreesWithRows | origin/search_engine/credit_ledger.py:237-270 | So after any run whose reads name no future month, late charges for earlier months included. |
| LedgerCache.ReadReturnsTruth | origin/search_engine/credit_ledger.py:237-270 | A read of the current month leaves, and returns, the balance of the rows. |
| LedgerCache.ChargedMonthAloneIsNotEnough | origin/search_engine/credit_ledger.py:66-70 | Dropping only the charged month's key leaves a wrong current balance. |
| LedgerCache.StaysRightExactlyWhen | origin/search_engine/credit_ledger.py:63-77 | From any state whose current balances are right, every continuation that reads no future month keeps them right if and only if no later month is cached. |
| LedgerCache.FutureEntryGoesWrong | origin/search_engine/credit_ledger.py:63-77 | Whatever balance is cached for a month to come, one posting and the passing of months make it wrong. |
| LedgerCache.ReadingAheadGoesStale | origin/search_engine/credit_ledger.py:237-270 | Read next month, buy, let the month arrive: the cached balance is wrong. |
| LedgerDelivery.RedeliveryIsHarmless | origin/search_engine/credit_ledger.py:487-568 | Any run ends in the same rows, cache and month as the run with only the first delivery of each request or reference. |
| LedgerDelivery.RedeliveryPostsNothing | origin/search_engine/credit_ledger.py:361-405 | A redelivery, at any later point, changes nothing: no second charge, grant or absorption row. |
| LedgerDelivery.RequestIsChargedOnce | origin/search_engine/credit_ledger.py:372-397 | A request charged before is never charged again, at any amount, month or user. |
| LedgerDelivery.ReferenceIsGrantedOnce | origin/search_engine/credit_ledger.py:497-563 | A purchase delivered before is never granted again, nor its debt absorbed again. |
| LedgerDelivery.EntryCountsOnceOrNotAtAll | origin/search_engine/credit_ledger.py:578-584 | Over every run an entry with its reversals nets to its own value, or to zero exactly when reversed. |
| MonthlyGrants.GrantsReachLargest | origin/search_engine/credit_ledger.py:113-143 | After any sequence of plans in a month, its grants sum to exactly the largest finite entitlement seen. |
| MonthlyGrants.GrantFollowsThePlan | origin/search_engine/credit_ledger.py:98-143 | On the policy's own map: a plan listed at n brings the month to n or leaves more; an unlimited one posts nothing; one not listed is treated as "free" is, and as nothing where "free" is missing too. |
| MonthlyGrants.NoPolicyNoGrant | origin/search_engine/credit_ledger.py:105-107 | Without a policy nothing is granted. |
| MonthlyGrants.OnePlanRaceGrantsOnce | origin/search_engine/credit_ledger.py:144-171 | Any interleaving of readers of one plan, between query and insert, posts at most one row, for the right amount. |
| MonthlyGrants.TwoPlansOvergrantExactlyWhen | origin/search_engine/credit_ledger.py:137-171 | Two plans' reads race, from any rows and policy: the month ends at the larger entitlement if and only if one of them had nothing to add. |
| MonthlyGrants.TwoPlansOvergrant | origin/search_engine/credit_ledger.py:137-171 | Two different plans racing both post in full. |
| LedgerRaces.EarlyDebtIsRightExactlyWhen | origin/search_engine/credit_ledger.py:521-558 | A purchase that absorbs a debt read before its transaction gives the atomic balance if and only if the debt is unchanged; more exactly where the debt read was larger. |
| LedgerRaces.TwoDeliveriesRaceExactlyWhen | origin/search_engine/credit_ledger.py:521-558 | Two packs delivered at once, under different references and both accepted, give the balance of one after the other if and only if there was no debt; never less. |
| LedgerRaces.DebtIsAbsorbedTwice | origin/search_engine/credit_ledger.py:521-558 | A ledger with a debt of 50 where they give more. |
| LedgerRaces.SecondReferenceAcceptedExactlyWhen | origin/search_engine/credit_ledger.py:535-560 | After one delivery another, new to the ledger, is accepted if and only if the two references differ within 128 characters. |
| LedgerRaces.ReversalsRaceExactlyWhen | origin/search_engine/credit_ledger.py:578-596 | n reversals past the check all post, and the entry nets to 1 - n times its value: zero if and only if n is 1 or the value is 0. |
| LedgerRaces.TwoReversalsOverturn | origin/search_engine/credit_ledger.py:583-587 | Two at once leave an entry at minus its value. |
| LedgerReaderLaws.LateStoreIsRightExactlyWhen | origin/search_engine/credit_ledger.py:261-270 | A charge between a reader's last statement and its store: the cached entry is right if and only if nothing was left to spend. |
| LedgerReaderLaws.LateStoreAfterPurchaseIsWrong | origin/search_engine/credit_ledger.py:261-270 | A purchase there: the entry is never right. |
| LedgerReaderLaws.LateStoreAfterRowExactlyWhen | origin/search_engine/credit_ledger.py:261-270 | Any other row of the month there: the entry is right if and only if the row carries nothing. |
| LedgerReaderLaws.UndisturbedStoreIsRight | origin/search_engine/credit_ledger.py:237-270 | In every run, with no posting of the user since its reader began, what the reader caches is right. |
| LedgerReaderLaws.MixedIsOfOneMomentExactlyWhen | origin/search_engine/credit_ledger.py:261-263 | A charge between the month's statement and the purchased ones: the entry is the balance of before or of after if and only if the month's side was empty or bore it all, or nothing bought was left. |
| LedgerReaderLaws.OfNoMoment | origin/search_engine/credit_ledger.py:261-263 | A run whose cached balance is that of the rows at no moment. |
| LedgerReaders.CachedBalancesWereReadInOrder | origin/search_engine/credit_ledger.py:237-347 | With readers interleaved statement by statement with everything else, each figure of each cached balance is that of the rows at some moment, in the order of the statements. |
| LedgerReaders.StatementFits | origin/search_engine/credit_ledger.py:308-347 | Each statement, the early returns included, adds its own moment to those before it. |
| Credits.NeverAboveQuote | origin/search_engine/credits.py:41-102 | From 0.001 USD per credit, whatever the request's cost, surface and result, its charge lies between 0 and the quote. |
| Credits.UnlistedIsFree | origin/search_engine/credits.py:70-73 | A surface or an outcome the policy does not list is charged nothing, whatever it cost. |
| Credits.ChargedItsWorth | origin/search_engine/credits.py:74-89 | Otherwise a cost worth n milli-credits, up to the cap, is charged exactly n, and any cost from the cap's worth on the cap. |
| Credits.ChargeNeverFalls | origin/search_engine/credits.py:74-89 | A dearer request is never charged less. |
| Credits.WorthInUsdMicro | apis/credit_policy.py:126-128 | n milli-credits are worth n thousandths of the credit's price, to the nearest micro-USD. |
| Credits.NoBudgetWithoutBalance | origin/search_engine/credits.py:138-142 | An unlimited plan, and a balance used up, have a budget of zero. |
| Credits.BudgetNeverOverdraws | origin/search_engine/credits.py:105-142 | A cost within the budget of b converts to at most b, and to exactly b at the budget. |
| Credits.ZeroBudgetMeansNothingLeft | origin/search_engine/credits.py:131-134 | A user with credits gets the "not enforced" budget exactly when the balance is worth half a micro-USD or less. |
| Credits.WorthConvertsBack | apis/credit_policy.py:126-128 | Credits to micro-USD and back is the identity, and no smaller cost converts to more. |
| QuoteCeiling.QuoteIsCeilingExactlyWhen | origin/search_engine/credits.py:92-102 | The quote bounds the charge under every cap and cost if and only if a credit is worth at least 0.001 USD. |
| QuoteCeiling.BudgetIsSafeExactlyWhen | origin/search_engine/credits.py:105-142 | No cost within the budget overdraws, for every balance, if and only if the same holds. |
| CreditPolicyLoader.ParseCreditPacks | apis/credit_policy.py:44-67 | No section sells nothing; otherwise loads if and only if non-empty with every pack named and positive, each in milli-credits. |
| CreditPolicyLoader.ThousandthsLoadExactly | apis/credit_policy.py:66 | A quantity of n thousandths of a credit loads as n milli-credits. |
| CreditPolicyLoader.BlankExactlyWhen | apis/credit_policy.py:60-61 | A pack's key counts as blank when stripping (of ASCII white space) leaves nothing. |
| CreditPolicyLoader.PackGrantsNothingExactlyWhen | apis/credit_policy.py:50-52 | A pack the loader accepts grants nothing if and only if it is 0.0005 credits or less. |
| CreditPolicyLoader.CapQuotesNothingExactlyWhen | apis/credit_policy.py:190-196 | An accepted per-request cap quotes nothing if and only if it is 0.0005 credits or less. |
| CreditPolicyLoader.ParsePlanMap | apis/credit_policy.py:131-154 | Loads if and only if it names exactly the five plans, each non-negative or unlimited; each loads as itself, scaled. |
| CreditPolicyLoader.PlanLoadsAsWritten | apis/credit_policy.py:146-154 | A number loads as itself, scaled; "unlimited" as no limit; nothing else loads. |
| CreditPolicyLoader.PlansNeverNegative | apis/credit_policy.py:147-154 | No accepted plan map holds a negative number. |
| CreditPolicyLoader.PolicyLoadsExactlyWhen | apis/credit_policy.py:186-196 | The policy's numbers load if and only if both are positive, the price as written and the cap to the nearest milli-credit. |
| CreditPolicyLoader.LoadedPolicyKeepsItsQuote | apis/credit_policy.py:186-196 | Every charge under an accepted policy with a credit worth 0.001 USD or more is within the quote. |
| AclDirty.Claim | origin/search_engine/acl_dirty.py:108-128 | Every listed project whose id is a number is claimed by that number and every listed channel by its id, and no other; every row, malformed ones too, is listed for release. |
| AclDirty.MarkTable.MarkScopes | origin/search_engine/acl_dirty.py:45-64 | Scope by scope: marked now, an existing row with its key and a new one with a fresh key; no other row moves. |
| AclDirty.UpsertsMerge | origin/search_engine/acl_dirty.py:51-62 | A transaction that marks in several statements leaves what one statement with each scope's last time would, which is how the protocol commits it. |
| AclDirty.MarkTable.Release | origin/search_engine/acl_dirty.py:131-148 | Deletes exactly the rows still at the time they were claimed at, and counts them, whatever the batching. |
| AclProtocol.NoStaleScopeIsForgotten | origin/search_engine/acl_dirty.py:131-148 | In every interleaving, at every moment, with commits between the batches of a release too, a well-formed scope newer than the index has a committed mark. |
| AclProtocol.StaleProjectsAndChannelsAreMarked | origin/search_engine/acl_dirty.py:113-123 | The same in the source's words: any project whose id is a number, and any channel. |
| AclProtocol.NothingReleasedUnrefreshed | origin/search_engine/acl_dirty.py:131-140 | When a release may run, every claimed project whose id is a number and every claimed channel has been refreshed. |
| AclProtocol.NextKeepsInv | origin/search_engine/acl_dirty.py:45-148 | Marking, committing, aborting, claiming, refreshing, releasing any part of the claim and ending a pass each keep the invariant behind it. |
| AclProtocol.ReleasedScopesAreCurrent | origin/search_engine/acl_dirty.py:131-148 | A mark that any batch of a release deletes belongs to a scope whose index is up to date at that moment. |
| AclProtocol.BatchesAreTheClaim | origin/search_engine/acl_dirty.py:141-148 | Batches one after the other release what the whole claim would. |
| AclProtocol.ReleasingByAgeForgets | origin/search_engine/acl_dirty.py:134-139 | Deleting everything older than the claim has a trace that forgets a stale scope. |
| AclEqualTimes.CommitIsForgottenExactlyWhen | origin/search_engine/acl_dirty.py:134-147 | Wherever a trace with any mark times has got to: a commit of a scope whose claimed row is still there, marked again or not, leaves the index behind, and a release then drops its mark if and only if it carries the claimed time. |
| AclEqualTimes.EqualTimesForget | origin/search_engine/acl_dirty.py:55-62 | A trace in which only the second mark's time is not new, and a stale scope is forgotten. |
| ListScheduling.GrahamBound | scripts/ci_test_shard.py:41-50 | Heaviest first onto the lightest machine: at most 4/3 - 1/(3m) times the heaviest of any assignment. |
| ListScheduling.AnyOrderBound | scripts/ci_test_shard.py:46-49 | In any order at all, at most 2 - 1/m times. |
| ListScheduling.LightestIsLightest | scripts/ci_test_shard.py:47 | The chosen shard is no heavier than any other, and lighter than every lower-numbered one. |
| ListScheduling.HeavyLastJobFits | scripts/ci_test_shard.py:46-49 | A last job heavier than a third of the optimum never lifts a machine above it. |
| ListScheduling.GrahamBoundIsTight | scripts/ci_test_shard.py:41-50 | For two machines the factor is met with equality. |
| ShardSplit.Split | scripts/ci_test_shard.py:41-50 | The loop computes the shards of the specification; fewer than one shard is an error. |
| ShardSplit.TallyIsRight | scripts/ci_test_shard.py:44-49 | The loads carried along by the loop are those of the shards as they stand. |
| ShardSplit.HomeOf | scripts/ci_test_shard.py:44-50 | A listed file is in one shard and in no other. |
| ShardSplit.EveryFileInExactlyOneShard | scripts/ci_test_shard.py:44-50 | Every file is in exactly one shard, and nothing else is. |
| ShardSplit.SplitIgnoresListingOrder | scripts/ci_test_shard.py:26-28 | The shards depend on the set of files, not on the order they are listed in. |
| ShardSplit.ShardWeighsItsLoad | scripts/ci_test_shard.py:48-49 | Each load is the weight of its shard's files. |
| ShardSplit.ShardsDifferByOneFile | scripts/ci_test_shard.py:31-49 | Counting test methods, a file without any for one: no shard runs more than another by more than its own last file. |
| ShardSplit.SplitIsNearOptimal | scripts/ci_test_shard.py:31-50 | Counting so, no shard of the split runs more than 4/3 - 1/(3m) times the heaviest shard of any other way of dealing. |
| ShardSplit.ShardsRunHeaviestFirst | scripts/ci_test_shard.py:46 | Each shard holds its files by falling count, and ties by path. |
| ShardSplit.WeightIsTests | scripts/ci_test_shard.py:31-34 | A shard's weight is the sum of max(1, methods) over its files. |
| ShardSplit.PathLessExactlyWhen | scripts/ci_test_shard.py:46 | Paths compare at the first character in which they differ, and a path comes before its extensions. |
| CpuSampler.NextKeepsInv | origin/middleware/request_perf.py:185-219 | Each step of each thread keeps the lock discipline and ties the fields to the samples taken and lines logged. |
| CpuSampler.LogIsSound | origin/middleware/request_perf.py:185-219 | In every interleaving with stale clock readings: samples at least the interval apart, the log exactly their windows, in order and disjoint. |
| CpuSampler.TickSamplesExactlyWhenDue | origin/middleware/request_perf.py:185-205 | From every reachable state that is on with the lock free, an uninterrupted tick samples if and only if no sample was taken yet or the last is at least the interval old. |
| CpuSampler.WindowsJoinSamples | origin/middleware/request_perf.py:203-217 | Each line runs from one sample to the very next. |
| CpuSampler.LinesAreNeverNegative | origin/middleware/request_perf.py:207-209 | In every run no logged line holds a negative counter. |
| CpuSampler.StretchOfLogTelescopes | origin/middleware/request_perf.py:203-217 | In the log of every run, whatever restarts it holds elsewhere, the lines of any stretch without one are consecutive, join end to end, and add up to last reading less first. |
| CpuSampler.EachCounterTelescopes | origin/middleware/request_perf.py:207-217 | Counter by counter, the logged deltas of such a stretch add up to the last reading less the first. |
| CpuSampler.WindowsSplitAt | origin/middleware/request_perf.py:203-209 | The lines of a sequence are those up to any sample and then those from it on. |
| CpuSampler.StretchTelescopes | origin/middleware/request_perf.py:207-209 | The lines of samples without a restart join end to end and telescope. |
| CpuSampler.SamplesAgainExactlyWhen | origin/middleware/request_perf.py:185-201 | In every reachable state that is off, some continuation samples again if and only if some thread is past the switch and not too early, or inside on its way to a sample. |
| CpuSampler.OffWithOneInside | origin/middleware/request_perf.py:185-201 | A run from the start that reaches such a state. |
| CpuSampler.QuietOnceAllAreOut | origin/middleware/request_perf.py:196-201 | Once disabled with nobody inside, nothing is sampled or logged again. |
| CpuSampler.LateThreadStillSamples | origin/middleware/request_perf.py:198-201 | Left alone, such a thread takes a sample, and the sampler stays off. |
| RelationGraph.Expand | docs/pg_relation_network.py:1485-1515 | Ends with exactly the tables reachable in at most depth steps through showable tables in the chosen direction; all means full reachability. |
| RelationGraph.DepthOneFollowsTheArrows | docs/pg_relation_network.py:1496-1509 | At depth one: outgoing adds the showable targets of foreign keys, incoming their showable sources, both adds both. |
| RelationGraph.RoundAdvances | docs/pg_relation_network.py:1493-1515 | One round takes "reachable in k steps" to "reachable in k + 1", the frontier being what is new. |
| RelationGraph.ClosedIsEverything | docs/pg_relation_network.py:1512 | A round that finds nothing means no number of steps reaches more. |
| RelationGraph.HideIsolated | docs/pg_relation_network.py:1517-1529 | Keeps exactly the tables with a visible edge, loses no edge, and leaves nobody alone. |
| LlmCatalog.CheckPriceOrder | apis/llm_catalog.py:520-547 | Comparing neighbours accepts exactly the lists that are cheapest first throughout, in both rates. |
| LlmCatalog.PriceLoadsExactlyWhen | apis/llm_catalog.py:327-397 | A price loads as written if and only if no rate is negative and its long tier starts at a positive number of tokens and is at least as dear. |
| LlmCatalog.AddableExactlyWhen | apis/llm_catalog.py:589-614 | A list can be added exactly when each entry is well priced and no model is taken or listed twice. |
| LlmCatalog.LoadModels | apis/llm_catalog.py:583-664 | Accepts exactly the well-formed provider and embedding lists, and leaves every provider priced by its own entries. |
| LlmCatalog.ParseEfforts | apis/llm_catalog.py:684-771 | Accepts exactly the three efforts, each in range, none doing less than a lower one. |
| LlmCatalog.HigherEffortsDoNoLess | apis/llm_catalog.py:753-772 | In accepted efforts rung, steps, rewrites and thinking never fall from low to high, no budget being above any. |
| LlmCatalog.LoadCatalog | apis/llm_catalog.py:550-681 | Accepts if and only if models and efforts both do. |
| LlmCatalog.EffortNamesItsEntry | apis/llm_catalog.py:228-247 | In every accepted catalog an effort resolves to the model listed at its rung, or to the last one of a shorter list. |
| LlmCatalog.UnknownResolvesToNothing | apis/llm_catalog.py:228-247 | An unknown provider or effort is an error, not some model. |
| LlmCatalog.EffortsCostNoLess | apis/llm_catalog.py:228-247 | In every accepted catalog and for every provider, prices never fall from low to medium to high, clamping included. |
| LlmCatalog.PlanningCostsNoMore | apis/llm_catalog.py:728-742 | The planning rung is never pricier than the synthesis rung. |
| LlmCatalog.LongerPromptCostsNoLess | apis/llm_catalog.py:146-161 | For every model of every provider of an accepted catalog, input and output rates never fall as the prompt grows. |
| LlmCatalog.ThresholdItselfIsFlat | apis/llm_catalog.py:146-161 | A prompt of exactly the threshold is billed at the flat rates, one token more at the long ones. |
| LlmCatalog.CachedRateNeverFallsExactlyWhen | apis/llm_catalog.py:391-396 | The cached-read rate never falls with the prompt's length exactly when the file's two rates are in that order. |
| DrainPasses.Passes | origin/management/cron_command.py:160-203 | Ends for all pass durations, and yields exactly the starts that the clock and the options settle. |
| DrainPasses.RunIsSettled | origin/management/cron_command.py:187-203 | There is only one such run. |
| DrainPasses.StartsAreApart | origin/management/cron_command.py:189-198 | Passes start at least the interval apart. |
| DrainPasses.PassesFollowOneAnother | origin/management/cron_command.py:187-198 | A pass starts no sooner than the one before it ends and its turn comes; with exact sleeps at the later of the two. |
| DrainPasses.NoMorePassesThanSlots | origin/management/cron_command.py:182-197 | There are at most max(1, ceil(seconds / interval)) passes, however long passes and sleeps take. |
| DrainPasses.ShortPassesFillEverySlot | origin/management/cron_command.py:182-198 | Exactly that many when passes are shorter than the interval and sleeps exact. |
| DrainPasses.ShortPassesOnOptions | origin/management/cron_command.py:182-198 | On the option values: s seconds every i seconds make ceil(s / i) short passes, and i is 60 where not given. |
| DrainPasses.OnePassWithoutSeconds | origin/management/cron_command.py:182-197 | Without seconds, exactly one pass. |
| DrainPasses.LastExactlyWhenSpent | origin/management/cron_command.py:192-197 | Of passes of any length, one is the last if and only if the next falls due, or it ends, at the deadline or after. |
| DrainPasses.LaterPassesStartInTime | origin/management/cron_command.py:193-197 | With exact sleeps every pass after the first starts before the deadline. |
| DrainPasses.NeverSleepsIntoDeadline | origin/management/cron_command.py:177-181 | Every sleep asked for is due to end before the deadline. |
| PiiConvert.Table.Convert | origin/migrations/0203_pii_encrypt_rows.py:60-80 | Ends; under any concurrent writes every row with text throughout is visited once, and each cell is what others left there, as it is or converted; without a key nothing is written. |
| PiiConvert.SelectBatch | origin/migrations/0203_pii_encrypt_rows.py:66-72 | The batch is exactly the first rows with text after the cursor, and moves the cursor past them. |
| PiiConvert.RowSwapped | origin/migrations/0203_pii_encrypt_rows.py:73-79 | One compare-and-swap loses no write made since the value was read. |
| PiiConvert.UnwrittenRowEndsConverted | origin/migrations/0203_pii_encrypt_rows.py:60-80 | A row nobody else wrote ends converted if it has text, unchanged otherwise. |
| PiiConvert.EmptyCellsStay | origin/migrations/0203_pii_encrypt_rows.py:66-68 | NULL and the empty string stay as they are. |
| PiiConvert.TextIsConverted | origin/migrations/0203_pii_encrypt_rows.py:73-79 | Any other text nobody else writes ends as what the conversion makes of it. |
| PiiConvert.QuietRunConvertsAll | origin/migrations/0203_pii_encrypt_rows.py:60-80 | A run nobody interferes with converts every row with text and leaves the others: the premise of the laws below. |
| PiiConvert.EncryptingKeepsReadings | origin/migrations/0203_pii_encrypt_rows.py:41-44 | The field reads every row of the encrypted column as it read the original. |
| PiiConvert.SecondRunChangesNothing | origin/migrations/0203_pii_encrypt_rows.py:9-10 | Running it again changes nothing. |
| PiiConvert.RollbackLeavesReadings | origin/migrations/0203_pii_encrypt_rows.py:47-53 | Rolling back leaves in each row the very text the field reads from the original. |
| PiiConvert.RollbackKeepsReadingExactlyWhen | origin/migrations/0203_pii_encrypt_rows.py:16-19 | After a rollback the field reads a row as before if and only if its text is not itself a token that opens to something else. |
| PiiConvert.NestedTokensExist | origin/migrations/0203_pii_encrypt_rows.py:47-53 | A sound cipher and a stored value that a rollback does read differently. |
| BlindIndex.OneMoreSeen | origin/migrations/0202_pii_encrypt_columns.py:77-82 | Remembering only the last row with each digest names every row that shares one. |
| BlindIndex.FindClashes | origin/migrations/0202_pii_encrypt_columns.py:77-82 | The clashes are exactly the rows whose digest another row has. |
| BlindIndex.ClashesAreSharing | origin/migrations/0202_pii_encrypt_columns.py:72-77 | Reading only the stored digests that match a new one misses no clash. |
| BlindIndex.Column.FillMissingHashes | origin/migrations/0202_pii_encrypt_columns.py:55-93 | Stops, writing nothing and naming exactly the rows that would share a digest, or fills each missing digest and leaves the rest untouched. |
| BlindIndex.Column.FillHashes | origin/migrations/0201_pii_blind_index.py:56-85 | The same for a column that has just been added. |
| BlindIndex.FilledOnce | origin/migrations/0202_pii_encrypt_columns.py:60-66 | A digest that was there is untouched, and filling again changes nothing. |
| BlindIndex.EndsWithItsDigest | origin/migrations/0202_pii_encrypt_columns.py:60-93 | After an accepted fill a row has the digest it had; else, with an address, that address's; else none. |
| BlindIndex.NoSharingMeansDistinct | origin/migrations/0202_pii_encrypt_columns.py:83-88 | The column passes exactly when every digest names one row. |

## Left out

- The ORM, transactions and the cache server: rows, uniqueness keys, commit visibility and a cache map stand for them; the broad `except` branches that hide their failures are not modelled.
- The text of reasons and actors, team ids, request metadata and version strings on ledger rows.
- Months as "YYYY-MM" text: they are numbers, which compare the same way.
- CreditLedger.Ledger.PostPurchase: takes the debt and the insert as one step, as the runs of the other modules do; `LedgerRaces` states exactly what a debt read earlier changes.
- CreditLedger.Ledger.BalanceBreakdown: reads its figures and caches them in one step, as the runs of the other modules do; `LedgerReaders` takes it statement by statement, though the month's grant before them stays one step there (`MonthlyGrants` splits that).
- CreditLedger.Ledger.ReverseEntry: checks and posts in one step; `LedgerRaces` states what reversals that race do.
- LedgerDelivery.EntryCountsOnceOrNotAtAll: is about runs in which each reversal is one step, for the same reason.
- Balances of users without any policy, the shadow and authoritative switches, and `balance_milli`, which is one addition.
- Binary floating point: the arithmetic is over exact numbers with Python's rounding rule, so a tie that exists only in floats is not modelled.
- The policy's lists of surfaces, results and purposes, its fingerprints and unknown-key checks; YAML typing beyond number, flag, text and the rest; white space beyond ASCII.
- Marks that fail to be written and are only logged; `acl_channel_ids`; the signal receivers.
- The indexer itself: between claim and release it refreshes each claimed scope from committed membership.
- Python's `int()` on a project id is a parameter of the claim.
- How test methods are counted in a file: a file comes with its count. Paths compare by code points.
- `InflightCounter`, `RequestPerfMiddleware` and the text of the log line: counters under a lock and formatting, easy next to the sampler.
- `build_graph`, the DOM and the filters of the relation page: which tables match, and which neighbours may be shown, are given sets.
- Tier caps, unit prices, the rate card, subprocess rungs, `effort_for_model` and exact-id price lookup in the model catalog.
- LlmCatalog.LoadModels: does not model the class, cap, label, note and request-effort checks of an entry, which refuse more files and move no price.
- LlmCatalog.LoadCatalog: does not model the tier-cap, unit-price, rate-card and subprocess sections, which refuse more files and move no price.
- The error tripwire and heartbeat around a cron command, and reconnecting between passes.
- Inserted or deleted rows during the encryption, and row locks: an update is taken as visible at once, with other writers before or after it.
- The lists of tables and columns in the three migrations: each column is handled on its own, as one run of the model.
- Key rotation, and the ciphers and digests themselves: they are parameters, with the round trip and the shape of tokens as stated assumptions.
- The order of ids and the wording in a clash error.
