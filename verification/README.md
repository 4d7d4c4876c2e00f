# Engganyo credit economy: verification models

Dafny 4.11 models of the parts of Engganyo that move credits or keep state other parts trust, with proofs of what
they promise. `dafny verify dfyconfig.toml` checks everything.

The models follow the code, branch by branch. A service method that works inside a database transaction appears
twice: as a function on the tables (`...Tx`, `Step`, `Ingest`), on which whole runs are built, and as a class method
with the code's guarded updates, loops and rollbacks, proved to compute that function. Theorems speak about every run:
every interleaving, every history of stale reads, every text. What an operation does is stated on the rows, balances and
texts themselves as well, without the functions it computes.

| files | what they cover |
|---|---|
| `escrow_*` | 1v1 challenges: publishing, claiming, submitting, reviewing, cancelling and sweeping, each committing from an arbitrarily old read |
| `campaign_*` | campaign funding: the refund decision over the wallet ledger, slots, cancellation, and updates, reviews and submissions that write by id alone |
| `settlement_backfill` | the cursor-paginated backfill of provider figures, with overlapping runs |
| `visit_*` | visit sessionisation against its batch definition, and the daily rollup, counted from the raw rows |
| `mention_*` | printing and scanning of campaign and user mentions |
| `tip_window`, `rain`, `rate_limit` | the 48-hour tip budget, the rain transaction, fixed-window counters |
| `suppression_*`, `tabindex_texts`, `tour_*` | the onboarding tour's keyboard suppression passes, its step store and its navigation intent |
| `csv_export` | the admin CSV export and an RFC 4180 section 2 reader |
| `sums`, `histories`, `wrappers` | finite sums, reading from past states, Option and Result |

## Where the code promises less than it says

- A challenge fee rate is read from configuration without a lower bound, though no endpoint writes it: a negative one
  has to be put into the table directly. Credits are conserved exactly as long as no challenge with a negative fee is
  awarded (`EscrowTheorems.ConservedExactly`, with the counterexample `EscrowTheorems.NegativeRateMints`).
- `update` of a campaign checks the status it read and then writes by id. A write that was read before a cancellation
  revives the campaign after its refund, and the pool is paid out again (`CampaignTheorems.StaleUpdateOverdraws`). The
  refund bound survives this. The payout bound survives an update exactly when it does not write a status over a
  refunded cancellation (`CampaignRevival.UpdateIsSafeIff`).
- The manual path of a submission writes SUBMITTED by id. If the completion was verified meanwhile, the same worker can
  be paid a second time, from another worker's slot (`CampaignResubmission.StaleSubmitPaysTwice`). A second payment is
  in reach exactly when such a write happens while a slot is left to complete (`CampaignResubmission.SubmitIsSafeIff`).
- A backfill call with a limit below one examines nothing and reports that nothing is left
  (`SettlementBackfill.Backfill.Run`).
- A tip exactly 48 hours old is pruned, so only the window that is open at its start is bounded
  (`TipWindow.ClosedWindowExceeds`).
- The comment in the abandoned-claim sweep expects that the challenge may have moved on after its claim was taken. On
  reachable states it cannot have (`EscrowTheorems.ClaimGuardImpliesChallengeGuard`).
- The tour's branch that adopts the record of a dead pass is never reached (`SuppressionTheorems.NothingToAdopt`).
- A tour state stored as active at the last position plus one is accepted on read and breaks the store's bounds; no
  state the store writes itself does (`TourSteps.StoreStaysInBounds`).

## Model

| member | source | states |
|---|---|---|
| EscrowTheorems.ReachableStatesAreCoupled | apps/api/src/modules/challenges/challenges.service.ts:643-781 | in every reachable state of every interleaving, the challenge status, its claim, the claimant and the complete list of its wallet and fee rows agree; nothing is held or paid twice |
| EscrowTheorems.ClaimGuardImpliesChallengeGuard | apps/api/src/modules/challenges/challenges.service.ts:828-845 | on reachable states the claim's compare-and-set matches exactly when the challenge's does, so the second early return of the sweep and the "no longer reviewable" errors are dead |
| EscrowTheorems.SettledAtMostOnce | apps/api/src/modules/challenges/challenges.service.ts:645-671 | whatever races for a challenge, at most one request moves its reserve, and what that request wrote never changes |
| EscrowTheorems.ConservedExactly | apps/api/src/modules/challenges/challenges.service.ts:214-246 | wallets plus held reserves plus recorded fees stay constant at every moment of every interleaving if and only if no challenge with a negative fee was awarded; otherwise the surplus is exactly the negative fees |
| EscrowTheorems.Conserved | apps/api/src/modules/challenges/challenges.service.ts:535-554 | with rates that quote no negative fee, the total never changes |
| EscrowTheorems.NegativeRateMints | apps/api/src/modules/challenges/challenges.service.ts:143-155 | a configured rate of minus one half mints five credits in a four-request run |
| EscrowTheorems.QuoteRounding | apps/api/src/modules/challenges/challenges.service.ts:145 | the quoted fee is the least integer that covers the rate, and when it is negative |
| EscrowTheorems.FeesStayNonNegative | apps/api/src/modules/challenges/challenges.service.ts:160-246 | no request other than publishing under a negative quote can introduce a negative fee |
| EscrowTheorems.EvolvesBetween | apps/api/src/modules/challenges/challenges.service.ts:467-495 | between any two moments terms never change, ledgers only grow, and settled rows and claims stay as they are |
| EscrowTransitions.EveryMoveIsLawful | apps/api/src/modules/challenges/challenges.service.ts:160-889 | in every history each request, whatever its reads saw, changes nothing or makes exactly the lawful move on the row as it stands: who may move it, before or after which deadline, from which status to which, what its claim becomes, whose wallet gets how much, and that nothing else changes |
| EscrowTransitions.FreshRequestsAreExact | apps/api/src/modules/challenges/challenges.service.ts:160-889 | a request whose reads are up to date takes effect if and only if the row, the deadlines, the user and the wallets allow it |
| EscrowTransitions.WalletsFollowTheLedger | apps/api/src/modules/wallet/wallet.service.ts:184-246 | at every moment of every history a wallet holds what it started with plus what the ledger posted to it |
| EscrowProofs.RequestOk | apps/api/src/modules/admin/admin.service.ts:797-887 | one request, committing from any stale reads, keeps the joint invariant and the total less what negative fees minted |
| EscrowProofs.ApproveOk | apps/api/src/modules/challenges/challenges.service.ts:643-700 | when an approval from a stale read commits, that it keeps the total less what was minted, and that it keeps the total itself exactly when the fee is not negative |
| EscrowProofs.RejectOk | apps/api/src/modules/challenges/challenges.service.ts:724-781 | a rejection from a stale read returns exactly the reserve to the creator |
| EscrowProofs.SweepClaimedOk | apps/api/src/modules/challenges/challenges.service.ts:828-850 | expiring an abandoned claim keeps the invariant and the total |
| EscrowStore.ChallengeStore.Publish | apps/api/src/modules/challenges/challenges.service.ts:214-246 | insert and debit commit together or not at all |
| EscrowStore.ChallengeStore.ClaimChallenge | apps/api/src/modules/challenges/challenges.service.ts:467-495 | the claim takes an open, unexpired challenge once; a duplicate claim row rolls back |
| EscrowStore.ChallengeStore.CancelChallenge | apps/api/src/modules/challenges/challenges.service.ts:535-554 | guarded cancellation and refund in one transaction |
| EscrowStore.ChallengeStore.SubmitProof | apps/api/src/modules/tasks/tasks.service.ts:680-690 | the guarded submission matches only an unsubmitted claim |
| EscrowStore.ChallengeStore.Approve | apps/api/src/modules/challenges/challenges.service.ts:643-700 | the four writes of an approval commit exactly when claim, challenge, wallet and fee row all accept |
| EscrowStore.ChallengeStore.Reject | apps/api/src/modules/challenges/challenges.service.ts:724-781 | the three writes of a rejection commit together or not at all |
| EscrowStore.ChallengeStore.CloseWithoutAward | apps/api/src/modules/challenges/challenges.service.ts:859-889 | an overdue offer is closed and refunded, anything else is left alone |
| EscrowStore.ChallengeStore.ExpireAbandoned | apps/api/src/modules/challenges/challenges.service.ts:828-850 | what one abandoned-claim transaction writes, both early returns included |
| EscrowStore.ChallengeStore.SweepExpired | apps/api/src/modules/challenges/challenges.service.ts:790-851 | a sweep that runs alone expires and refunds only offers past their deadline and claims past theirs that were not handed in, a hundred of each or all there are; every other row, claim, wallet and ledger entry stays, submitted claims above all |
| EscrowStore.SweepsFinish | apps/api/src/modules/challenges/challenges.service.ts:790-851 | how many offers and unsubmitted claims past their deadline are left after any number of sweeps in a row: a hundred fewer of each per sweep, so ceil(max(n, m) / 100) sweeps leave none |
| EscrowStore.OffersSwept | apps/api/src/modules/challenges/challenges.service.ts:794-810 | closing a page of offers closes exactly those, keeps the invariant and the total |
| CampaignFunding.ResolveFundedRefund | apps/api/src/modules/campaigns/campaign-funding.ts:50-109 | the two validating loops accept exactly the ledgers whose every row is completed, the owner's and of the right sign, and whose funding covers fee, past refunds and this one; they grant what was asked, or nothing where nothing was funded |
| CampaignFunding.RefundableIffPayable | apps/api/src/modules/campaigns/campaign-funding.ts:50-109 | the rule on the rows of each kind is the rule on the ledger row by row |
| CampaignFunding.Decision | apps/api/src/modules/campaigns/campaign-funding.ts:99-109 | on sound rows the code's comparison of sums is the rule: fee, past refunds and this one fit in the funding |
| CampaignTheorems.RefundsStayWithinFunding | apps/api/src/modules/campaigns/campaign-funding.ts:99-109 | from any ledger, under any interleaving of funding, edits, stale updates and both cancellations, once a cancellation pays a refund, refunds plus fee stay within the funding |
| CampaignTheorems.UnfundedNeverRefunded | apps/api/src/modules/campaigns/campaign-funding.ts:99-102 | a campaign that nobody funds is never refunded |
| CampaignTheorems.FeeFixed | apps/api/src/modules/campaigns/campaigns.service.ts:202-247 | the fee and owner the bounds speak of never change |
| CampaignTheorems.FirstCancellationAccepted | apps/api/src/modules/campaigns/campaigns.service.ts:571-603 | in any run of a created campaign without edits and further funding in which no update, stale or not, revives a refunded cancellation, a cancellation by an administrator, or by the creator while nobody took the campaign, is accepted exactly when the fee is not negative, refunds `(total - completed - pending)` times the price, and changes nothing else; from other statuses nothing happens |
| CampaignTheorems.CancellationSplitsThePool | apps/api/src/modules/admin/admin.service.ts:364-429 | right after a cancellation commits in such a run, payouts, refund and what the pending slots may still be paid are the whole pool, and nothing had been refunded before |
| CampaignTransitions.EveryMoveIsLawful | apps/api/src/modules/tasks/task-completion-verify.ts:37-131 | in such runs every request changes nothing or makes exactly the lawful move on the row as it stands: which slot moves where, who is paid the agreed price, when the last slot completes the campaign |
| CampaignTransitions.FreshRequestsAreExact | apps/api/src/modules/campaigns/campaigns.service.ts:506-624 | a request whose reads are up to date takes effect if and only if status, slots, worker and fee allow it |
| CampaignTheorems.PayoutsAndRefundWithinPool | apps/api/src/modules/admin/admin.service.ts:364-429 | in every such run worker payouts plus refund never exceed slots times price, completions approved after the cancellation included |
| CampaignTheorems.PoolKept | apps/api/src/modules/campaigns/campaigns.service.ts:385-426 | counters, payouts and ledger of a created campaign stay tied together in every such run |
| CampaignTheorems.StaleUpdateOverdraws | apps/api/src/modules/campaigns/campaigns.service.ts:506-532 | a stale update lets payouts and refund reach twice the pool |
| CampaignRevival.UpdateIsSafeIff | apps/api/src/modules/campaigns/campaigns.service.ts:506-532 | after any such run, an `update` that commits, stale or not, leaves every further such run within the pool if and only if it does not write a status over a refunded cancellation |
| CampaignRevival.RevivalOverdraws | apps/api/src/modules/campaigns/campaigns.service.ts:506-532 | after a revival some continuation, worked off by workers the services accept, pays out the whole pool on top of the refund |
| CampaignRevival.RunStaffed | apps/api/src/modules/tasks/tasks.service.ts:118-120 | in every run each pending slot has a worker who can still be verified, and the owner is among the workers only on a platform task |
| CampaignResubmission.SubmitIsSafeIff | apps/api/src/modules/tasks/tasks.service.ts:561-576 | a manual submission that commits, stale or not, leaves every worker paid at most once in every further run without edits and without another harmful submission, if and only if it does not write over a verified completion while a slot is left to complete; stale updates are allowed throughout |
| CampaignResubmission.SubmitIsSafeIffUpdatesAtomic | apps/api/src/modules/tasks/tasks.service.ts:561-576 | the same when updates are atomic from then on: the slot must be pending, or assignable on a campaign that can be modified |
| CampaignResubmission.PaidAgain | apps/api/src/modules/tasks/task-completion-verify.ts:37-83 | after a harmful submission at most three further requests pay the worker a second time |
| CampaignResubmission.PaidAtMostOnce | apps/api/src/modules/tasks/task-completion-verify.ts:37-83 | in every run in which no submission writes over a verified completion, every worker is paid exactly as often as verified: once or never |
| CampaignResubmission.StaleSubmitPaysTwice | apps/api/src/modules/tasks/tasks.service.ts:561-576 | the unguarded manual submission lets one worker be paid twice |
| CampaignTheorems.CalculateFee | apps/api/src/modules/campaigns/campaigns.service.ts:151-153 | the fee is the nearest credit, halves up, and is negative exactly below minus half a credit |
| CampaignStore.CampaignService.Cancel | apps/api/src/modules/campaigns/campaigns.service.ts:557-624 | the cancellation under the row lock commits exactly when status, counters, tasks, ledger and wallet allow it, with the unused slots times the price as refund, or nothing for an unfunded campaign; otherwise it leaves no trace |
| CampaignStore.CampaignService.ClaimCompletionForVerification | apps/api/src/modules/tasks/task-completion-verify.ts:37-83 | completion, slot and payout move together; `becameCompleted` is exact |
| CampaignStore.CampaignService.RejectCompletionAndReleaseSlot | apps/api/src/modules/tasks/task-completion-verify.ts:101-131 | a rejection releases one pending slot or nothing changes |
| CampaignStore.CampaignService.AssignTask | apps/api/src/modules/tasks/tasks.service.ts:301-327 | a slot is taken only on an active campaign with slots left, once per worker |
| SettlementBackfill.FollowedCursorCovers | apps/api/src/modules/admin/admin.service.ts:2156-2229 | following the cursor to null examines deposits newest first, each at most once; each was a completed PayPal deposit with a reference lacking a figure or a completed PayMongo one with a `pay_` reference lacking fee or net, and none that is so in the end was passed over; no figure is overwritten, and there is at most one call more than deposits examined |
| SettlementBackfill.FollowedCursorIsExact | apps/api/src/modules/admin/admin.service.ts:2173-2229 | without overlapping runs the deposits examined are exactly these, in order |
| SettlementBackfill.Backfill.Run | apps/api/src/modules/admin/admin.service.ts:2156-2229 | one call keeps both budgets and stops early only at one of them, accounts for every row scanned, examines incomplete rows after the cursor in order and passes over none, writes the provider's answer into exactly the missing figures, and lists exactly the failed and the unchanged rows |
| SettlementBackfill.Backfill.ScanPage | apps/api/src/modules/admin/admin.service.ts:2173-2227 | one turn of the outer loop, its two exits and the cursor it hands on |
| SettlementBackfill.Backfill.ExaminePage | apps/api/src/modules/admin/admin.service.ts:2199-2219 | the inner loop examines a prefix of the page, as long as both budgets allow, and no longer |
| SettlementBackfill.Backfill.WriteMissing | apps/api/src/modules/admin/admin.service.ts:2209-2217 | a figure is written only where it is missing at write time; the counts say whether the row changed |
| SettlementBackfill.PrefixCovers | apps/api/src/modules/admin/admin.service.ts:2220-2227 | after any number of calls all that is left lies below the cursor |
| VisitSessions.RunsAreMaximal | apps/api/src/modules/analytics/visitor-analytics.service.ts:181-214 | every event sequence has a cut into maximal runs with gaps under thirty minutes |
| VisitSessions.MaximalRunsUnique | apps/api/src/modules/analytics/visitor-analytics.service.ts:181-214 | that cut is the only one |
| VisitSessions.VisitTable.IngestBeacon | apps/api/src/modules/analytics/visitor-analytics.service.ts:156-238 | one beacon: dedupe, extend the open visit or start one, record the event |
| VisitTheorems.VisitsAreTheMaximalRuns | apps/api/src/modules/analytics/visitor-analytics.service.ts:181-228 | after any serial run on a clock that never goes back, however a visitor's events are cut into runs with gaps under thirty minutes inside and from thirty minutes between, the visitor's rows are these runs in order: first and last time, number of page views, entry and exit path, source |
| VisitTheorems.OpenVisitIsLast | apps/api/src/modules/analytics/visitor-analytics.service.ts:183-190 | at any later moment a row last seen less than thirty minutes ago is the visitor's last |
| VisitTheorems.RedeliveryChangesNothing | apps/api/src/modules/analytics/visitor-analytics.service.ts:173-178 | a run equals the run of its first deliveries, and exactly those are recorded, as sent |
| VisitTheorems.EventIdsDistinct | apps/api/src/modules/analytics/visitor-analytics.service.ts:229-235 | no event id is recorded twice |
| VisitTheorems.RunRowsMatch | apps/api/src/modules/analytics/visitor-analytics.service.ts:192-228 | every visit row summarises exactly the events that point to it, all of its own visitor |
| VisitRollup.RoutesAddUp | apps/api/src/modules/analytics/visitor-analytics.service.ts:554-560 | page views summed over routes equal the headline if and only if no counted event lost its visit row |
| VisitCounts.RoutesAddUpAfterIngest | apps/api/src/modules/analytics/visitor-analytics.service.ts:512-575 | on rows built by serial ingest the page views of the routes add up to all human page views of the day |
| VisitRollup.RollupIsIdempotent | apps/api/src/modules/analytics/visitor-analytics.service.ts:512-575 | a second rollup changes nothing, whatever the table held for the day |
| VisitRollup.RollupsCommute | apps/api/src/modules/analytics/visitor-analytics.service.ts:499-510 | different days can be rolled up in either order |
| VisitCounts.DailyVisits.RollupOneDay | apps/api/src/modules/analytics/visitor-analytics.service.ts:512-575 | rows of other days are unchanged; of the day there is a row for exactly the countries, referrers, devices and paths that occur, each with the visits, page views, bounces and visitors counted from the raw rows of that value, absent countries and referrers under their labels; and the breakdowns add up, routes exactly when no counted page view lost its visit row |
| VisitCounts.RebuiltMatches | apps/api/src/modules/analytics/visitor-analytics.service.ts:530-560 | the table a rollup computes counts every row of its day from the raw rows, and visits, bounces and page views summed over countries, referrers or devices are those of all human visits |
| VisitCounts.DailyVisits.RollupDailyVisits | apps/api/src/modules/analytics/visitor-analytics.service.ts:497-510 | today and the two days before it are counted from the raw rows and no other day is touched |
| VisitRollup.GroupsAddUp | apps/api/src/modules/analytics/visitor-analytics.service.ts:536-560 | the groups of any list share out its total |
| MentionSyntax.KindsNeverOverlap | apps/web/src/lib/render-content.tsx:61-63 | campaign and user mentions never overlap in any text |
| MentionScanner.MatchAtExact | apps/web/src/lib/render-content.tsx:61-66 | the pattern matches at a position exactly when a mention stands there |
| MentionTheorems.PatternIsExact | apps/web/src/lib/render-content.tsx:61-63 | a pattern matches at a position exactly the mention typed there: `![name](campaign:id)` or `@[name](user:id)` with a name without closing bracket and an id of letters, digits and hyphens |
| MentionTheorems.ScanFindsAll | apps/web/src/lib/render-content.tsx:17-66 | a pass reports mentions where they are typed, without overlap, and misses none: every mention typed in the text is reported or starts inside a reported one |
| MentionScanner.ParseCampaignMentions | apps/web/src/lib/render-content.tsx:12-28 | the loop returns all campaign mentions, leftmost first |
| MentionScanner.ParseUserMentions | apps/web/src/lib/render-content.tsx:31-48 | the loop returns all user mentions, leftmost first |
| MentionScanner.RenderContentWithMentions | apps/web/src/lib/render-content.tsx:51-121 | the combined loop yields the text cut at all mentions |
| MentionTheorems.CombinedIsMerge | apps/web/src/lib/render-content.tsx:61-66 | for every text the combined pass finds the position-ordered merge of the two parsers |
| MentionTheorems.PiecesPrintBack | apps/web/src/lib/render-content.tsx:66-121 | text pieces and matched substrings concatenate back to the text |
| MentionTheorems.PrintedPiecesReadBack | apps/web/src/components/mention-textarea.tsx:145-171 | printing canonical pieces and scanning the text returns the same pieces |
| MentionTheorems.InsertedMentionReadsBack | apps/web/src/components/mention-textarea.tsx:139-172 | a picked suggestion is rendered as that mention with the pieces around it unchanged, if and only if its name is not empty and has no closing bracket and its id is not empty and has only letters, digits and hyphens |
| MentionTheorems.RenderedLinksValid | apps/web/src/lib/render-content.tsx:61-66 | whatever the text, only well-formed mentions are rendered |
| TipWindow.BudgetSeesWholeHistory | apps/api/src/modules/channels/channels.service.ts:633-672 | after any serial run the pruned, expiring set gives a quarter of the balance less everything recorded in the last 48 hours, or nothing |
| TipWindow.AcceptedIff | apps/api/src/modules/channels/channels.service.ts:504-517 | after any serial run an amount is accepted if and only if the wallet covers it and the last 48 hours, this amount included, stay within a quarter of the balance |
| TipWindow.SpendingAddsUp | apps/api/src/modules/channels/channels.service.ts:555-565 | final balance, tips and rains recorded in a run, and credits spent otherwise add up to the starting balance |
| TipWindow.WindowStaysWithinQuarter | apps/api/src/modules/channels/channels.service.ts:504-517 | tips and rains of any 48 hours come to at most a quarter of the balance before any one of them, the first included |
| TipWindow.ClosedWindowExceeds | apps/api/src/modules/channels/channels.service.ts:650-655 | two tips exactly 48 hours apart may exceed the quarter |
| TipWindow.PruneFaithful | apps/api/src/modules/channels/channels.service.ts:649-655 | pruning keeps set and history equal on the window, whether or not the key has expired |
| TipWindow.TipBudget.GetTipBudget | apps/api/src/modules/channels/channels.service.ts:633-664 | prune, range and accumulating loop compute the specified budget |
| TipWindow.TipBudget.Spend | apps/api/src/modules/channels/channels.service.ts:500-581 | an accepted tip leaves the wallet by its amount and is recorded once, a refused one changes neither; it makes one step of the run |
| Rain.Wallets.Distribute | apps/api/src/modules/channels/channels.service.ts:759-776 | the transaction commits if and only if the sender's wallet covers the total and every recipient has one; then each has exactly their share, the sum of all balances is unchanged, and an abort leaves no trace |
| Rain.SharesAddUp | apps/api/src/modules/channels/channels.service.ts:743-762 | shares sum to the total and each is at least the even share, which is at least one |
| Rain.Wallets.HandleRain | apps/api/src/modules/channels/channels.service.ts:682-776 | exactly when a rain is accepted and what it then did, exactly which refusal it gets otherwise, and that a refused one did nothing |
| RateLimit.WindowAcceptsAtMostLimit | apps/api/src/common/guards/user-rate-limit.guard.ts:46-70 | in any interleaving of commands a window accepts at most the limit, and with one limit exactly its first `limit` calls |
| RateLimit.EndNeverMoves | apps/api/src/database/redis.service.ts:74-81 | once set, the end of a window is never moved by blocked calls or other roles |
| RateLimit.WindowsAreDisjoint | apps/api/src/database/redis.service.ts:67-81 | every call of a window comes before its end, every call of a later one at or after it |
| RateLimit.RetryAfterIsExact | apps/api/src/modules/channels/channels.service.ts:612-623 | a lone call starts a new window if and only if it comes at least `retryAfter` seconds later |
| RateLimit.Limiter.CanActivate | apps/api/src/common/guards/user-rate-limit.guard.ts:46-70 | administrators are exempt; any other call opens a window, half as long for moderators, or counts in the open one, whose end stays; it goes through within the limit and is otherwise told the seconds left |
| RateLimit.RedisService.IncrWithExpiry | apps/api/src/database/redis.service.ts:74-81 | the pipeline counts the call and sets an expiry only where there is none |
| RateLimit.EffectiveTtl | apps/api/src/common/guards/user-rate-limit.guard.ts:57-58 | moderators get half the window, rounded up |
| SuppressionTheorems.OwnersAreLiveMembers | apps/web/src/components/onboarding-tour.tsx:71-146 | in every interleaving of passes an element is owned by a live pass exactly when it is among its members and marked with it; no record of a dead pass survives |
| SuppressionTheorems.AllReleasedRestores | apps/web/src/components/onboarding-tour.tsx:79-88 | once all passes are released nothing of the tour is left and every element the application did not write while owned has its tabindex back |
| SuppressionTheorems.WriteSurvivesRelease | apps/web/src/components/onboarding-tour.tsx:79-88 | exactly when a release leaves an element with what the application last wrote |
| SuppressionTheorems.NothingToAdopt | apps/web/src/components/onboarding-tour.tsx:90-112 | records of dead passes do not exist, so none is adopted |
| SuppressionTheorems.ReconcileHides | apps/web/src/components/onboarding-tour.tsx:117-137 | after a reconcile every listed element but the kept one is out of the tab order, hidden by this pass or owned by another live one |
| SuppressionTheorems.ReconcileIsExact | apps/web/src/components/onboarding-tour.tsx:117-137 | on every reachable page, what a reconcile does to each element: what it lets go of and with which tabindex, what it keeps, what it takes and with which original, and that everything else is as it was |
| SuppressionTheorems.ReleaseIsExact | apps/web/src/components/onboarding-tour.tsx:138-144 | a release gives back the tabindex of every owned element that is still hidden, leaves one written meanwhile, touches nothing else, and does nothing the second time |
| TabindexTexts.TextsAreNumbers | apps/web/src/components/onboarding-tour.tsx:62-69 | the tabindex pattern and the parse agree with the number in decimal that the text spells out |
| SuppressionPasses.TourPasses.ReconcileAll | apps/web/src/components/onboarding-tour.tsx:117-137 | both phases of a reconcile compute the specified state |
| SuppressionPasses.TourPasses.ReleaseAll | apps/web/src/components/onboarding-tour.tsx:138-144 | the release loop restores every member and nothing else |
| SuppressionPasses.TourPasses.SuppressElement | apps/web/src/components/onboarding-tour.tsx:90-112 | all branches of suppressing one element |
| SuppressionPasses.DropOneMore | apps/web/src/components/onboarding-tour.tsx:119-129 | dropping stale members one by one does not depend on the order |
| TourSteps.StepsConnect | apps/web/src/store/tour.store.ts:28-127 | each of the ten steps is shown on the route the one before it leads to |
| TourSteps.StoreStaysInBounds | apps/web/src/store/tour.store.ts:141-232 | active means below the length, completed means at it, and a reload reads what is in memory, after every run if and only if no stored text reads as a state out of bounds |
| TourSteps.FreshUserIsSound | apps/web/src/store/tour.store.ts:187-232 | so always for fresh users |
| TourSteps.WrittenReadsBack | apps/web/src/store/tour.store.ts:141-170 | every written state is read back unchanged and other users' states are kept |
| TourSteps.ReadIsExact | apps/web/src/store/tour.store.ts:141-162 | a stored text reads as a state if and only if it is what this version writes for this user, with a step from zero to the number of steps |
| TourSteps.AdvancesUseClicks | apps/web/src/components/onboarding-tour.tsx:153-197 | each advance by navigation moves exactly one step and uses up its own accepted click on that step's target, at most five seconds old; advances never outnumber clicks |
| TourSteps.EveryMoveIsLogged | apps/web/src/components/onboarding-tour.tsx:549-558 | on every reachable state a render's effect that moves the store is logged as an advance of one step for the last accepted click, which nothing had used before |
| TourStore.UserTourStore.Next | apps/web/src/store/tour.store.ts:211-217 | the step moves by exactly one if and only if the tour is active on the expected step, so a repeated call does nothing; a reload reads the new state, other users' texts are kept, and the store stays in bounds |
| TourStore.NavMachine.TryConsume | apps/web/src/components/onboarding-tour.tsx:180-191 | it succeeds if and only if the intent is pending for this step, on its expected route, at most five seconds old, and gives up an older one; afterwards no second call for it can succeed, and intents consumed plus one pending never outnumber accepted clicks |
| TourStore.OnboardingTour.OnRoute | apps/web/src/components/onboarding-tour.tsx:549-558 | the component's effect moves the store only for a click nothing had used, by exactly one step; it gives up a late intent and one on a route that is neither the step's own nor its expected one, and no other; store and log stay sound |
| TourStore.OnboardingTour.Handle | apps/web/src/components/onboarding-tour.tsx:535-558 | every event keeps the store in bounds and advances no more than clicks |
| CsvExport.ExportReadsBack | apps/api/src/modules/admin/admin.service.ts:1680-1693 | reading an export gives back headers and every text, whatever commas, quotes and line feeds the cells hold, if and only if there is a column and no column name needs quotes |
| CsvExport.ExportIsInjective | apps/api/src/modules/admin/admin.service.ts:1688-1693 | two exports with the same headers are equal if and only if they show the same texts |
| CsvExport.FieldReadsBack | apps/api/src/modules/admin/admin.service.ts:1680-1686 | an escaped field is read back up to its separator |
| CsvExport.EscapeIsExact | apps/api/src/modules/admin/admin.service.ts:1680-1686 | a cell is printed as nothing when null, as it is when it has no comma, quote or line feed, and otherwise as the one quoted field that reads as its text |

## Left out

- UpdateIsSafeIff: campaigns whose slots, price or funding are edited afterwards are not covered by the payout bound; the refund bound covers them.
- WrittenReadsBack: a stored text is modelled as the fields it parses to; the JSON encoding itself is not part of this model.
- ExportReadsBack: a cell is the text `String(value)` gives; the conversion of numbers, dates and objects is not part of this model.
- WindowStaysWithinQuarter: sequential runs without incoming credits; the race between checking and recording a budget is not bounded by the code.
- RetryAfterIsExact: the store's clock counts whole seconds; rounding of remaining milliseconds inside the store is not part of this model.
- SweepExpired: the sweep runs alone; sweeps that interleave with other requests are covered by the history theorems, which bound no progress.
- WindowAcceptsAtMostLimit: a command that fails inside the pipeline makes the code read a count of zero and let the call through; commands do not fail here.
- Notifications, socket events, e-mail, audit text, experience points, achievements and cache invalidation.
- Platform toggles, trust and VIP gates, shared-IP checks, passwords and DTO validation: a request they refuse is a request that is not in the run.
- Wallet internals: a wallet is a balance and a ledger; 32-bit overflow and optimistic-lock exhaustion abort a transaction like an insufficient balance does, and no property depends on when they do.
- IN_PROGRESS claims exist as a status the guards accept, but no modelled request writes it.
- Deleting users, whose wallets and rows vanish with them, and retention purges.
- The fee tiers and discounts of `getFeeConfig`, and floating-point rounding: rates are real numbers.
- Deposits without a completion time, the base64 text of the cursor, and changes of a deposit between the provider's answer and each single write; overlapping runs fill figures before a row's answer arrives.
- The settlement summary, pagination listings and dashboards.
- Event times: an event carries the time its visit was updated with; the database default of `created_at` and overlapping ingest transactions are not modelled.
- `normalizeVisitorPath`, referrer, device and bot classification: their results are inputs.
- The member text of a tip entry and a collision of its random part; negative clock readings.
- Random choice of rain recipients: any order of distinct active members; the `/rain` pattern.
- DOM structure: an element is a number with a tabindex, a mark and two flags, and the focusable elements of the tour's scopes are an input of each reconcile.
- Rendering, focus, scrolling and positioning of the tour, and stored texts that another tab or a full disk changes.
