# Insurance settlement: a verified model

This project models the settlement protocol of a motor-insurance marketplace and the pieces of code around it, and
proves what the code promises about them. `dafny verify dfyconfig.toml` checks everything.

**The protocol.** A buyer app (BAP), an insurer (BPP) and a payment service (ION) exchange init, confirm,
payment-received, reconcile and cancel messages and their `on_` callbacks. Every handler runs on its own and is a
sequence of database statements, so a decision is made on a row read earlier than the row written. `BppSteps` and
`BapSteps` give each handler as small steps, one statement or one sent message per step; `BecknService` and
`ClientService` give the handlers as methods that update tables in place, each proved equal to its step sequence run
alone. `SeamRun` closes the system: the network keeps every message ever sent and delivers any of them at any time
(loss, duplication and reordering), any statement may fail, handlers interleave freely, and the frontend and the payment
notifications are arbitrary. The price of an insured value is a parameter of the steps; the tariff of the repository,
`Premium.QuoteTotal`, is one instance, and by `Premium.TariffTable` the handlers' fixed product and zone are always
priced. All results about runs hold for every run of that system.

| file | content |
|---|---|
| Float64, Premium, PremiumExact, SplitRounding | binary64 rounding on the reals, the tariff premium, its error and where it is exact, the rounded settlement split |
| Calendar, PolicyNumber | the one-year coverage period, the policy number text |
| Wrappers, SeamTypes, PolicyReports | optional values, rows, messages, the reported stage and the dashboard counts |
| BppSteps, BecknService, BapSteps, ClientService | the handlers, as steps and as written |
| BppEffects, BapEffects | what each handler leaves behind when nothing interferes, field by field |
| SeamRun | the closed system and its runs |
| SeamSafety, SeamTable, SeamDashboard, SeamLedger, SeamAmounts, SeamHistory, SeamStages, SeamNumbers, SeamReach | the results over all runs |
| CallbackNames, CallbackBridge, CallbackDelivery, CallbackAccounts, CallbackManager | the bridge from callbacks to blocked callers over Redis |
| SetNested, PublishWizard | the copying deep update and the publish wizard |
| SanitizeLocations | cleaning stored locations |
| TokenCache | the B2B token cache |

**Where the code does not keep an expectation, the model follows the code.** A run shows the failure, and the exact
condition is proved:

| expectation | it fails in | it holds exactly when |
|---|---|---|
| SETTLED at the buyer app means settled at the insurer | `SeamReach.SettledOnOneSideOnly` | a marking statement (bpp-application/internal/service/beckn.go:636) succeeded: `SeamSafety.SettlementSafety` |
| the reported stage never drops | `SeamReach.StageDropRun` | no init takes effect on an issued policy (bpp-application/internal/service/beckn.go:283): `SeamStages.StageDropsExactly` |
| a cancelled policy is not issued | `SeamReach.CancelledIssuedRun` | no issue statement runs on it, which in every run needs it paid: `SeamReach.IssuedExactly` |
| policy numbers are 1..n | `SeamReach.OverlappingConfirmsRun`, `SeamReach.FailedCountRun`, `SeamReach.ReopenedRun` | every issue statement still carries the number that is due: `SeamNumbers.NumberedExactly` |
| all amounts of a transaction agree | `SeamReach.FallbackRun` | every read of the snapshots finds an on_init, or the quote is 500,000 anyway: `SeamAmounts.AmountsAgreeExactly` |
| an invoice is released once | `SeamReach.ReleasedAgain` | one reconcile message was delivered; the count is in `SeamLedger.ReleasesExactly` |
| a published callback is returned by its caller | `CallbackBridge.EarlyCallbackLost` | it is the first on the channel between subscription and deadline: `CallbackDelivery.DeliveredExactly` |
| a caller returns the first callback of its window | `CallbackDelivery.TimeoutWithMessage` | the step that ends it receives in time or gives up with none waiting: `CallbackDelivery.ExactDelivery` |
| a key belongs to one route | `CallbackNames.HashInRouteCollides` | neither route continues the other after a '#': `CallbackNames.RoutesCollideExactly` |
| a registration is used at most once | `CallbackBridge.OverlapAcceptsTwice` | no publisher is accepted while another accepted for the same registration is still before its delete: `CallbackAccounts.UsedOnceExactly` |
| committed ids stay distinct | `PublishWizard.PaddedIdTwice` | the id is trimmed or the draft refused: `PublishWizard.CommitSafeIffTrimmed` |
| a commit reaches the entry being edited | `PublishWizard.StaleEdit` | no entry at or before it was removed meanwhile: `PublishWizard.EditHitsItsEntry` |
| a resource carries its own provider | `PublishWizard.RemovedProviderReplaced` | that provider still exists: `PublishWizard.ResourceKeepsOwnProvider` |
| sanitising does not depend on map order | `SanitizeLocationsModule.CityAndLocality` | a legacy field and its target, when both occur, carry the same value: `SanitizeLocationsModule.OrderIrrelevantIff` |
| the premium is the floor of the exact one | `Premium.SampleAmount` | not at the rate 2.53 to 3.08, or the insured value is no multiple j * 20000, or a power of two lies between 51200 j and 56100 j: `PremiumExact.TariffExactly` |
| the shown shares sum to the premium | `SplitRounding.DefaultSplitCanMiss` | for 97/2/1: the last two digits are not 17 to 24, 50, or 75 to 83: `SplitRounding.DisplayedDefaultSplit`; for any whole split: `SplitRounding.DisplayedSplitExactly` |

The comment at bap-application/internal/service/callback.go:41-43 says that Register makes the subscriber ready. The
subscription happens only in Wait, after the request was forwarded.

History variables (`lostSettles`, `history`, `keyDeleted`, `registered`, `accepted`) record what happened; no step reads
them to decide anything.

## Model

| member | source | states |
|---|---|---|
| SeamSafety.SettlementSafety | bap-application/internal/service/client.go:560-571 | In every run, a transaction ever recorded SETTLED is paid and issued with a policy number at the insurer, and it is settled there if and only if a marking statement for it succeeded |
| SeamSafety.SettledIffMarked | bpp-application/internal/service/beckn.go:636 | In every run, a policy is settled if and only if a marking statement for it succeeded, whatever happened before and after |
| SeamSafety.SettlementSafetyWithoutFaults | bpp-application/internal/service/beckn.go:636 | As long as no marking statement for the transaction fails, whatever else does, SETTLED at the buyer app means settled, paid and numbered at the insurer |
| SeamSafety.SettledRowSafety | bap-application/internal/service/client.go:120-130 | The same equivalence for every row that shows SETTLED now, since the shown status is always one that was written |
| SeamSafety.NoIssueWithoutPayment | bpp-application/internal/service/beckn.go:385-432 | In every interleaving of statements, an ACTIVE policy is paid, numbered, and covered for one year |
| SeamSafety.BppStepOk | bpp-application/internal/service/beckn.go:371-441 | Each statement of each insurer handler keeps the row invariant and what the other handlers remember, although rows were read earlier |
| SeamSafety.GrowsKeeps | bpp-application/internal/http/handlers.go:338 | What a handler on its own goroutine or a message in flight relies on survives every step of the others, because it only rests on facts that grow |
| SeamLedger.NoReleaseWithoutIssue | bpp-application/internal/service/beckn.go:622-627 | In every run, funds are only asked to be released for the invoice of a policy that is paid and issued |
| SeamLedger.PaymentsBelong | bpp-application/internal/service/beckn.go:533-536 | In every run, each payment row belongs to exactly one policy, whose invoice it names and which is paid |
| SeamTable.RowIsHistory | bpp-application/internal/service/beckn.go:235-655 | After every run status, request id, insured value and flags of a policy row are functions of the statements that took effect: the status is that of the last init, issue or cancel, the request id that of the last notification that carried one, the insured value that of the first init, paid and settled whether such a statement ever succeeded |
| SeamTable.HandlerKeepsId | bpp-application/internal/service/beckn.go:575-627 | In every run a reconcile handler about to release holds the id it read, whatever was paid since |
| SeamTable.ReleaseCarriesLastId | bpp-application/internal/service/beckn.go:576-627 | In every run each release for the invoice of a transaction was sent by a handler for that transaction and carries the payment request id of the last successful marking with a non-empty id before the read of that handler, or none when the read failed |
| SeamDashboard.CountsAreHistory | bpp-application/internal/service/beckn.go:993-1006 | After every run each dashboard count is the number of transactions with a history: settled those ever marked, payment-received those ever marked paid, active those issued and not reopened, reconcile-pending the active ones never marked, payment-pending the pending ones never paid |
| SeamDashboard.MarkMovesOne | bpp-application/internal/service/beckn.go:636 | In any state, marking an ACTIVE unsettled policy moves exactly one from reconcile-pending to settled and leaves the other counts |
| SeamDashboard.IssueRaisesOne | bpp-application/internal/service/beckn.go:429-432 | In any state, issuing an inactive, unsettled, paid policy raises active and reconcile-pending by one and nothing else |
| SeamDashboard.PaymentMovesOne | bpp-application/internal/service/beckn.go:517-526 | In any state, the first payment marked for a pending policy moves one from payment-pending to payment-received and nothing else |
| SeamDashboard.CancelLowersOne | bpp-application/internal/service/beckn.go:781-784 | In any state, cancelling an unpaid pending policy lowers payment-pending by one and nothing else |
| SeamDashboard.InitRaisesOne | bpp-application/internal/service/beckn.go:280-286 | In any state, the init of a new transaction raises all and payment-pending by one and nothing else |
| SeamAmounts.AmountsAgreeExactly | bap-application/internal/service/client.go:734-799 | With one insured value per transaction, the on_init total, the stored payment amount, the on_confirm total and every reconcile and released amount are the quote all along a run if and only if every read of the snapshots in it succeeds and finds an on_init, or the quote is 500,000 |
| SeamAmounts.AmountConservation | bap-application/internal/service/client.go:745-747 | Where every such read finds an on_init, all these amounts are the quote at the end of the run, checkout or not, and nothing is stored before a checkout was |
| SeamAmounts.SnapshotExact | bap-application/internal/service/client.go:787-799 | A read of the snapshots gives the quote if and only if it succeeds and finds an on_init, or the quote is 500,000; else it gives 500,000 |
| SeamAmounts.QuoteOrFallback | bpp-application/internal/service/beckn.go:575-627 | In every run with one insured value, whatever fails, every reconcile and every release asks for the quote or for exactly 500,000 |
| SeamAmounts.InitHandledFirstSuffices | bap-application/internal/service/client.go:521-549 | When an on_init was handled before each on_confirm and the reads succeed, every read finds an on_init |
| SeamAmounts.ReleasedAtLeastFees | bpp-application/internal/service/beckn.go:575-579 | With the repository's tariff no release is ever below the fixed fees, and it is the quoted total where every read finds an on_init |
| SeamHistory.SettledAfterReconcilingAfterConfirmed | bap-application/internal/service/client.go:560-571 | With the buyer app's writes succeeding, each SETTLED write comes after a RECONCILING write, which comes after a CONFIRMED write for the same transaction |
| SeamHistory.ActionFixed | bap-application/internal/service/client.go:120-130 | No step removes a transaction row or changes its action |
| SeamHistory.ActionFixedAlong | bap-application/internal/service/client.go:121-124 | The action of a row stays the first one over every continuation of a run |
| SeamStages.StageMeaning | bpp-application/internal/service/beckn.go:699-706 | In every reachable table the stage is 1 if and only if the policy is unpaid, 2 if paid and not ACTIVE, 3 if ACTIVE and not settled, 5 if ACTIVE and settled |
| SeamStages.StageDropsExactly | bpp-application/internal/service/beckn.go:699-706 | After any run, a step lowers a reported stage if and only if it is the init statement on an ACTIVE policy |
| SeamStages.StageMonotone | bpp-application/internal/service/beckn.go:699-706 | Where no init hits an issued policy, no continuation of a run lowers a stage |
| SeamStages.DashboardPartition | bpp-application/internal/service/beckn.go:993-1006 | In every reachable table all = pending + received + unpaid cancelled, active <= received <= all, and active = reconcile-pending + settled if and only if no settled policy has left ACTIVE |
| SeamStages.DashboardConservation | bpp-application/internal/service/beckn.go:993-1006 | Where no init hits an issued policy, active = reconcile-pending + settled and settled <= active <= received <= all |
| SeamNumbers.NumberedExactly | bpp-application/internal/service/beckn.go:420-432 | In every run the issued policies carry exactly 1..n all along if and only if every issue statement writes the number due when it runs: the next one for a new policy, its own for one already issued |
| SeamNumbers.PolicyNumbersExact | bpp-application/internal/service/beckn.go:420-432 | Then the n issued policies use exactly the numbers 1..n and all their texts differ, across years too |
| SeamNumbers.CountChoosesDue | bpp-application/internal/service/beckn.go:421 | While issued policies stay ACTIVE, the count query chooses the number due if and only if it succeeds or nothing was issued yet; its error is ignored |
| SeamNumbers.SerialIsFresh | bpp-application/internal/service/beckn.go:420-432 | Confirms one at a time, with succeeding count queries and no init on an issued policy, always write the number due |
| SeamNumbers.IssueExtends | bpp-application/internal/service/beckn.go:420-432 | An issue statement keeps the numbers 1..n exact if and only if the number it writes is the one due |
| SeamReach.SettlementReachable | bpp-application/internal/service/beckn.go:559-655 | From every reachable state with a policy row, whatever happened to it, the protocol can still be driven until the buyer app's row shows SETTLED |
| SeamReach.SettledOnOneSideOnly | bpp-application/internal/service/beckn.go:636 | A run in which the buyer app's row shows SETTLED and the insurer's row is not settled |
| SeamReach.CancelledCanBeIssued | bpp-application/internal/service/beckn.go:385-432 | Every reachable paid CANCELLED policy can become ACTIVE by a confirm |
| SeamReach.IssuedExactly | bpp-application/internal/service/beckn.go:385-432 | In every run a policy becomes ACTIVE if and only if an issue statement succeeds on its inactive row, and then it is paid, cancelled or not |
| SeamReach.CancelledIssuedRun | bpp-application/internal/service/beckn.go:385-432 | A run that pays, cancels and then issues a policy |
| SeamReach.OverlappingConfirmsCollide | bpp-application/internal/service/beckn.go:420-432 | Any two paid inactive policies can end with the same policy number when their confirms overlap |
| SeamReach.OverlappingConfirmsRun | bpp-application/internal/service/beckn.go:420-432 | A run from the start in which two overlapping confirms give the same number |
| SeamReach.FailedCountRun | bpp-application/internal/service/beckn.go:421 | A run with confirms one after the other, in which a failed count query gives the same number twice |
| SeamReach.ReopenedRun | bpp-application/internal/service/beckn.go:283 | A run in which an init on an issued policy makes the next policy repeat its number |
| SeamReach.StageDropRun | bpp-application/internal/service/beckn.go:283 | A run in which an init lowers the reported stage from 3 to 2 |
| SeamReach.FallbackReleased | bap-application/internal/service/client.go:737-747 | Every issued confirmation can lead to a release of 500,000: because no amount was stored and no on_init found, or, if one was, because the reads fail |
| SeamReach.FallbackRun | bap-application/internal/service/client.go:793-795 | A run from the start without a failing statement in which 500,000 is released, whatever the quote |
| SeamReach.ReleasedAgain | bpp-application/internal/service/beckn.go:622-628 | An issued confirmation can lead to any number of further releases of its invoice |
| SeamLedger.ReleasesExactly | bpp-application/internal/service/beckn.go:622-628 | In every run the releases for an invoice, plus the reconcile handlers still before their request, are exactly the delivered reconcile messages |
| SeamLedger.PaymentTouchesOneRow | bpp-application/internal/service/beckn.go:500-537 | In any state and interleaving, a step of a payment handler for t sends nothing, changes only row t, there only the payment fields, and never unmarks a payment |
| BppSteps.NotifiedExactly | bpp-application/internal/service/beckn.go:501-504 | A notification starts work on t if and only if it names the invoice ins-t |
| BppSteps.StepTouchesOwnRow | bpp-application/internal/service/beckn.go:280-636 | Every statement leaves the rows of other transactions as they are, and no row is ever removed |
| BppSteps.NotificationAlone | bpp-application/internal/service/beckn.go:500-537 | The same of a whole undisturbed notification |
| BecknServiceModule.BecknService.HandleInit | bpp-application/internal/service/beckn.go:235-338 | The handler's effect on the tables and messages is that of its statement sequence |
| BecknServiceModule.BecknService.HandleConfirm | bpp-application/internal/service/beckn.go:341-495 | The same for confirm |
| BecknServiceModule.BecknService.HandlePaymentReceived | bpp-application/internal/service/beckn.go:500-537 | The same for a payment notification; after a handled one the row is paid and holds the given request id when it is non-empty and its old id otherwise |
| BecknServiceModule.BecknService.HandleReconcile | bpp-application/internal/service/beckn.go:559-655 | The same for reconcile |
| BecknServiceModule.BecknService.HandleCancel | bpp-application/internal/service/beckn.go:776-813 | The same for cancel |
| BecknServiceModule.BecknService.GetPaymentStatus | bpp-application/internal/service/beckn.go:686-717 | For a sound row the answer says exactly whether the policy is unpaid, paid and waiting, issued and unsettled, or issued and settled; 0 says there is none |
| BecknServiceModule.BecknService.GetDashboardStats | bpp-application/internal/service/beckn.go:988-1022 | For sound rows the counts add up: all = pending + received + unpaid cancelled, active <= received <= all, settled <= received, and active plus settled inactive = reconcile-pending + settled |
| BecknServiceModule.ConfirmCompletes | bpp-application/internal/service/beckn.go:369-442 | An undisturbed confirm ignores unknown policies, repeats the stored number of an ACTIVE one, rejects an unpaid one and issues a paid one with the next number |
| BecknServiceModule.PaymentCompletes | bpp-application/internal/service/beckn.go:500-537 | An undisturbed notification ignores unknown and ACTIVE policies and otherwise marks the row paid and records one payment |
| BecknServiceModule.ReconcileCompletes | bpp-application/internal/service/beckn.go:575-655 | An undisturbed reconcile always answers, requests one release of the named amount or the quote, and settles the row if the marking succeeds |
| BppEffects.InitEffect | bpp-application/internal/service/beckn.go:235-338 | An init with an identity number that is not sixteen digits does nothing; else it is answered with the quote, a new policy has every field from the message, and an existing one only becomes pending again |
| BppEffects.PaymentEffect | bpp-application/internal/service/beckn.go:512-536 | A handled notification leaves the row paid with the given request id when there is one and its old id otherwise, and records the notified amount under the policy id and invoice; nothing else changes |
| BppEffects.PaymentIgnored | bpp-application/internal/service/beckn.go:501-514 | A malformed invoice, an unknown or ACTIVE policy, or a failing read or mark leave everything as it was |
| BppEffects.ConfirmWithoutIssue | bpp-application/internal/service/beckn.go:374-400 | An unknown policy is ignored, an ACTIVE one answered with what is stored, an unpaid one rejected, and no table changes |
| BppEffects.ConfirmIssues | bpp-application/internal/service/beckn.go:420-441 | A paid, inactive policy becomes ACTIVE with the local year and one more than the number of ACTIVE rows, or 1 when the count fails, covered from now for a year; the paid amount is recorded and the answer carries all of it |
| BppEffects.ConfirmFails | bpp-application/internal/service/beckn.go:374-435 | When the row cannot be read or the issue statement fails, nothing changes and nothing is answered |
| BppEffects.ReconcileEffect | bpp-application/internal/service/beckn.go:559-655 | One release for the named invoice, or the own one when none is named, with the stored request id and the named amount, or the quote when it is 0; without its row no id and exactly the named amount; the row is settled if and only if the marking succeeds, and the answer is sent in any case |
| BppEffects.CancelEffect | bpp-application/internal/service/beckn.go:776-813 | Exactly a pending policy becomes CANCELLED, and the answer is always sent |
| ClientServiceModule.ClientService.HandleCallback | bap-application/internal/service/client.go:513-583 | The method's effect on rows, snapshots and started goroutines is that of its statement sequence |
| ClientServiceModule.ClientService.EnrichOnInit | bap-application/internal/service/client.go:521-542 | The checkout part of on_init leaves the row that the callback results assume, whatever failed; when nothing failed and a checkout exists, the row holds the answered id if there is one and, for a page of at most 50 characters, invoice, page and total |
| ClientServiceModule.ClientService.Forward | bap-application/internal/service/client.go:247-296 | A frontend request records its status and sends its message, as its steps do |
| ClientServiceModule.ClientService.GetPaymentAmountFromSnapshot | bap-application/internal/service/client.go:787-799 | The amount is the total of the latest on_init snapshot of the transaction, or 500,000 when there is none or the read fails |
| ClientServiceModule.ClientService.SendReconcile | bap-application/internal/service/client.go:734-770 | The goroutine's effect is that of its statement sequence |
| ClientServiceModule.CallbackCompletes | bap-application/internal/service/client.go:513-583 | An undisturbed callback keeps its snapshot, writes the status of its kind, starts a reconcile only for an issued confirmation, and sends nothing |
| ClientServiceModule.ReconcileCompletes | bap-application/internal/service/client.go:734-770 | An undisturbed reconcile sends exactly one message, with the stored invoice and amount or their fallbacks |
| BapEffects.ForwardEffect | bap-application/internal/service/client.go:247-296 | A frontend request sends exactly what the user gave, and records its status in a row that otherwise keeps every field; a failing record does not stop the message |
| BapEffects.CheckoutEffect | bap-application/internal/service/client.go:521-542 | After an on_init whose checkout was created the row holds the answered payment request id when there is one and, for a page of at most 50 characters, the transaction's invoice, the page and the on_init total; every other field is as before, and each failing statement leaves out its own part only |
| BapEffects.CheckoutCreates | bap-application/internal/service/client.go:521-542 | For a transaction without a row the same callback creates it, with all of these |
| BapEffects.OnInitFrame | bap-application/internal/service/client.go:513-559 | An on_init adds its snapshot, touches no other row, and sends and starts nothing |
| BapEffects.NoCheckoutEffect | bap-application/internal/service/client.go:521-542 | Without a checkout, or for a total that is not positive, only the status changes |
| BapEffects.CallbackEffect | bap-application/internal/service/client.go:554-574 | The other callbacks write a snapshot and the status of their kind, each when its statement succeeds; a rejected confirm changes no row, and exactly an issued one starts a reconcile, whatever fails |
| BapEffects.CallbackCreates | bap-application/internal/service/client.go:120-143 | Without a row the snapshot is refused and the status write creates the row with the action of its kind |
| BapEffects.CallbackUnnamed | bap-application/internal/service/client.go:513-574 | A callback without a transaction id leaves every other row and the snapshots alone |
| BapEffects.ReconcileEffect | bap-application/internal/service/client.go:734-770 | With a stored amount the reconcile carries the stored invoice and amount, and leaves the row RECONCILING when that write succeeds |
| BapEffects.ReconcileReadsBack | bap-application/internal/service/client.go:745-747 | Without one, or when the row cannot be read, it carries the total of the last on_init snapshot of the transaction, or 500,000 when there is none or the read fails |
| BapEffects.LatestIsLast | bap-application/internal/service/client.go:789-792 | The latest total is that of the last on_init of the transaction whatever earlier ones said, and missing exactly when there is none |
| SeamTypes.InvoiceInjective | bpp-application/internal/service/beckn.go:285 | An invoice number determines its transaction |
| Premium.PremiumWithinOneRupiah | bpp-application/internal/service/premium.go:47-66 | For every product, zone and insured value from 0 to 2^53, and every faithful rounding, the truncated base premium is within one rupiah of the floor of the exact one, and the total is base + 160,000 |
| Premium.RoundedPremiumError | bpp-application/internal/service/premium.go:56-57 | The five roundings together move the premium by less than one rupiah before truncation |
| Premium.PremiumMonotone | bpp-application/internal/service/premium.go:47-66 | A larger insured value never costs less, for every monotone rounding |
| Premium.TariffTable | bpp-application/internal/service/premium.go:8-30 | Exactly the three products in the five zones are priced, and all rates are positive and at most 4.2 percent |
| Premium.QuotePositive | bpp-application/internal/service/premium.go:32-35 | What the handlers quote for a non-negative insured value is at least 160,000, so never the zero that reconcile treats as missing |
| PremiumExact.TariffExactly | bpp-application/internal/service/premium.go:47-66 | In binary64, for every product and zone and every insured value up to 10^12 rupiah, the base premium is the floor of the exact one, except that it is one less exactly at the rate 2.53 to 3.08 for multiples j * 20000 with no power of two between 51200 j and 56100 j |
| PremiumExact.PremiumExactly | bpp-application/internal/service/premium.go:56-57 | For every faithful rounding, rate of two decimals and value up to 10^12 the premium is never above the floor of the exact one, and it is one below it exactly where the exact premium is an integer and the quotient before truncation stays below that integer |
| PremiumExact.HighMidNeverMisses | bpp-application/internal/service/premium.go:56-57 | A rate whose rounded midpoint is not below the exact one never misses the floor, for every faithful monotone rounding |
| PremiumExact.QuoteExactly | bpp-application/internal/service/beckn.go:269 | What the handlers quote, exactly, for every insured value up to 10^12 |
| Premium.SampleAmount | ion-service/main.go:120 | An input that misses: in binary64 an insured value of 210 million costs 6,050,499 although the exact base premium is 5,890,500 |
| PremiumExact.BreakdownExactly | bpp-application/internal/service/premium.go:8-66 | For each product and zone, the midpoint in two-decimal percentages, the fees of 150,000 and 10,000, and the total in integer arithmetic for every insured value up to 10^12 |
| Float64.RoundIsFaithful | bpp-application/internal/service/premium.go:56-57 | Round-to-nearest-even has relative error at most 2^-53, keeps integers up to 2^53, and is monotone (section 4.3.1 of IEEE 754-2019), so the premium results apply to it |
| SplitRounding.SplitBound | bap-frontend/src/pages/PolicyFlowPage.jsx:439-444 | In exact arithmetic, for any n percentages that sum to 100 and any integer premium, the shown shares sum to within n/2 of the premium |
| SplitRounding.AnySplitBound | bap-frontend/src/pages/PolicyFlowPage.jsx:439-444 | The same bound in binary64, as the page computes it, for any n non-negative percentages that sum to 100, fractional ones included, and premiums up to 2^50 |
| SplitRounding.AnyTotalError | bap-frontend/src/pages/PolicyFlowPage.jsx:439-444 | For any percentages and premium, the distance of the binary64 total from the exact split |
| SplitRounding.DisplayedSplitExactly | bap-frontend/src/pages/PolicyFlowPage.jsx:444 | For any whole percentages that sum to 100 and premiums up to 2^46, the displayed total is the premium if and only if the remainders of premium * pct + 50 by 100 sum to 50 for each share |
| SplitRounding.DefaultSplitExactly | bap-frontend/src/pages/PolicyFlowPage.jsx:439-444 | For 97/2/1 and every premium, the shares sum to the premium if and only if its last two digits are not 17 to 24, 50, or 75 to 83 |
| SplitRounding.DefaultSplitBound | bap-frontend/src/pages/PolicyFlowPage.jsx:439-444 | For 97/2/1 the shown total is within one rupiah |
| SplitRounding.DefaultSplitCanMiss | bap-frontend/src/pages/PolicyFlowPage.jsx:444 | An input that misses: the shown shares of 17 rupiah sum to 16 |
| SplitRounding.FloatShareExact | bap-frontend/src/pages/PolicyFlowPage.jsx:449 | For whole percentages and premiums up to 2^46 the binary64 share equals the exactly rounded one |
| SplitRounding.DisplayedDefaultSplit | bap-frontend/src/pages/PolicyFlowPage.jsx:444 | The total displayed for 97/2/1 in binary64 is within one rupiah, and it is the premium exactly under that condition on the last two digits |
| Calendar.OneYearLater | bpp-application/internal/service/beckn.go:426-427 | Coverage ends at the same time of day 365 days later, or 366 when a leap day falls in between, 29 February included |
| Calendar.SameDayNextYear | bpp-application/internal/service/beckn.go:426-427 | For every date of the Gregorian calendar, given by its month and day, coverage ends on the same month and day of the next year, and on 1 March after a 29 February |
| Calendar.MonthsTileYear | bpp-application/internal/service/beckn.go:426-427 | Each month ends where the next begins, and December where the next year begins |
| PolicyNumber.TextInjective | bpp-application/internal/service/beckn.go:424 | Two policy number texts are equal only for equal year and sequence number, numbers above 99999 included |
| PolicyNumber.ValueOfPadded | bpp-application/internal/service/beckn.go:424 | Padding does not change the number a text denotes |
| PolicyNumber.TextMeans | bpp-application/internal/service/beckn.go:424 | The text is the prefix, the year, a dash, and the sequence number in at least five digits, with leading zeros only up to five |
| CallbackNames.NamesInjective | bap-application/internal/service/callback.go:33-39 | For routes without '#', a key or a channel belongs to one route and one transaction |
| CallbackNames.RoutesCollideExactly | bap-application/internal/service/callback.go:33-39 | Two different routes share a key for some transactions if and only if one continues the other after a '#' |
| CallbackNames.HashInRouteCollides | bap-application/internal/service/callback.go:33-39 | With '#' in a route two requests share a key |
| CallbackNames.KeyIffChannel | bap-application/internal/service/callback.go:33-39 | Two requests share a key if and only if they share a channel |
| CallbackDelivery.ExactDelivery | bap-application/internal/service/callback.go:62-80 | In every run, whatever the scheduling: a caller returned b if and only if b is the first message on its channel between its subscription and its deadline, and timed out if and only if there is none, exactly when the step that ended it received a message published in time or gave up with none waiting |
| CallbackDelivery.DeliveredExactly | bap-application/internal/service/callback.go:62-80 | For a caller that kept to its window, a published callback is the one returned if and only if it is the first on its channel between subscription and deadline |
| CallbackDelivery.EarlyNeverReturned | bap-application/internal/service/client.go:85-93 | In every run, a callback published before the subscription is never the one returned |
| CallbackDelivery.PromptDelivery | bap-application/internal/service/callback.go:73-79 | A blocked caller that reacts promptly always keeps to its window |
| CallbackDelivery.TimeoutWithMessage | bap-application/internal/service/callback.go:73-79 | A run in which the select picks the timeout although the message came at once |
| CallbackBridge.DeliveredIsOwnFirst | bap-application/internal/service/client.go:80-98 | Whatever the scheduling, a returned body is the first one published after the subscription and was sent for the caller's own route and transaction |
| CallbackBridge.EarlyCallbackLost | bap-application/internal/service/client.go:85-93 | A callback handled between Register and the subscription is lost and the caller times out |
| CallbackBridge.AcceptedExactly | bap-application/internal/service/callback.go:85-97 | In every run a callback is accepted if and only if some caller registered its key less than 35 s ago and no delete hit the key since |
| CallbackBridge.TimelyCallbackAccepted | bap-application/internal/service/callback.go:85-97 | When forwarding took less than 5 s and no delete hit the key since Register, a callback before the deadline is never refused |
| CallbackBridge.KeyDeletedBy | bap-application/internal/service/callback.go:106 | The key counts as deleted exactly from a delete by a publisher of the caller's own key after its Register |
| CallbackAccounts.UsedOnceExactly | bap-application/internal/service/callback.go:89-106 | In every run no registration is used by two accepted publishes if and only if no publisher is accepted while another accepted for the same registration is still before its delete |
| CallbackBridge.AcceptedWithinRegistered | bap-application/internal/service/callback.go:85-110 | In every run whose publishes of a key do not overlap, accepted publishes never outnumber registrations, expiry and repeated registration included |
| CallbackBridge.OverlapAcceptsTwice | bap-application/internal/service/callback.go:89-106 | Overlapping publishes can use one registration twice |
| CallbackManagerModule.CallbackManager.Register | bap-application/internal/service/callback.go:44-58 | Sets the key of route and transaction for 35 s and leaves the log, as the step of the bridge |
| CallbackManagerModule.CallbackManager.BeginWait | bap-application/internal/service/callback.go:62-72 | Fixes the deadline 30 s ahead and subscribes at the end of the log, as two steps of the bridge |
| CallbackManagerModule.CallbackManager.Publish | bap-application/internal/service/callback.go:85-110 | Accepts if and only if the key is alive, then publishes the body once on the channel of route and transaction and removes the key; otherwise changes neither |
| CallbackManagerModule.PublishAlone | bap-application/internal/service/callback.go:85-110 | The four steps of an undisturbed publisher in one formula |
| SetNestedModule.SetNested | bpp-frontend/src/pages/PublishPage.jsx:231-242 | On a heap with sharing and cycles: no existing object changes, every path below the set path reads the new value, every diverging path reads as before, and the proper prefixes are new containers of the old kinds |
| SetNestedModule.SecondWins | bpp-frontend/src/pages/PublishPage.jsx:231-242 | After two sets on one path every path reads as after the second alone, down to the kinds of containers |
| SetNestedModule.SecondSetWins | bpp-frontend/src/pages/PublishPage.jsx:231-242 | The same of two calls, each on the heap the one before left |
| SetNestedModule.SetsCommute | bpp-frontend/src/pages/PublishPage.jsx:231-242 | After sets on two diverging paths every path reads the same in either order |
| SetNestedModule.DivergingSetsCommute | bpp-frontend/src/pages/PublishPage.jsx:231-242 | The same of the calls, each on the heap the one before left |
| SetNestedModule.ReadChain | bpp-frontend/src/pages/PublishPage.jsx:235-240 | Reading through the path of copies, from any of its links |
| SetNestedModule.SplitJoin | bpp-frontend/src/pages/PublishPage.jsx:232 | Splitting at '.' loses nothing and leaves no '.' in a key |
| PublishWizard.IdsStayDistinct | bpp-frontend/src/pages/PublishPage.jsx:716-728 | For ids typed without surrounding space, any clicks keep the ids of a step distinct, removals during an open edit included |
| PublishWizard.CommitSafeIffTrimmed | bpp-frontend/src/pages/PublishPage.jsx:973-985 | A draft keeps every list distinct if and only if its id is trimmed or it is refused anyway |
| PublishWizard.PaddedIdTwice | bpp-frontend/src/pages/PublishPage.jsx:716-728 | A run of clicks from an empty list that gives two entries the same id |
| PublishWizard.EditHitsItsEntry | bpp-frontend/src/pages/PublishPage.jsx:708-728 | An open edit still reaches its own entry after a removal if and only if the removed entry comes later |
| PublishWizard.StaleEdit | bpp-frontend/src/pages/PublishPage.jsx:1062-1074 | After removing an earlier entry during an edit, the commit overwrites the entry that followed, or is dropped |
| PublishWizard.CommitExactly | bpp-frontend/src/pages/PublishPage.jsx:716-728 | A commit is refused exactly for an empty id, a missing required field, or an id some other entry has; else it replaces the edited entry or appends the draft as typed, and nothing else |
| PublishWizard.TrimMeans | bpp-frontend/src/pages/PublishPage.jsx:717 | Trimming removes white space at both ends and nothing else, and all of it |
| PublishWizard.SaveProviders | bpp-frontend/src/pages/PublishPage.jsx:1280-1289 | The filled map takes each wizard id to what the server answered last for it, and every other id to nothing; the number of saved providers is that of the calls before the first failing one |
| PublishWizard.SaveResources | bpp-frontend/src/pages/PublishPage.jsx:1292-1310 | The resources of the calls before the first failing one are created in order with their embedded provider, and the map takes each wizard id to the last answer for it, under either name of the answered id |
| PublishWizard.ResourceKeepsOwnProvider | bpp-frontend/src/pages/PublishPage.jsx:1295-1306 | A created resource carries the provider it names if and only if that provider still exists, else the first of the list, or none |
| PublishWizard.SaveOffers | bpp-frontend/src/pages/PublishPage.jsx:1313-1332 | The offers whose first resource got an id are created in order, as many as calls are answered before the first that fails |
| PublishWizard.SaveCatalogs | bpp-frontend/src/pages/PublishPage.jsx:1335-1347 | The catalogs are created in order with their provider and each is published under the id of its own creation, as far as calls are answered before the first that fails |
| PublishWizard.GivenIdsMean | bpp-frontend/src/pages/PublishPage.jsx:1345-1346 | A catalog is published under the first of the two answered names that holds an id, else the second |
| PublishWizard.HandlePublish | bpp-frontend/src/pages/PublishPage.jsx:1275-1355 | The calls made are those for all providers, then all resources, then all offers to create, then creation and publishing of each catalog, up to the first that fails; what is saved is exactly what the answered calls saved, and success means that all were answered |
| PublishWizard.OfferGetsFirstResource | bpp-frontend/src/pages/PublishPage.jsx:1313-1319 | With distinct resource ids, every created offer carries the database id of its own first resource |
| PublishWizard.OffersCreatedExactly | bpp-frontend/src/pages/PublishPage.jsx:1313-1332 | With distinct resource ids, the created offers are exactly, in order, those whose first linked resource exists and was answered with a non-zero id under either name |
| PublishWizard.CatalogGetsOwnProvider | bpp-frontend/src/pages/PublishPage.jsx:1335-1344 | With distinct provider ids, every catalog carries its own provider and its database id, or null when it was removed |
| PublishWizard.SessionIntegrity | bpp-frontend/src/pages/PublishPage.jsx:1275-1347 | The two together for lists made by any clicks |
| SanitizeLocationsModule.SanitizeLocations | bpp-application/internal/service/catalog.go:455-524 | The loops produce a result allowed for some iteration order of each address |
| SanitizeLocationsModule.CleanAddress | bpp-application/internal/service/catalog.go:491-520 | The loop over the address fields computes the cleaned address of some order that visits each field once |
| SanitizeLocationsModule.CleanLocation | bpp-application/internal/service/catalog.go:467-521 | A location is dropped if and only if it is no object or has no geo; otherwise it is cleaned |
| SanitizeLocationsModule.CleanCarriesOver | bpp-application/internal/service/catalog.go:474-521 | A stored geo is carried over, and the address is left out only when the input has none or no field of it survives the cleaning |
| SanitizeLocationsModule.CleanInIsCleaned | bpp-application/internal/service/catalog.go:510-516 | For every order, each valid field occurs exactly if some field maps to it or door and building fill it, and holds such a field's value |
| SanitizeLocationsModule.FieldsArrive | bpp-application/internal/service/catalog.go:461-465 | City, state, country, area code and street arrive in their valid fields, when no valid field of that name competes |
| SanitizeLocationsModule.MoreFieldsArrive | bpp-application/internal/service/catalog.go:510-516 | The valid fields arrive under their own names, when no legacy field competes |
| SanitizeLocationsModule.ExtendedFromParts | bpp-application/internal/service/catalog.go:493-509 | Without an extended address of its own, an address gets door, building, or both with a comma between, and none when both are missing |
| SanitizeLocationsModule.OrderIrrelevantIff | bpp-application/internal/service/catalog.go:510-516 | All iteration orders agree if and only if no two fields compete for one target with different values |
| SanitizeLocationsModule.NoConflictMeans | bpp-application/internal/service/catalog.go:461-465 | Only a legacy field and its own target can compete |
| SanitizeLocationsModule.OrderPreserved | bpp-application/internal/service/catalog.go:467-524 | The output is the kept input in order, entry by entry, and every entry has geo and only valid address fields |
| SanitizeLocationsModule.KeptAtComplete | bpp-application/internal/service/catalog.go:486-488 | No location that is an object with a geo is dropped |
| SanitizeLocationsModule.Idempotent | bpp-application/internal/service/catalog.go:455-524 | Sanitising the output again changes nothing, whatever the orders |
| SanitizeLocationsModule.ResultUnique | bpp-application/internal/service/catalog.go:455-524 | Where no fields compete, the whole result does not depend on the orders |
| SanitizeLocationsModule.GpsBecomesPoint | bpp-application/internal/service/catalog.go:474-485 | Parsed gps text becomes the point [longitude, latitude] (section 3.1.1 of RFC 7946) |
| TokenCacheModule.TokenService.GetB2BToken | ion-service/main.go:705-766 | The result and the stored token are those of the step the run results are about |
| TokenCacheModule.CacheIsLastFetch | ion-service/main.go:760-763 | After any calls the cache holds the token of the last successful fetch |
| TokenCacheModule.ServedExactly | ion-service/main.go:705-766 | A call is served from the cache if and only if some call fetched a token and the latest that did received one less than its lifetime minus 50 s ago, 900 s standing for a missing lifetime; else it fetches exactly when a non-empty token is answered |
| TokenCacheModule.CachedTokenStillGood | ion-service/main.go:705-766 | A token served from the cache is good for more than 50 s less the latency of its fetch |
| TokenCacheModule.CachedTokenGoodFor35Seconds | ion-service/main.go:732 | With every fetch inside the 15 s client timeout, for more than 35 s |
| TokenCacheModule.ShortLivedNeverCached | ion-service/main.go:762 | Tokens that live at most 50 s are never served from the cache |
| TokenCacheModule.FetchesSpread | ion-service/main.go:705-766 | n fetches of equally long-lived tokens take at least (n - 1) * (ttl - 50 s) |
| TokenCacheModule.FetchesBounded | ion-service/main.go:705-766 | Over a span T the token is fetched at most 1 + T / (ttl - 50 s) times |

## Left out

- HTTP, JSON, the Beckn adapters and the payment providers: a call is a message or an arbitrary result; JSON numbers are integers.
- Signatures, tokens and passwords: library cryptography.
- Postgres and Redis internals: one atomic step per statement or command; `transaction_id` is unique. A failing Redis command is not modelled.
- Discover, select, status, rate, support, list queries and message logs: no state that the results depend on. Select and discover also write a transaction status, through the same upsert.
- The payment method and reference shown in on_confirm, and the read of the payments table that fills them for an ACTIVE policy.
- The payment notification that the buyer app itself can trigger (bap-application/internal/service/client.go:591-629): notifications are arbitrary here, which includes it.
- The splits and bank accounts of a release request, and the retry of a release by the payment service.
- The checkout answer's invoice number is the one that was asked for; the payment service returns it unchanged.
- Two snapshots received at the same instant: the latest is the one inserted last.
- Column lengths, except the 50 characters for the checkout page (bap-application/internal/db/migrations/004_doku.sql:3).
- The dashboard runs one query after another; the counts here are of one snapshot. Premium sums, claims, tickets and renewals are not counted.
- Integer wrap-around of int64, float overflow and subnormal numbers: no amount comes near them. The insured value is an integer.
- A confirm for a transaction id of fewer than eight characters panics in the buyer app; here it has no effect.
- A caller whose own request is cancelled while it waits.
- Named properties of arrays, the keys `length` and `__proto__`, and spreading a string into characters, in the copying deep update.
- The publish run sees a finite sequence of answers, after which calls fail; a run makes finitely many calls.
- Wizard ids that are names of built-in object properties, fields of the four steps that no id depends on, and React's batching of updates.
- PremiumExact.TariffExactly: stops at 10^12 rupiah of insured value, because above it the accumulated rounding error can exceed 1/20000, the distance between exact premiums; Premium.PremiumWithinOneRupiah covers all values up to 2^53.
- SplitRounding.FloatShareExact: stops at 2^46 rupiah, where premium * pct is still below 2^53; fractional percentages are covered by the bound of SplitRounding.AnySplitBound only.
- Parsing gps text: a function from the text to coordinates or nothing.
