# Verified model of the fuel-ordering backend

This project models, in Dafny, the parts of the backend that keep money, litres, offers and bookings
consistent over whole runs, and the algorithms they rest on. `dafny verify dfyconfig.toml` checks it.

How the system is modelled:

- Stored documents are values (`Book`, `Balance`, `Market`, `Fleet`, ...). Each service operation is a
  function from the documents before to the documents after, or to a refusal; a refusal inside a
  transaction leaves nothing behind. Services that update documents in place are also classes over
  their collections (`LedgerService.Platform`, `LitreService.LitreBalances`, `Payments.PaymentsService`,
  `Exchange.ExchangeStore`, `Lease.LeaseStore`, `Throttle.ResilientStorage`, `Vehicles.Dispatcher`),
  whose methods are proved to commit exactly what the functions say.
- A run is a list of requests or events of any length, folded over an initial state. The main results
  are about every run.
- Where requests interleave, their reads and writes are separate events: credit approvals
  (`CreditRace`), drawdown loops (`LitreRace`), exchange requests (`Exchange`), lease holders (`Lease`),
  webhook deliveries (`Payments`), cashback payouts (`PayoutRace`), finishing and reassigning
  (`VehicleRace`). In `Vehicles` itself each request is one atomic step, as is every request of
  `Payments` other than a delivery.
- Money is counted in halalas and litres in millilitres; a figure before rounding is an exact `real`.
  Unique indexes are map keys or guards on insertion, and identifiers are fresh.
- Sums of balances are always recomputed from the movements (`Sums.Sum`), as the source does.

Three assumptions come from the source's own comments: a transaction aborts at commit if another has
committed a write to a document it wrote (src/modules/invoices/invoices.service.ts:42-54); Mongoose's
`where` replaces a top-level key of the same name (src/modules/fuel-exchange/fuel-exchange.service.ts:127-135);
and a status transition is a compare-and-set (src/modules/orders/services/order-state.service.ts:148-169).

Places where the code does less than one might expect, each with its exact condition proved and,
where the condition alone does not show it, an input or a run from the initial state:

- a card UID read byte-reversed is found if and only if the reading is not ten digits within 32 bits
  (`CardUid.ReversedReadingFindsOriginalExactlyWhen`, `CardUid.ReversedReadingCanBeLost`);
- a quote's remaining balance agrees with a real order's if and only if the balance is not negative
  (`Litres.QuoteRemainderAgreesExactlyWhen`, `Litres.DebtIsReachable`);
- with no state given, the "all" listing exceeds "incoming" plus "outgoing" by exactly the visible,
  relevant offers of others that are no longer open (`Scoping.AllWithoutStateExceedsUnionBy`,
  `Scoping.ResolvedOfferIsOnlyInAll`);
- the enum's comment calls a decline final, but an award overwrites it: a declined answer stays
  declined over a whole continuation if and only if its offer was already resolved or has not been
  awarded since (`Exchange.DeclineIsFinalExactlyWhen`, `Exchange.DeclineIsOverwritten`);
- a proposal read before an award can land after it and stays PROPOSED for ever
  (`Exchange.LateProposalLandsAfterAward`, `Exchange.LateProposalIsReachable`);
- an order is refused for the commission ceiling only if it is not DIRECT
  (`CommissionCeiling.CeilingFlagPredictsRefusal`), so a company can pass its ceiling by one gated
  commission and all its DIRECT ones (`CommissionCeiling.OvershootIsOneCommissionAndDirect`), and does
  (`CommissionCeiling.DirectInvoicesEscapeTheCeiling`);
- a transaction id is spent by a delivery with a bad signature, and by one whose handler dies after
  claiming it: a payable delivery is refused as a duplicate if and only if an earlier one spent its id
  (`Payments.AcceptedExactlyWhen`, `Payments.IdSpentWithoutPayment`);
- the handler's `try` does not end at the commit: a delivery answered as not accepted has moved its
  order and settled its invoice if and only if it committed and a later call failed
  (`Payments.RefusedDeliveryMovesExactlyWhen`, `Payments.SettledButReportedRefused`);
- cancelling, completing and reassigning work from an order document read before their transaction:
  bookings and deliveries agree throughout if and only if none committed from a document gone stale
  (`VehicleRace.AgreementHoldsExactlyWhileUpToDate`, `VehicleRace.CancelOvertakenByReassignment`);
- cashback payouts write no document in common, so one that runs while another commits can overdraw, by
  no more than what the other paid out (`PayoutRace.PayoutOverdrawsOnlyByOvertaking`,
  `PayoutRace.ConcurrentPayoutsOverdraw`);
- the fallback limiter's budget is per outage: a store that comes and goes lets any number of requests
  through in one time-to-live (`Throttle.LimiterPassesAtMostTwiceLimit`, `Throttle.FlappingHasNoBound`);
- a row that moves past the cursor is returned twice (`PageWalk.RowMovedPastTheCursorIsReturnedAgain`,
  `PageWalk.RowMovedInTimeIsReturnedTwice`).

## Model

| member | source | states |
|---|---|---|
| `Rounding.Round` | src/common/constants/money.constants.ts:28-31 | the rounded figure is within half a unit, ties going up |
| `Rounding.RoundRespectsIntegerBound` | src/modules/litre-balances/litre-balances.service.ts:17-19 | rounding never carries a figure past a whole-unit bound it respects |
| `Pricing.TotalIsSumOfLines` | src/common/pricing/derive-price-breakdown.ts:51-60 | for all inputs the total is exactly the sum of the rounded lines: the outer rounding moves nothing |
| `Pricing.LinesFollowTheirRules` | src/common/pricing/derive-price-breakdown.ts:16-74 | every printed line is the nearest halala to its own rule applied to the lines printed before it; the delivery fee is printed exactly when given; the rates printed are those given |
| `Pricing.TotalIsMonotone` | src/common/pricing/derive-price-breakdown.ts:30-74 | raising any non-negative input lowers no line and not the total |
| `Pricing.AbsentFeeCostsTheSameAsZeroFee` | src/common/pricing/derive-price-breakdown.ts:33-50 | no delivery fee and a zero one give the same figures; only the line's presence differs |
| `Pricing.RoundingDriftIsBounded` | src/common/pricing/derive-price-breakdown.ts:13-17 | with percentages up to 100 the total is within 4.5 halalas of the unrounded total |
| `Pricing.RoundingOnlyTheSumDisagrees` | src/common/constants/money.constants.ts:1-8 | rounding only the final sum is a different rule, shown on an input |
| `CardUid.NormalizeIsIdempotent` | src/common/utils/card-uid.util.ts:36-48 | canonicalising twice is canonicalising once |
| `CardUid.RenderingsAgree` | src/common/utils/card-uid.util.ts:26-48 | any case, any separators and the ten-digit decimal of one 32-bit UID share one canonical form |
| `CardUid.DistinctUidsStayDistinct` | src/common/utils/card-uid.util.ts:41-46 | different 32-bit UIDs have different canonical forms |
| `CardUid.ReversalUndoesItself` | src/common/utils/card-uid.util.ts:57-66 | reversing the byte order twice restores the string |
| `CardUid.ReverseCardUidBytes` | src/common/utils/card-uid.util.ts:57-66 | reverses a local array of bytes in place and joins it: the byte-reversed string, or nothing when the value has no bytes to reverse |
| `CardUid.CardUidLookupCandidates` | src/common/utils/card-uid.util.ts:82-97 | builds the candidate list in precedence order |
| `CardUid.CandidatesAreDistinct` | src/common/utils/card-uid.util.ts:68-97 | candidates never repeat, are empty only for an empty canonical form, and start with it |
| `CardUid.CandidatesAreExactly` | src/common/utils/card-uid.util.ts:68-97 | the canonical form, the trimmed reading and the reversed bytes are looked up, in that order, and nothing else |
| `CardUid.ReversedReadingFindsOriginalExactlyWhen` | src/common/utils/card-uid.util.ts:82-97 | a byte-reversed reading's candidates contain the stored UID if and only if the reading is not taken for a decimal |
| `CardUid.ReversedReadingFindsOriginal` | src/common/utils/card-uid.util.ts:30-34 | so every UID not ten characters long is found |
| `CardUid.ReversedReadingCanBeLost` | src/common/utils/card-uid.util.ts:41-46 | a five-byte UID that is lost |
| `Whitespace.TrimTakesTheEnds` | src/common/utils/card-uid.util.ts:82-97 | trimming takes white space off both ends, and all of it |
| `Queries.WhereKeepsOnlyUnreplacedKeys` | src/modules/fuel-exchange/fuel-exchange.service.ts:127-135 | a composed query means the added conditions and exactly those of the caller's whose key was not replaced |
| `Queries.ScopeAlwaysHolds` | src/common/plugins/tenant-scope.plugin.ts:34-37 | for every caller filter, a scoped query returns only documents in scope |
| `Queries.DisjointWhereIsConjunction` | src/common/plugins/party-set-scope.plugin.ts:101-116 | with disjoint top-level keys, scoping is conjunction |
| `Scoping.OnlyOperatorsBypass` | src/common/plugins/multi-party-scope.plugin.ts:66-104 | in all three plugins exactly the operator and an absent actor go unscoped |
| `Scoping.FuelCompanyIs` | src/common/plugins/multi-party-scope.plugin.ts:66-104 | whose documents an actor sees, by role: its parent's, else its own company's; a transporter without a parent is refused |
| `Scoping.MultiPartyReturnsExactly` | src/common/plugins/multi-party-scope.plugin.ts:106-164 | for a filter naming neither scoped field, exactly the documents it asks for that carry the actor's tenant and, where its role is narrowed, its own value |
| `Scoping.TenantReturnsExactly` | src/common/plugins/tenant-scope.plugin.ts:34-110 | the same for the tenant plugin |
| `Scoping.PartySetReturnsExactly` | src/common/plugins/party-set-scope.plugin.ts:60-116 | whatever it filters by, a non-operator is returned only documents it is party to or put to the market; for a filter with no top-level disjunction, all of those it asks for |
| `Scoping.ResultsStayInTenant` | src/common/plugins/multi-party-scope.plugin.ts:106-164 | every other actor's results carry its own tenant, and its own party where its role narrows to one, whatever it filters by |
| `Scoping.SavedOfferIsReadable` | src/common/plugins/party-set-scope.plugin.ts:118-149 | a company can read back what the save hook let it create; a stranger can exactly when it is open to the market |
| `Scoping.PartiesValidExactlyWhen` | src/common/plugins/party-set-scope.plugin.ts:118-149 | a new document is let through exactly when the actor is among its parties and there is one for a market offer, two otherwise |
| `Scoping.ExchangeFiltersSurviveScoping` | src/modules/fuel-exchange/fuel-exchange.service.ts:136-199 | through the party-set hook every listing and summary filter, cursor included, returns exactly what it asks for and the viewer may see |
| `Scoping.BareDisjunctionIsDiscarded` | src/modules/fuel-exchange/fuel-exchange.service.ts:127-135 | a top-level disjunction is discarded whole: everything the viewer may see is returned |
| `Scoping.ListingMeans` | src/modules/fuel-exchange/fuel-exchange.service.ts:136-199 | each listing asks for exactly its direction's offers in the state: own; or others', of unsuspended raisers, addressed to the viewer or to the market in a grade it sells |
| `Scoping.AwaitingMeans` | src/modules/fuel-exchange/fuel-exchange.service.ts:683-691 | the summary's awaiting count is the default "incoming" listing less what the viewer has answered |
| `Scoping.OpenOwnMeans` | src/modules/fuel-exchange/fuel-exchange.service.ts:692-694 | its outgoing count is the viewer's own open offers |
| `Scoping.AwardedMeans` | src/modules/fuel-exchange/fuel-exchange.service.ts:695-704 | its awarded count is the offers raised or won by the viewer, awarded within the month, its end excluded |
| `Scoping.AllIsDisjointUnion` | src/modules/fuel-exchange/fuel-exchange.service.ts:163-199 | for an explicit state, "all" as the hook scopes it is the disjoint union of "incoming" and "outgoing" |
| `Scoping.AllWithoutStateExceedsUnionBy` | src/modules/fuel-exchange/fuel-exchange.service.ts:179-184 | without a state, exactly what scoped "all" returns beyond the other two, and that it misses nothing they return |
| `Scoping.ResolvedOfferIsOnlyInAll` | src/modules/fuel-exchange/fuel-exchange.service.ts:163-199 | a document in that excess |
| `Pagination.BuildKeysetFilter` | src/common/pagination/cursor.util.ts:64-79 | the nested loops build a filter that holds of a document exactly when it comes strictly after the boundary |
| `Pagination.KeysetFilterMeansAfter` | src/common/pagination/cursor.util.ts:51-79 | for any distinct keys in mixed directions, filter if and only if strictly after in the compound sort |
| `Pagination.BeforeIsTotal` | src/common/pagination/cursor.util.ts:81-84 | with a unique last key the compound sort orders any two documents |
| `Pagination.FoundIsExact` | src/common/pagination/paginate.util.ts:44-57 | a page query finds exactly the matching documents after its cursor, strictly sorted |
| `Pagination.NextCursorContinues` | src/common/pagination/paginate.util.ts:59-66 | what a page's cursor leads to is exactly the rest of what its query found |
| `Pagination.PagesConcatenateToTheSortedList` | src/common/pagination/paginate.util.ts:30-67 | on a fixed collection the walk terminates and its pages concatenate to the sorted, filtered list |
| `PageWalk.PagesAreExact` | src/common/pagination/paginate.util.ts:30-67 | one page misses no matching row except beyond its last item, and then has a next cursor |
| `PageWalk.PagesAdvance` | src/common/pagination/cursor.util.ts:3-19 | while the collection changes, items of later pages come strictly after those of earlier ones |
| `PageWalk.NoRowIsReturnedTwice` | src/common/pagination/cursor.util.ts:3-19 | if rows only move toward the head, no row is returned twice |
| `PageWalk.UnmovedRowIsReturnedExactlyOnce` | src/common/pagination/cursor.util.ts:3-19 | every row present throughout and never moved in the sort is returned exactly once, whatever happens to its other fields and to other rows |
| `PageWalk.RowMovedPastTheCursorIsReturnedAgain` | src/modules/invoices/invoices.service.ts:20-24 | a returned row that moves past the cursor and stays is returned again, so the condition is needed |
| `PageWalk.MovedRowIsReturnedTwice` | src/common/pagination/paginate.util.ts:30-67 | for any keys, any row that can move toward the tail is returned twice by some complete walk |
| `PageWalk.RowMovedInTimeIsReturnedTwice` | src/common/pagination/paginate.util.ts:30-67 | such a walk, by time |
| `LedgerService.Platform.GetConfirmedBalance` | src/modules/platform-account/platform-account.service.ts:328-343 | folds confirmed movements into the signed per-kind balance |
| `LedgerService.Platform.GetCashbackOwed` | src/modules/platform-account/platform-account.service.ts:149-158 | credited minus paid out |
| `LedgerService.Platform.GetAvailableCredit` | src/modules/invoices/invoices.service.ts:56-90 | the limit less the sum of still-ISSUED credit invoices; nothing for an unknown client |
| `LedgerService.Platform.IssueInvoice` | src/modules/invoices/invoices.service.ts:98-182 | checks credit and ceiling, then commits the invoice with its commission, or refuses and changes nothing |
| `LedgerService.Platform.SettleInvoiceForOrder` | src/modules/invoices/invoices.service.ts:201-259 | settles an ISSUED invoice with its cashback; a resolved one is left alone |
| `LedgerService.Platform.ReverseMovementsForInvoice` | src/modules/platform-account/platform-account.service.ts:347-384 | appends one compensating entry per unreversed original and alters none |
| `LedgerService.Platform.VoidOrderInvoice` | src/modules/invoices/invoices.service.ts:273-292 | voids an ISSUED invoice together with the reversal |
| `LedgerService.Platform.RecordCompanyPayment` | src/modules/platform-account/platform-account.service.ts:104-130 | records an unconfirmed payment, refusing one without evidence |
| `LedgerService.Platform.ConfirmRecordedPayment` | src/modules/platform-account/platform-account.service.ts:245-270 | confirms a recorded payment once |
| `LedgerService.Platform.PayOutCashback` | src/modules/platform-account/platform-account.service.ts:182-236 | pays out at most what is owed, once per reference |
| `LedgerProofs.ReversalsCancel` | src/modules/platform-account/platform-account.service.ts:345-384 | the compensating entries of a live invoice cancel its entries exactly |
| `LedgerProofs.ReversalsChange` | src/modules/platform-account/platform-account.service.ts:345-384 | reversal zeroes that invoice in every kind and moves no other invoice or company |
| `LedgerProofs.ReversingTwiceIsReversingOnce` | src/modules/platform-account/platform-account.service.ts:345-384 | on any account whatever, reversing an invoice again adds nothing |
| `LedgerProofs.StepKeeps` | src/modules/invoices/invoices.service.ts:98-292 | every transaction keeps the recomputed balances equal to an auditor's record of the invoices |
| `LedgerProofs.BooksAgreeWithAudit` | src/modules/billing/billing.service.ts:173-236 | over every run the commission balance is the sum fixed at issue over non-VOID invoices, and credited cashback the sum over SETTLED invoices under the programme in force at settlement |
| `Charges.LinesAreExplained` | src/modules/billing/billing.service.ts:94-236 | over every run each invoice carries the commission due under the term in force when it was issued and, once settled, the cashback due under the programme in force then, to the nearest halala, and none otherwise |
| `Charges.AmountIsShare` | src/modules/billing/billing.service.ts:94-98 | a figure is the percentage of the amount, or the rate for each unit of it, to the nearest halala |
| `Account.BalancesAreAudited` | src/modules/billing/billing.service.ts:238-260 | over every run the balances shown are the audited ones; the warning is up from nine tenths of the ceiling, the exceeded flag beyond it |
| `Account.SettingsAreTheLastSet` | src/modules/billing/billing.service.ts:100-112 | over every run the term, programme, ceilings and limits in force are the ones set last |
| `Account.CeilingDefaults` | src/modules/billing/billing.service.ts:100-112 | a company without a ceiling of its own has the platform's |
| `Account.PaymentLowersOwed` | src/modules/platform-account/platform-account.service.ts:104-130 | a payment is recorded exactly when it carries evidence, moves nothing until confirmed, and then lowers what its company owes by its amount |
| `Account.PayoutLowersOwed` | src/modules/platform-account/platform-account.service.ts:182-236 | a payout goes through exactly when covered and new, and lowers what its company is owed by its amount |
| `LedgerProofs.CashbackOwedNeverNegative` | src/modules/platform-account/platform-account.service.ts:149-236 | over every run cashback owed is never negative |
| `LedgerProofs.CashbackIsNeverReversed` | src/modules/invoices/invoices.service.ts:240-292 | no credited cashback is ever reversed |
| `LedgerProofs.CashbackCreditedAtMostOnce` | src/modules/invoices/invoices.service.ts:240-259 | over every run an invoice has at most one cashback entry |
| `LedgerProofs.PayoutReferencesNeverRepeat` | src/modules/platform-account/platform-account.service.ts:178-236 | over every run no two payouts to a company share a reference |
| `LedgerProofs.CreditIssueFitsTheLimit` | src/modules/invoices/invoices.service.ts:84-110 | a credit invoice is issued if and only if outstanding plus amount is within the limit, the limit included |
| `ClientCredit.StepMovesCredit` | src/modules/invoices/invoices.service.ts:56-90 | a credit order takes its amount from the client's available credit, settling or voiding gives it back, a new limit moves it by the difference, and nothing else touches it |
| `ClientCredit.SettlingGivesBack` | src/modules/invoices/invoices.service.ts:240-259 | settling gives back exactly what the invoice tied up |
| `ClientCredit.VoidingGivesBack` | src/modules/invoices/invoices.service.ts:273-292 | so does voiding |
| `ClientCredit.WholeLimitAvailableExactlyWhen` | src/modules/invoices/invoices.service.ts:56-90 | the whole limit is available if and only if no CREDIT invoice is still ISSUED for an amount |
| `LedgerHistory.ResolvedInvoiceIsFinal` | src/modules/invoices/invoices.service.ts:245-280 | an invoice SETTLED or VOID at some point of a run keeps that state at every later point; nothing else of it ever changes |
| `LedgerHistory.MovementsAreAppendOnly` | src/modules/platform-account/platform-account.service.ts:322-384 | over every run a movement keeps its place for ever and changes at most once, a recorded payment to confirmed |
| `LedgerHistory.PaymentCountsOnce` | src/modules/platform-account/platform-account.service.ts:245-270 | over every run a payment is confirmed at most once, and a company's confirmed payments are worth exactly what those confirmations were |
| `CommissionCeiling.CeilingFlagPredictsRefusal` | src/modules/billing/billing.service.ts:238-260 | an issue is refused for the ceiling if and only if the exceeded flag is up, the method is not DIRECT and the credit check passed; a warning precedes the flag |
| `CommissionCeiling.OvershootIsOneCommissionAndDirect` | src/modules/billing/billing.service.ts:125-195 | over every run net commission owed exceeds the highest ceiling in force by at most the largest gated commission plus the commissions of the company's non-void DIRECT invoices |
| `CommissionCeiling.CeilingOvershootIsOneCommission` | src/modules/billing/billing.service.ts:125-195 | with no DIRECT issue of its own under a fixed ceiling, a company overshoots it by at most the largest single commission |
| `CommissionCeiling.DirectInvoicesEscapeTheCeiling` | src/modules/invoices/invoices.service.ts:112-119 | a run that attains the bound for any two commissions |
| `CreditRace.EffectEvolves` | src/modules/invoices/invoices.service.ts:42-54 | a committed effect keeps every open snapshot's client version a voucher for the limit and against newer credit invoices |
| `CreditRace.CreditIsNeverOvercommitted` | src/modules/invoices/invoices.service.ts:56-110 | in every interleaving of approvals, settlements, voids and limit changes a committed credit approval leaves the outstanding total within the limit then in force |
| `CreditRace.LoneApprovalIsIssue` | src/modules/invoices/invoices.service.ts:98-119 | with nothing interleaved, the ledger's issue commits exactly when the approval does and the ceiling allows it, with the same invoices |
| `CreditRace.LoneResolutionIsLedgers` | src/modules/invoices/invoices.service.ts:240-292 | with nothing interleaved, a settlement or void commits exactly on an ISSUED invoice, with the same invoices as the ledger's; a change of limit sets that client's and no other |
| `CreditRace.WithoutTheWriteBackCreditOvercommits` | src/modules/invoices/invoices.service.ts:46-54 | without the write to the client document two approvals together exceed the limit |
| `PayoutRace.PayoutOverdrawsOnlyByOvertaking` | src/modules/platform-account/platform-account.service.ts:182-236 | in every interleaving a payout that commits leaves the company owed no less than minus what other payouts to it committed while it ran |
| `PayoutRace.OwedStaysCovered` | src/modules/platform-account/platform-account.service.ts:182-236 | in every interleaving in which no payout to a company is overtaken by another, cashback owed to it is never negative |
| `PayoutRace.ConcurrentPayoutsOverdraw` | src/modules/platform-account/platform-account.service.ts:149-158 | a run in which two payouts both read 100 owed and pay 60 each |
| `PayoutRace.ReferencesNeverRepeat` | src/modules/platform-account/platform-account.service.ts:182-236 | in every interleaving, overdrawn or not, no two payouts to a company share a reference |
| `PayoutRace.LonePayoutIsLedgers` | src/modules/platform-account/platform-account.service.ts:182-236 | with nothing interleaved, a payout commits exactly when the ledger's does and enters the same movement |
| `Payments.AcceptedExactlyWhen` | src/modules/payments/payments.service.ts:94-202 | in every reachable state a delivery is accepted if and only if it is signed, payable, no earlier delivery spent its id and no call after the commit fails; a duplicate if and only if one spent it; not accepted in exactly the remaining cases |
| `Payments.EventSaysWhy` | src/modules/payments/payments.service.ts:100-196 | what its event says of a delivery: bad signature, mismatch, out of sequence or confirmed, each exactly when |
| `Payments.IdSpentWithoutPayment` | src/modules/payments/payments.service.ts:100-135 | a run in which a badly signed delivery, or one whose handler died, leaves a payable delivery answered as a duplicate and its order unpaid |
| `Payments.RefusedDeliveryMovesExactlyWhen` | src/modules/payments/payments.service.ts:147-196 | in every reachable state a delivery answered as not accepted has moved its order and settled its invoice if and only if it committed and a later call failed, and otherwise has moved no order, invoice or money |
| `Payments.SettledButReportedRefused` | src/modules/payments/payments.service.ts:172-196 | a run in which a paid order's event reads OUT_OF_SEQUENCE |
| `Payments.DeliveriesKeepToThemselves` | src/modules/payments/payments.service.ts:110-132 | claiming an id moves nothing else, and no delivery rewrites another's event |
| `Payments.CommittedDeliverySettles` | src/modules/payments/payments.service.ts:147-171 | in every reachable state, whatever ran since the id was claimed and whatever fails later, a delivery that commits moves its order out of PENDING_PAYMENT and leaves its invoice SETTLED in one step, touching no other order |
| `Payments.CommittedDeliveryPaysInFull` | src/modules/payments/payments.service.ts:139-171 | in every reachable state, whatever ran since it arrived, a delivery that commits pays exactly what its order's invoice is for |
| `Payments.OrdersAndInvoicesAgree` | src/modules/dispatch/services/routing.service.ts:223-264 | over every run an order is billed if and only if it has an invoice, made out by its company to its client for the price billed |
| `Payments.StatusesFollowTheTable` | src/modules/orders/services/order-state.service.ts:125-172 | whatever the request, an order moves only along an edge, is asked for payment after routing only by being billed, and is cancelled only by a cancellation |
| `Payments.TransactionSettlesAtMostOnce` | src/modules/payments/payments.service.ts:110-196 | over every run a transaction id settles at most once; its event reads CONFIRMED exactly when it settled or its handler is at work or died, misreported settlements excepted |
| `Payments.InvoiceCreditedAtMostOnce` | src/modules/payments/payments.service.ts:147-171 | webhooks, manual settlements and cancellations together credit an invoice at most once |
| `Payments.PaymentsService.Handle` | src/modules/payments/payments.service.ts:94-202 | the handler step by step, with the tentative outcome corrected on refusal and when a call after the commit fails, does what the specification says |
| `Litres.DrawnIsBounded` | src/modules/litre-balances/litre-balances.service.ts:216-225 | a draw is what was requested, rounded, when that is available, all that is available when more was requested, and nothing from a debt |
| `Litres.QuoteEqualsDraw` | src/modules/litre-balances/litre-balances.service.ts:253-265 | a quote projects exactly the draw an order would make |
| `Litres.QuoteRemainderAgreesExactlyWhen` | src/modules/litre-balances/litre-balances.service.ts:218-265 | the quoted remainder agrees if and only if the balance is not negative |
| `Litres.DebtIsReachable` | src/modules/litre-balances/litre-balances.service.ts:81-142 | an over-delivery takes a balance into debt, where the two disagree |
| `Litres.ReasonRequiredExactlyWhen` | src/modules/litre-balances/litre-balances.service.ts:330-341 | a correction is refused for its reason if and only if the reason is all white space |
| `Litres.CorrectionMovesBalance` | src/modules/litre-balances/litre-balances.service.ts:343-366 | a correction moves the balance by its rounded figure, sign included, in one movement naming no order |
| `Litres.StepKeeps` | src/modules/litre-balances/litre-balances.service.ts:81-366 | every operation keeps balance, movements and reconciled orders in agreement |
| `Litres.BalanceAgreesWithMovements` | src/modules/litre-balances/litre-balances.service.ts:81-142 | in every reachable state the balance is the sum of the movements and the reconciled set exactly the orders with one shortfall or excess movement |
| `Litres.RestateKeeps` | src/modules/litre-balances/litre-balances.service.ts:151-194 | a restatement is never refused and leaves the order at exactly the new quantity |
| `Litres.RestatingLeavesOnlyTheLastQuantity` | src/modules/litre-balances/litre-balances.service.ts:144-194 | however often recorded and restated, and whatever interleaves, an order contributes exactly its last quantity |
| `Litres.SecondRestatementWins` | src/modules/litre-balances/litre-balances.service.ts:144-194 | two restatements leave the balance and reconciled set of the second alone |
| `Litres.CancellationReturnsTheDrawOnce` | src/modules/orders/orders.service.ts:644-687 | over every run cancellation gives back exactly what creation drew, once |
| `LitreRace.NextIsAtomic` | src/modules/litre-balances/litre-balances.service.ts:227-247 | a conditional write that succeeds is an atomic draw from the current balance, even after the balance moved and came back |
| `LitreRace.InterleavingsAreSerial` | src/modules/litre-balances/litre-balances.service.ts:196-251 | every interleaving of drawdown loops with everything else leaves what a serial run of atomic operations leaves |
| `LitreRace.SuccessfulWriteDrawsFromTheCurrentBalance` | src/modules/litre-balances/litre-balances.service.ts:216-247 | a successful write draws what was requested, rounded, or all of the current balance when more was requested, and never takes it below zero |
| `LitreRace.ReportedDrawIsRecorded` | src/modules/orders/orders.service.ts:235-261 | what a finished loop reports is what its movements say; one that gave up left none |
| `LitreRace.LoopsGiveUpAfterFiveDefeats` | src/modules/litre-balances/litre-balances.service.ts:216-251 | in every interleaving a loop tries again after each defeat, gives up after its fifth and not before, and finishes at the first attempt not defeated |
| `LitreRace.LoneLoopIsAtomic` | src/modules/litre-balances/litre-balances.service.ts:216-251 | uninterrupted, it draws as the atomic operation does and reports what was drawn and what is left |
| `LitreService.LitreBalances.RecordReconciliation` | src/modules/litre-balances/litre-balances.service.ts:81-142 | upsert, guard and push of one reconciliation |
| `LitreService.LitreBalances.RestateReconciliation` | src/modules/litre-balances/litre-balances.service.ts:151-194 | pull of the prior movement, then a fresh record |
| `LitreService.LitreBalances.ReturnDrawdown` | src/modules/litre-balances/litre-balances.service.ts:273-319 | returns a drawdown unless absent or already returned |
| `LitreService.LitreBalances.RecordCorrection` | src/modules/litre-balances/litre-balances.service.ts:330-366 | applies a signed correction, refusing a blank reason or a missing balance |
| `LitreService.LitreBalances.AttemptDrawdown` | src/modules/litre-balances/litre-balances.service.ts:216-248 | one read and conditional write among other writers' pushes, defeated exactly when they do not cancel out |
| `LitreService.LitreBalances.Drawdown` | src/modules/litre-balances/litre-balances.service.ts:206-251 | the bounded loop ends at the first attempt not defeated, or draws nothing after five |
| `Exchange.NextKeeps` | src/modules/fuel-exchange/fuel-exchange.service.ts:423-645 | every read and write event keeps offers, proposals and requests in flight consistent |
| `Exchange.AwardedOfferHasOneWinner` | src/modules/fuel-exchange/fuel-exchange.service.ts:505-586 | in every interleaving an AWARDED offer has exactly one AWARDED proposal, others none; it is not the raiser's and its price times the quantity rounds to the agreed total |
| `Exchange.ResolvedOfferNeverChanges` | src/modules/fuel-exchange/fuel-exchange.service.ts:536-563 | an offer leaves OPEN at most once and its agreed terms never change afterwards |
| `Exchange.OneAnswerPerCompany` | src/modules/fuel-exchange/fuel-exchange.service.ts:467-488 | in every interleaving a company answers an offer at most once |
| `Exchange.OnlyTheEntitledAct` | src/modules/fuel-exchange/fuel-exchange.service.ts:423-645 | in every interleaving each answer was asked for by a company entitled to give it, and each offer that left OPEN was resolved by its own raiser |
| `Exchange.LoneAnswerLandsExactlyWhen` | src/modules/fuel-exchange/fuel-exchange.service.ts:423-488 | an uninterrupted answer is entered if and only if the offer is open, its raiser active and another company, it declines or prices a grade it sells, and it has not answered |
| `Exchange.LoneResolutionGoesThroughExactlyWhen` | src/modules/fuel-exchange/fuel-exchange.service.ts:505-645 | an uninterrupted award or withdrawal goes through if and only if the raiser asks for it, an award naming an answer to the offer that is no decline |
| `Exchange.AwardResolvesEveryAnswer` | src/modules/fuel-exchange/fuel-exchange.service.ts:565-578 | in every interleaving an answer changes if and only if the event is the write of a pending award of its own OPEN offer; it becomes the winner or NOT_SELECTED, declined ones included |
| `Exchange.AnswerToResolvedOfferIsFinal` | src/modules/fuel-exchange/fuel-exchange.service.ts:535-579 | once its offer is not OPEN, an answer that is in never changes again |
| `Exchange.DeclineIsFinalExactlyWhen` | src/modules/fuel-exchange/fuel-exchange.service.ts:572-578 | over every continuation a decline stands if and only if its offer was already resolved or has not been awarded since |
| `Exchange.DeclineIsOverwritten` | src/modules/fuel-exchange/fuel-exchange.service.ts:572-578 | a run from nothing in which a declined answer ends NOT_SELECTED |
| `Exchange.LateProposalLandsAfterAward` | src/modules/fuel-exchange/fuel-exchange.service.ts:429-477 | a proposal read before the award that lands after it stays PROPOSED over every continuation and leaves the award alone |
| `Exchange.LateProposalIsReachable` | src/modules/fuel-exchange/fuel-exchange.service.ts:429-477 | a run from nothing in which one does |
| `Exchange.ExchangeStore.CommitProposal` | src/modules/fuel-exchange/fuel-exchange.service.ts:467-488 | inserts unless the company has already answered |
| `Exchange.ExchangeStore.CommitAward` | src/modules/fuel-exchange/fuel-exchange.service.ts:535-579 | conditional on OPEN; offer, winner and losers change together |
| `Exchange.ExchangeStore.CommitWithdraw` | src/modules/fuel-exchange/fuel-exchange.service.ts:627-645 | conditional on OPEN |
| `Lease.NextKeeps` | src/common/scheduler/scheduler-lease.service.ts:93-138 | every event keeps each unexpired holder's key in the store |
| `Lease.ReleaseSparesOthers` | src/common/scheduler/scheduler-lease.service.ts:59-70 | a release never removes another token's live lease |
| `Lease.TimelyReleaseFreesTheSweep` | src/common/scheduler/scheduler-lease.service.ts:127-137 | a release in time frees the sweep at once |
| `Lease.DeadHolderBlocksNobody` | src/common/scheduler/scheduler-lease.service.ts:17-21 | past its time-to-live a lease blocks nobody, whatever became of its holder |
| `Lease.NoOverlapWithinLeases` | src/common/scheduler/scheduler-lease.service.ts:31-51 | at any moment at most one run of a sweep works inside its own lease |
| `Lease.TimelyRunsNeverOverlap` | src/common/scheduler/scheduler-lease.service.ts:31-51 | if work always ends within its lease, no two runs of a sweep ever overlap |
| `Lease.PausedHolderOverlaps` | src/common/scheduler/scheduler-lease.service.ts:31-37 | a holder paused past its time-to-live overlaps its successor |
| `Lease.LeaseStore.TryAcquire` | src/common/scheduler/scheduler-lease.service.ts:102-122 | sets the key with its expiry exactly when no live key is there |
| `Lease.LeaseStore.Release` | src/common/scheduler/scheduler-lease.service.ts:64-70 | deletes the key exactly when it is live and carries this token |
| `Throttle.EvictionIsInvisible` | src/common/throttler/resilient-throttler.storage.ts:140-147 | sweeping at any moments, in any outages, never changes an answer under a non-decreasing clock |
| `Throttle.AnswerDependsOnOwnHits` | src/common/throttler/resilient-throttler.storage.ts:81-107 | among other keys' traffic and sweeps, a hit is blocked exactly as its own key's hits in the current outage decide |
| `Throttle.AnswerMeans` | src/common/throttler/resilient-throttler.storage.ts:81-107 | what a hit is told: its place in the window, whether it is blocked, and the seconds to wait, rounded up |
| `Throttle.FirstLimitHitsOfAWindowPass` | src/common/throttler/resilient-throttler.storage.ts:87-97 | a hit passes exactly when it is among the first `limit` of its window, which lasts one time-to-live |
| `Throttle.LimiterPassesAtMostTwiceLimit` | src/common/throttler/resilient-throttler.storage.ts:55-147 | among any traffic, sweeps and recoveries, any span of one time-to-live lets through at most twice the limit per outage that has a request for the key in it |
| `Throttle.OneOutagePassesAtMostTwiceLimit` | src/common/throttler/resilient-throttler.storage.ts:25-32 | so at most twice the limit in one uninterrupted outage |
| `Throttle.TwiceLimitIsAttained` | src/common/throttler/resilient-throttler.storage.ts:81-97 | for every limit, an outage that lets through exactly that many |
| `Throttle.FlappingHasNoBound` | src/common/throttler/resilient-throttler.storage.ts:124-138 | with recoveries in between, any number of requests pass at one instant |
| `Throttle.FleetPassesAtMostTwiceLimitPerOutage` | src/common/throttler/resilient-throttler.storage.ts:25-32 | instances counting separately let through at most twice the limit per outage of each |
| `Throttle.FleetPassesAtMostTwiceLimitEach` | src/common/throttler/resilient-throttler.storage.ts:25-32 | so N instances let through at most 2·N·limit through one outage |
| `Throttle.ZeroLimitAdmitsNothing` | src/common/throttler/resilient-throttler.storage.ts:94-97 | a limit of zero admits nothing |
| `Throttle.ZeroLimitBlocksAtOnce` | src/common/throttler/resilient-throttler.storage.ts:94-106 | and blocks a first hit for the block duration |
| `Throttle.RetryAfterIsTight` | src/common/throttler/resilient-throttler.storage.ts:100-106 | the reported seconds neither fall short of the window's end nor pass it by a second |
| `Throttle.ResilientStorage.IncrementLocally` | src/common/throttler/resilient-throttler.storage.ts:81-107 | counts a hit against the local map |
| `Throttle.ResilientStorage.Increment` | src/common/throttler/resilient-throttler.storage.ts:55-70 | uses the shared answer when there is one, dropping local counters on the way back; otherwise counts locally |
| `Throttle.ResilientStorage.EvictExpired` | src/common/throttler/resilient-throttler.storage.ts:140-147 | the loop deletes exactly the expired entries |
| `Vehicles.BookingsAgreeWithDeliveries` | src/modules/orders/orders.service.ts:506-788 | over every run of requests taken one at a time, a vehicle's active order is o exactly when o is a live delivery naming it |
| `Vehicles.LiveDeliveriesAreEquipped` | src/modules/orders/orders.service.ts:604-616 | over every run each live delivery has a driver, a truck and a tank that can carry its quantity and grade |
| `Vehicles.AssignsExactlyWhen` | src/modules/dispatch/services/dispatch.service.ts:291-360 | an assignment goes through if and only if the order awaits one, what it names is free and in service, and the tank can carry it |
| `Vehicles.ReassignsExactlyWhen` | src/modules/orders/orders.service.ts:548-642 | a reassignment goes through if and only if the order has not departed, the pair is in service and free of other orders, and the tank can carry it |
| `Vehicles.FinishedOrderHoldsNothing` | src/modules/orders/orders.service.ts:644-788 | a cancelled, completed or force-completed order holds no driver, truck or tank, frees its driver, and disturbs no booking of another order |
| `Vehicles.FinishesExactlyWhen` | src/modules/orders/orders.service.ts:644-788 | cancelling, completing and force-completing go through if and only if the order stands where each may, leave it finished and touch no other |
| `Vehicles.MovesExactlyWhen` | src/modules/orders/services/order-state.service.ts:125-172 | every other move goes through if and only if it is along an edge that neither starts nor ends a delivery, and moves only the status |
| `OrderStates.EdgesInto` | src/modules/orders/services/order-state.service.ts:36-92 | what leads into each status: nothing back to the start, nothing out of a finished order, and only an override skips a delivery stage |
| `Vehicles.ReassignedOrderHoldsExactlyTheNewPair` | src/modules/orders/orders.service.ts:548-642 | a reassigned order holds exactly the new pair, even if it equals the old, and keeps its driver |
| `Vehicles.ReassigningToTheSamePairSucceeds` | src/modules/orders/orders.service.ts:563-609 | renaming the pair it has commits and changes nothing |
| `Vehicles.Dispatcher.ReleaseDriverIfAssigned` | src/modules/orders/orders.service.ts:506-539 | releases each resource only if it is still this order's |
| `Vehicles.Dispatcher.FinishOrder` | src/modules/orders/orders.service.ts:644-788 | releases and transitions together, or changes nothing |
| `Vehicles.Dispatcher.ReassignVehicle` | src/modules/orders/orders.service.ts:548-642 | swaps the pair, or refuses and changes nothing |
| `VehicleRace.FinishKeepsExactlyWhen` | src/modules/orders/orders.service.ts:506-788 | a finish from an earlier read keeps bookings and deliveries agreed if and only if the document read names what a live delivery names now |
| `VehicleRace.ReassignKeepsExactlyWhen` | src/modules/orders/orders.service.ts:548-642 | a reassignment from an earlier read does if and only if the delivery is still live and the pair read is its pair now |
| `VehicleRace.AgreementHoldsExactlyWhileUpToDate` | src/modules/orders/orders.service.ts:548-788 | in every interleaving of reads and writes they agree throughout if and only if no request committed from a stale document |
| `VehicleRace.CancelOvertakenByReassignment` | src/modules/orders/orders.service.ts:623-668 | a reassignment between a cancellation's read and write leaves the new truck on the cancelled order |
| `VehicleRace.ReassignmentOvertakenByCancel` | src/modules/orders/orders.service.ts:548-642 | a cancellation between a reassignment's read and write does the same |
| `VehicleRace.ReassignableIsReachable` | src/modules/orders/orders.service.ts:548-642 | a run from an idle yard to an order that could be given another truck |
| `VehicleRace.FreshReadIsOneStep` | src/modules/orders/orders.service.ts:506-788 | with nothing between read and write these are the one-step requests |

## Left out

- Controllers, validation, guards, configuration, notifications, queues and sockets: wiring around the operations modelled.
- Cursor encoding and decoding, including the refusal of a malformed cursor: a cursor is its decoded sort values.
- Signature computation: whether a delivery is signed is an input.
- Binary floating point: figures are exact before rounding; the source rounds the noise away.
- Mixed-type and null ordering in the database: sort values are integers present on every row.
- The save-time and aggregate hooks of the tenant and multi-party plugins: they force one field or splice one stage, and only add easy members.
- Invoice fields with no part in a balance (payer, price breakdown, settlement time) and `voidInvoice` called without a session, which no caller does.
- Concurrent ceiling checks: the code has no shared write there, so the ceiling results are about transactions run one at a time.
- LedgerProofs.CashbackOwedNeverNegative: payouts run one at a time; `PayoutRace` says what concurrent ones can do.
- CreditRace.CreditIsNeverOvercommitted: the commission-ceiling check is not part of an approval there; it can only refuse more.
- Exchange: offers migrated from the older request flow (two-party, CLOSED_NO_AWARD), and the notification fan-out.
- Lease: the switch that turns arbitration off, and an unreachable lease store, both of which take no lease.
- Throttle: several limits on one key; a configuration is fixed for the hits considered, and what the shared store counts is its own.
- Vehicles: taking a truck or tank out of service, and the driver-eligibility and warehouse checks of assignment.
- Vehicles.BookingsAgreeWithDeliveries: takes the read of an order and the later write as one step; `VehicleRace` separates them for finishing and reassigning, not for assignment.
- Vehicles.FinishedOrderHoldsNothing: likewise one step; `VehicleRace.FinishKeepsExactlyWhen` is the condition with separate reads.
- Payments.PaymentsService.Handle: the object handles a delivery without interruption; interruption and crashes are in `Payments.Serve`.
- Payments: an answer lost to a failure after the last write, and a cancellation whose read of the order is overtaken.
- Routing, supplier-invoice extraction, session handling, migrations and seed scripts: not part of this model.
