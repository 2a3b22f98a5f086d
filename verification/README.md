# CraftMind AI: verified models

CraftMind AI is a multi-tenant back end for field-service companies. This project models the parts of it
that keep state under concurrent database transactions, its right-to-left text layout, and its codecs, and
proves what they promise. `dafny verify dfyconfig.toml` checks everything.

## How the models are built

Code that runs as concurrent transactions is a state machine: `Apply(s, a)` is one statement (or one
uninterruptible group of statements) of one transaction, and `Run(acts)` is the state after any interleaving
`acts`. The machine follows READ COMMITTED: an UPDATE waits while another transaction holds the row and then
re-evaluates its condition on the committed row, and a statement that must wait or does not apply leaves the
state as it is. Theorems about `Run(acts)` therefore hold for every interleaving, crash and rollback.

Beside each machine stands a class (`Database`, `SessionRow`, `KeyTable`, `StateService`, `Dispatcher`) whose
fields are the tables and whose methods are the program's own methods, loops included. A method records its
statements in a ghost `schedule`, and `Valid()` ties the fields to the machine's state after that schedule,
so a contract `schedule == old(schedule) + [a]` fixes the whole new state. `Yield` stands for the steps of
others: its body is empty, and callers know only its contract, which allows any steps of the other
transactions (`OthersMayRun` in each of these modules).

The small functions that machines and methods share are pinned by laws that do not name them, so that none can
change without a law failing: `Checklist.LineTotal` and `TotalIsSum`; `Billing.LineOfOne`, `LinesOfConcat`, `LinesOfTasks`,
`TickedCodesAre` and `PriceOfOne`; `Stock.CreatesExactlyWhen`; `Booking.RowSteps`; `Invoicing.FnvVectors`; the lemmas of `BidiShown`;
`Onboarding.WellFormedOfConcat` and `WellFormedOfOne`; `CanonicalJson.EscapeIs`, `NumeralsAre`, `QuoteCons`, `ScalarsPrint`, `ItemsPrint`
and `MembersPrint`; `Scheduling.EligibleOfConcat`, `EligibleOfOne` and `ScoreIs`; `OAuthState.AdmitsIs`; `Secrets.ParseKeyIs`,
`KeyForIs`, `ThreeParts`, `FourParts` and `OtherParts`.

| file | what it models |
|---|---|
| `Stock.dfy`, `StockService.dfy`, `Checklist.dfy` | closing a task, delivering its event, consuming stock, adjusting stock |
| `Invoicing.dfy`, `InvoicingService.dfy`, `Billing.dfy` | two-transaction billing under an advisory lock, line items, estimates |
| `Bidi.dfy`, `BidiShown.dfy`, `BidiRuns.dfy`, `BidiRoundTrip.dfy` | direction resolution, runs, visual reordering (Unicode Standard Annex #9, sections 3.3.5 and 3.4) |
| `Onboarding.dfy`, `OnboardingService.dfy` | a chat session's call budget, version fencing and conversation |
| `Idempotency.dfy`, `IdempotencyInterceptor.dfy`, `CanonicalJson.dfy` | idempotency keys and the request fingerprint |
| `Booking.dfy`, `BookingService.dfy` | single-use booking links and the equipment lock |
| `Scheduling.dfy`, `SchedulingService.dfy` | choosing a technician under a lock |
| `Outbox.dfy`, `OutboxService.dfy` | claiming, enqueueing and settling outbox events |
| `Route.dfy`, `QuotedPrintable.dfy`, `OAuthState.dfy`, `Secrets.dfy` | route order, quoted-printable, one-shot OAuth states, secrets under key rotation |

## Where the code and its comments disagree

The models follow the code.

- Onboarding: a comment says a parallel request is refused before it spends a call. A request that loads after
  another has reserved is not refused; it fences the earlier one out at its final write
  (`Onboarding.LaterRequestIsNotRefused`, `Onboarding.FencedForGood`). Document uploads can carry the count past
  the cap (`Onboarding.CapExcessIsReached`).
- Idempotency: a comment says that after a failed store a retry executes again. The row stays unanswered and
  every retry gets 409 (`Idempotency.LostStoreLocksTheKey`). Nothing deletes expired rows.
- Fingerprint: keys are sorted with `localeCompare`, which may call different keys equal; exactly the
  bodies with such keys in one object have several fingerprints (`CanonicalJson.OneFingerprintExactlyWhenUntied`). Non-finite numbers and `null` print alike.
- Outbox: comments promise that an unpublished row is picked up again. Only pending rows are claimed, so a
  publisher that dies after its claim strands its rows in process (`Outbox.CrashLoses`, `Outbox.ClaimAndCrashLoses`);
  `Outbox.LostExactlyWhen` says which steps lose an event. A row whose handlers succeeded but whose mark failed on
  the last attempt is reported dead all the same (`Outbox.DeadThoughHandled`, `Outbox.ReportedDeadExactlyWhen`).
- Estimates: the estimator's comment claims the invoice's rules. It ticks only `true` and accepts an empty code,
  the invoice ticks anything truthy and skips an empty code (`Billing.TaskTotalVersusEstimate`). The closing request
  validates both fields (`close-task.dto.ts`), so only rows stored otherwise show the difference; both functions read
  untyped JSON.
- Layout: Arabic-Indic digits are both right-to-left and digits, so the visual order is its own inverse only on
  steady lines (`BidiRoundTrip.VisualLineTwice`).
- Secrets: the empty string can be encrypted and not decrypted (`Secrets.DecryptUndoesEncrypt`).
- OAuth states: single use holds exactly for calls whose sweep comes within the minute of grace after the second of
  the verification (`OAuthState.RefusesUsedExactlyWhenPrompt`, `OAuthState.StalledCallAcceptsTwice`).

## Model

| member | source | states |
|---|---|---|
| `Stock.StockReconciles` | project-skeleton/src/modules/inventory/inventory.service.ts:136-163 | over every interleaving each item's quantity is the sum of its committed deltas, every `quantityAfter` is the running total in commit order, and none is negative |
| `Stock.TakenNothingOrExactly` | project-skeleton/src/modules/inventory/inventory.service.ts:94-166 | of each item a task takes nothing, or, once closed, exactly the summed quantity its final checklist ticks for that SKU, however often its event is delivered |
| `Stock.ClosedForGood` | project-skeleton/src/modules/tasks/tasks.service.ts:318-374 | a closed task stays closed with its checklist frozen and exactly one `task.closed` event, in every continuation |
| `Stock.SecondDelivery` | project-skeleton/src/modules/inventory/inventory.service.ts:111-166 | whatever happens after a committed delivery, a later delivery for the same task takes of no item the first one knew, and changes no row when it knows no others |
| `Stock.LoopSucceedsIffCovered` | project-skeleton/src/modules/inventory/inventory.service.ts:124-157 | undisturbed, the decrement loop gets through exactly when every item still to deduct covers its total, in any order; otherwise the transaction ends with no row changed |
| `Stock.PlanIsOwed` | project-skeleton/src/modules/inventory/inventory.service.ts:396-410 | the plan has an SKU exactly when the checklist's total of it is positive, with that total |
| `Stock.PlanSumsLines` | project-skeleton/src/modules/inventory/inventory.service.ts:396-410 | an SKU is in the plan exactly when some ticked line carries it, with the sum of what those lines take: a line's quantity when that is a positive whole number, otherwise one |
| `Stock.WaitsExactlyWhen` | project-skeleton/src/modules/inventory/inventory.service.ts:192-207 | a decrement waits exactly while another transaction has a pending movement of the item |
| `Stock.ReasonsAlwaysFit` | project-skeleton/src/modules/inventory/inventory.service.ts:318-362 | over every run consumptions and only they carry a task, restocks add, and manual corrections do not |
| `Checklist.ConsumptionPlan` | project-skeleton/src/modules/inventory/inventory.service.ts:396-410 | the loop visits each planned SKU once, in first-occurrence order, with the sum of what its ticked lines take: a positive whole quantity as it is, any other as one |
| `Checklist.TotalIsSum` | project-skeleton/src/modules/inventory/inventory.service.ts:400-407 | a checklist's total of an SKU is the sum, line by line, of the quantity of a ticked line of that SKU (one when it is no positive whole number) and nothing for any other line |
| `Checklist.TotalIgnoresOrder` | project-skeleton/src/modules/inventory/inventory.service.ts:396-410 | permuting the lines changes no SKU's total |
| `Checklist.TotalIgnoresSplits` | project-skeleton/src/modules/inventory/inventory.service.ts:389-407 | splitting a ticked line into several of the same SKU and sum changes no SKU's total |
| `Checklist.TotalIsPositiveExactlyWhenTicked` | project-skeleton/src/modules/inventory/inventory.service.ts:400-407 | an SKU has a positive total exactly when some line consumes it |
| `StockService.Database.CloseTask` | project-skeleton/src/modules/tasks/tasks.service.ts:310-380 | closes exactly an existing task that is not closed, with the final checklist if one is given, appending one event; otherwise tells the two refusals apart and changes nothing |
| `StockService.Database.DecrementOrFail` | project-skeleton/src/modules/inventory/inventory.service.ts:192-207 | succeeds exactly when the committed quantity covers the need (and the need fits the column's integer type); failure ends the transaction |
| `StockService.Database.UpdateIfNotNegative` | project-skeleton/src/modules/inventory/inventory.service.ts:325-346 | adjusts exactly when the result is neither negative nor above the column's maximum, and tells a missing item, a shortfall and the overflow apart |
| `StockService.Database.AdjustQuantity` | project-skeleton/src/modules/inventory/inventory.service.ts:318-362 | an accepted adjustment leaves its movement, with the new quantity and the right reason, as the last committed row; a refused one commits nothing, and the item is missing, the result negative or too large, or the row held by another transaction as reported |
| `StockService.Database.WriteAndCommit` | project-skeleton/src/modules/inventory/inventory.service.ts:159-166 | the movements are written exactly when no committed row has the task, item and reason of one of them, all of them or none |
| `StockService.Database.ReadTask` | project-skeleton/src/modules/inventory/inventory.service.ts:96-103 | the plan read is that of the closed task's checklist |
| `StockService.Database.ReadRecorded` | project-skeleton/src/modules/inventory/inventory.service.ts:111-119 | the loop's work is the known items without a committed consumption by the task, each with its planned quantity |
| `StockService.Database.DeductPlanned` | project-skeleton/src/modules/inventory/inventory.service.ts:124-157 | the loop skips unknown and already deducted SKUs and ends with nothing left to deduct, or names a SKU of which the task takes more than there is, with nothing committed |
| `StockService.Database.ConsumeForTask` | project-skeleton/src/modules/inventory/inventory.service.ts:94-166 | after a delivery that succeeds every item the catalogue had under a planned SKU is deducted; one that meets the unique key has found a row of its own task and changed none; a reported shortfall is one; one that gives up has met another transaction at a row and committed nothing |
| `Invoicing.NumbersAreGapless` | project-skeleton/src/modules/invoicing/invoicing.service.ts:289-303 | over every interleaving, rollbacks and lock-key collisions included, each tenant's committed numbers are 1, 2, 3, ... in commit order |
| `Invoicing.NothingIsBilledTwice` | project-skeleton/src/modules/invoicing/invoicing.service.ts:211-228 | no (task, code) stands on two lines of any committed invoices |
| `Invoicing.TotalsAddUp` | project-skeleton/src/modules/invoicing/invoicing.service.ts:162-208 | a committed invoice's lines are those of its tasks at its prices, the tasks are the customer's, closed within its period, its total is the sum of the lines and equals the sum of the tasks' estimates up to the stated discrepancy |
| `Invoicing.BilledWithinPeriod` | project-skeleton/src/modules/invoicing/invoicing.service.ts:131-150 | over every run each task behind a committed invoice is of its tenant and customer, closed within its period, and billed by the checklist it was closed with |
| `Invoicing.SelectsWithinPeriod` | project-skeleton/src/modules/invoicing/invoicing.service.ts:139-147 | the query selects exactly the customer's tasks closed within the period, both ends included, less the excluded ones |
| `Invoicing.PricesAreTheTenants` | project-skeleton/src/modules/invoicing/invoicing.service.ts:155-159 | over every run the prices behind a committed invoice were the price list of its own tenant at some moment of the run |
| `Invoicing.NumberIsAlwaysFree` | project-skeleton/src/modules/invoicing/invoicing.service.ts:278-303 | a number read under the lock is above every committed number of the tenant, so the unique key on numbers never fires |
| `Invoicing.MaxIsCount` | project-skeleton/src/modules/invoicing/invoicing.service.ts:292-296 | the maximum number of a tenant is the count of its invoices |
| `Invoicing.TenantLockKey` | project-skeleton/src/modules/invoicing/invoicing.service.ts:57-66 | the loop computes the 32-bit FNV-1a hash of the tenant id |
| `Invoicing.FnvVectors` | project-skeleton/src/modules/invoicing/invoicing.service.ts:57-66 | published values of the 32-bit FNV-1a hash |
| `InvoicingService.Database.AwaitLock` | project-skeleton/src/modules/invoicing/invoicing.service.ts:289-290 | the lock is taken exactly when no other run holds one with the same key, even for another tenant |
| `InvoicingService.Database.AllocateInvoiceNumber` | project-skeleton/src/modules/invoicing/invoicing.service.ts:289-303 | the number read is one more than the tenant's committed invoices |
| `InvoicingService.Database.WriteInvoice` | project-skeleton/src/modules/invoicing/invoicing.service.ts:199-231 | the invoice is committed with all its lines exactly when none repeats a billed (task, code), and not at all otherwise |
| `InvoicingService.Database.GenerateInvoice` | project-skeleton/src/modules/invoicing/invoicing.service.ts:112-231 | a created invoice is the last committed one, of this customer for this period, with the next number of the tenant, and bills tasks closed within the period; nothing to bill means that each such task was on one of its invoices already, or that they have no line at the price list; an invoice refused as billed repeats a billed line and changes nothing; a failure means that another run holds the lock key, and writes nothing |
| `Billing.PrepareLines` | project-skeleton/src/modules/invoicing/invoicing.service.ts:162-190 | the nested loops produce the billable lines in order and their sum, or fail exactly when some checklist cannot be iterated or holds a null line |
| `Billing.EstimateFromChecklist` | project-skeleton/src/common/checklist-estimate.ts:4-15 | the loop computes the prices of the distinct ticked codes |
| `Billing.LinesSumToCodes` | project-skeleton/src/modules/invoicing/invoicing.service.ts:162-190 | one task's lines without duplicates sum to the prices of the set of codes they bill |
| `Billing.TaskTotalVersusEstimate` | project-skeleton/src/common/checklist-estimate.ts:9-12 | a task's duplicate-free lines and its estimate differ by exactly two kinds of odd lines: ticks that are truthy but not `true`, and a priced empty code |
| `Billing.TaskAgreesExactlyWhenLooseIsFree` | project-skeleton/src/common/checklist-estimate.ts:8-12 | with no negative price and the empty code unpriced, a task's duplicate-free lines add up to its estimate exactly when every code ticked only loosely is free |
| `Billing.TaskAgreesExactlyWhen` | project-skeleton/src/common/checklist-estimate.ts:8-12 | for any prices they agree exactly when the codes ticked only loosely cost as much as the ticked empty code |
| `Billing.TotalVersusEstimates` | project-skeleton/src/common/checklist-estimate.ts:3-15 | the same for whole invoices: total equals the sum of estimates plus that discrepancy |
| `Billing.TidyTotalsAgree` | project-skeleton/src/common/checklist-estimate.ts:3-15 | when every truthy tick on a priced line is `true` and no priced ticked code is empty, the discrepancy is zero; lines without a tick are fine |
| `Billing.ValidatedIsTidy` | project-skeleton/src/common/checklist-estimate.ts:8-12 | lines with a boolean tick or none, and without an empty code, are tidy at any prices |
| `Billing.LooseTickIsBilledOnly` | project-skeleton/src/common/checklist-estimate.ts:9 | a stored line ticked with 1 is billed and not estimated |
| `Bidi.ResolvesByN1` | project-skeleton/src/modules/invoicing/hebrew-text.util.ts:97-123 | the two scans decide exactly rules N1 and N2: a position resolves left-to-right iff strong left-to-right stands on both sides with no right-to-left between |
| `Bidi.ResolveDirections` | project-skeleton/src/modules/invoicing/hebrew-text.util.ts:82-124 | the in-place passes over the class array compute the glue pass followed by that resolution |
| `Bidi.ReorderUndoes` | project-skeleton/src/modules/invoicing/hebrew-text.util.ts:133-160 | reordering and mirroring by the directions read backwards restores the line |
| `BidiShown.DirectionIs` | project-skeleton/src/modules/invoicing/hebrew-text.util.ts:42-124 | a character goes left-to-right exactly within a stretch that starts and ends with Latin letters, European digits or punctuation inside a number, and holds no Hebrew or Arabic code point |
| `BidiShown.RtlShown` | project-skeleton/src/modules/invoicing/hebrew-text.util.ts:51-60 | every other character stands at its place counted from the right, turned round if it is a bracket or guillemet, and as itself if not |
| `BidiShown.LtrShown` | project-skeleton/src/modules/invoicing/hebrew-text.util.ts:133-160 | a maximal left-to-right stretch stands at its place counted from the right, in reading order |
| `BidiRuns.RunsAlternate` | project-skeleton/src/modules/invoicing/hebrew-text.util.ts:139-154 | runs are not empty and neighbouring runs differ in direction |
| `BidiRuns.VisualRunsAreVisualLine` | project-skeleton/src/modules/invoicing/hebrew-text.util.ts:139-160 | the run list spells rules L2 and L4: the whole line reversed, each left-to-right run reversed back, right-to-left characters mirrored |
| `BidiRuns.LayoutRtlRuns` | project-skeleton/src/modules/invoicing/hebrew-text.util.ts:133-160 | the run-building loop returns those runs; in logical order they hold the line, each left-to-right character as it is and each other one facing the other way, and go left-to-right exactly where the line does |
| `BidiRoundTrip.VisualLineTwice` | project-skeleton/src/modules/invoicing/hebrew-text.util.ts:82-160 | laying a line out twice restores it exactly when every left-to-right run is steady: number punctuation next to an Arabic-Indic digit plays the same part at both ends |
| `BidiRoundTrip.ToVisualTwice` | project-skeleton/src/modules/invoicing/hebrew-text.util.ts:166-178 | laying a text out twice restores it exactly when nothing in it is right-to-left or every line is steady |
| `BidiRoundTrip.ToVisualIs` | project-skeleton/src/modules/invoicing/hebrew-text.util.ts:166-178 | text without a Hebrew or Arabic code point is left alone; any other is laid out line by line |
| `BidiRoundTrip.AsciiDigitsRoundTrip` | project-skeleton/src/modules/invoicing/hebrew-text.util.ts:166-178 | every text without Arabic-Indic digits is restored |
| `BidiRoundTrip.MixedDigitsDoNotRoundTrip` | project-skeleton/src/modules/invoicing/hebrew-text.util.ts:43-47 | a line that is not restored: a full stop between an ASCII and an Arabic-Indic digit |
| `BidiRoundTrip.GlueChangesNothing` | project-skeleton/src/modules/invoicing/hebrew-text.util.ts:85-95 | unless number punctuation touches an Arabic-Indic digit, the numeric-glue pass changes no resolved direction |
| `BidiRoundTrip.ShownVerbatim` | project-skeleton/src/modules/invoicing/hebrew-text.util.ts:82-160 | text that starts and ends left-to-right with nothing right-to-left inside (amounts, dates, codes) appears unchanged in the visual line |
| `BidiRoundTrip.VisualLineBackwards` | project-skeleton/src/modules/invoicing/hebrew-text.util.ts:82-160 | laying out a line read backwards gives its visual form read backwards |
| `Onboarding.CallsStayWithinBudget` | project-skeleton/src/modules/onboarding/onboarding.service.ts:168-190 | over every interleaving successful model calls never exceed the count, and the count exceeds the cap by at most min(5, uploads) |
| `Onboarding.ChatAloneRespectsCap` | project-skeleton/src/modules/onboarding/onboarding.service.ts:168-190 | with chat requests alone the count never exceeds the cap |
| `Onboarding.CallsAreCounted` | project-skeleton/src/modules/onboarding/onboarding.service.ts:223-271 | the calls made go up by one at each successful call of a request within its budget, and at nothing else |
| `Onboarding.CapIsExceededExactlyWhen` | project-skeleton/src/modules/onboarding/onboarding.service.ts:168-184 | over a run the count exceeds the cap exactly when some reservation takes more than is left of the cap by then |
| `Onboarding.CapExcessIsReached` | project-skeleton/src/modules/onboarding/document-learning.service.ts:95-104 | the excess of five is reached by uploads between loading and reserving |
| `Onboarding.CommitAppendsOneExchange` | project-skeleton/src/modules/onboarding/onboarding.service.ts:275-313 | a final write that takes effect appends exactly the user's and the assistant's message to the committed conversation, and changes nothing otherwise |
| `Onboarding.ConversationOnlyGrows` | project-skeleton/src/modules/onboarding/onboarding.service.ts:298-313 | no committed message is ever lost or altered, whoever fences whom |
| `Onboarding.TwoMessagesPerCommit` | project-skeleton/src/modules/onboarding/onboarding.service.ts:275-313 | the conversation is the greeting plus two messages for each committed turn |
| `Onboarding.LaterRequestIsNotRefused` | project-skeleton/src/modules/onboarding/onboarding.service.ts:177-189 | in every reachable state in progress below the cap, whoever is talking, a request that loads and reserves undisturbed is accepted and fences out every request that was talking, contrary to the comment |
| `Onboarding.FencedForGood` | project-skeleton/src/modules/onboarding/onboarding.service.ts:298-313 | a request whose reserved version has been passed can never write again |
| `Onboarding.OneRequestCanWrite` | project-skeleton/src/modules/onboarding/onboarding.service.ts:181-190 | at most one request, the last to reserve, can still write or give back |
| `Onboarding.FinalizedForGood` | project-skeleton/src/modules/onboarding/onboarding-finalize.service.ts:104-113 | once finalised, the conversation, version and status of a session never change again, whatever is still in flight |
| `OnboardingService.SessionRow.Converse` | project-skeleton/src/modules/onboarding/onboarding.service.ts:223-271 | the tool loop makes at most its budget of calls, ends at the first answer without tool calls or at the budget, and fails only at a failed call; its text is that of the last answer, or the stated default when that has none |
| `OnboardingService.SessionRow.SendMessage` | project-skeleton/src/modules/onboarding/onboarding.service.ts:156-316 | a reply is the text of the answer at which the talk ended (or the stated default), the conversation ends in this exchange, and the request is charged exactly its calls; a conflict means that another request or the end of the talk came first, before the reservation or after it, an outage that a call failed, the other refusals what was loaded |
| `OnboardingService.SessionRow.TalkReserved` | project-skeleton/src/modules/onboarding/onboarding.service.ts:205-330 | what follows the reservation: every outcome ends the request, a failure gives the unused calls back first |
| `OnboardingService.SessionRow.ReserveBudget` | project-skeleton/src/modules/onboarding/onboarding.service.ts:181-190 | the reservation is made exactly when the version is the loaded one and the session in progress; it charges the budget, moves the version on and keeps the well-formed stored messages |
| `OnboardingService.SessionRow.WriteBack` | project-skeleton/src/modules/onboarding/onboarding.service.ts:298-313 | the write takes effect exactly when the version is the reserved one; it appends the exchange to the conversation as it stands and gives back the unused calls |
| `OnboardingService.SessionRow.ReleaseReservation` | project-skeleton/src/modules/onboarding/onboarding.service.ts:318-327 | unused calls are given back exactly when the version is the reserved one; the conversation is left alone |
| `Idempotency.OneExecutionWins` | project-skeleton/src/common/interceptors/idempotency.interceptor.ts:111-126 | of two requests for one (tenant, key, endpoint) at most one holds the claim or has succeeded, over every interleaving with late or lost stores and releases |
| `Idempotency.SuccessIsForGood` | project-skeleton/src/common/interceptors/idempotency.interceptor.ts:111-182 | once a request has succeeded no other request for its slot ever executes again |
| `Idempotency.ReplaysTheWinner` | project-skeleton/src/common/interceptors/idempotency.interceptor.ts:130-150 | a replayed answer is that of the one execution that succeeded, for the same fingerprint |
| `Idempotency.RetryGets` | project-skeleton/src/common/interceptors/idempotency.interceptor.ts:107-151 | on a settled slot a retry executes exactly when the row is gone; otherwise, ever after, it gets 422 exactly for another body, 409 exactly for the same body unanswered, and exactly the stored answer for the same body |
| `Idempotency.SettlingStep` | project-skeleton/src/common/interceptors/idempotency.interceptor.ts:153-182 | a store that happens leaves the row with this body and answer, a release that happens frees the slot |
| `Idempotency.LostStoreLocksTheKey` | project-skeleton/src/common/interceptors/idempotency.interceptor.ts:168-172 | a success whose store is lost is not executed again: its retries get 409 for ever, contrary to the comment |
| `IdempotencyInterceptor.KeyTable.Claim` | project-skeleton/src/common/interceptors/idempotency.interceptor.ts:107-151 | the claim succeeds exactly when the slot has no row, and then owns it unanswered; otherwise the verdict on the row found by the second read |
| `IdempotencyInterceptor.KeyTable.Store` | project-skeleton/src/common/interceptors/idempotency.interceptor.ts:153-173 | the slot's row, still the request's own, gets the answer; nothing else changes |
| `IdempotencyInterceptor.KeyTable.Release` | project-skeleton/src/common/interceptors/idempotency.interceptor.ts:175-182 | the slot's row, still the request's own and unanswered, is deleted; nothing else changes |
| `IdempotencyInterceptor.KeyTable.Intercept` | project-skeleton/src/common/interceptors/idempotency.interceptor.ts:52-104 | which requests go unguarded or are refused for their key; an executed success excludes every other, a replay copies one for the same body |
| `CanonicalJson.PrintIsCanonical` | project-skeleton/src/common/interceptors/idempotency.interceptor.ts:195-202 | under any preorder of keys a body without tied keys prints like another exactly when the two are equal up to the order of object members |
| `CanonicalJson.OneFingerprintExactlyWhenUntied` | project-skeleton/src/common/interceptors/idempotency.interceptor.ts:195-202 | a body prints the same in every order of its object members exactly when no object inside it has two keys the comparator cannot tell apart |
| `CanonicalJson.PrintIsFaithful` | project-skeleton/src/common/interceptors/idempotency.interceptor.ts:195-202 | under any comparator bodies that print alike are equal up to the order of object members |
| `CanonicalJson.CanonicalExactlyWhenAntisymmetric` | project-skeleton/src/common/interceptors/idempotency.interceptor.ts:199 | as a corollary, all bodies have one fingerprint exactly for comparators that never call two different keys equal |
| `CanonicalJson.TiedKeysPrintTwice` | project-skeleton/src/common/interceptors/idempotency.interceptor.ts:199 | the smallest case: two keys the comparator ties give one body two fingerprints |
| `CanonicalJson.SortBeforePrinting` | project-skeleton/src/common/interceptors/idempotency.interceptor.ts:198-200 | sorting members before or after printing their values is the same |
| `CanonicalJson.MembersPrint` | project-skeleton/src/common/interceptors/idempotency.interceptor.ts:189-202 | two members print in the order of their keys, whichever way the body has them |
| `CanonicalJson.OutPrefix` | project-skeleton/src/common/interceptors/idempotency.interceptor.ts:195-202 | a printed value delimits itself: value and rest can be read back from any continuation that is no numeral |
| `CanonicalJson.SortMap` | project-skeleton/src/common/interceptors/idempotency.interceptor.ts:198-199 | the stable sort loses, adds and changes no member |
| `Booking.OneOpenTask` | project-skeleton/src/modules/equipment/equipment.service.ts:268-298 | in every reachable state a piece of equipment has at most one open task |
| `Booking.UsedLinksMatchTasks` | project-skeleton/src/modules/equipment/equipment.service.ts:261-304 | used links and tasks correspond one to one, each pair about the same equipment, with one event per task |
| `Booking.BookedWhileActive` | project-skeleton/src/modules/equipment/equipment.service.ts:270-278 | a booking commits only for equipment that is active and has no open task at that moment |
| `Booking.AloneBooksExactlyWhen` | project-skeleton/src/modules/equipment/equipment.service.ts:259-308 | undisturbed, a booking goes through exactly for an unused link to active equipment without open task, and otherwise changes nothing |
| `Booking.WaitsExactlyWhen` | project-skeleton/src/modules/equipment/equipment.service.ts:261-275 | in every reachable state a booking waits exactly for a transaction that has marked its link, or that holds the row of its equipment |
| `BookingService.Database.MarkLink` | project-skeleton/src/modules/equipment/equipment.service.ts:261-265 | the conditional update counts no row exactly when the link was used |
| `BookingService.Database.LockEquipment` | project-skeleton/src/modules/equipment/equipment.service.ts:270-275 | the lock is taken exactly on an active row; otherwise the mark is rolled back |
| `BookingService.Database.CheckOpenTask` | project-skeleton/src/modules/equipment/equipment.service.ts:312-318 | finds an open task of the equipment exactly when there is one, and then rolls back |
| `BookingService.Database.InsertAndCommit` | project-skeleton/src/modules/equipment/equipment.service.ts:286-305 | commits the used link, the open task and its event together and nothing else |
| `BookingService.Database.Book` | project-skeleton/src/modules/equipment/equipment.service.ts:246-308 | a booked visit is the only open task of its equipment, made by this link, which is used; a refusal commits nothing, and the link is used, the equipment inactive, its visit arranged, or another booking at the same link or equipment, as reported |
| `Scheduling.LoadsAreEven` | project-skeleton/src/modules/scheduling/scheduling.service.ts:131-202 | with a positive load weight, tasks of one required skill without place, a fixed staff and even writes, every eligible technician holds the floor or the ceiling of the average, over every interleaving of runs |
| `Scheduling.BalancedThroughoutExactlyWhenEven` | project-skeleton/src/modules/scheduling/scheduling.service.ts:131-202 | under the same conditions the eligible stay balanced throughout a run exactly when every write is even: to a new task, back to its holder, or on from someone with a higher load |
| `Scheduling.BalancedExactlyWhenEven` | project-skeleton/src/modules/scheduling/scheduling.service.ts:192-195 | giving a task of the crew to a least loaded member keeps the balance exactly when the move is even |
| `Scheduling.ChoiceIsBestWhenWritten` | project-skeleton/src/modules/scheduling/scheduling.service.ts:217-227 | while no task is finished, a choice made under the lock is still a first one of maximal score at the loads of its write |
| `Scheduling.BestIsLeastLoaded` | project-skeleton/src/modules/scheduling/scheduling.service.ts:161-186 | for a task without place a candidate of best score is a least loaded one of those with its skill |
| `Scheduling.BestIsNearest` | project-skeleton/src/modules/scheduling/scheduling.service.ts:161-186 | among equally loaded technicians with a home a candidate of best score is a nearest one |
| `Scheduling.BestIsUnique` | project-skeleton/src/modules/scheduling/scheduling.service.ts:184-186 | loads, task and staff leave one choice: the first candidate of maximal score |
| `Scheduling.ScoreIs` | project-skeleton/src/modules/scheduling/scheduling.service.ts:161-183 | the weighted score, cleared of fractions: an unknown place counts as one kilometre, and a task without a skill as half a match |
| `Scheduling.FinishedLoads` | project-skeleton/src/modules/scheduling/scheduling.service.ts:141-157 | finishing a task takes it off the load of whoever had it assigned or in progress, and of no one else |
| `Scheduling.ReassigningUnbalances` | project-skeleton/src/modules/scheduling/scheduling.service.ts:192-195 | a run from the empty company in which an assigned task is assigned again and one technician ends up with both tasks |
| `SchedulingService.Database.PickBest` | project-skeleton/src/modules/scheduling/scheduling.service.ts:159-189 | the scoring loop returns the first, hence lowest-id, candidate of maximal score |
| `SchedulingService.Database.LockStaff` | project-skeleton/src/modules/scheduling/scheduling.service.ts:131-139 | the eligible are the staff with the required skill, or all when none is required; with none the run ends |
| `SchedulingService.Database.WriteAssignment` | project-skeleton/src/modules/scheduling/scheduling.service.ts:192-200 | the task is written exactly when it is still new or assigned, and nothing else is |
| `SchedulingService.Database.AssignWithin` | project-skeleton/src/modules/scheduling/scheduling.service.ts:102-203 | the written user is a best candidate for the task as read, at the loads counted under the lock; a timeout means that another run holds the lock, a change that the task is no longer new or assigned; the other refusals are told apart |
| `Route.OrderStops` | project-skeleton/src/modules/field-route/route.ts:24-56 | the route is a permutation: scheduled stops in stable order of their start, located ones each nearest to where the stop before it was (the first to the last scheduled place or else the start), and the rest in order |
| `Route.NearestNeighbours` | project-skeleton/src/modules/field-route/route.ts:37-53 | every stop visited is nearer than all later ones from where the technician then stands, or as near and earlier in the list |
| `Route.Nearest` | project-skeleton/src/modules/field-route/route.ts:40-49 | the inner loop finds the first stop at the smallest distance, or the first stop without a known place |
| `Route.GreedyIsUnique` | project-skeleton/src/modules/field-route/route.ts:38-53 | that order is determined: two greedy orders of the same stops are equal |
| `Route.SortIsStable` | project-skeleton/src/modules/field-route/route.ts:25-27 | the scheduled stops come in time order and stops of one time keep theirs |
| `QuotedPrintable.DecodesExactlyWhen` | project-skeleton/src/modules/integrations/gmail.connector.ts:313-333 | any encoding (literal or hex tokens of either case, soft breaks of three kinds anywhere between tokens) decodes to its bytes exactly when no bare-CR soft break stands before a literal line feed |
| `QuotedPrintable.StandardEncodingsDecode` | project-skeleton/src/modules/integrations/gmail.connector.ts:313-333 | every encoding with CRLF soft breaks, as in section 6.7 of RFC 2045, decodes to its bytes |
| `QuotedPrintable.UnchangedExactlyWhen` | project-skeleton/src/modules/integrations/gmail.connector.ts:313-333 | decoding changes exactly the text that has an equals sign before a line ending or before two hex digits; any other equals sign stays |
| `QuotedPrintable.Decode` | project-skeleton/src/modules/integrations/gmail.connector.ts:318-332 | the index loop reads hex pairs of the unfolded text, keeping an equals sign that starts none |
| `OAuthState.AcceptedAtMostOnce` | project-skeleton/src/modules/integrations/oauth-state.service.ts:160-203 | over any run with a monotone clock and prompt calls no state that expires is accepted twice, although old ids are swept |
| `OAuthState.AcceptedExactlyWhenFresh` | project-skeleton/src/modules/integrations/oauth-state.service.ts:160-203 | in a prompt call an expiring token is accepted exactly when it passes the checks and was not accepted before |
| `OAuthState.RefusesUsedExactlyWhenPrompt` | project-skeleton/src/modules/integrations/oauth-state.service.ts:174-203 | a call refuses every used state that expires, whatever happened before, exactly when it is prompt: its sweep comes before a minute after the end of the second of its verification |
| `OAuthState.UnexpiringIsAcceptedTwice` | project-skeleton/src/modules/integrations/oauth-state.service.ts:195-198 | a token without expiry, which this service never issues, is accepted again exactly when the later call sweeps eleven minutes or more after the first |
| `OAuthState.StalledCallAcceptsTwice` | project-skeleton/src/modules/integrations/oauth-state.service.ts:195-198 | every call that is not prompt, at any clock from ten minutes on, accepts some used state that this service issued |
| `OAuthState.StateService.Sweep` | project-skeleton/src/modules/integrations/oauth-state.service.ts:81-86 | the loop removes exactly the entries whose time has come |
| `OAuthState.StateService.Consume` | project-skeleton/src/modules/integrations/oauth-state.service.ts:74-79 | an id is taken exactly when no entry of it is left after the sweep, and is then remembered until its time |
| `OAuthState.StateService.Issue` | project-skeleton/src/modules/integrations/oauth-state.service.ts:134-153 | a signed state expires ten minutes after the second it is issued in |
| `OAuthState.StateService.VerifyAndConsume` | project-skeleton/src/modules/integrations/oauth-state.service.ts:160-203 | each refusal says why, the first failing check deciding: no cookie, no live signed token, wrong purpose, no id, another browser; a state that passes is accepted or found used, and one found used was accepted before |
| `Secrets.SecretsOutliveRotations` | project-skeleton/src/common/crypto.util.ts:120-173 | over any run of writes, rotations and other key changes that keep old keys, every secret ever written still decrypts to its plaintext exactly when that is not empty |
| `Secrets.DecryptUndoesEncrypt` | project-skeleton/src/common/crypto.util.ts:120-173 | print, split and hex round trip: decryption in any environment that keeps the key gives the plaintext, and refuses the empty one as badly formed |
| `Secrets.LegacyBlobsDecrypt` | project-skeleton/src/common/crypto.util.ts:157-165 | a blob without version decrypts with the row's version, or the first |
| `Secrets.RotationRetainsExactlyWhen` | project-skeleton/src/common/crypto.util.ts:75-88 | a rotation keeps every key exactly when the new version was not in use with a different one |
| `Secrets.ReEncryptionExactlyWhenOld` | project-skeleton/src/common/crypto.util.ts:182-189 | a blob is due for re-encryption exactly when it was written under another version than the current one |
| `Secrets.ThreeParts` | project-skeleton/src/common/crypto.util.ts:157-189 | a stored text of three parts opens with the row's version or the first, and is due for re-encryption exactly when that is not the current one |
| `Secrets.FourParts` | project-skeleton/src/common/crypto.util.ts:150-189 | one of four parts opens with the version written in it, is refused when that reads as no positive integer, and is due exactly when it is not the current one |
| `Secrets.EncryptsExactlyWhen` | project-skeleton/src/common/crypto.util.ts:120-135 | encryption succeeds exactly when the version setting reads and the current key spells 32 bytes, and reports that version |
| `Outbox.NothingIsLost` | project-skeleton/src/queue/domain-events.processor.ts:51-66 | as a corollary, in runs in which publishers do not stop with rows in hand, no job is given up unseen and last failures are recorded, every event is still due, handled, or reported dead |
| `Outbox.NeverHandledExactlyWhenIdle` | project-skeleton/prisma/migrations/20260914190231_0004_outbox_dispatch_functions/migration.sql:51-67 | an event is never handled again, whatever happens, exactly when it is neither pending, nor in a publisher's hands, nor queued |
| `Outbox.LostExactlyWhen` | project-skeleton/src/queue/outbox.publisher.ts:89-123 | after any run an unhandled, unreported event is lost exactly when some step of the run lost it: its only holder died while no job was queued, or enqueued it where the queue kept an old job that is over; or its job, held by nobody, was given up or failed for the last time unrecorded |
| `Outbox.StepLosesExactlyWhen` | project-skeleton/src/queue/domain-events.processor.ts:156-172 | one step loses an event that was not lost exactly when it is one of these |
| `Outbox.CrashLoses` | project-skeleton/src/queue/outbox.publisher.ts:89-123 | an event that only a dying publisher holds stays in process for ever, contrary to the comments: no scan claims it again |
| `Outbox.ClaimAndCrashLoses` | project-skeleton/src/queue/outbox.publisher.ts:89-113 | from the empty outbox: an event whose publisher dies right after the claim is lost for good |
| `Outbox.ReportedDeadExactlyWhen` | project-skeleton/src/queue/domain-events.processor.ts:54-66 | an attempt reports its row dead exactly when it is the last one, its failure is recorded, and the handlers or the mark failed |
| `Outbox.DeadThoughHandled` | project-skeleton/src/queue/domain-events.processor.ts:54-66 | a run from the empty outbox in which the handlers succeed five times and the row is reported dead, since the mark fails each time |
| `OutboxService.Dispatcher.ClaimBatch` | project-skeleton/prisma/migrations/20260914190231_0004_outbox_dispatch_functions/migration.sql:42-68 | claims distinct pending rows, up to the limit and all of them when it is not reached, marks exactly those, and holds them |
| `OutboxService.Dispatcher.PublishBatch` | project-skeleton/src/queue/outbox.publisher.ts:89-123 | every claimed row was pending, and is enqueued, or returned to pending when the queue did not confirm it; the publisher ends with nothing in hand |
| `OutboxService.Dispatcher.Process` | project-skeleton/src/queue/domain-events.processor.ts:51-66 | how an attempt settles the row and whether the job is retried, for every combination of handler, mark and record failures |

## Left out

- Front ends, controllers, guards, validation of request objects, dashboards, plain create/read/update services: they would only add easy members.
- Network and foreign code: language-model providers, Google services, PDF drawing, mail, signing, the cipher itself and hashing. The cipher is any pair of functions with `open(seal(m)) = m`; request hashes stand for the fingerprint text; a token's signature is a table of what was signed.
- Row-level security: tenants are an index, or the model is of one tenant.
- Waiting: a method that would have to wait for a lock may give up instead, as a timeout or a broken deadlock makes the program do.
- Yields: `Yield` methods have an empty body and a contract that allows any steps of others; they stand for the scheduler, not for code.
- Low-stock alerts, costs and prices of items, audit rows, notes and time stamps of rows.
- Stock: an item's SKU never changes and items are not deleted, as in the program.
- Invoices after their commit: PDF upload and the change of status to final.
- Money: prices are integers (in the smallest unit); the program uses exact decimals.
- Onboarding: the draft fields, tool calls and the cut of over-long messages; expiry and secrets of sessions.
- Idempotency: key trimming; a stored body is compared as a whole, not as JSON.
- CanonicalJson: lone surrogates in strings, big integers, and values with their own JSON form; a number is the text the runtime prints for it.
- CanonicalJson.Print: the members are sorted after their values are printed; `SortBeforePrinting` proves the program's order gives the same.
- Booking: expiry and revocation of links are read before the transaction and do not enter the machine; "one active link per target" is not claimed, since creating a link takes no lock. Each booking task is made by `book`, the only code that sets a task's equipment.
- Scheduling: the staff is fixed during a run; scores are real numbers, so float rounding is not modelled; `task.assigned` events.
- Scheduling.LoadsAreEven: stated for runs that finish no task, because finishing lowers a load freely, and for tasks of one skill without place, because others have other candidates or other scores.
- Route: distance is any function of two places; navigation links.
- QuotedPrintable: removal of trailing white space and character sets.
- OAuthState: several server instances, each with its own memory; the cookie itself; two signed tokens with one id and different claims, since ids are random.
- Secrets: text encodings of plaintexts; a secret is a byte string. Versions print in decimal; the runtime prints integers above 2^53 otherwise.
- Invoicing: customers and tenants are ids, so an unknown customer is one without tasks; an unreadable checklist ends the run like an empty one.
- Outbox: back-off times, the age limits of kept jobs (a job that is over may be forgotten at any time), the poll timer, and the content of events.
- Outbox handlers: whether they succeed is a parameter; that repeated delivery is harmless for stock is proved in `Stock`.
- Email sending and quote status: they are not exactly-once in the program and nothing is claimed about them.
