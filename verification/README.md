# A verified model of the PCOPro inventory server

PCOPro keeps stock in an append-only ledger. Every stock movement is one entry with a unique
idempotency key and the balance before and after it; a balance row per (product, scope) caches the
sum. Transfer requests, receiving batches, purchase orders, audit sessions and direct counts are
services that post to that one ledger.

The project models the database and the services in two layers that are proved to agree:

- **Machines.** Each service is a deterministic step function over its tables (`Desk`, `Books`,
  `AuditBook`, or just the ledger `Store`), with clock ticks, catalog changes and other services'
  transactions as further steps. Safety over whole runs, races, retries and conservation are lemmas
  about these machines.
- **Services.** `class Database` holds the tables as fields. The service methods change it step by
  step, with the loops, Maps, guards and rollbacks of the code, and each `ensures` that the new
  tables and the answer are those of the machine's step.

`Warehouse.dfy` puts the three machines and all other postings on one ledger and proves that their
invariants hold together in any interleaving, and exactly when the ledger stays in agreement.

| file | contents |
|---|---|
| `Basics.dfy`, `Units.dfy` | rounding, string order and sorting; unit labels and factors |
| `Ledger.dfy` | postings, transactions, the agreement of ledger and balances |
| `Schema.dfy` | `class Database` and the posting kernel |
| `TransferRequests.dfy`, `TransferInvariants.dfy`, `TransferRuns.dfy`, `TransferEffects.dfy`, `TransferOverlaps.dfy`, `TransferApprovals.dfy`, `TransferCalm.dfy`, `TransferContent.dfy`, `TransferService.dfy` | the request workflow: machine, invariants, whole-run properties, effect on stock and racing edits, overlapping row calls, approved content under overlaps, what keeps a posted request as it is, what a request holds and its finalize writes, methods |
| `Batches.dfy`, `Incoming.dfy`, `ReceivingCsv.dfy`, `ReceivingRace.dfy`, `IncomingService.dfy` | receiving: canonical batches, retries, CSV files, overlapping calls, methods |
| `ReceiptKeys.dfy` | receipt ids as text: list and detail views |
| `PurchaseOrders.dfy`, `PurchaseOrderRuns.dfy`, `PurchaseOrderReconciliation.dfy`, `PurchaseOrderOverlaps.dfy`, `PurchaseOrderReceipts.dfy`, `PurchaseOrderContent.dfy`, `PurchaseOrderService.dfy` | orders: machine, invariants, counters against ledger and receipts, overlapping calls, status, replay and low stock, what an order holds and where its receipts go, methods |
| `CsvExport.dfy` | the order form against section 2 of RFC 4180 |
| `Audits.dfy`, `AuditService.dfy` | audit sessions |
| `Inventory.dfy`, `InventoryService.dfy` | counts, truck transfers, opening quantities |
| `Usage.dfy`, `Discrepancy.dfy` | the usage report and the audit discrepancy report |
| `Warehouse.dfy` | all services together |

Conventions. One database transaction is one atomic step, and a key already in the ledger aborts it
without effect. Keys are a datatype with one constructor per family, and a hash stands for the text
it hashes, so equal keys mean equal batches. Client-supplied keys are their own family. Quantities
are integers and rationals, and rounding is floor(x + 1/2). Row ids are fresh numbers.

A call that reads in one statement and writes in a later one is split there, and any other call may
run in between: a transfer finalize, a call on a request row, an order's update and receive (which
also looks its keys up in between), an audit count and an audit finalize, and the line transactions
of a receiving batch. The machines also have the call as one step, for calls with nobody in between.

What turned out not to hold, with its exact condition:

- A request is posted exactly once throughout a run if and only if every finalize commit that goes
  through finds the request unposted and with the lines it had read (`TransferRuns.ExactlyOnceIff`),
  and every row write finds it posted or unposted as it leaves it
  (`TransferOverlaps.HoldsThroughoutIff`). `TransferEffects.RacingEditPostsTwice` and
  `TransferOverlaps.EditOverFinalize` are runs that post twice. It is enough that no lines are
  replaced while a finalize call of the request is open and no late write takes a posted request out
  of the posted statuses (`TransferCalm.CalmPostsOnce`); the second alone is exactly what keeps a
  posted request as it was posted (`TransferCalm.FrozenIff`).
- APPROVED and CHANGE_REQUESTED stand for the latest approved content throughout a run if and only
  if every denial of changes and every change request that is written finds the request in one of
  them, or with that content (`TransferApprovals.ApprovedContentIff`). In
  `TransferApprovals.DenialOverEdit` a request is APPROVED, and taken by a finalize before its
  pickup, with lines nobody approved. An approval approves what its call read if and only if no
  lines were replaced in between (`TransferApprovals.ApprovesWhatWasReadIff`);
  `TransferApprovals.ApprovalOfUnread` is a run where they were.
- ACK_PENDING stands for an issue, and a change request is stored only where one is pending, under
  conditions of the same kind (`TransferRuns.HoldsIffAllFit`); `TransferEffects.RacingTurnAwaitsReceipt`
  and `TransferEffects.RacingChangeLeavesPayload` are runs where they fail.
- A late row write follows the status diagram if and only if the status it lands on is still one on
  which its call would have been taken (`TransferOverlaps.LateEdgeIff`);
  `TransferOverlaps.ApprovalOverRefusal` approves a refused request.
- `transfer` keeps ledger and balances in agreement if and only if it leaves its own scope or moves
  nothing (`Inventory.TransferAgreesIff`), and that is all that can go wrong with the ledger
  (`Warehouse.AllServicesAgree`).
- A receipt id identifies one batch if and only if the scope has no colon; for truck scopes all
  batches share ids (`ReceiptKeys.IdsIdentifyBatchesIff`, `ReceiptKeys.CsvIdsIdentifyBatchesIff`).
- No more than was ordered is received if and only if each receive's transaction finds as much
  remaining as it posts; an order's counters equal its ledger entries and receipt lines if and only
  if each update's transaction that replaces the lines finds nothing received
  (`PurchaseOrderReconciliation.ReconciliationIff`). `PurchaseOrderOverlaps.OverlapExceeds` and
  `PurchaseOrderOverlaps.UpdateForgets` are runs where they fail. A cancellation in between is
  overwritten (`PurchaseOrderReconciliation.StatusOverwritten`).
- An order is RECEIVED for the right reason if and only if completeness by base counters and by
  units come to the same at the receive (`PurchaseOrderReceipts.StatusIff`). A factor that changed
  can separate them (`PurchaseOrderReceipts.FactorChangeLeavesOrderOpen`), and makes a repeated
  receive another batch (`PurchaseOrderReceipts.NewFactorPostsAgain`); it changes nothing if and only
  if it is refused or its keys are taken (`PurchaseOrderReceipts.ReceiveChangesNothingIff`).
- After the first finalize of an audit session the balance of a counted product is the counted
  quantity plus what was posted since the balance was read, if and only if the line of the product
  that was written last when the finalize read the session has that count's delta, or none was
  written and the delta is zero (`Audits.MovementInRunIff`); a recount after that read is lost
  (`Audits.RecountIsLost`). From there another finalize posts nothing at any time if and only if what
  the first had read covers the session's lines, and no count that had passed its check before
  writes a line that is left to post (`Audits.SecondFinalizeIff`); `Audits.UnreadLineIsLeft` leaves
  one.
- A document whose last row prints as nothing reads back without it, since RFC 4180 makes the last
  line break optional (`CsvExport.DocumentRoundTripIff`).
- Receiving by hand converts by the ordering label, and may pick another label's factor
  (`Incoming.FactorIsOrderingIff`, `Incoming.LabelHidesOrderingFactor`).

## Model

| member | source | states |
|---|---|---|
| Units.FactorByLabel | backend/src/utils/units.ts:13-28 | a unit stands for the factor of the label it names, tracking before checkout before ordering; a blank or unknown one for the fallback's |
| Units.NormalizeIs | backend/src/utils/units.ts:14 | labels are compared without surrounding blanks and without regard to case |
| Units.PackedUnits | backend/src/utils/units.ts:13-32 | concrete product: packs, cases, pieces, an unknown unit and halves in base units |
| Ledger.PostAllCommits | backend/prisma/schema.prisma:265 | a transaction of postings commits if and only if its keys are new to the ledger and distinct |
| Ledger.PostAllEffect | backend/src/incoming/incoming.service.ts:127-153 | a committed transaction appends exactly its postings and moves every balance by their net |
| Ledger.PostAllAgrees | docs/INVENTORY_RULES.md:4-5 | a committed transaction keeps balances equal to the fold of the ledger and every entry's before/after right, also when one product is hit repeatedly |
| Ledger.ChainLinks | backend/src/incoming/incoming.service.ts:133-148 | each entry starts where the previous entry of the same product and scope ended |
| Ledger.ChainStarts | backend/src/incoming/incoming.service.ts:128-133 | the first entry of a product and scope starts from zero |
| Ledger.HistoryAgrees | docs/INVENTORY_RULES.md:4-5 | after any history of transactions from the empty database the agreement holds and the ledger has only grown |
| Ledger.PairAgreesIff | backend/src/inventory/inventory.service.ts:182-218 | two balances read first and written last agree with the ledger if and only if the rows differ or nothing moves |
| Ledger.AppendPairIsPostAll | backend/src/transfer-requests/transfer-requests.service.ts:490-538 | on different rows the read-both, write-both order equals posting one after the other |
| Schema.Database.Post | backend/src/incoming/incoming.service.ts:127-153 | upsert, entry, balance write: the kernel's posting, refused on a taken key |
| Schema.Database.PostPair | backend/src/transfer-requests/transfer-requests.service.ts:490-538 | both balances read, both entries inserted, both balances written |
| TransferInvariants.RowOpKeeps | backend/src/transfer-requests/transfer-requests.service.ts:295-455 | every accepted row operation keeps a well-formed row well formed, never moves a row into or out of the posted statuses, and leaves the lines of a posted row alone |
| TransferInvariants.CommitExactly | backend/src/transfer-requests/transfer-requests.service.ts:481-550 | of finalize calls of a request posted once so far, a commit goes through if and only if the request is not yet posted or its lines were replaced since the call read them; the rest abort and change nothing |
| TransferInvariants.RunKeeps | backend/src/transfer-requests/transfer-requests.service.ts:295-737 | the invariant of rows, creation keys and open finalize calls holds after every run, racing edits included |
| TransferInvariants.CommitHoldsIff | backend/src/transfer-requests/transfer-requests.service.ts:458-550 | a commit that goes through keeps the request posted once (its direction, its payload rule) if and only if it finds on the row what its call read |
| TransferInvariants.StepHoldsIff | backend/src/transfer-requests/transfer-requests.service.ts:295-737 | any step of the desk keeps that if and only if, when it is such a commit, it fits |
| TransferRuns.WellFormed | backend/src/transfer-requests/transfer-requests.service.ts:97-171 | in every reachable state, after any run: scopes fit direction and technician and differ, lines exist, DISPUTED and MANAGER_RESPONDED are unreachable, a pending change request parses, only posted requests are disputed, SUBMITTED is not in the future |
| TransferRuns.ApproveChangesParses | backend/src/transfer-requests/transfer-requests.service.ts:409-410 | approveChanges never fails on the stored payload in any reachable state |
| TransferRuns.StatusDiagram | backend/src/transfer-requests/transfer-requests.service.ts:300-455 | in every reachable state every accepted call follows an edge of the status diagram allowed to that role |
| TransferRuns.AcceptedIff | backend/src/transfer-requests/transfer-requests.service.ts:295-737 | in every reachable state a call is accepted if and only if role or ownership, status and its own form allow it, with no other reason to fail |
| TransferRuns.TouchesOnly | backend/src/transfer-requests/transfer-requests.service.ts:295-737 | an accepted call changes its own row only, and there only the columns of its kind; a refused one changes nothing |
| TransferRuns.HoldsIffAllFit | backend/src/transfer-requests/transfer-requests.service.ts:457-550 | over any run a request keeps each of posted once, right direction, right payload if and only if every commit of it that goes through finds on the row what its call had read |
| TransferRuns.ExactlyOnceIff | backend/src/transfer-requests/transfer-requests.service.ts:457-550 | from the empty database: a request has ledger entries if and only if it is FINALIZED, ACK_PENDING or ACKNOWLEDGED, and then one OUT/IN pair per current line, throughout a run, if and only if every such commit fits |
| TransferRuns.CalmPostsOnce | backend/src/transfer-requests/transfer-requests.service.ts:457-550 | with whole row calls: that is so in every run in which no accepted edit replaces the lines of a request while a finalize call of it is open |
| TransferRuns.FrozenForever | backend/src/transfer-requests/transfer-requests.service.ts:300-302 | with whole row calls: once posted, a request stays posted in every run with the same lines, scopes and pickup, and with the same entries if and only if no commit of it goes through |
| TransferRuns.CreateOnce | backend/src/transfer-requests/transfer-requests.service.ts:199-205 | a repeated creation key creates nothing, at any later time and with any other content |
| TransferRuns.ApprovedContent | backend/src/transfer-requests/transfer-requests.service.ts:309-379 | with whole row calls: while APPROVED or CHANGE_REQUESTED a request's direction, scopes, pickup and lines are those of its latest approval, by a non-technician; over every run |
| TransferRuns.ReadDueOrApproved | backend/src/transfer-requests/transfer-requests.service.ts:466-479 | with whole row calls: what any finalize call read is due or was approved exactly so |
| TransferRuns.ReadStaysLatest | backend/src/transfer-requests/transfer-requests.service.ts:359-379 | with whole row calls: and while no edit replaces the lines under an open finalize call, that approval is still the latest one until the commit |
| TransferRuns.FinalizeDueOrApproved | backend/src/transfer-requests/transfer-requests.service.ts:466-550 | with whole row calls: every commit that goes through posts one pair per line of a row that was due when it was read, or was then exactly the latest approved content |
| TransferContent.CreateStores | backend/src/transfer-requests/transfer-requests.service.ts:189-239 | a new request asks for what the payload says, line by line with product, quantity and unit, from and to the right places; it awaits approval if and only if the pickup is in the future |
| TransferContent.CreatesIff | backend/src/transfer-requests/transfer-requests.service.ts:189-215 | exactly who may create a request, and of what |
| TransferContent.CreateRefusals | backend/src/transfer-requests/transfer-requests.service.ts:189-215 | exactly which error a creation gives, and that a used key answers with its request |
| TransferContent.EditStores | backend/src/transfer-requests/transfer-requests.service.ts:295-357 | an accepted edit asks for what the payload gives and keeps the rest; a technician's edit of an approved request is stored and changes nothing else |
| TransferContent.ApprovalStores | backend/src/transfer-requests/transfer-requests.service.ts:400-434 | an accepted approveChanges asks for exactly what the stored change says |
| TransferContent.ChangeIsApproved | backend/src/transfer-requests/transfer-requests.service.ts:309-434 | a technician's change request and its approval, however much later, leave exactly the content the technician asked for |
| TransferContent.Refusals | backend/src/transfer-requests/transfer-requests.service.ts:295-737 | in every reachable state, exactly when a call is forbidden, finds no request, or is a bad request |
| TransferContent.FinalizeTakenIff | backend/src/transfer-requests/transfer-requests.service.ts:457-479 | in every reachable state a finalize is taken exactly for a due open or submitted request or an approved one, and answers at once for a posted one |
| TransferContent.FinalizeAppends | backend/src/transfer-requests/transfer-requests.service.ts:481-550 | a commit that goes through appends, line by line, an OUT and an IN entry of the line's quantity times the factor of its unit, rounded, between warehouse and truck |
| TransferContent.CheckoutLineMoves | backend/src/utils/units.ts:18-20 | a line in the checkout unit moves its quantity times the checkout factor |
| TransferContent.OrderGoesOut | backend/src/transfer-requests/transfer-requests.service.ts:189-550 | concrete run: three packs of six and five pieces are asked for, and go out as eighteen and five |
| TransferEffects.RoundingBound | backend/src/utils/units.ts:13-32 | n rounded lines of a product differ from their exact sum by at most n/2 base units |
| TransferEffects.FinalizeMoves | backend/src/transfer-requests/transfer-requests.service.ts:482-539 | finalize moves exactly the sum of rounded lines between the two scopes, changes no other balance and keeps each product's total over all scopes |
| TransferEffects.IssueLoadsTruck | backend/src/transfer-requests/transfer-requests.service.ts:97-102 | an issue lowers WAREHOUSE and raises the technician's truck by the moved quantity, a return the other way |
| TransferEffects.RacingTurnAwaitsReceipt | backend/src/transfer-requests/transfer-requests.service.ts:543-549 | concrete run: an issue turned into a return between a finalize's read and commit ends as a return in ACK_PENDING |
| TransferEffects.RacingChangeLeavesPayload | backend/src/transfer-requests/transfer-requests.service.ts:310-327 | concrete run: a change request stored between read and commit stays on the posted request |
| TransferEffects.RacingEditPostsTwice | backend/src/transfer-requests/transfer-requests.service.ts:458-550 | concrete run: an edit between a finalize's read and commit makes a one-line request post two pairs |
| TransferOverlaps.AtOnce | backend/src/transfer-requests/transfer-requests.service.ts:295-737 | a whole row call is its decision on the row it read followed by its write |
| TransferOverlaps.RunKeeps | backend/src/transfer-requests/transfer-requests.service.ts:295-737 | the invariant of rows, keys and open calls holds after every interleaving of split row calls with all else |
| TransferOverlaps.WellFormed | backend/src/transfer-requests/transfer-requests.service.ts:97-171 | in every such interleaving scopes, lines, statuses, pending payloads and pickup dates are well formed, and approveChanges never fails on its payload |
| TransferOverlaps.HoldsThroughoutIff | backend/src/transfer-requests/transfer-requests.service.ts:295-737 | in every such interleaving a request stays posted once (right in direction, payload, dispute) if and only if no commit and no row write finds the row otherwise than it needs |
| TransferOverlaps.LateEdgeIff | backend/src/transfer-requests/transfer-requests.service.ts:359-379 | a late write follows the status diagram if and only if the status it lands on is still one on which its call would be taken |
| TransferOverlaps.UndisturbedIsPlain | backend/src/transfer-requests/transfer-requests.service.ts:295-737 | a run whose writes all find the rows as they were read ends in the desk of a run of whole calls |
| TransferOverlaps.ApprovalOverRefusal | backend/src/transfer-requests/transfer-requests.service.ts:359-379 | concrete run: an approval that read before a refusal is written over it |
| TransferOverlaps.EditOverFinalize | backend/src/transfer-requests/transfer-requests.service.ts:295-357 | concrete run: an edit that read before a finalize reopens the posted request, which is then posted again |
| TransferApprovals.LandClearedIff | backend/src/transfer-requests/transfer-requests.service.ts:309-453 | a late write that is no approval leaves a request APPROVED or CHANGE_REQUESTED only as it was, if and only if a denial of changes or a change request finds it so |
| TransferApprovals.ApprovedContentIff | backend/src/transfer-requests/transfer-requests.service.ts:309-453 | in every interleaving of split calls: throughout a run an APPROVED or CHANGE_REQUESTED request has the content of its latest approval, by a non-technician, if and only if every denial of changes and change request that is written finds it in one of these, or with that content |
| TransferApprovals.SameContentIff | backend/src/transfer-requests/transfer-requests.service.ts:144-171 | at any later moment a request has the content that was read if and only if no lines of it were replaced since |
| TransferApprovals.ApprovesWhatWasReadIff | backend/src/transfer-requests/transfer-requests.service.ts:359-379 | a late approval approves exactly what its call read if and only if no lines were replaced in between |
| TransferApprovals.ReadDueOrApproved | backend/src/transfer-requests/transfer-requests.service.ts:466-479 | in every run whose denials and change requests fit so, any finalize call read a row that was due then or had the latest approved content |
| TransferApprovals.FinalizeDueOrApproved | backend/src/transfer-requests/transfer-requests.service.ts:466-550 | and every commit that goes through posts one pair per line of such a row |
| TransferApprovals.ReadStaysLatestIff | backend/src/transfer-requests/transfer-requests.service.ts:359-379 | an approval of what was read is still the latest one at any later moment if and only if no approval since found other lines |
| TransferApprovals.DenialOverEdit | backend/src/transfer-requests/transfer-requests.service.ts:436-455 | concrete run: a denial of changes that read before an edit approves the edit's lines, which a finalize then takes before pickup |
| TransferApprovals.ApprovalOfUnread | backend/src/transfer-requests/transfer-requests.service.ts:359-379 | concrete run: an approval that read before an edit approves the edit's lines |
| TransferCalm.CalmPostsOnce | backend/src/transfer-requests/transfer-requests.service.ts:295-550 | in every interleaving of split calls in which no lines are replaced under an open finalize call and no late write takes a posted request out of the posted statuses, a request is posted exactly once and in its direction |
| TransferCalm.FrozenIff | backend/src/transfer-requests/transfer-requests.service.ts:295-550 | in every interleaving: a posted request stays posted with its lines, scopes and pickup throughout if and only if no late write takes it out of the posted statuses, and then its entries stay if and only if no commit of it goes through |
| TransferService.Create | backend/src/transfer-requests/transfer-requests.service.ts:189-239 | the call does what the creation step says, on tables with unique keys |
| TransferService.ApplyEdits | backend/src/transfer-requests/transfer-requests.service.ts:144-171 | lines replaced under new ids and row updated, or nothing if a product is unknown |
| TransferService.Update | backend/src/transfer-requests/transfer-requests.service.ts:295-357 | the call is the machine's update step |
| TransferService.ApproveChanges | backend/src/transfer-requests/transfer-requests.service.ts:400-434 | the call is the machine's approve-changes step |
| TransferService.Finalize | backend/src/transfer-requests/transfer-requests.service.ts:457-553 | read, guards, line loop in one transaction with rollback: the machine's read and commit with nobody in between |
| TransferService.PostLines | backend/src/transfer-requests/transfer-requests.service.ts:482-539 | the loop over lines posts all pairs or reports the taken key |
| Batches.CanonicalIsBatch | backend/src/incoming/incoming.service.ts:35-71 | the normalized lines are strictly sorted, one per product with a positive total, each with that total |
| Batches.CanonicalIffSameTotals | backend/src/incoming/incoming.service.ts:68-84 | two inputs have the same normalized lines if and only if every product has the same total |
| Batches.RetriesConverge | backend/src/incoming/incoming.service.ts:81-154 | after any number of calls cut off after any prefix of line transactions, one more call leaves exactly what one uninterrupted call would |
| Batches.CompleteIsFinal | backend/src/incoming/incoming.service.ts:92-98 | after a complete call nothing is missing and resubmitting changes nothing |
| Incoming.TotalIsUnits | backend/src/incoming/incoming.service.ts:36-66 | each product's total is the units received times its ordering-label factor |
| Incoming.FactorIsOrderingIff | backend/src/incoming/incoming.service.ts:46-50 | the label look-up gives the ordering factor if and only if no tracking or checkout label of the same text has another factor |
| Incoming.LabelHidesOrderingFactor | backend/src/incoming/incoming.service.ts:46-50 | concrete product: ordered by the 24 under its tracking label, it is received by the piece |
| Incoming.AcceptedExactly | backend/src/incoming/incoming.service.ts:14-57 | a payload is accepted exactly with a date, a line that counts, and every such line of a known product in its ordering unit or none |
| Incoming.CreateAnswers | backend/src/incoming/incoming.service.ts:92-161 | a call answers how many entries it made and how many products had theirs, or refuses and does nothing |
| Incoming.SameBatchIff | backend/src/incoming/incoming.service.ts:68-84 | two accepted payloads are one batch if and only if scope (WAREHOUSE if none), day and units received per product agree |
| Incoming.ScopesApart | backend/src/incoming/incoming.service.ts:18-84 | payloads for different scopes are different batches and share no key |
| Incoming.KeysSharedIff | backend/src/incoming/incoming.service.ts:79-84 | equal batches have the same line keys, different batches have none in common |
| Incoming.ReorderedIsSameBatch | backend/src/incoming/incoming.service.ts:24-84 | reordering the lines of a payload changes neither its acceptance nor its batch |
| Incoming.SplitIsSameBatch | backend/src/incoming/incoming.service.ts:54-66 | splitting a kept line into several of the same product, unit and total changes neither, whether or not the payload was accepted |
| Incoming.FirstReceiptMoves | backend/src/incoming/incoming.service.ts:122-154 | a batch received for the first time raises exactly the scope its payload names, WAREHOUSE if none, by exactly the units received times the factor its ordering label stands for |
| Incoming.TruckReceipt | backend/src/incoming/incoming.service.ts:13-154 | concrete payload: five cases of twenty-four for a truck |
| Incoming.RetriesLikeOneCall | backend/src/incoming/incoming.service.ts:81-154 | a payload cut off and retried any number of times ends like one call, after which any payload of the same batch posts nothing |
| Incoming.OverlappingLikeOneCall | backend/src/incoming/incoming.service.ts:86-154 | overlapping calls of one batch, all ended and none crashed, whatever else is posted meanwhile: each missing line is posted exactly once, and every balance is what one call leaves plus what others posted |
| ReceivingRace.RunKeeps | backend/src/incoming/incoming.service.ts:86-154 | invariant of any number of calls interleaved transaction by transaction, crashes included: every line posted since the start was posted by a call that moved past it |
| ReceivingRace.OverlappingCallsComplete | backend/src/incoming/incoming.service.ts:86-154 | when all calls have ended without a crash, at least one ran to its end and every line is in the ledger |
| ReceivingRace.RacePostsOnce | backend/src/incoming/incoming.service.ts:86-154 | a race that completes the batch, crashes and other services' postings included, posted every missing line exactly once, and every balance is what one call leaves plus what others posted |
| ReceivingRace.RaceEqualsOneCall | backend/src/incoming/incoming.service.ts:86-154 | with nobody else posting, ledger and balances are those of one call, up to order |
| ReceivingCsv.RowTakenOrFailed | backend/src/incoming/incoming.service.ts:317-446 | every row is one failure, in file order, or contributes its line |
| ReceivingCsv.AcceptedIffFits | backend/src/incoming/incoming.service.ts:317-466 | there are no failures if and only if all rows are sound and agree on scope and date |
| ReceivingCsv.AcceptedExactly | backend/src/incoming/incoming.service.ts:317-466 | a file is taken exactly if every row has one known product and a positive quantity, also in base units, and all are for one place and one day |
| ReceivingCsv.NextRow | backend/src/incoming/incoming.service.ts:360-425 | what is said of a row after any others: the first thing wrong with it by itself, another place, no date, another day, or nothing |
| ReceivingCsv.PlaceIs | backend/src/incoming/incoming.service.ts:376-388 | the first sound row fixes the place |
| ReceivingCsv.DayIs | backend/src/incoming/incoming.service.ts:404-425 | the day is that of the rows taken |
| ReceivingCsv.ReceiptOfFile | backend/src/incoming/incoming.service.ts:376-476 | its receipt is for the place written on its rows, WAREHOUSE if blank or a yes or no, and their day, today if none |
| ReceivingCsv.FirstImportMoves | backend/src/incoming/incoming.service.ts:390-572 | a file received for the first time raises, in that place, each product by the sum over its rows of the quantity times the tracking factor, rounded, and nothing else |
| ReceivingCsv.NotesTellApart | backend/src/incoming/incoming.service.ts:468-475 | files whose notes differ have different receipts, unless a note holds a bar |
| ReceivingCsv.TruckFile | backend/src/incoming/incoming.service.ts:317-572 | concrete file: two products for a truck, one by the half piece |
| ReceivingCsv.ReorderedFile | backend/src/incoming/incoming.service.ts:309-481 | permuting the rows changes neither acceptance nor receipt key nor totals |
| ReceivingCsv.SameReceiptIff | backend/src/incoming/incoming.service.ts:468-476 | two files have one receipt key if and only if scope, date, joined notes and totals per product agree |
| ReceivingCsv.DryRunPredicts | backend/src/incoming/incoming.service.ts:455-516 | a dry run writes nothing and reports the key, skipped count and number of postings of the real run; with a failing row neither writes |
| ReceivingCsv.ImportReports | backend/src/incoming/incoming.service.ts:447-589 | an import reports the rows read, the failures, the products, place and day, and how many entries it made or would make |
| ReceivingCsv.RetriesLikeOneImport | backend/src/incoming/incoming.service.ts:483-576 | an import cut off and repeated ends like one run |
| ReceivingCsv.OverlappingImports | backend/src/incoming/incoming.service.ts:483-576 | overlapping imports of one receipt post each missing line exactly once, whatever else is posted meanwhile |
| IncomingService.Aggregate | backend/src/incoming/incoming.service.ts:35-71 | the Map loop and sort compute the normalized lines, or refuse |
| IncomingService.PostLines | backend/src/incoming/incoming.service.ts:122-154 | one transaction per missing line brings the batch to completion |
| IncomingService.Create | backend/src/incoming/incoming.service.ts:13-162 | the call is the receiving step |
| IncomingService.ScanFile | backend/src/incoming/incoming.service.ts:309-451 | the row loop computes failures, sorted totals, notes, scope and date of the scan |
| IncomingService.ImportReceivingCsv | backend/src/incoming/incoming.service.ts:271-589 | the call is the import step, dry or real |
| ReceiptKeys.SharedCut | backend/src/incoming/incoming.service.ts:591-634 | two keys share their first n segments if and only if one starts with the other's n segments and a separator |
| ReceiptKeys.DetailSelectsTheGroup | backend/src/incoming/incoming.service.ts:224-229 | for a structured key the detail prefix selects exactly the keys the list groups under the same receipt id, apart from a bare id |
| ReceiptKeys.ListReceipts | backend/src/incoming/incoming.service.ts:194-218 | the grouping loop gives each receipt id exactly the count and total its detail view shows, for every entry and no other id |
| ReceiptKeys.IdsIdentifyBatchesIff | backend/src/incoming/incoming.service.ts:81-84 | receipt ids of manual receipts tell batches apart if and only if the scope has no colon |
| ReceiptKeys.CsvIdsIdentifyBatchesIff | backend/src/incoming/incoming.service.ts:476-481 | the same for CSV receipts of one day |
| ReceiptKeys.OrderIdsIdentifyBatches | backend/src/purchase-orders/purchase-orders.service.ts:271-274 | receipt ids of order receipts are equal if and only if order and batch are |
| PurchaseOrderRuns.RunKeeps | backend/src/purchase-orders/purchase-orders.service.ts:94-388 | in every interleaving of split calls: one line per product, counters not negative, and every entry and receipt of an order for an order on file |
| PurchaseOrderReconciliation.StepHoldsIff | backend/src/purchase-orders/purchase-orders.service.ts:134-388 | a step keeps an order reconciled if and only if, when it is an update's transaction replacing the lines, nothing is received; within what was ordered if and only if, when it is a receive's transaction, as much remains as it posts |
| PurchaseOrderReconciliation.ReconciliationIff | backend/src/purchase-orders/purchase-orders.service.ts:134-388 | from the empty database, over any interleaving: each line's base counter equals the order's ledger entries for the product and its unit counter the order's receipt lines throughout (or stays within what was ordered) if and only if every such transaction finds its guard passing |
| PurchaseOrderReconciliation.UndividedReconciles | backend/src/purchase-orders/purchase-orders.service.ts:134-388 | both hold in every run whose updates and receives are not interrupted |
| PurchaseOrderReconciliation.CountersSound | backend/src/purchase-orders/purchase-orders.service.ts:134-388 | in every interleaving counters are not negative and no line has received fewer base units than units |
| PurchaseOrderReconciliation.StatusOverwritten | backend/src/purchase-orders/purchase-orders.service.ts:359-379 | a receive that goes through leaves RECEIVED or PARTIALLY_RECEIVED, whatever the status became since its read |
| PurchaseOrderOverlaps.OverlapExceeds | backend/src/purchase-orders/purchase-orders.service.ts:210-357 | concrete run: of five ordered, overlapping receives of three and four both go through |
| PurchaseOrderOverlaps.UpdateForgets | backend/src/purchase-orders/purchase-orders.service.ts:134-199 | concrete run: an update that read before a receive resets the counters of what was received |
| PurchaseOrderRuns.PicksAddUp | backend/src/purchase-orders/purchase-orders.service.ts:297-357 | ledger, receipt and counter increments of one receive are sums over the same picks |
| PurchaseOrderReconciliation.ReceiveAbortsIff | backend/src/purchase-orders/purchase-orders.service.ts:276-357 | a receive's transaction aborts if and only if one of its keys was taken or one of its lines replaced since the reads |
| PurchaseOrderReconciliation.AtOnceNeverAborts | backend/src/purchase-orders/purchase-orders.service.ts:276-297 | an uninterrupted receive never aborts |
| PurchaseOrderReceipts.StatusIff | backend/src/purchase-orders/purchase-orders.service.ts:359-379 | after a receive that goes through, at any moment: RECEIVED stands for every line being fully received if and only if completeness by base counters and by units come to the same, else it is PARTIALLY_RECEIVED |
| PurchaseOrderReceipts.StatusWhileFactorsMove | backend/src/purchase-orders/purchase-orders.service.ts:359-379 | over any run: while no ordering factor of the order's products has fallen, a complete order is closed; while none has risen, none is closed before it is complete |
| PurchaseOrderReceipts.ReceiptKeysPosted | backend/src/purchase-orders/purchase-orders.service.ts:319-341 | after an uninterrupted receive every selected line's key is in the ledger |
| PurchaseOrderReceipts.FactorChangeLeavesOrderOpen | backend/src/purchase-orders/purchase-orders.service.ts:363-370 | concrete run: a factor changed between ordering and receiving leaves a fully received order open |
| PurchaseOrderReceipts.ReplayChangesNothing | backend/src/purchase-orders/purchase-orders.service.ts:209-388 | a receive reads, looks its keys up and commits with anything in between; repeating it with the same scope, date and lines changes nothing, after any interleaving that left the products' factors as it had read them |
| PurchaseOrderReceipts.CallWasCarried | backend/src/purchase-orders/purchase-orders.service.ts:209-291 | every receive in flight read its order at some moment of the run and looked its keys up since |
| PurchaseOrderReceipts.ReceiveChangesNothingIff | backend/src/purchase-orders/purchase-orders.service.ts:217-295 | at any moment a receive changes nothing if and only if it is refused or all its line keys are taken |
| PurchaseOrderReceipts.NewFactorPostsAgain | backend/src/purchase-orders/purchase-orders.service.ts:246-274 | concrete run: after a factor change the same receive posts again |
| PurchaseOrderReceipts.CeilIsLeast | backend/src/purchase-orders/purchase-orders.service.ts:27-29 | the suggestion is the least whole number of ordering units that covers the shortage |
| PurchaseOrderReceipts.ListedIffBelowPar | backend/src/purchase-orders/purchase-orders.service.ts:20-41 | a product is listed if and only if its on-hand quantity is below par |
| PurchaseOrderReceipts.LowStockItems | backend/src/purchase-orders/purchase-orders.service.ts:20-41 | every listed item shows the product's on-hand quantity in that scope, its par level there, and the suggestion for the difference |
| PurchaseOrderReceipts.ReceiptRaisesOnHand | backend/src/purchase-orders/purchase-orders.service.ts:319-348 | a receive that goes through raises on-hand of each product it posts by exactly the base quantity it took |
| PurchaseOrderReceipts.SuggestionClosesTheGap | backend/src/purchase-orders/purchase-orders.service.ts:20-41 | after a receive into a scope, the one it names or the order's, the product is still listed there if and only if less than the suggestion came |
| PurchaseOrderContent.CreateStores | backend/src/purchase-orders/purchase-orders.service.ts:94-132 | an order is made exactly of known products, each once, in positive quantities; it holds them with their base units at the ordering factor, for the scope named or WAREHOUSE, as a draft unless told otherwise |
| PurchaseOrderContent.UpdateStores | backend/src/purchase-orders/purchase-orders.service.ts:134-199 | exactly when an update is taken; what it gives is set and what it leaves out stays |
| PurchaseOrderContent.ReceiveTakenIff | backend/src/purchase-orders/purchase-orders.service.ts:209-255 | exactly which receives are taken, by status, date and the named quantities against what remains; any other changes nothing |
| PurchaseOrderContent.ReceiveRaises | backend/src/purchase-orders/purchase-orders.service.ts:225-348 | an uninterrupted receive raises each product it posts by its units times the ordering factor, in the scope it names or the order's, and moves no other balance |
| PurchaseOrderContent.ReceiveAnswers | backend/src/purchase-orders/purchase-orders.service.ts:276-388 | it answers how many entries it made and how many lines it passed over, and its entries are the order's receipts |
| PurchaseOrderContent.SameBatchIff | backend/src/purchase-orders/purchase-orders.service.ts:261-274 | two receives of an order are one batch exactly if scope, day and the quantities named of its lines agree |
| PurchaseOrderService.CommitUpdate | backend/src/purchase-orders/purchase-orders.service.ts:163-198 | delete, recreate and update in one transaction, with rollback on a repeated product, on the order as it then is |
| PurchaseOrderService.Update | backend/src/purchase-orders/purchase-orders.service.ts:134-199 | guards and transaction with nobody in between are the machine's update step |
| PurchaseOrderService.BuildWant | backend/src/purchase-orders/purchase-orders.service.ts:227-233 | the payload Map, refused on a repeated line id |
| PurchaseOrderService.SelectLines | backend/src/purchase-orders/purchase-orders.service.ts:235-255 | the selected lines, refused on a quantity out of bounds |
| PurchaseOrderService.PostPicks | backend/src/purchase-orders/purchase-orders.service.ts:319-357 | the loop posts every pick and increments its line's counters, or reports a taken key |
| PurchaseOrderService.FilterUnposted | backend/src/purchase-orders/purchase-orders.service.ts:276-291 | the filter loop keeps the picks whose keys are not taken, in order |
| PurchaseOrderService.ReadForReceipt | backend/src/purchase-orders/purchase-orders.service.ts:209-274 | the guards, Map and selection are the machine's first read |
| PurchaseOrderService.CommitReceipt | backend/src/purchase-orders/purchase-orders.service.ts:297-388 | the transaction with its rollback and status is the machine's commit, on the order as it then is |
| PurchaseOrderService.Receive | backend/src/purchase-orders/purchase-orders.service.ts:209-388 | both reads and the transaction with nobody in between are the machine's receive step |
| CsvExport.RowRoundTrip | backend/src/purchase-orders/purchase-orders.service.ts:487-497 | a printed row reads back, by section 2 of RFC 4180, as its values without the stripped characters; an empty row as one empty field |
| CsvExport.DocumentReads | backend/src/purchase-orders/purchase-orders.service.ts:420-433 | what a printed document reads back as, for every non-empty list of rows |
| CsvExport.DocumentRoundTripIff | backend/src/purchase-orders/purchase-orders.service.ts:420-433 | all rows come back if and only if there is one row or the last one prints as something |
| CsvExport.FormRoundTrip | backend/src/purchase-orders/purchase-orders.service.ts:400-433 | every exported order form reads back row by row |
| CsvExport.FormShows | backend/src/purchase-orders/purchase-orders.service.ts:390-433 | read back, a form shows the order's head, its lines numbered and in order with product, unit, quantity and notes, and the total ordered |
| CsvExport.CleanKeepsText | backend/src/purchase-orders/purchase-orders.service.ts:490 | cleaning removes exactly the control characters and is idempotent |
| Audits.RunKeeps | backend/src/audits/audits.service.ts:31-158 | in every interleaving of split counts and finalizes: one line per product, and only finalized sessions have entries |
| Audits.FinalizeCommits | backend/src/audits/audits.service.ts:99-158 | a finalize transaction never fails on a key, however many overlap and whatever was counted since its read |
| Audits.MovementInRunIff | backend/src/audits/audits.service.ts:50-147 | in any interleaving, for a count and the first finalize commit of its session: the balance is then the counted base quantity plus the net of everything posted since the count's balance read, if and only if the line of the product written last when the finalize read the session has the count's delta, or none was written and that delta is zero |
| Audits.MovementPreserved | backend/src/audits/audits.service.ts:50-147 | it is so for every line a finalize read that was not posted before |
| Audits.LastWrittenIsThere | backend/src/audits/audits.service.ts:53-69 | after any interleaving a session's line of a product is the one that a count wrote last |
| Audits.CountWrites | backend/src/audits/audits.service.ts:31-69 | a count is taken exactly for a draft session and a known product; its line wants the counted quantity times the factor of the unit counted in, rounded, and lacks that less the balance |
| Audits.SessionStarts | backend/src/audits/audits.service.ts:20-29 | a session is a draft for the scope named, or WAREHOUSE, with no lines |
| Audits.FinalizeAnswers | backend/src/audits/audits.service.ts:94-165 | a finalize answers the lines it read, the entries it made, all adjustments in its session's scope, and the lines with nothing to adjust |
| Audits.MeasureCounts | backend/src/audits/audits.service.ts:44-51 | a count's delta is the counted quantity less the balance at its read |
| Audits.WriteLands | backend/src/audits/audits.service.ts:53-69 | a count's write puts its line on the session in place of the product's and leaves the other lines, scope and status |
| Audits.RecountIsLost | backend/src/audits/audits.service.ts:86-147 | concrete run: a recount between a finalize's read and its transaction stays on the session but not in the balance |
| Audits.FinalizePostsNothingIff | backend/src/audits/audits.service.ts:100-115 | a finalize posts nothing if and only if every line has a zero delta or is posted |
| Audits.LeavesNothingIff | backend/src/audits/audits.service.ts:99-147 | a finalize's transaction leaves nothing to post if and only if every line of the session is zero, posted, or of a product that the call had read with a delta |
| Audits.SecondFinalizeIff | backend/src/audits/audits.service.ts:85-147 | from any finalize's transaction on, another finalize would post nothing at any time if and only if that is so and no count that passed its check before writes a line that is left to post |
| Audits.UnreadLineIsLeft | backend/src/audits/audits.service.ts:85-147 | concrete run: a product counted between a finalize's read and its transaction is left for a second finalize to post |
| AuditService.AddLine | backend/src/audits/audits.service.ts:31-83 | check, balance and line with nobody in between are the machine's count step |
| AuditService.Upsert | backend/src/audits/audits.service.ts:53-69 | the line of the same product is replaced, or one is added |
| AuditService.CommitFinalize | backend/src/audits/audits.service.ts:99-158 | the loop with its counters is the machine's finalize transaction, on the session as it was read |
| AuditService.Finalize | backend/src/audits/audits.service.ts:85-166 | read and transaction with nobody in between are the machine's finalize step |
| Inventory.LargeDeltaIff | backend/src/inventory/audit-helpers.ts:19-24 | a delta is large if and only if it is at least 100 and at least a quarter of the balance |
| Inventory.CountSetsBalance | backend/src/inventory/inventory.service.ts:14-90 | a new count leaves on hand, in the scope named or WAREHOUSE, exactly the counted quantity times the factor of its unit, rounded; moves no other balance; and answers with the figures of its one entry |
| Inventory.CountKeyIs | backend/src/inventory/inventory.service.ts:15-16 | a count's key is the client's, or else the product, the scope and the time |
| Inventory.CountRecorded | backend/src/inventory/inventory.service.ts:237-254 | the answer of a count is the one rebuilt from its ledger entry |
| Inventory.CountReplays | backend/src/inventory/inventory.service.ts:18-27 | repeating a count under its key gives back the first answer and posts nothing, at any later time and with any content |
| Inventory.LateCountIff | backend/src/inventory/inventory.service.ts:29-106 | a count's transaction, however late after its key look-up, does what the whole call would do at that moment, recovery included, if and only if its key is free or its product still exists |
| Inventory.TransferAgreesIff | backend/src/inventory/inventory.service.ts:153-218 | a transfer keeps ledger and balances in agreement if and only if it leaves its own scope or moves nothing |
| Inventory.TransferMoves | backend/src/inventory/inventory.service.ts:152-218 | a transfer goes through exactly for a known product and a new key; to another scope it moves its quantity times the factor of its unit, rounded, from the scope named or WAREHOUSE onto the truck, and no other balance |
| Inventory.TransferEntries | backend/src/inventory/inventory.service.ts:182-215 | its two entries, in any scopes |
| Inventory.PacksMove | backend/src/inventory/inventory.service.ts:152-218 | concrete transfer: three packs of six are eighteen pieces |
| Inventory.TransferOnce | backend/src/inventory/inventory.service.ts:156-161 | a transfer key moves stock once, whatever a repeated call carries |
| Inventory.OpeningCountHolds | backend/src/products/products.service.ts:102-134 | a new product's opening count is what is on hand afterwards |
| Inventory.OpeningPosts | backend/src/products/products.service.ts:102-134 | an opening count posts once; then its quantity is on hand and no other balance has moved |
| Inventory.InitialLoadPosts | backend/src/products/products.service.ts:918-955 | an initial load puts its quantity where it says, once a day, if positive |
| InventoryService.AuditCount | backend/src/inventory/inventory.service.ts:13-90 | the call is the count step |
| InventoryService.CountTransaction | backend/src/inventory/inventory.service.ts:29-106 | the transaction with the recovery from a taken key is the machine's transaction, whenever it runs |
| InventoryService.Transfer | backend/src/inventory/inventory.service.ts:152-222 | the call is the transfer step |
| InventoryService.OpenOnHand | backend/src/products/products.service.ts:102-134 | the call is the opening-count step |
| InventoryService.LoadInitial | backend/src/products/products.service.ts:918-955 | the call is the initial-load step |
| Usage.OwnRowIff | backend/src/analytics.controller.ts:183-224 | every entry is counted in a row with its own product and technician if and only if no two entries with different ones share a joined key |
| Usage.RowsHoldEntries | backend/src/analytics.controller.ts:143-224 | then in any grouping the rows of a product, a technician or all hold exactly the absolute quantities of those entries; the total does in any case |
| Usage.MarginalsAgree | backend/src/analytics.controller.ts:124-252 | then product-and-technician rows sum to the product rows and to the technician rows; all three totals are the sum of absolute quantities in any case |
| Usage.FilteredRowsHoldEntries | backend/src/analytics.controller.ts:188-224 | with a technician filter the same holds of the entries of those technicians, or of all where no technician is shown |
| Usage.Report | backend/src/analytics.controller.ts:121-252 | the Map loop and the summing loop compute those rows and their total |
| Discrepancy.Report | backend/src/analytics.controller.ts:324-368 | the two loops give every product that occurs, and no other, the count, net, absolute sum, earliest and latest time of its lines and adjustments |
| Discrepancy.NetWithinAbsolute | backend/src/analytics.controller.ts:329-348 | a row's net is within its absolute sum, and equals it in size if and only if no two deltas have opposite signs |
| Warehouse.SyncedStep | backend/prisma/schema.prisma:265 | every step of one service, but for a transfer within one scope, is one foreign transaction of the others, and all keep seeing one ledger |
| Warehouse.StepKeeps | docs/INVENTORY_RULES.md:4-5 | a step of any service keeps the invariants of all, in every interleaving |
| Warehouse.AllServicesAgree | docs/INVENTORY_RULES.md:4-5 | after any interleaving of all services' split calls: one store and every invariant, and the ledger in agreement with the balances if and only if no transfer within one scope moved anything |
| Warehouse.HoldsThroughoutIff | docs/INVENTORY_RULES.md:4-5 | among all services, a request stays posted once and an order reconciled, or within what was ordered, if and only if each commit and write of it fits |
| Warehouse.MoveIsDirectIff | backend/src/inventory/inventory.service.ts:153-218 | a transfer is a transaction of postings if and only if it leaves its own scope or moves nothing |
| Warehouse.CountIsDirect | backend/src/inventory/inventory.service.ts:30-66 | every count is one |
| Warehouse.OpeningIsDirect | backend/src/products/products.service.ts:102-134 | every opening quantity and initial load is one |
| Warehouse.ReceivedLineIsDirect | backend/src/incoming/incoming.service.ts:127-153 | every received line, by hand or by CSV, is one |

## Left out

- The frontend, HTTP layer, authentication, permission decorators, users, suppliers, technicians, products' other columns, QR codes and photos; role and technician checks inside the service methods are kept.
- Notes, reasons of entries, actors, timestamps and approvedAt columns; they guard nothing.
- A balance row that an upsert creates with zero is not told apart from a missing one.
- Receipt rows are modelled only for purchase orders, where a property speaks of them; the other flows write them but read them nowhere in the core.
- `TransferService.Create`: takes "linked user exists" and "technician exists and is active" as one map; the two checks give the same error.
- `PurchaseOrderReceipts.ReplayChangesNothing`: assumes the factors of the received products are the same at the replay, and line ids that have been given out; without the former the call is another batch, and `PurchaseOrderReceipts.ReceiveChangesNothingIff` says when it posts.
- `TransferService.Finalize`, `PurchaseOrderService.Receive`, `AuditService.Finalize` and the other service methods named for a whole call run it to its end; overlaps are in the machines and in the methods for single reads and transactions.
- Creating a request or an order reads before it inserts, but is one step: nobody can see the new row in between. A second creation under one key is answered with the first row even where the overlap makes the code answer with an error; it creates nothing either way.
- `ReceivingRace.OverlappingCallsComplete`: lets every call walk its missing lines in batch order, the order in which they were inserted.
- Prisma error codes: a duplicate key is a conflict.
- `localeCompare` is taken as code-unit order, which sorts generated ids the same way; JSON of a batch is taken as injective, SHA-256 too.
- CSV parsing, header aliases and product look-up before `importReceivingCsv` has resolved its rows; `bulkImportCsv`, `importInitialStock` and `importEpaCsv` beyond the initial-load posting.
- `CheckoutService.finalize`: several transactions per call and the same posting kernel again.
- `auditDiscrepancyDetail` and the date and scope filters of both reports: queries.
- Tracking quantities, names, source previews and the order of usage rows; rounding of displayed quantities.
- The 500-row limit and paging of `listReceipts`, and its timestamps; SQL wildcards in a prefix search are taken literally.
- 32-bit columns and floating-point error: numbers are exact. Trimming and lower-casing are ASCII.
- backend/src/inventory/audit-helpers.spec.ts:25 expects a delta of 300 at a balance of 2000 to be large; the code's threshold there is 500, and the model follows the code.
- RFC 4180's TEXTDATA is read as any character but comma, quote and line breaks, so that tabs and non-ASCII text are allowed.
