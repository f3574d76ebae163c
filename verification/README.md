# Backend state machines of the delivery platform

A Dafny model of the parts of the backend in which state is changed step by step and something
has to stay true over whole runs: the category collection, the two ways a document is turned
into a `$set`, the product image pool, returns and refunds, cash remittance, the rate limiter,
driver shifts, hero variants, rider ratings and the payment-timeout race.

Each component has a module with its state, its steps as functions and the properties of those
steps and of all runs, and beside it the handlers themselves as classes whose methods change
their fields in place and are proved to take exactly those steps.

| component | properties | handlers |
|---|---|---|
| categories | `CategoryForest`, `CategoryRequests` | `CategoryHandlers` |
| settings update | `Documents`, `SettingsUpdate` | `SettingsUpdate.SetBuilder` |
| URL migrations | `Documents`, `UrlMigration` | `UrlMigration.Migration` |
| product images | `UploadPool` | `UploadPool.Pool` |
| returns | `GstReversal`, `Returns`, `ReturnMoney`, `ReturnRefunds` | `ReturnHandlers` |
| cash remittance | `CodRemittance`, `CodSubmissions`, `CodCalls`, `CodInterleaving`, `CodRetries` | `CodHandlers` |
| rate limiter | `RateLimiter` | `RateLimitMiddleware` |
| driver shifts | `DriverSlots` | `SlotHandlers` |
| hero variants | `HeroVariants`, `HeroConfigs` | `HeroHandlers` |
| rider ratings | `DeliveryRating` | `RatingHandlers` |
| payment timeout | `PaymentTimeout` | `TimeoutHandlers` |

Money is counted in paise and averages in hundredths. What the handlers ask of services, clocks
and the gateway arrives as a parameter of the step.

## What the code does not guarantee

Where a property one would expect does not follow from the code, the model keeps the code, proves
under which condition the property holds and names an input that breaks it.

- Categories: an update may hang a header under its own child, which makes a cycle
  (`HeaderUnderItsChild`); the exact condition is in `UpdateKeepsAcyclicIff`. A move without
  activation is never checked (`ReparentWithoutCheck`, `UpdateKeepsExclusiveIff`), and two
  activations that are checked at the same time are both let through, harmlessly exactly when
  neither category lies above the other (`OverlappingActivationsCollide`).
- Product images: with several files under `mainImage` the one whose upload settles last wins
  (`MainIsLastSettled`); the outcome is certain, however the uploads end, exactly when at most one
  is submitted (`MainScheduleFreeIff`, `FormScheduleFreeIff`).
- Returns: the flag that marks the pickup commission as paid is not in the order schema
  (backend/app/models/order.js, lines 298-305), so its write is dropped, the guard at completion
  never fires, and a return by pickup OTP with a commission and a rider pays the rider at pickup and
  again at the quality check (`UnstoredFlagPaysTwiceIff`; `PickupReturnIsSettleable` is such a run,
  `WholeReturnBalance` says the platform is then short of one commission). `financeFlags.sellerPayoutHeld`
  is not declared either. With the flag stored, as the guard intends, a quality check that
  overtakes the background credit still pays twice (`EarlyCheckPaysTwice`).
  `WholeReturnConservesIff` covers both, and `WholeReturnConserves` is the conservation law where
  it holds: after an RTO as the code stands, after a pickup OTP with the flag stored.
- Returns: a completed return can be taken back to `returned` by the status update or by a drop OTP
  (`WaysBackToReturned`). The next quality check then credits the customer again, fails on the
  transaction record that exists (backend/app/models/transaction.js, lines 33-37) and leaves the
  order at `qc_passed`, from where the same can happen again: every completion beyond the first costs
  the platform the whole refund (`ReopenedReturnRefundsAgain`, `EveryReopeningCosts`,
  `RefundedOnceIff`). A comment in `updateReturnStatus` allows forward transitions only, but statuses
  outside its table rank 0.
- Cash remittance: a request stays within its amount as long as one call is let through for it, and
  two can already break it (`BookedWithinAmountIff`). The webhook and the rider's verification can
  both pass the status check (`OverlappingCallsBookTwice`); and a call that is refused part-way
  leaves its request pending, so that a retry books on top of what it has booked (`RetryBooksOnTop`,
  `RefusedCallIsBookedAgain`, with the run of `RefusalIsReachable`).
- Rate limiter: a request that waits for Redis until the entry of its key has expired starts the
  count again (`LateRequestRestartsCount`); the count is true exactly for the first request of a
  key and those that come before that (`CountIsTrueIff`).
- Driver shifts: the duty record can name a slot that is over (`StaleIff` says exactly when).
- Hero variants: zone ids are not freed of repetitions, so one zone named twice overwrites the
  variant of two zones (`RepeatedIdOverwrites`, `UpsertKeepsOnePerSetIff`); a record older than
  the `zoneIds` field is shown but never found by a save, so that a second all-zones variant is
  made beside it (`OldRecordIsNotFound`).
- Ratings: after 800 ratings the stored average never changes again (`FrozenAverage`), and of two
  submissions that overlap one is lost from the count for good (`SavesLoseNoneIff`).
- Payment timeout: a payment captured just after the cancellation stays on a cancelled order
  (`LatePaymentStaysCancelled`), and stock whose compensation fails after the cancellation is never
  given back (`AbandonedIsNeverCompensated`).

## Model

| member | source | states |
|---|---|---|
| CategoryRequests.DeleteIsExact | backend/app/controller/categoryController.js:389-397 | deletion removes exactly the category and its descendants, leaves all others and their ancestors as they were and cuts none off from a stored parent |
| CategoryRequests.CreateAcceptedIff | backend/app/controller/categoryController.js:181-215 | a creation is accepted if and only if its parent id and type are well formed, it is a header or hangs one level below its parent, nobody has its slug and no category at or above the parent is active if it is |
| CategoryRequests.UpdateAcceptedIff | backend/app/controller/categoryController.js:311-357 | an update is accepted if and only if the category exists, what it gives is well formed, the result is a header or hangs one level below its parent, no other category has the slug and, when it activates, no category at or above the parent and none below it is active |
| CategoryRequests.CreateStores | backend/app/controller/categoryController.js:217 | an accepted creation stores the request as it came and touches no other document |
| CategoryRequests.UpdateStores | backend/app/controller/categoryController.js:359-363 | an accepted update stores every field it gives, keeps every field it leaves out and touches no other document |
| CategoryRequests.SwitchedOffThenActivated | backend/app/controller/categoryController.js:284-357 | once the one active category at or above the parent of d has been switched off, activating d is accepted if and only if nothing below d is active and its type fits its parent; before that it is refused |
| CategoryRequests.UpdateKeepsAcyclicIff | backend/app/controller/categoryController.js:314-363 | an accepted update creates a cycle if and only if the new parent lies in the category's own subtree |
| CategoryRequests.UpdateKeepsExclusiveIff | backend/app/controller/categoryController.js:330-363 | an accepted update keeps commission exclusive if and only if the two searches, had they been made, would not both have found something |
| CategoryRequests.UpdateKeepsExclusive | backend/app/controller/categoryController.js:330-357 | updates that activate, or that keep the parent, keep commission exclusive along every path |
| CategoryRequests.CreateKeepsExclusive | backend/app/controller/categoryController.js:205-217 | an accepted creation keeps the collection acyclic and commission exclusive |
| CategoryRequests.RunsStayExclusive | backend/app/controller/categoryController.js:205-397 | over any sequence of creations, deletions and updates that activate or keep the parent, and that hang no category into its own subtree, no commission-active category has a commission-active ancestor |
| CategoryRequests.TypedIsAcyclic | backend/app/controller/categoryController.js:31-47 | a three-level forest has no cycles, so the walks over it end |
| CategoryRequests.LevelIsDepth | backend/app/controller/categoryController.js:31-47 | in a three-level forest every category hangs exactly its level below a header without a parent |
| CategoryRequests.UpdateKeepsTypedIff | backend/app/controller/categoryController.js:321-363 | an accepted update leaves a three-level forest if and only if a resulting header has no parent and the type is kept or there are no children and no self-reference |
| CategoryRequests.RunsStayTyped | backend/app/controller/categoryController.js:31-397 | requests that keep `type` and give headers no parent only ever reach acyclic three-level forests |
| CategoryRequests.DisciplinedRunsStaySound | backend/app/controller/categoryController.js:181-397 | both at once: disciplined requests keep the typed forest and commission exclusivity over every run |
| CategoryRequests.RunsKeepSlugsApart | backend/app/controller/categoryController.js:199-203 | over every run no two categories share a slug |
| CategoryRequests.HeaderUnderItsChild | backend/app/controller/categoryController.js:31-32 | a header can be accepted under its own child, ending the forest and the exclusivity |
| CategoryRequests.ReparentWithoutCheck | backend/app/controller/categoryController.js:330-331 | an active category can be accepted under an active header when the request does not activate |
| CategoryRequests.OverlappingActivationsCollide | backend/app/controller/categoryController.js:330-363 | two activations accepted on the same collection may be written side by side if and only if neither category lies above the other; one after the other, the second is refused in exactly the other case |
| CategoryHandlers.CategoryCollection.FindActiveAncestor | backend/app/controller/categoryController.js:206-214 | whenever the upward walk ends, on a cyclic collection too, it has found a commission-active category at or above the start if and only if there is one |
| CategoryForest.EndlessWalk | backend/app/controller/categoryController.js:206-214 | a walk that meets neither an active category nor a root nor a missing document is still going after any number of steps |
| CategoryForest.AcyclicWalkEnds | backend/app/controller/categoryController.js:206-214 | on an acyclic collection every upward walk ends |
| CategoryHandlers.CategoryCollection.CheckDescendants | backend/app/controller/categoryController.js:343-351 | the downward search ends and finds a commission-active strict descendant if and only if there is one |
| CategoryHandlers.CategoryCollection.CreateCategory | backend/app/controller/categoryController.js:181-217 | takes the creation step, or refuses and changes nothing; what it stores is the request, field by field |
| CategoryHandlers.CategoryCollection.UpdateCategory | backend/app/controller/categoryController.js:311-365 | takes the update step and tells not found, refused and done apart; when done, every field given is stored, every field left out and every other document kept |
| CategoryHandlers.CategoryCollection.DeleteCategory | backend/app/controller/categoryController.js:389-397 | the recursive deletion, child by child, removes the whole subtree and nothing else |
| SettingsUpdate.PathsPrefixFree | backend/app/controller/settingsController.js:79-102 | no path written for a payload is a prefix of another |
| SettingsUpdate.ApplyIsMerge | backend/app/controller/settingsController.js:268-284 | applying the flattened payload in any order is a recursive deep merge, refused in the same cases |
| SettingsUpdate.MergeRefusedIff | backend/app/controller/settingsController.js:280-284 | the deep merge is refused exactly when the way to some written path is blocked |
| SettingsUpdate.WrittenOrRefused | backend/app/controller/settingsController.js:280-284 | the flattened payload, in any order, is refused if and only if the way to a written path is blocked; otherwise every written path reads its value, paths new to the document included, and every path apart from them reads as before |
| SettingsUpdate.MergeReads | backend/app/controller/settingsController.js:79-102 | in the merged document every written path reads the written value and every path apart from them reads as before |
| SettingsUpdate.MentionsMeaning | backend/app/controller/settingsController.js:80-101 | a payload node writes something if and only if it has a defined value or an empty object below it |
| SettingsUpdate.SetBuilder.FlattenForMongoSet | backend/app/controller/settingsController.js:79-102 | adds to the shared target exactly the flattened entries of the value, under the dotted names of their paths |
| SettingsUpdate.SetBuilder.CollectUpdates | backend/app/controller/settingsController.js:268-272 | the loop over the payload collects exactly the entries of all its fields |
| SettingsUpdate.SettingsUpdateIsMerge | backend/app/controller/settingsController.js:268-284 | end to end: the collected `$set` object, read back as paths in any order, deep-merges the payload into the stored document, is refused exactly when the way to a written path is blocked, and otherwise leaves every written path with its value |
| Documents.ComponentsOfDotted | backend/app/controller/settingsController.js:99-101 | a path of dot-free keys survives being joined with dots and split again |
| Documents.DecimalInjective | backend/migrate_cloudinary_urls.js:36-37 | array positions written as path components are told apart |
| Documents.SetAllFactors | backend/app/controller/settingsController.js:280-284 | a list of path updates acts on each child of a document independently of the others and of their order |
| Documents.SetAtWrites | backend/app/controller/settingsController.js:280-284 | one `$set` is refused exactly when its path meets something stored that is neither an object nor an array with the element named next; otherwise the path reads the value, created or not |
| UrlMigration.UpdatesRewriteExactly | backend/migrate_cloudinary_urls.js:18-72 | applying the recorded updates in any order gives the document with each string leaf rewritten and all else untouched |
| UrlMigration.ReplacedReads | backend/migrate_cloudinary_urls.js:18-44 | path by path, a string leaf the pattern matches reads its replacement, every other leaf reads as before, and no node is added or removed |
| UrlMigration.PatchAtMeaning | backend/migrate_cloudinary_urls.js:30-33 | recorded are exactly the string leaves that the pattern matches and the replacement changes |
| UrlMigration.PatchesPrefixFree | backend/update_domain_urls.js:20-44 | no recorded path is a prefix of another |
| UrlMigration.SecondRunIsEmpty | backend/update_domain_urls.js:24-33 | for an idempotent rewrite a second run records nothing |
| UrlMigration.UnpatchedIsUnchanged | backend/migrate_cloudinary_urls.js:30-33 | a document for which nothing is recorded is its own rewriting |
| UrlMigration.Migration.Traverse | backend/migrate_cloudinary_urls.js:18-44 | records exactly the changed leaves below the current node and raises `modified` if and only if there is one |
| UrlMigration.Migration.Replace | backend/migrate_cloudinary_urls.js:14-48 | `modified` holds if and only if rewriting changes the document |
| UrlMigration.MigrationRewritesExactly | backend/update_domain_urls.js:66-72 | end to end: the `$set` of the recorded updates turns the stored document into its rewriting |
| UploadPool.SettleInv | backend/app/controller/productController.js:154-174 | every step keeps: at most two uploads in flight, files handed out in order, no two workers on one file, none idle while files are left, the gallery holding exactly the settled uploads |
| UploadPool.PoolTerminates | backend/app/controller/productController.js:155-177 | under every schedule the pool stops after exactly one settlement per file |
| UploadPool.EachFileOnce | backend/app/controller/productController.js:156-157 | along every schedule no file is taken twice, and the settled files are exactly those no longer open |
| UploadPool.CompleteSettlesAll | backend/app/controller/productController.js:176-177 | a finished pool has settled every file |
| UploadPool.GalleryIsScheduleFree | backend/app/controller/productController.js:167-182 | whatever the schedule, the gallery is the successful gallery uploads in original file order |
| UploadPool.MainIsLastSettled | backend/app/controller/productController.js:165-166 | the main image is that of the last successful main upload to settle, and unchanged if none succeeded |
| UploadPool.MainScheduleFreeIff | backend/app/controller/productController.js:154-177 | the main image is the same under all schedules if and only if all successful main uploads agree |
| UploadPool.FormScheduleFreeIff | backend/app/controller/productController.js:148-177 | the main image is the same under all schedules, however the uploads end, if and only if at most one file is submitted under `mainImage` |
| UploadPool.Pool.Resume | backend/app/controller/productController.js:155-173 | what a worker does between two awaits is one step of the pool |
| UploadPool.ApplyUploadedProductFiles | backend/app/controller/productController.js:148-183 | the product ends with the gallery in file order, or its old one when nothing was uploaded, under every interleaving |
| GstReversal.ReversalBounds | backend/app/controller/orderController.js:1041-1048 | the rounded GST reversal never exceeds the charge, nor the refund when the charge is within the subtotal, and a full refund reverses all of it |
| GstReversal.ReversalWithinRefundIff | backend/app/controller/orderController.js:1041-1048 | the reversal stays within every refund if and only if the charge does not exceed the product subtotal |
| GstReversal.ReversalIsNearest | backend/app/controller/orderController.js:1041-1048 | a refund of part of the subtotal reverses the same part of the charge to the nearest paisa, a larger one the whole charge |
| Returns.TotalIsUnits | backend/app/controller/orderController.js:1025-1032 | the amount to refund is the price of every single unit returned |
| ReturnMoney.ClampsNeverBite | backend/app/controller/orderController.js:1079-1130 | with the charge within the subtotal neither clamp at zero ever bites |
| ReturnMoney.RunBeforeCompletion | backend/app/controller/orderWorkflowController.js:306-373 | along any run with at most one accepted pickup OTP nothing is paid before completion but the commission to the rider, once, and it is marked as paid only where the schema stores the mark |
| ReturnMoney.RiderCreditsExactly | backend/app/controller/orderController.js:1136-1172 | over a whole return, background step included, the rider is credited once if the pickup pays and once if completion does not know of it, and the customer and the seller are each booked once |
| ReturnMoney.WholeReturnConservesIff | backend/app/controller/orderController.js:1016-1178 | over a whole return, with the background step before or after the check, the rider gets exactly the commission and seller debit + GST reversal = customer credit + rider credits if and only if the balance covers the debit, the reversal stays within it and exactly one of pickup and completion pays |
| ReturnMoney.WholeReturnBalance | backend/app/controller/orderController.js:1016-1178 | when the debit goes through, the balance misses by exactly one commission: short if both pay, over if neither does |
| ReturnMoney.UnstoredFlagPaysTwiceIff | backend/app/models/order.js:298-305 | as the code stands, with the paid flag undeclared, the rider is credited twice if and only if the pickup pays and a rider is assigned at the end; never without an accepted OTP |
| ReturnMoney.WholeReturnConserves | backend/app/controller/deliveryController.js:952-960 | the conservation law with the rider credited exactly once: after an RTO as the code stands, after a pickup OTP in the intended variant with the flag stored and the background step done |
| ReturnMoney.PickupReturnIsSettleable | backend/app/controller/orderWorkflowController.js:306-375 | every delivered order with a released payout can go through request, approval, acceptance, both OTPs and drop to a return whose background step is still pending |
| ReturnMoney.PickupReturnRefunds | backend/app/controller/orderController.js:1025-1069 | a known customer who returns items by pickup is credited the price of every unit, q times p for q units at p, once the check is passed |
| ReturnMoney.EarlyCheckPaysTwice | backend/app/controller/orderWorkflowController.js:342-369 | in the intended variant, with the flag stored, the rider is credited at most once if and only if the quality check does not overtake a background step that pays the rider of a pickup who is still assigned |
| ReturnMoney.WholeCompletion | backend/app/controller/orderController.js:1016-1197 | a completion that repeats no record, field by field: credit, held payout cancelled or released one recovered, rider paid unless known to be paid, records written, charge lowered only where something was recovered |
| ReturnMoney.HeldReturn | backend/app/controller/orderController.js:1071-1101 | while the payout is held a return costs the seller nothing but the payout |
| ReturnRefunds.RefundsNeedReceipts | backend/app/controller/orderController.js:745-763 | on every run the customer is refunded at most once per entry into `returned` |
| ReturnRefunds.RefundsAreCompletions | backend/app/controller/orderController.js:1055-1069 | on every run the refunds are exactly the completions that have a customer and an amount to refund |
| ReturnRefunds.RefundsAreTheGoods | backend/app/controller/orderController.js:1025-1069 | on every run of a return, approved or not, each refund is the price of every single unit returned |
| ReturnRefunds.RunKeepsRefund | backend/app/controller/orderController.js:810-1010 | from the approval on, assigning, accepting, giving back, handing over and checking never change what the return pays its customer |
| ReturnRefunds.RefundedOnceIff | backend/app/controller/orderController.js:745-763 | an order with a refund to pay is refunded at most once along a run if and only if the run completes it at most once |
| ReturnRefunds.RejectUndoesAccept | backend/app/controller/orderController.js:905-1010 | giving an accepted pickup back restores the return exactly as it was approved |
| ReturnRefunds.RepeatCompletionIsIdle | backend/app/controller/orderController.js:1018-1023 | a completion that came to its end is not made again, and nothing is checked that is not at `returned` |
| ReturnRefunds.UpdateNeverLowersRank | backend/app/controller/orderController.js:1236-1280 | the status update never lowers the rank of its three ranked statuses |
| ReturnRefunds.UpdateAcceptedIff | backend/app/controller/orderController.js:1236-1280 | the status update goes forward only among its three statuses, and to any of them from everywhere else |
| ReturnRefunds.WaysBackToReturned | backend/app/controller/orderWorkflowController.js:444-487 | a return that is not at `returned`, a completed one included, gets there in one step exactly by an authorised status update or by a valid drop OTP of the assigned rider |
| ReturnRefunds.ReopenedReturnRefundsAgain | backend/app/controller/orderController.js:1236-1280 | a refunded return is refunded again by the next passed check if and only if it was taken back to `returned` before it; then nobody else's money moves and it stays at `qc_passed` |
| ReturnRefunds.EveryReopeningCosts | backend/app/models/transaction.js:33-37 | over any run of a return with a refund to pay, the customer is credited the refund once per completion and the seller debited at most once |
| ReturnHandlers.ReturnDesk.CompleteReturnAndRefund | backend/app/controller/orderController.js:1016-1197 | credits a known customer what is due, the price of the units unless an amount was fixed, and ends at `refund_completed` unless it comes to a transaction record that exists; each wallet is changed before its record is written |
| ReturnHandlers.ReturnDesk.AdjustSeller | backend/app/controller/orderController.js:1071-1133 | what leaves the seller's balance is what is debited; a held payout costs nothing; otherwise the charge goes down by exactly the GST given back, and a debit the balance covers recovers refund and commission to the last paisa |
| ReturnHandlers.ReturnDesk.UpdateReturnQcStatus | backend/app/controller/orderController.js:721-805 | checks exactly the returned orders, and a passed one is completed unless that repeats a record; after every check the refunds of the whole history are its paying completions and no more than its receipts |
| ReturnHandlers.ReturnDesk.UpdateReturnStatus | backend/app/controller/orderController.js:1202-1290 | accepts exactly its three targets, forward only among them |
| ReturnHandlers.ReturnDesk.AcceptReturnPickup | backend/app/controller/orderController.js:905-955 | refuses exactly the riders who come second |
| ReturnHandlers.ReturnDesk.VerifyReturnPickupOtp | backend/app/controller/orderWorkflowController.js:306-375 | accepts an OTP exactly once, counts as one acceptance of the whole history, pays nobody and leaves one background step that carries the commission and the rider as loaded |
| ReturnHandlers.ReturnDesk.CreditPickupCommission | backend/app/controller/orderWorkflowController.js:342-369 | pays on what was loaded when the OTP was accepted, and marks the order as paid only where the schema stores the mark |
| ReturnHandlers.ReturnDesk.VerifyReturnDropOtp | backend/app/controller/orderWorkflowController.js:461-487 | accepts exactly the assigned rider with a valid OTP in any status, so it adds a receipt to the history whenever the return was not at `returned` |
| ReturnHandlers.ReturnDesk.MarkOrderRto | backend/app/controller/deliveryController.js:935-960 | the second way into a return, for the rider of an order out for delivery |
| CodRemittance.BookedIsMin | backend/app/controller/deliveryController.js:210-237 | a settling pass books exactly the smaller of the amount and what its orders still owe |
| CodRemittance.SettledMovesBooked | backend/app/controller/deliveryController.js:216-237 | what a pass takes off the pending total it adds to the remitted total, and no order outside its list moves |
| CodRemittance.SubmissionMeaning | backend/app/controller/deliveryController.js:88-160 | a request asks for no more than its orders owe, each of them needed and each a collected, uncancelled COD order of the rider with cash pending |
| CodSubmissions.SubmissionIff | backend/app/controller/deliveryController.js:99-135 | a submit is accepted if and only if it asks for something and for no more than the rider's own collected cash; without an amount it asks for all of it |
| CodSubmissions.OldestFirst | backend/app/controller/deliveryController.js:88-150 | a request covers the oldest orders: none with pending cash is left out before one that is covered, and none at all without an amount |
| CodSubmissions.WholeSubmission | backend/app/controller/deliveryController.js:88-150 | without an amount a request asks for exactly the pending sum of the rider's collected, uncancelled COD orders and covers exactly those with cash pending |
| CodSubmissions.RequestsCoverOwn | backend/app/controller/deliveryController.js:88-160 | over any run no request covers another rider's orders, or cash not collected |
| CodSubmissions.CollectedIsOwed | backend/app/services/finance/orderFinanceService.js:455-600 | of a delivered COD order not marked yet whatever is collected is owed; anything else changes nothing |
| CodSubmissions.ReconciledIsTaken | backend/app/services/finance/orderFinanceService.js:885-981 | an administrator takes any positive amount up to what a COD order owes and nothing beyond |
| CodSubmissions.CancelledIsNeverAsked | backend/app/controller/deliveryController.js:88-95 | once an order is cancelled no later submit covers it, whatever happens in between |
| CodSubmissions.DeclinedIsFinal | backend/app/controller/deliveryController.js:201-258 | a declined payment fails its request for good: nothing is booked, then or later |
| CodRemittance.RunConserves | backend/app/services/finance/orderFinanceService.js:885-1006 | over any run pending is collected minus remitted and never negative, and pending plus booked cash is all the cash collected |
| CodRemittance.EachRequestBooksOnce | backend/app/controller/deliveryController.js:189-256 | each request books at most once, exactly min(amount, owed), touching no other order or request, and is idle ever after |
| CodRemittance.UndisturbedVerifyIsExact | backend/app/controller/deliveryController.js:140-237 | when the picked orders owe the same at verification, the amount is settled to the last paisa on exactly those orders, all but the last in full |
| CodHandlers.CashDesk.PickOrders | backend/app/controller/deliveryController.js:140-150 | the first greedy loop |
| CodHandlers.CashDesk.SubmitDeliveryCodCashToAdmin | backend/app/controller/deliveryController.js:78-160 | accepts exactly what asks for something and for no more than the rider's own cash, and then stores one request over collected COD orders of that rider |
| CodHandlers.CashDesk.SettleOrders | backend/app/controller/deliveryController.js:216-237 | the second greedy loop on amounts read before it began settles and books as the settling pass does |
| CodHandlers.CashDesk.ReconcileCodCash | backend/app/services/finance/orderFinanceService.js:885-981 | all or nothing, and never beyond what the order still owes |
| CodHandlers.CashDesk.VerifyCodPayment | backend/app/controller/deliveryController.js:185-263 | takes the verify step and tells not found, processed and settled apart |
| CodInterleaving.InterleavingsConserve | backend/app/services/paymentService.js:726-784 | however the steps of overlapping calls interleave, cash is conserved, no order is overpaid and a request books at most its amount per call let through |
| CodRetries.AloneIsVerify | backend/app/controller/deliveryController.js:185-256 | a call nobody interrupts does what the verify step says |
| CodInterleaving.ClosedLetsNoneThrough | backend/app/controller/deliveryController.js:202-204 | once a request is no longer pending it never is again, and no further call is let through for it |
| CodInterleaving.OverIsOver | backend/app/controller/deliveryController.js:220-256 | a call that has saved its request, or was refused, never does anything again |
| CodInterleaving.OverlappingCallsBookTwice | backend/app/services/paymentService.js:732-754 | two calls on one pending request, and no more, book any amount twice when its order owes that much |
| CodInterleaving.BookedWithinAmountIff | backend/app/controller/deliveryController.js:202-254 | on every interleaving a request for which at most n calls were let through books no more than its amount if and only if n is at most 1 |
| CodRetries.RetryBooksOnTop | backend/app/controller/deliveryController.js:202-237 | an undisturbed call on a pending request books the smaller of the whole amount and what its orders owe on top of what is booked already |
| CodRetries.RefusedCallIsBookedAgain | backend/app/controller/deliveryController.js:220-254 | a call that pays one order and is then refused, because d was reconciled on the next one meanwhile, leaves its request pending; the retry books more than the amount if and only if the orders owed more than the amount and d together |
| CodRetries.RefusalIsReachable | backend/app/controller/deliveryController.js:78-160 | orders of 60, 10 and 1000 with a payment of 100 pending, all set up through the endpoints, meet those hypotheses |
| RateLimiter.CountIsExact | backend/app/middleware/rateLimiter.js:37-46 | the count a prompt request gets is the number of local requests of its key so far, so it is admitted if and only if it is among the first `max` |
| RateLimiter.CountIsTrueIff | backend/app/middleware/rateLimiter.js:31-46 | for every limiter and history, a local request gets the true count of its key if and only if it is the first of the key or reaches the store before the entry made for the first one expires |
| RateLimiter.FirstEntryOutlivesBucket | backend/app/middleware/rateLimiter.js:37-45 | the first entry of a key outlives its bucket, so every request that reaches the store within its own bucket is counted truly |
| RateLimiter.FirstMaxAdmitted | backend/app/middleware/rateLimiter.js:56-82 | of the local requests of a key exactly min(number, max) are admitted: neither expiry nor cleanup drops an open bucket |
| RateLimiter.ConfiguredMaxAdmitted | backend/app/middleware/rateLimiter.js:49-71 | with a configured limit and window, of a client's prompt local requests in one window exactly min(number, configured limit) are let through |
| RateLimiter.Settings | backend/app/middleware/rateLimiter.js:56-58 | limit and window are the configured ones, at least one and a second, and 60 a minute when not given |
| RateLimiter.ServeKeepsTrueCounts | backend/app/middleware/rateLimiter.js:10-46 | at every moment the store holds exactly the true count of each open bucket |
| RateLimiter.RemoteWithinMax | backend/app/services/redisManager.js:120-134 | Redis admits at most `max` of a key even when increments go unanswered |
| RateLimiter.RedisCountIsExact | backend/app/services/redisManager.js:120-134 | an answered request gets the number of requests of its key that Redis has counted, the unanswered ones included |
| RateLimiter.MixedWithinTwiceMax | backend/app/middleware/rateLimiter.js:31-47 | any mix of Redis answers and local fallback admits at most 2 * max per bucket |
| RateLimiter.IntervalBound | backend/app/middleware/rateLimiter.js:56-71 | any half-open interval of one window length admits at most 2 * max per client locally, 4 * max mixed, when the client's own local requests in the two buckets it meets are prompt |
| RateLimiter.IntervalLetsThrough | backend/app/middleware/rateLimiter.js:56-71 | the same bound on the set of requests let through |
| RateLimiter.OneReadingIsPrompt | backend/app/middleware/rateLimiter.js:63-65 | with one clock reading per request every request reaches the store in its own bucket |
| RateLimiter.LateRequestRestartsCount | backend/app/middleware/rateLimiter.js:31-43 | for every limiter, one request more than `max` is admitted when it is held up until the entry of its key has expired |
| RateLimitMiddleware.Middleware.CleanupLocalStore | backend/app/middleware/rateLimiter.js:10-17 | keeps exactly the entries that have not expired, as they are |
| RateLimitMiddleware.Middleware.IncrementCount | backend/app/middleware/rateLimiter.js:31-47 | counts one request on Redis or on the local store |
| RateLimitMiddleware.Middleware.Handle | backend/app/middleware/rateLimiter.js:60-86 | lets a request through if and only if its count is within the limit, the configured one where there is one, and reports the remaining number and the end of the bucket |
| DriverSlots.RunsKeepOnlineIffActive | backend/app/jobs/slotCronJobs.js:26-92 | after every slot processed, in any order and interleaving with bookings and cancellations, a driver is online if and only if one of the driver's slots is active |
| DriverSlots.TickEffect | backend/app/jobs/slotCronJobs.js:14-108 | slot by slot: what is booked and has begun becomes active, what is active, just begun ones included, and has ended becomes completed, and nothing else changes |
| DriverSlots.NeverDroppedOffline | backend/app/jobs/slotCronJobs.js:15-81 | a driver who holds an active slot at the end of a tick is online after every completion in it |
| DriverSlots.RecordNamesActiveSlot | backend/app/jobs/slotCronJobs.js:35-41 | with bookings ahead of time, ends in the order of starts and one activation per driver and tick, the record of every online driver names an active slot |
| DriverSlots.StaleIff | backend/app/jobs/slotCronJobs.js:68-92 | the completions of a tick leave a record stale if and only if they end the slot it names but not every active slot of the driver |
| DriverSlots.TwoActivationsLeaveStale | backend/app/jobs/slotCronJobs.js:26-39 | for any two slots of a driver that begin in one tick which also ends the first, listing the later one first leaves the record stale |
| DriverSlots.NestedSlotLeavesStale | backend/app/jobs/slotCronJobs.js:78-81 | so does any slot that begins and ends within one that runs past midnight |
| DriverSlots.ImmediateBookingLeavesStale | backend/app/controller/delivery/driverSlotController.js:63-91 | so can a booking of a slot already under way |
| DriverSlots.OverlapQueryIsExact | backend/app/controller/delivery/driverSlotController.js:48-52 | the three clauses of the overlap query say exactly that the two intervals meet |
| DriverSlots.SlotTimes | backend/app/controller/delivery/driverSlotController.js:33-41 | a slot begins on its date at its start time and ends the first time after that at which the clock shows its end time |
| DriverSlots.BookKeepsNoOverlap | backend/app/controller/delivery/driverSlotController.js:30-77 | a booking is refused if and only if it meets a live slot of the driver on that date, and keeps all of them apart |
| DriverSlots.RoundKeepsNoOverlap | backend/app/controller/delivery/driverSlotController.js:43-77 | ticks, bookings and cancellations keep a driver's live slots of one date apart |
| DriverSlots.SameDateEndsInOrder | backend/app/controller/delivery/driverSlotController.js:38-53 | live slots of one date end in the order they start |
| SlotHandlers.ShiftDesk.RunTick | backend/app/jobs/slotCronJobs.js:14-108 | activates every booked slot that has begun, then completes every active one that has ended, and changes no other slot |
| SlotHandlers.ShiftDesk.CompleteSlot | backend/app/jobs/slotCronJobs.js:68-92 | completes one slot and takes the driver offline unless another of the driver's is active |
| SlotHandlers.ShiftDesk.BookSlot | backend/app/controller/delivery/driverSlotController.js:16-97 | refuses exactly on overlap; otherwise stores the slot with its times, active and named on the duty record if it is under way, upcoming if not |
| SlotHandlers.ShiftDesk.CancelUpcomingSlot | backend/app/controller/delivery/driverSlotController.js:132-148 | cancels only the driver's own upcoming slot |
| HeroVariants.CompareTransitive | backend/app/controller/experienceController.js:452-459 | the comparator is transitive, also in its ties |
| HeroVariants.CompareFlips | backend/app/controller/experienceController.js:452-459 | the comparator is consistent under swapping its arguments |
| HeroVariants.PickBestMeaning | backend/app/controller/experienceController.js:447-461 | the pick is visible, scoped to the fewest zones, the newest of those, and for all zones only when no scoped one is visible; nothing is picked if and only if nothing is visible |
| HeroVariants.AnySortAgrees | backend/app/controller/experienceController.js:452-460 | any list sorted by the comparator starts with a variant that ties with the pick |
| HeroVariants.FilterIsExact | backend/app/controller/experienceController.js:440-444 | without repeated ids the filter matches exactly the variants of the same zone set |
| HeroVariants.FilterExactIff | backend/app/utils/zoneVisibility.js:64-81 | the filter is exact for a request if and only if it repeats no id |
| HeroConfigs.HitsIff | backend/app/utils/zoneVisibility.js:64-81 | for a request that repeats no id the filter matches exactly the records of the page that have the field and the same zone set |
| HeroConfigs.UpsertKeepsOnePerSetIff | backend/app/controller/experienceController.js:641-683 | a save keeps one variant per page and zone set if and only if its ids repeat none and it is not the all-zones save of a page with a record older than the field |
| HeroConfigs.UpsertMeaning | backend/app/controller/experienceController.js:679-683 | a save updates the variant of its page and zone set, creates one if and only if none that has the field has that set, and leaves the others alone |
| HeroConfigs.RunKeepsOnePerSet | backend/app/controller/experienceController.js:588-684 | saves without repetitions, and without all-zones saves where there was an old record, deletions and lookups keep one variant per zone set over any run |
| HeroConfigs.LookupsAgreeAndAnswer | backend/app/controller/experienceController.js:480-510 | on every run the cached answer is the fresh one, and once the home page has its all-zones variant no home or header lookup is empty |
| HeroConfigs.HomeAnswersEverything | backend/app/controller/experienceController.js:493-507 | with a home all-zones variant every home and header lookup finds something |
| HeroConfigs.FreshMeaning | backend/app/controller/experienceController.js:491-508 | a header page answers with its own variant whenever it offers one and with the home page's only otherwise, in both cases with the best one offered |
| HeroConfigs.DeleteKeepsHome | backend/app/controller/experienceController.js:595-600 | no deletion removes the all-zones variant |
| HeroConfigs.DeletedMeaning | backend/app/controller/experienceController.js:588-602 | a deletion takes the record of that identity, if it is scoped to zones, and no other, and empties the cache if it takes one |
| HeroConfigs.RunKeepsIdsApart | backend/app/controller/experienceController.js:588-684 | saves and deletions never give two records the same identity |
| HeroConfigs.OvertakenAgreesIff | backend/app/services/cacheService.js:227-249 | a lookup overtaken by other requests leaves a right cache if and only if its answer did not change meanwhile |
| HeroConfigs.RepeatedIdOverwrites | backend/app/controller/experienceController.js:641-647 | one zone named twice takes the place of the variant of two zones |
| HeroConfigs.OldRecordIsNotFound | backend/app/controller/experienceController.js:442 | saving the all-zones variant updates a record if and only if one has the field, empty; beside a record older than the field a second all-zones variant results |
| HeroHandlers.HeroDesk.Resolve | backend/app/controller/experienceController.js:491-508 | a header page falls back on the home page |
| HeroHandlers.HeroDesk.GetPublicHeroConfig | backend/app/controller/experienceController.js:463-511 | answers from the cache, or computes the answer and caches it; in either case it is the fresh one |
| HeroHandlers.HeroDesk.UpsertHeroConfig | backend/app/controller/experienceController.js:608-684 | refuses a malformed zone list or an unknown header; otherwise one record of the page says what was asked, every other one is as it was and the cache is empty |
| HeroHandlers.HeroDesk.DeleteHeroConfigVariant | backend/app/controller/experienceController.js:588-602 | takes the record out and empties the cache, or tells that there is none or that it is for all zones and changes nothing |
| DeliveryRating.DriftBound | backend/app/controller/deliveryRatingController.js:67-71 | after n ratings with sum S the stored average A satisfies 4 * abs(n * A - 100 * S) <= n * (n + 1) and lies between 1 and 5 stars |
| DeliveryRating.UnchangedIff | backend/app/controller/deliveryRatingController.js:67-70 | a rating surely leaves the average alone if and only if it is less than half of n + 1 hundredths away from it |
| DeliveryRating.FrozenAverage | backend/app/controller/deliveryRatingController.js:67-70 | from 800 ratings on the stored average never changes again |
| DeliveryRating.OneStarForever | backend/app/controller/deliveryRatingController.js:67-70 | 800 one-star ratings outweigh any number of five-star ones |
| DeliveryRating.CountNeverExceedsRecords | backend/app/controller/deliveryRatingController.js:55-72 | however submissions overlap, the count never exceeds the finished records |
| DeliveryRating.SavesLoseNoneIff | backend/app/controller/deliveryRatingController.js:65-72 | over any run of overlapping submissions all finished records stay counted if and only if every save comes while the count is still the one it loaded; otherwise one is lost for good |
| DeliveryRating.OverlapLosesARating | backend/app/controller/deliveryRatingController.js:55-72 | two overlapping submissions leave two records and a count of one |
| RatingHandlers.RatingDesk.SubmitDeliveryRating | backend/app/controller/deliveryRatingController.js:11-79 | refuses with the right answer, or records the rating once and updates the average and count of that partner only |
| RatingHandlers.RatingDesk.GetMyRating | backend/app/controller/deliveryRatingController.js:91-102 | what is shown counts the partner's records exactly and is within the drift bound of their mean |
| PaymentTimeout.EachOrderLeavesOnce | backend/app/jobs/orderAutoCancelJob.js:115-155 | over any interleaving of scheduler instances and payment events an order is timed out, failed or accepted at most once, compensated at most once, and its stock comes back once per compensation or failure |
| PaymentTimeout.PaymentEvents | backend/app/services/paymentService.js:274-425 | a first capture pays an order and a repeated one changes nothing; only a captured online order that is still created is accepted; a failure cancels only a created order and gives its stock back unless that was done |
| PaymentTimeout.PaidIsNeverTimedOut | backend/app/jobs/orderAutoCancelJob.js:128-146 | an order paid before the guarded update is never compensated for a timeout, on every run in which nothing overwrites its payment status |
| PaymentTimeout.PaidInTimeIsAccepted | backend/app/services/paymentService.js:274-293 | a payment captured while the order is created is accepted, and no instance of the job ever times it out afterwards |
| PaymentTimeout.TimeoutMeetsUnpaid | backend/app/jobs/orderAutoCancelJob.js:128-144 | a step times an order out if and only if it is a guarded update that finds the order created and not paid |
| PaymentTimeout.TimedOutIff | backend/app/jobs/orderAutoCancelJob.js:115-155 | over any interleaving an order is timed out exactly if some guarded update comes to it while it is created and not paid, and then once |
| PaymentTimeout.TimedOutAfterExpiry | backend/app/jobs/orderAutoCancelJob.js:115-122 | over any interleaving an order is timed out or compensated only if it is an online one and some scan of the job came at or after its expiry |
| PaymentTimeout.RowIsSwept | backend/app/jobs/orderAutoCancelJob.js:125-155 | a row whose order is still created and not paid: cancelled, compensated once, stock given back, and the sweep goes on |
| PaymentTimeout.AbandonedIsNeverCompensated | backend/app/jobs/orderAutoCancelJob.js:146-162 | a compensation that fails after the guarded update is never made up for: the order stays cancelled and its stock is never given back |
| PaymentTimeout.LatePaymentStaysCancelled | backend/app/services/paymentService.js:274-293 | a payment captured after the cancellation is recorded but the order is never accepted |
| PaymentTimeout.RefundedIsTimedOut | backend/app/services/paymentService.js:440-450 | an order paid and then refunded while still created can be timed out |
| TimeoutHandlers.OrderStore.CancelIfUnpaid | backend/app/jobs/orderAutoCancelJob.js:128-144 | the compare-and-set on one order |
| TimeoutHandlers.OrderStore.CancelPaymentExpired | backend/app/jobs/orderAutoCancelJob.js:115-163 | an uninterrupted job cancels and compensates exactly the online orders that are created, not paid, not released and past their expiry, each once; every other order stays as it was |

## Left out

- Handlers are atomic except where a module models their awaits (image pool, pickup commission,
  remittance calls, rating submissions, cache fills, timeout job, simultaneous activations).
- Mongoose, Redis, sockets, SMS, e-mail, notifications, image storage, the payment gateway and
  audit logs; a collection is a map or a sequence, an answer from outside a parameter.
- Category fields no decision reads, sort order, images and slug normalisation; identifiers are
  taken to be new when they are generated, and malformed ids in the path are refused before.
- CategoryHandlers.CategoryCollection.FindActiveAncestor: asks that the walk ends, since the source goes round a cycle without an active category forever.
- CategoryHandlers.CategoryCollection.CheckDescendants: asks not to start on a cycle, where the source ends only if the order of the rows brings up an active category first.
- CategoryHandlers.CategoryCollection.CreateCategory: asks the same of the walk, if the request gets that far.
- CategoryHandlers.CategoryCollection.UpdateCategory: asks the same of the walk and the search, if the request gets that far.
- CategoryHandlers.CategoryCollection.DeleteCategory: asks not to start on a cycle, where the recursion of the source has no end.
- Mongoose casts values and drops paths the schema does not declare; but for the two finance flags
  of a return, every path the model reads is taken as declared.
- `find` without a sort returns rows in some order; the handlers take them in index order or in
  any order, the properties of ticks and settings hold for every order.
- `$set` past the end of an array, which would pad it with nulls, counts as refused here; the
  traversals never do it.
- A document that is a bare string, and URL strings in `_id`; the text the two patterns match.
- Settings validation by Joi, the unchanged answer for an empty payload and cache invalidation.
- OTP generation, expiry and distance checks are booleans; proof photos, return windows and
  broadcasts likewise. On-the-spot returns and the finance side of RTO, but for the payout hold,
  are not part of this model.
- The duplicate transaction record of a second pickup credit or of an overlapping remittance call:
  it comes after the money has moved and only its error is reported.
- Wallet writes succeed, except a seller debit beyond the balance, which the source only logs.
- A remittance call that finds its payment declined while another call on the same request is running.
- COD collected by QR code, the rider's cash-in-hand wallet and its clamp, and changes of the
  rider of an order.
- Rate limiter windows that are not whole milliseconds, collisions of the hash, and how the
  client's key is read off a request.
- Administrators forcing a driver offline, which leaves active slots of an offline driver behind,
  editing of an upcoming slot, and the notification job.
- DriverSlots.RecordNamesActiveSlot: holds for ticks that nothing interrupts, because a cancellation between loading and saving a slot would be overwritten.
- Population of categories into a hero configuration, whose later renames the cache does not see,
  and invalidations that Redis loses.
- The legacy and seller-timeout parts of the auto-cancel job and the update of the checkout group.
- Permission checks appear as one boolean per step; dashboards, profiles, exports, carts and
  other request handling are not modelled.
