# The shop's money-and-stock transactions, proved

The shop takes orders online and at the counter, moves stock between branches, keeps a cash book,
hears a payment provider's webhooks, exchanges goods and sends damaged ones back -- all through one
PostgreSQL database, any number of requests at a time. This project models those transactions, and
the tools that compare the two servers running them, and proves what they promise.

## How it is built

**The protocol.** `RowLocks` models transactions under row locks: a request touches rows in order,
waits where a row is held, reads, is refused or goes on, writes and commits. A schedule says which
worker steps next, and a run is any schedule. `Serializable` shows every run equal to its finished
requests replayed one after another; `LockOrder` shows when runs cannot deadlock and that they end, and
`LockPairs` exactly which two requests can. `Recipes` gives the one shape every service here has --
look the key up, lock, look again, check, claim, write -- and what such a request comes to when it runs
alone. `Runs` draws the consequences that need no knowledge of a shop: one key, one effect; exact
allocation; what a refusal leaves.

**The shop.** `StockLedger`, `MoneyLedger` and `CouponBook` are a shelf, an account and a coupon
over their ledgers. `Shop` is the database; `Tallies` says what every document is owed in every
ledger. `CashBook`, `StockRoom`, `StockCounts`, `Orders`, `Fulfilment`, `Webhooks`,
`SupplierReturns` and `Exchanges` are the requests. `CashLaws`, `StockLaws`, `CountLaws`, `OrderLaws`,
`FulfilmentLaws`, `EventLaws`, `SupplierLaws` and `ExchangeLaws` say in figures, without the functions the
requests are written with, when each is made, what it is answered otherwise, and every row it leaves.
`ShopRuns`, `CashRuns`, `StockRuns`, `OrderRuns`, `CouponRuns`, `PressRuns`, `SupplierRuns`, `Census` and
`Numbers` are what holds of whole runs of them. `PairKeys` says how far each
gets, and `PairRuns` which two can deadlock; `WholeRequests` takes each with what its papers refer to,
`LockRuns` says how many cannot deadlock, and `Witnesses` shows the failures on small shops. Money is in
paisa.

A recipe names its rows and an order for them. Two things about that order depend on the rows there are, or
come after the request has done: a shelf its branch never held is made, in the order of the lines, before
the others are locked (`ShelfOrder`); and a row that an entry or a document refers to by a deferred foreign
key is locked as its request commits (`References`). `PurchaseOn` and its like have the first, `Whole` both.
Neither changes what a request does: `LockingDoesTheSame`, `WholeDoesTheSame`.

**The services.** `Backend`, `CashService`, `StockService`, `CountService`, `OrderService`,
`FulfilmentService`, `WebhookService`, `SupplierService` and `ExchangeService` are the services as they
are written: classes that change rows statement by statement, loop over lines, and roll back. A `Store` is
one transaction: it records the rows it locks, and finds, once it has locked one, whatever others have
committed by then. Each method is proved to lock its recipe's rows in the recipe's order, missing shelves
first, as far as it gets, and to do what the recipe says of the rows as they are when it commits. What is proved of recipes in
every interleaving so speaks of these services, as long as they read a row, as they do here, only after
they have locked it.

**The tools.** `Moves` is the ordered lists moved under a SELECT that sorts before it waits.
`JsonDiff`, `JsonDiffLaws` and `AnswerDiff` compare two servers' answers; `Multipart` and
`MultipartLaws` print upload bodies and read them back; `LoadWorkers` is the load generator;
`ResetCheckout` and `ResetLaws` put the tables back after a checkout.

## What turned out otherwise

- A comment on exchanges says one cannot deadlock with a sale. It can, and with a change of status of its
  own order: `ExchangeAndSaleDeadlockExactlyWhen`, `ExchangeAndAdvanceDeadlockExactlyWhen`. So can a transfer
  of stock and a sale, and a split tender and a transfer of money: `ShipmentAndSaleDeadlockExactlyWhen`,
  `SaleAndTransferDeadlockExactlyWhen`. Each has its input in `Witnesses`.
- A count locks its branch's row with its sheet, before its shelves; whoever moves the branch's stock locks
  that row as it commits, for the ledger's reference to it, after its shelves. They can deadlock, and nothing
  orders them: `CountAndMoverDeadlockExactlyWhen`.
- Shelves are documented as locked lowest id first. Those that have to be made are held first, in the order
  of the lines, so two requests that name two articles the branch never held can deadlock, even if both are
  then refused: `TwoOrdersDeadlockExactlyWhen`, `TwoExchangesDeadlockExactlyWhen`, `ApartNeedsAMissingShelf`.
- Two events of one payment can deadlock, where one acts on it and the other changes nothing and only refers
  to the order and the payment as it commits: `TwoEventsDeadlockExactlyWhen`.
- A transfer between branches checks its lines one by one, so two lines of one article can take a
  shelf below zero: `ShipmentKeepsExactlyWhen`, `TwoCratesOversell`.
- A failure event heard of a void payment marks it failed: `VoidFailsExactlyWhen`. The state is documented
  and refused by a capture, but no code here makes a payment void.
- The comparison of JSON takes an object's own `__proto__` for the prototype: `AProtoKeyIsNotSeen`.
- An upload's value that begins with the boundary is lost, though it holds no delimiter:
  `AStartingBoundaryIsLost`.
- The reset undoes what a run hung on its own orders, not what it put on an order that was there:
  `PutBackExactlyWhen`, `ALatePaymentStays`.
- A swap whose own position is stale mostly spoils the positions, but not always: `StaleSwapKeepsExactlyWhen`.
- Two recorded behaviours are kept as they are: a renumbering forgets what was committed while it
  waited (`RenumberForgetsTheWait`), and a swap from a stale position leaves two rows alike
  (`StaleSwapLeavesTwoAlike`).

## Model

| member | source | states |
|---|---|---|
| `RowLocks.Serializable` | apps/api-nest/parity/inventory-concurrency.ts:6-14 | Every step of every interleaving of lock-read-check-write requests keeps the database equal to the finished requests replayed one after another in the order they committed, each with the answer it would get alone, and every read a running request has made still plausible. |
| `RowLocks.AlwaysKept` | apps/api-nest/parity/inventory-concurrency.ts:69-79 | Whatever every request keeps when run alone holds in every committed state of every interleaving of any number of them. |
| `RowLocks.CopiesInARow` | apps/api-nest/parity/finance-concurrency.ts:159-211 | Any number of copies of one request, all done, leave what that many of them in a row leave, each answered as one of them in that row. |
| `LockOrder.OrderedNeverDeadlocks` | apps/api-nest/parity/finance-concurrency.ts:5-6 | Requests that lock rows in one ascending order never reach a state where each unfinished one waits for another. |
| `LockOrder.EveryRunEnds` | apps/api-nest/parity/finance-concurrency.ts:298-327 | Every run, deadlocked or not, is at most as long as a measure fixed by its requests. |
| `LockOrder.RunsFinish` | apps/api-nest/parity/concurrency.ts:568-645 | Where requests cannot deadlock, a run that can take no further step has answered every request. |
| `LockOrder.InTurnNeverDeadlocks` | apps/api-nest/src/common/sequence.ts:10-30 | Nor do requests of which some lock one common row first: each of those may go by an order of its own, so long as the rest go by it while that row is its. |
| `LockOrder.CrossedCanDeadlock` | apps/api-nest/src/pos/pos-exchanges.service.ts:57-61 | Two requests of which each can take, alone, the row the other takes next do deadlock in some interleaving. |
| `LockOrder.OutOfOrderCanDeadlock` | apps/api-nest/parity/finance-concurrency.ts:298-327 | For two requests for the same two rows that nothing else stops, the ascending order is needed: taken crosswise they can deadlock. |
| `LockPairs.PairDeadlocksExactlyWhen` | apps/api-nest/parity/concurrency.ts:568-645 | Any two requests, on any database: some interleaving deadlocks if and only if, of the rows both would lock before they are refused or done, they begin with different ones. |
| `Recipes.RecipeSerial` | apps/api-nest/src/finance/cash-book.service.ts:361-424 | The touches, looks at the key, checks and writes a service makes one by one come, run alone, to what its recipe says outright: the key answers, then the fault, then the first check to fail, else the writes with the key claimed. |
| `Recipes.RecipeIsSound` | apps/api-nest/src/finance/cash-book.service.ts:361-424 | Such a request writes only rows it has locked and gives no answer from a read that another may change, so that it may be interleaved. |
| `Recipes.LockingDoesTheSame` | apps/api-nest/src/inventory/stock.service.ts:188-221 | The same request with its rows locked in another order, or with rows locked besides that it asks nothing of, is as well made and leaves and answers the same on every database. |
| `Runs.OneKeyOneEffect` | apps/api-nest/parity/finance-concurrency.ts:271-295 | Any number of simultaneous copies with one Idempotency-Key leave what one leaves, and all are answered as the one. |
| `Runs.OneDoesForAll` | apps/api-nest/parity/concurrency.ts:253-298 | Of simultaneous requests any one of which, done, does for all the others -- not copies: each may carry ids of its own -- the first to finish is the one done, and all are answered as it is. |
| `Runs.KeyedAnswersAgree` | apps/api-nest/parity/concurrency.ts:740-790 | In every committed state, whoever was answered under a key was answered with what the key is recorded as having made. |
| `Runs.Allocation` | apps/api-nest/parity/concurrency.ts:219-251 | From a units, n interleaved requests for q > 0 each: exactly min(n, a / q) succeed, and a - q * min(n, a / q) are left. |
| `Runs.KeptByRefusal` | apps/api-nest/parity/jobs-concurrency.ts:52-117 | What every request that is not a refused one keeps is kept through runs in which the request in question is refused. |
| `StockLedger.WriteKeepsOk` | apps/api-nest/src/inventory/stock.service.ts:223-276 | A movement that takes no more than there is, and a hold no greater than what is on hand after it, leave the cached figures and every entry's snapshot equal to the ledger's own sums. |
| `StockLedger.MovedTotals` | apps/api-nest/parity/concurrency.ts:408-476 | A movement of many lines, a shelf named on several, moves each shelf's figures by the sum of what it was asked for. |
| `StockLedger.ReservingKeepsOk` | apps/api-nest/src/inventory/stock.service.ts:447-504 | A reservation checked on each shelf's total before any line is written keeps every shelf sound after each of its lines: holds fit at the moment they are written. |
| `StockLedger.MovingKeepsOk` | apps/api-nest/src/inventory/stock.service.ts:552-606 | So do a sale checked on totals, and goods put back. |
| `MoneyLedger.PostKeepsOk` | apps/api-nest/src/finance/cash-book.service.ts:294-346 | A posting its account can bear keeps balance and every balance_after the sum of the postings, and no debit of an account without overdraft below zero. |
| `CouponBook.RedeemKeepsOk` | apps/api-nest/src/checkout/coupons.service.ts:205-248 | A use counted under the coupon's lock keeps used_count equal to the live redemptions and within the limit and, for every limit of one or more for each customer, each customer's live uses within it. |
| `CouponBook.ReleaseKeepsOk` | apps/api-nest/src/checkout/coupons.service.ts:254-280 | A use given back keeps the same, and takes the count down by exactly the order's live uses. |
| `Shop.AlwaysShopOk` | apps/api-nest/parity/concurrency.ts:366-379 | Requests that each keep the shop sound keep it so in every committed state of every interleaving: no order packed or past it with its goods unsold, none refunded past what was paid, no coupon used past a limit. |
| `Tallies.AlwaysTallies` | apps/api-nest/parity/finance-concurrency.ts:71-81 | And in every such state each document has exactly the postings it is owed, each waiting order exactly its holds, each live order exactly its use of its coupon, each item sent back exactly its credit. |
| `ShopRuns.EveryCommittedStateIsSound` | apps/api-nest/parity/concurrency.ts:300-406 | For any mix of orders, status changes, cash requests, stock requests, counts applied, exchanges, webhooks and supplier returns, in any number and interleaving: shelves, accounts, coupons and supplier orders agree with their ledgers and limits, and every document tallies. |
| `ShopRuns.AbsentLeavesNoTrace` | apps/api-nest/parity/jobs-concurrency.ts:52-117 | Where an order is not, no shelf has an entry for it, no coupon a use and no account a posting. |
| `ShopRuns.RefusedLeavesNothing` | apps/api-nest/parity/jobs-concurrency.ts:52-117 | A refused checkout leaves no order -- and so no queued job, which is part of it -- no hold, no redemption and no posting, whatever ran beside it. |
| `Census.ReservedIsAwaited` | apps/api-nest/parity/concurrency.ts:366-379 | A shelf has reserved exactly the sum of what the orders still waiting to be packed ask of it. |
| `Census.CountedIsLive` | apps/api-nest/parity/concurrency.ts:479-566 | A coupon's used_count is exactly the number of live orders on it, and within its limit. |
| `Census.EveryCommittedStateAddsUp` | apps/api-nest/parity/concurrency.ts:479-566 | Both, in every committed state of every interleaving. |
| `Numbers.NumbersAreTakenOnce` | apps/api-nest/src/common/sequence.ts:10-30 | In every committed state of every interleaving of any of the shop's requests: no two orders of a kind have one number, no number still to be taken is on any, and no ledger has an entry for a transfer still to be made. |
| `Numbers.TransferIsNew` | apps/api-nest/src/inventory/stock.service.ts:1022-1046 | The number a transfer of stock takes is on no entry of any shelf before it. |
| `Numbers.MoneyTransferIsNew` | apps/api-nest/src/finance/cash-book.service.ts:522-548 | The number a transfer of money takes is on no posting of any account before it. |
| `CashBook.CashSure` | apps/api-nest/src/finance/cash-book.service.ts:361-583 | A movement, a transfer, an expense and its void each keep the shop sound and every tally. |
| `CashLaws.MovementAnswers` | apps/api-nest/src/finance/cash-book.service.ts:370-452 | In every case, what a movement is answered and the whole database after it: a deposit raises its account by its amount, a withdrawal lowers it, an adjustment moves it as signed, each with one posting of its kind; refused, nothing. |
| `CashLaws.TransferAnswers` | apps/api-nest/src/finance/cash-book.service.ts:485-583 | In every case: the source is down by the amount and the target up by it, one posting each under the next number; what the source does not hold leaves it only where it may go overdrawn. |
| `CashLaws.SpendingAnswers` | apps/api-nest/src/finance/expenses.service.ts:583-698 | In every case: the document, its number and the posting that takes its amount out of its account, or none of them. |
| `CashLaws.VoidAnswers` | apps/api-nest/src/finance/expenses.service.ts:727-800 | In every case, on a sound shop: exactly the expense's amount is put back, in one posting, and the expense is void; an expense already void is refused. |
| `CashRuns.CashRunsAreSafe` | apps/api-nest/parity/finance-concurrency.ts:71-81 | Any number of them interleaved stay sound and tallying, never deadlock, and all finish. |
| `CashRuns.OneKeyOneMovement` | apps/api-nest/parity/finance-concurrency.ts:159-211 | Copies of one keyed movement that would go through alone -- a withdrawal of the whole balance included -- make one posting: a deposit raises the balance by its amount, a withdrawal lowers it, an adjustment moves it as signed; all are answered with it, none refused for money it already took. |
| `CashRuns.VoidedOnce` | apps/api-nest/parity/expenses-concurrency.ts:117-148 | Of any number of voids of one expense the first to finish puts exactly its amount back, and every other is refused as already void. |
| `CashRuns.TransfersConserve` | apps/api-nest/parity/finance-concurrency.ts:243-270 | Whatever transfers cross and however they interleave, the money in all the accounts together stays the same. |
| `StockRoom.StockSure` | apps/api-nest/src/inventory/stock.service.ts:765-861 | A write-off, a correction, and a transfer that never oversells keep the shop sound and every tally. |
| `StockLaws.WriteOffAnswers` | apps/api-nest/src/inventory/stock.service.ts:360-438 | In every case, the answer and the whole database after: damage or loss alone, with a reason, of no more than is on hand unless the shop oversells, one entry of it; what is held is not asked about. |
| `StockLaws.CorrectionAnswers` | apps/api-nest/src/inventory/stock.service.ts:765-812 | In every case: the shelf has what was counted, by one adjustment of the difference; counted up only where a purchase or a transfer ever brought the article. |
| `StockLaws.ShipmentAnswers` | apps/api-nest/src/inventory/stock.service.ts:993-1105 | A transfer is refused exactly where it is within one branch, moves nothing, or some line asks its shelf for more than is on hand; made, it leaves every shelf with what came less what went and an entry for each, line by line, under the next number, and no other row touched. |
| `StockRoom.ShipmentKeepsExactlyWhen` | apps/api-nest/src/inventory/stock.service.ts:1055-1092 | A transfer leaves every sound shop sound if and only if the shop may oversell, or the branches are one, or no shelf loses more by all its lines than its largest line asks. |
| `StockRoom.ShipmentOversellsExactlyWhen` | apps/api-nest/src/inventory/stock.service.ts:1055-1061 | On the stock there is: it leaves a shelf it only sends from sound if and only if that shelf held all of its lines together, as they are checked one by one. |
| `Witnesses.TwoCratesOversell` | apps/api-nest/src/inventory/stock.service.ts:1055-1061 | Five on hand and one article on two lines of three: both pass, and a sound, tallying shop that does not oversell is left with -1. |
| `StockRuns.OrdersShareOut` | apps/api-nest/parity/concurrency.ts:219-251 | From a available, n orders of q each are served exactly min(n, a / q) times, in every interleaving: online whatever the shop lets its counter sell, at the counter where it is kept off held stock. |
| `StockRuns.WriteOffsShareOut` | apps/api-nest/parity/inventory-concurrency.ts:231-255 | So are write-offs, from what is on hand. |
| `StockRuns.ShipmentsConserve` | apps/api-nest/parity/inventory-concurrency.ts:278-309 | However transfers between branches interleave, the units on all the shelves together stay the same. |
| `StockCounts.WhatIsCountedIsOnHand` | apps/api-nest/src/inventory/stock.service.ts:1116-1230 | Applied, a sheet leaves every line's shelf with exactly what was counted on hand, and its holds as they were. |
| `StockCounts.AppliedOnce` | apps/api-nest/parity/inventory-concurrency.ts:403-420 | Of any number of applies of one sheet at once the first to finish applies it and the others are told that it is closed. |
| `StockCounts.CountSure` | apps/api-nest/src/inventory/stock.service.ts:1116-1230 | A sheet applied keeps the shop sound and every tally. |
| `CountLaws.CountAnswers` | apps/api-nest/src/inventory/stock.service.ts:1123-1230 | A sheet is applied if and only if it is there, open, not empty, and counts no article up that no purchase or transfer brought; applied, each line's shelf has what was counted by one adjustment of the difference, the sheet is closed, and nothing else is touched. |
| `Orders.PurchaseSure` | apps/api-nest/src/checkout/checkout.service.ts:150-330 | A placed order keeps every shelf, coupon and account sound, and its holds, its use and its postings exactly what it is owed. |
| `OrderLaws.PurchaseAnswers` | apps/api-nest/src/checkout/checkout.service.ts:150-330 | On a shop whose coupons tally: an order is placed if and only if it has lines and is new, every shelf has for it all its lines together ask, its coupon has a use left for its customer, and at the counter each tender goes to an open account and they come to the total; refused, the first thing wrong is named and nothing is changed. Placed: its row, field by field, under the next number of its kind; every shelf's figures and entries; every account; the coupon; the jobs; and no other row touched. |
| `OrderLaws.CouponExactlyWhen` | apps/api-nest/src/checkout/coupons.service.ts:205-248 | Of an order not on the coupon yet: its use is counted if and only if used_count is below the limit and the customer's live uses below a limit of one or more for each customer; otherwise it is refused by the first that is reached. |
| `CouponRuns.CouponSharesOut` | apps/api-nest/parity/concurrency.ts:479-566 | Any number of orders at once with one coupon, online and at the counter, with nothing but the coupon to stop them: in every interleaving exactly as many are placed as its limit and the customer's own leave uses for, whichever is less, and those uses are gone. |
| `OrderRuns.PurchaseCoversExactlyWhen` | apps/api-nest/parity/concurrency.ts:300-406 | An order leaves reserved <= on_hand if and only if it asked for no more than was available: what lets the counter sell held stock is what can break it. |
| `OrderRuns.HoldsStayCovered` | apps/api-nest/parity/concurrency.ts:300-406 | With orders and their status changes alone, reserved <= on_hand in every committed state: whatever the setting if none is a counter sale, and with the counter kept off held stock if some are. |
| `OrderRuns.AlertsAreTheLowShelves` | apps/api-nest/src/inventory/stock.service.ts:486-503 | An order queues a low-stock job for a shelf if and only if it touches it and leaves it at or below its reorder point. |
| `PressRuns.DoubleClick` | apps/api-nest/parity/concurrency.ts:253-298 | A checkout pressed any number of times at once under one key, each press with an order id of its own: one press is all that is done, all are answered with its order, and no other press's order is there; refused, it is refused to all and nothing is changed. |
| `Fulfilment.ReserveCovers` | apps/api-nest/src/inventory/stock.service.ts:632-676 | A shelf has reserved at least what it holds for any one order, so giving an order's hold back never stops at another's. |
| `Fulfilment.AdvanceSure` | apps/api-nest/src/orders/order-lifecycle.service.ts:99-205 | Packing turns exactly the order's holds into sales and cancelling gives exactly them back with the coupon's use; both keep the shop sound and every tally. |
| `FulfilmentLaws.MoveAnswers` | apps/api-nest/src/orders/order-writes.service.ts:24-36 | A move of a tallying shop's order is made if and only if it is one of the fourteen steps, an order whose goods have left is not cancelled, and packing finds on every shelf all the order asks of it. Packed, each hold is given up and its goods sold, entry by entry; cancelled, each hold and the coupon's one use are given back; nothing else is touched. |
| `Webhooks.EventSettles` | apps/api-nest/src/orders/order-payments.service.ts:311-383 | What one event makes of a payment, in every case: failed by a failure, captured by a capture of no amount told or of its own, where its state and its account allow it, or what it was. |
| `EventLaws.EventMismatched` | apps/api-nest/src/payments/payments.service.ts:105-107 | A capture heard for the first time that tells an amount other than the payment's own is answered as a mismatch and leaves every row but the event's as it was. |
| `EventLaws.EventCaptured` | apps/api-nest/src/payments/payments.service.ts:103-112 | A capture of no amount told or of the payment's own, in every case of its state, its order and its account: the payment captured, the order paid by the amount and one posting of it, where it can be; the result alone stored where its money is taken already; refused, nothing. |
| `EventLaws.EventFailed` | apps/api-nest/src/payments/payments.service.ts:113-115 | A failure, whatever it tells: refused, changing nothing, where the money is taken; otherwise the payment failed and the result stored. |
| `EventLaws.EventIgnored` | apps/api-nest/src/payments/payments.service.ts:116-118 | An event of no payment waiting, or of another kind, is stored as ignored and moves nothing. |
| `Webhooks.VoidFailsExactlyWhen` | apps/api-nest/src/payments/payments.service.ts:145-162 | A void payment becomes a failed one if and only if a failure event of it, as it is, is heard for the first time. |
| `Webhooks.AVoidPaymentFails` | apps/api-nest/src/payments/payments.service.ts:145-162 | Such a payment and such an event, on a sound, tallying database. |
| `Webhooks.OutcomeStands` | apps/api-nest/parity/concurrency.ts:786-902 | Captured or failed, once reached in any committed state, is never changed by any events in any order. |
| `Webhooks.EveryCopyOneResult` | apps/api-nest/parity/concurrency.ts:740-790 | Each (provider, event) is stored once and every copy answered with the stored result; every committed state is sound and tallies. |
| `Webhooks.PostedOnceIfCaptured` | apps/api-nest/src/orders/order-payments.service.ts:363-383 | A payment has one posting, of its amount, in its account if its money is taken, and none anywhere if not. |
| `SupplierReturns.SendLinesOk` | apps/api-nest/src/purchasing/purchase-orders.service.ts:1147-1184 | Lines checked one after another, each with those before it counted, never send back more of a purchase line than was received. |
| `SupplierLaws.SendsExactlyWhen` | apps/api-nest/src/purchasing/purchase-orders.service.ts:1147-1184 | Checked one after another, the lines all pass if and only if every line's item is there, damaged, received, unsent, at the order's branch and of its line's article, and no purchase line is to have more back in all than came less what went back. |
| `SupplierLaws.SendingAnswers` | apps/api-nest/src/purchasing/purchase-orders.service.ts:1090-1241 | A send is made if and only if no item is named twice, the order is open, and its lines pass so. Made: each purchase line's units counted back, one credit for each item at its line's cost, each item sent on the order, and nothing else touched; refused, nothing is changed and what is named is wrong. |
| `SupplierReturns.CreditedOnce` | apps/api-nest/parity/exchange-concurrency.ts:160-237 | Of any number of sends of one damaged item that would each go through alone, the first to finish is credited and every other refused, changing nothing. |
| `SupplierRuns.CreditedAtMostOnce` | apps/api-nest/parity/exchange-concurrency.ts:160-237 | Of any two sends of one item, on any supplier orders, able to go through or not, and whatever other requests of the shop run beside them, not both are credited. |
| `SupplierRuns.OneCreditIfSent` | apps/api-nest/src/purchasing/purchase-orders.service.ts:1203-1241 | In a tallying shop a sent item has exactly one credit, of all its units, on the order it went back on, and an unsent one none. |
| `SupplierReturns.SendingSure` | apps/api-nest/src/purchasing/purchase-orders.service.ts:1090-1241 | Sending goods back keeps quantity_returned <= quantity_received and everything else sound. |
| `Exchanges.ExchangeSure` | apps/api-nest/src/pos/pos-exchanges.service.ts:91-153 | An exchange keeps the shop sound and every tally: its return and its sale each posted exactly once. |
| `ExchangeLaws.ExchangeAnswers` | apps/api-nest/src/pos/pos-exchanges.service.ts:91-153 | On a sound shop whose coupons tally: an exchange is made, once for its key, if and only if the original order has left the shop and no line has more back in all than was sold; the new goods are there, those put back among them; the coupon has a use left; and the tenders, what came back first, come to exactly the total and leave the drawer the refund. Made: both orders field by field, the return, every shelf, every account, the coupon; and no other row touched; refused, nothing is changed. |
| `ExchangeLaws.CountedExactlyWhen` | apps/api-nest/drizzle/0000_baseline.sql:1565-1573 | The units are counted back if and only if every line named is the order's and none has more back in all than was sold of it, and then each line is up by exactly what comes back of it. |
| `PressRuns.PressedTogether` | apps/api-nest/parity/exchange-concurrency.ts:97-158 | An exchange pressed any number of times at once, each press with a sale and a return id of its own: one press is all that is done, all name its sale and its return, and no other press's sale or return is there. |
| `ExchangeLaws.DrawerMovesByDifference` | apps/api-nest/src/orders/returns.service.ts:633-641 | Paid for in cash, an exchange that goes leaves the drawer at its balance, plus the sale's total, less the lesser of what the goods were sold for and what was paid and not yet refunded; the return is recorded for exactly that, and the original order is refunded by as much more and never past what was paid. |
| `ExchangeLaws.ShelvesMoveByDifference` | apps/api-nest/parity/exchange-concurrency.ts:97-158 | Every shelf moves by the units put back on it, by the last decision given for each line, less those sold from it, and no hold is touched. |
| `LockRuns.FittingRequestsFinish` | apps/api-nest/parity/concurrency.ts:568-645 | Any mix of requests taken whole that fit together, on rows where the shelves they name are there, never deadlocks, and every run of it ends with all answered: tenders given upwards, transfers that lock each branch upwards, exchanges with everything but counter sales and changes that move the stock of their own orders, counts with everything that moves no stock of their branch, events that act on a payment with everything that does not refer to it after its order. |
| `LockRuns.UpwardSendsInOrder` | apps/api-nest/src/inventory/stock.service.ts:1063-1092 | A transfer between two branches fits so long as its lines name the receiving shelves upwards, whichever branch has the lower ids. |
| `PairRuns.ExchangeAndSaleDeadlockExactlyWhen` | apps/api-nest/src/pos/pos-exchanges.service.ts:57-61 | An exchange and an order, neither of the exchange's own, can deadlock if and only if both keys and the order are new, it has lines, and -- for a counter sale, the exchange not being refused as a return -- they share an article, or else -- of the shelves both lock they begin with different ones: the comment says they cannot. |
| `PairKeys.ReachesItsSaleExactlyWhen` | apps/api-nest/src/orders/returns.service.ts:521-600 | It is not refused as a return if and only if its key and its return are new, its order is there as asked, may be returned from, and sold that much. |
| `PairRuns.ExchangeAndAdvanceDeadlockExactlyWhen` | apps/api-nest/src/pos/pos-exchanges.service.ts:103-128 | An exchange, whose sale is a new order, and a change of status can deadlock if and only if the exchange is not made yet, the order may come to that status, and -- it being the one the goods come back from -- they share an article, or -- it being another -- of the shelves both lock they begin with different ones. |
| `PairRuns.TwoOrdersDeadlockExactlyWhen` | apps/api-nest/src/inventory/stock.service.ts:188-221 | Two orders can deadlock if and only if one is online and the other a counter sale, both are new and with lines, they share neither key nor id, and of the shelves both lock they begin with different ones. |
| `PairRuns.TwoExchangesDeadlockExactlyWhen` | apps/api-nest/src/pos/pos-exchanges.service.ts:103-116 | Two exchanges can deadlock if and only if their keys are new and different, and of the shelves both lock they begin with different ones. |
| `PairRuns.ApartNeedsAMissingShelf` | apps/api-nest/src/inventory/stock.service.ts:188-221 | Shelves locked by one call each are begun with alike unless one that both name has still to be made: those are made in the order of the lines, before the rest are locked lowest id first. |
| `PairRuns.ShipmentAndSaleDeadlockExactlyWhen` | apps/api-nest/src/inventory/stock.service.ts:1055-1092 | A transfer of stock and an order can deadlock if and only if the order is new and with lines, and of the shelves both ask for -- all the transfer moves if it would be made, those it sends from if it is refused for their stock, none otherwise -- they begin with different ones. |
| `PairRuns.SaleAndTransferDeadlockExactlyWhen` | apps/api-nest/src/pos/pos-sales.service.ts:485-503 | An order that would be placed and a transfer of money can deadlock if and only if the transfer is a new one in order, and of the accounts both lock the order's first is not the lowest. |
| `PairRuns.CountAndMoverDeadlockExactlyWhen` | apps/api-nest/src/inventory/stock.service.ts:1116-1143 | A count sheet applied and any request that would be made can deadlock if and only if the sheet opens its shelves and -- the request's papers being of the branch counted -- they share a shelf, or else -- of the shelves both lock they begin with different ones. |
| `PairRuns.ReferencesAddNone` | apps/api-nest/drizzle/0000_baseline.sql:7042-7046 | The branches that the rows of two requests refer to, locked as each commits, neither add a deadlock nor take one away, where neither locks a branch before. |
| `WholeRequests.TwoEventsDeadlockExactlyWhen` | apps/api-nest/src/payments/payments.service.ts:64-126 | An event that acts on its payment and another that changes nothing, both heard for the first time, can deadlock if and only if they are two of one payment and its order: the one locks the payment first, the other's row refers to the order first. |
| `WholeRequests.WholeDoesTheSame` | apps/api-nest/src/inventory/stock.service.ts:188-221 | Any request taken whole -- shelves made and locked in turn, and what its papers refer to locked last -- is well made, and leaves and answers what its recipe does on every database. |
| `WholeRequests.WholeRunsAreSound` | apps/api-nest/parity/concurrency.ts:300-406 | So every committed state of every interleaving of any mix of them is sound and tallies. |
| `Witnesses.AnExchangeAndASaleDeadlock` | apps/api-nest/src/pos/pos-exchanges.service.ts:110-135 | A concrete exchange and sale, in a sound and tallying shop after one sale, that do. |
| `Witnesses.AnExchangeAndACancellationDeadlock` | apps/api-nest/src/pos/pos-exchanges.service.ts:103-128 | So do an exchange asked of an order still waiting and that order's cancellation, though the exchange would have been refused. |
| `Witnesses.ATransferOfStockAndASaleDeadlock` | apps/api-nest/src/inventory/stock.service.ts:1063-1092 | So do a transfer whose lines name the receiving shelves downwards and an order of both articles. |
| `Witnesses.ASplitSaleAndATransferDeadlock` | apps/api-nest/src/pos/pos-sales.service.ts:485-503 | So do a sale paid into the higher account first and a transfer between the two. |
| `Witnesses.ACountAndAWriteOffDeadlock` | apps/api-nest/src/inventory/stock.service.ts:1123-1143 | So do a count of one article and a write-off of it in the branch counted. |
| `Witnesses.TwoOrdersOfNewArticlesDeadlock` | apps/api-nest/src/inventory/stock.service.ts:188-221 | So do an online order and a counter sale that name the same two articles, neither ever held there, in opposite orders. |
| `Witnesses.TwoExchangesOfNewArticlesDeadlock` | apps/api-nest/src/inventory/stock.service.ts:188-221 | So do two exchanges of one sale's goods for two such articles. |
| `Witnesses.TwoEventsOfOnePaymentDeadlock` | apps/api-nest/src/payments/payments.service.ts:64-126 | So do a failure of a waiting payment and another event of it that changes nothing. |
| `CashService.CashBookService.Move` | apps/api-nest/src/finance/cash-book.service.ts:370-452 | Statement by statement, a movement locks its recipe's rows in its order -- all of them if it writes -- looks its key up again under the account's lock, and leaves and answers exactly what the recipe says of the rows as they are when it commits, refusals included: in figures, `MovementAnswers`. |
| `CashService.CashBookService.Transfer` | apps/api-nest/src/finance/cash-book.service.ts:485-583 | So does a transfer, its accounts locked lowest id first, its number and key taken before any money moves. |
| `CashService.CashBookService.Spend` | apps/api-nest/src/finance/expenses.service.ts:583-698 | So does an expense: its movement refused, the document, number and key written before it are rolled back. |
| `CashService.CashBookService.VoidExpense` | apps/api-nest/src/finance/expenses.service.ts:727-800 | So does a void. |
| `StockService.StockService.Asks` | apps/api-nest/src/inventory/stock.service.ts:464-468 | The loop over the lines leaves, for each shelf once, the sum it is asked for. |
| `StockService.StockService.CheckAsked` | apps/api-nest/src/inventory/stock.service.ts:469-486 | The loop over those sums refuses if and only if some shelf cannot give what it is asked in all, by the online rule or the counter's. |
| `StockService.StockService.WriteLines` | apps/api-nest/src/inventory/stock.service.ts:488-503 | Line after line written leaves the shelves and the low-stock jobs of the lines taken together. |
| `StockService.StockService.Lock` | apps/api-nest/src/inventory/stock.service.ts:188-221 | Row by row: the shelves of the lines are read as they are, those there are no rows of made and held first, in the order of the lines, and then every one locked, lowest id first, none twice. |
| `StockService.StockService.WriteOff` | apps/api-nest/src/inventory/stock.service.ts:360-438 | A write-off does what its recipe says under its recipe's locks, its key looked up again under the shelf's. |
| `StockService.StockService.Adjust` | apps/api-nest/src/inventory/stock.service.ts:765-812 | So does a correction. |
| `StockService.StockService.Transfer` | apps/api-nest/src/inventory/stock.service.ts:993-1105 | So does a transfer: number, key, sources as above, every line checked, each target locked as its line is received. |
| `OrderService.CouponsService.Redeem` | apps/api-nest/src/checkout/coupons.service.ts:205-248 | The use counted, both limits asked again by a loop over the redemptions, exactly as the coupon's law has it: when, `CouponExactlyWhen`. |
| `OrderService.CouponsService.Release` | apps/api-nest/src/checkout/coupons.service.ts:254-280 | Redemption by redemption, each live one marked and the count taken down one at a time, comes to the whole release. |
| `OrderService.TillService.TakeTenders` | apps/api-nest/src/pos/pos-sales.service.ts:485-503 | Tender after tender posted, refused at the first account that will not take its own. |
| `OrderService.OrderService.Place` | apps/api-nest/src/checkout/checkout.service.ts:150-330 | A whole checkout or counter sale -- number, key, order, stock, coupon, money, locked in that order -- does what its recipe says, a key claimed meanwhile by another answered with the other's order, or leaves the database as it was. |
| `FulfilmentService.HoldService.ConsumeLines` | apps/api-nest/src/inventory/stock.service.ts:678-742 | Each awaited line's hold released and its goods sold in turn, stopped where a shelf has not the goods. |
| `FulfilmentService.LifecycleService.Move` | apps/api-nest/src/orders/order-lifecycle.service.ts:99-205 | A status change does what its recipe says under its recipe's locks: which, and what each leaves, `MoveAnswers`. |
| `WebhookService.PaymentsService.Handle` | apps/api-nest/src/payments/payments.service.ts:46-126 | An event does what its recipe says: its row claimed first, then payment, order and account locked in turn, its result set last, or nothing left; its result in every case, `EventMismatched`, `EventCaptured`, `EventFailed`, `EventIgnored`. |
| `SupplierService.PurchaseOrdersService.CheckLines` | apps/api-nest/src/purchasing/purchase-orders.service.ts:1147-1184 | The loop with its running figure for each purchase line refuses exactly where taking the lines one after another does: where, `SendsExactlyWhen`. |
| `SupplierService.PurchaseOrdersService.SendDamaged` | apps/api-nest/src/purchasing/purchase-orders.service.ts:1090-1241 | Order locked, key looked up, items locked lowest id first, every line checked and then every line written: what the recipe says of taking the lines in turn, under its locks; in figures, `SendingAnswers`. |
| `ExchangeService.ExchangesService.Create` | apps/api-nest/src/pos/pos-exchanges.service.ts:91-153 | An exchange -- goods back, goods out, coupon, tenders, refund -- does what its recipe says, or leaves the database as it was; its locks are the recipe's in its order, the drawer's passed over where nothing is paid into it; in figures, `ExchangeAnswers`. |
| `CountService.StockCountService.Apply` | apps/api-nest/src/inventory/stock.service.ts:1123-1230 | A sheet, locked with its branch, applied line by line does what its recipe says under its recipe's locks, or leaves the database as it was. |
| `Moves.OrderedRun.Renumber` | apps/api-nest/src/content/admin/site-admin.service.ts:525-560 | The run as sorted before the wait, one adjacent pair swapped, is written as positions 0, 1, 2 and on. |
| `Moves.OrderedRun.Exchange` | apps/api-nest/src/catalog/admin/attributes.service.ts:663-696 | The moved row takes its neighbour's position and the neighbour the row's own as read before the lock; the whole run is renumbered where the two are the same. |
| `Moves.RenumberForgetsTheWait` | apps/api-nest/parity/content-concurrency.ts:164-244 | A renumbering leaves its own order from before the wait with one swap, whatever was committed meanwhile. |
| `Moves.QueuedMovesAreOne` | apps/api-nest/parity/content-concurrency.ts:164-244 | Any number of the same move queued behind one lock leave what one leaves. |
| `Moves.DownThenUp` | apps/api-nest/parity/content-concurrency.ts:164-244 | One after another, down and then up restores the order. |
| `Moves.SwapKeepsPositionsExactlyWhen` | apps/api-nest/parity/admin-concurrency.ts:97-134 | A swap keeps the positions there are if and only if the row's own was not stale -- or, where the one read before the wait is the neighbour's by now and the run is renumbered, if they were 0 to n - 1 already. |
| `Moves.StaleSwapKeepsExactlyWhen` | apps/api-nest/parity/admin-concurrency.ts:97-134 | From distinct positions: if and only if it was fresh, or was the neighbour's and the positions were 0 to n - 1. |
| `Moves.QueuedSwapsAreOne` | apps/api-nest/src/catalog/admin/attributes.service.ts:663-696 | The same swap queued behind itself is the second kind: it renumbers, and changes nothing. |
| `Moves.AStaleSwapMayKeepThem` | apps/api-nest/src/catalog/admin/attributes.service.ts:678-688 | Three rows on which it does so. |
| `Moves.ExchangedOrder` | apps/api-nest/src/catalog/admin/attributes.service.ts:663-696 | With a fresh position it swaps the row and its neighbour in the order and leaves the rest. |
| `Moves.StaleSwapLeavesTwoAlike` | apps/api-nest/parity/admin-concurrency.ts:97-134 | With a stale one, four rows end with two in one place. |
| `JsonDiff.Report.DiffJson` | apps/api-nest/parity/compare.ts:24-55 | The walk that pushes into one list, its check for a full list made at each call alone, leaves the list of the capped walk. |
| `JsonDiffLaws.CapRefines` | apps/api-nest/parity/compare.ts:24-55 | From any list: what is pushed is the whole list of differences with some left out, none of the first 51. |
| `JsonDiffLaws.CapHidesNothing` | apps/api-nest/parity/compare.ts:24-55 | From an empty list, nothing is reported if and only if there is no difference at all. |
| `JsonDiffLaws.ListedExactlyWhen` | apps/api-nest/parity/compare.ts:24-55 | Two values are listed at a path if and only if the path leads to those two values on the two sides and they clash there. |
| `JsonDiffLaws.ReportedPathsDiffer` | apps/api-nest/parity/compare.ts:24-55 | Every path reported for two values leads to values that are not equal. |
| `JsonDiffLaws.NothingListedExactlyWhen` | apps/api-nest/parity/compare.ts:24-55 | For any two parsed values, nothing is listed if and only if they are equal but for a hollow __proto__ on one side. |
| `JsonDiffLaws.NothingReportedExactlyWhenEqual` | apps/api-nest/parity/compare.ts:24-55 | Without a key __proto__: nothing is reported if and only if they are equal, key order aside, lists in order, numbers by value. |
| `JsonDiffLaws.AProtoKeyIsNotSeen` | apps/api-nest/parity/compare.ts:42-51 | With one, two values that differ may be reported the same: {} and {"__proto__": {}}. |
| `AnswerDiff.Compare` | apps/api-nest/parity/compare.ts:62-143 | No finding if and only if status, type, compared headers, echoed ids and bodies are the same. |
| `AnswerDiff.CompareBodies` | apps/api-nest/parity/compare.ts:117-141 | Bodies parsed, each error's id overwritten, and walked together: no finding if and only if they are equal but for those ids. |
| `AnswerDiff.FreshIdsAreNotCompared` | apps/api-nest/parity/compare.ts:132-137 | Whatever id a side mints, the body is compared as if it had not. |
| `AnswerDiff.AlikeExactlyWhen` | apps/api-nest/parity/compare.ts:132-138 | Two JSON bodies compare as alike if and only if they are equal with no id in either, or each carries an error's id and they are equal but for the two ids. |
| `AnswerDiff.AMissingIdIsSeen` | apps/api-nest/parity/compare.ts:132-137 | An id on one side alone is a difference. |
| `Multipart.Print` | apps/api-nest/parity/image-cases.ts:24-44 | Chunk after chunk, joined, is the body of RFC 2046: a boundary, a part and a line end for each, then the closing boundary. |
| `MultipartLaws.ReadBackExactlyWhen` | apps/api-nest/parity/image-cases.ts:24-44 | A reader following section 5.1.1 of RFC 2046 and section 4 of RFC 7578 recovers exactly the parts if and only if no line of a value, its first included, begins with the boundary. |
| `MultipartLaws.WrittenApart` | apps/api-nest/parity/image-cases.ts:24-44 | Two lists of such parts are never written alike. |
| `MultipartLaws.AStartingBoundaryIsLost` | apps/api-nest/parity/image-cases.ts:24-44 | A value that is the boundary itself holds no delimiter and is lost all the same. |
| `LoadWorkers.EveryRunMakesThemAll` | apps/api-nest/parity/bench.ts:48-68 | In every interleaving: next <= total, next less the latencies is the number in flight and at most CONCURRENCY; a run is exactly total + CONCURRENCY steps long, is never stuck before, and ends with exactly total latencies. |
| `LoadWorkers.Bench.Run` | apps/api-nest/parity/bench.ts:48-68 | The workers on the shared counter and list do, step by step, what the state machine does. |
| `ResetCheckout.Harness.Reset` | apps/api-nest/parity/checkout-cases.ts:92-138 | The tables copied the first time alone, the statements run in order until one fails: all go through if and only if each can, and then leave what they leave in a row. |
| `ResetLaws.ResetRestoresExactlyWhen` | apps/api-nest/parity/checkout-cases.ts:110-138 | After any run that inserted rows, changed the listed columns and hung its documents on its own orders, every table is as it was copied, and every statement leaves every link holding if and only if no cart is a new customer's. |
| `ResetLaws.StageIsIntact` | apps/api-nest/parity/checkout-cases.ts:110-138 | Referential integrity after each of the twenty-one statements. |
| `ResetLaws.NewCustomersStop` | apps/api-nest/parity/cart-cases.ts:37-66 | A cart made over to a new customer stops the reset: customers go before carts are put back. |
| `ResetLaws.ResetTwice` | apps/api-nest/parity/checkout-cases.ts:110-138 | Reset again, it goes through and changes nothing. |
| `ResetLaws.ResetForgets` | apps/api-nest/parity/checkout-cases.ts:85-91 | Two runs are left alike whatever they wrote, times on rows included. |
| `ResetLaws.PutBackExactlyWhen` | apps/api-nest/parity/checkout-cases.ts:110-138 | After any run that inserted rows and changed the listed columns, wherever it hung its documents: a table of what hangs on orders is put back if and only if all its new rows hang on the run's own orders, and every other table always is. |
| `ResetLaws.FiguresPutBack` | apps/api-nest/parity/checkout-cases.ts:110-138 | Whatever was written, by a run of this kind or not: stock on hand and reserved, coupon uses, balances, numbers and a lead's outcome are those copied on every row that is left. |
| `ResetLaws.ALatePaymentStays` | apps/api-nest/parity/checkout-cases.ts:121-124 | An order and a payment put on it afterwards: the payment stays. |

## Left out

- HTTP, authentication, permissions, serializers, audit entries, timelines and notification texts: a
  request here is what reaches the service, already validated for shape.
- Prices, tax, discounts, average cost and coupon eligibility (dates, channels, minimum order): totals
  come as given, and the unlocked look at a coupon before checkout is advisory.
- `integer` and `numeric(14,2)` overflow: figures here are unbounded, where PostgreSQL refuses the row.
- Average cost and unit cost on ledger entries; bin locations; the customer's running totals, which a
  counter sale writes from figures read when it was priced.
- Receipts of purchase orders and returns of stock to a supplier from the
  shelf; the return of goods other than in an exchange; voiding a counter sale; refunds of an order.
- Low-stock jobs are modelled for orders and exchanges; the other stock requests queue theirs the same way.
- The orders flagged as short after a counter sale of held stock.
- `counter_sells_reserved` is one setting for a run, where the service reads it when it matters.
- Payments are given an account, or none where the branch has none for the method; how one is resolved is
  not modelled. The guard that asks whether a payment was already posted is left to the payment's state,
  which `PostedOnceIfCaptured` shows to say the same.
- A provider that differs from the payment's: the payment is looked up by its provider, so the branch
  cannot be taken.
- Recording a payment by hand, which locks the order before the payment where a webhook locks them the other
  way round.
- A coupon that is gone by the time it is redeemed is a refusal here; the service goes on and the foreign
  key is left to refuse it.
- Windows and final-sale rules for returns, the branch an exchange is at, and the key an ordinary sale
  already holds.
- Some requests lock here a row they may turn out not to need (a drawer with nothing to refund, the order
  of a payment already captured, the shelves of lines already packed): a run with fewer locks has fewer waits.
- The order of a refusal and a look at the key under the same locks: a missing account is refused before the
  second look, and a supplier return looks before it has locked its items; the model asks both together.
- How a count sheet is filled in and cancelled, and the number of its lines that moved stock.
- Rows referred to as a request commits are locked here as if to be written, where PostgreSQL lets two that
  refer to one row share it; each request refers to one branch, or a transfer to two under its number, so no
  two wait for each other over them alone. References are modelled to branches (0000_baseline.sql:7042-7046)
  and, from events, to the order and then the payment (7390-7398); references to customers, articles and
  users, which no request here locks, are not.
- One line of an order named twice in a return: the service checks each naming alone and leaves the sum to the
  constraint on the table (0000_baseline.sql:1570), where the request here refuses it as not returnable.
- What a refund in an exchange does to the payment it is made against: its row is locked, taken as locked
  last, in `Papers`, but its state and its refunded total are not written.
- PostgreSQL's own detection of a deadlock, which ends one of its requests; statement timeouts; sequences'
  prefixes and padding.
- Of three requests or more, an exact condition for deadlock: `PairDeadlocksExactlyWhen` is of two, and
  `FittingRequestsFinish` goes one way. It leaves out exchanges beside counter sales they share no shelf with, and
  counts beside movements of other shelves of the branch, as a third request may share one with each.
- LockRuns.FittingRequestsFinish: of runs whose shelves are all there to begin with; where some have still to be
  made, `TwoOrdersDeadlockExactlyWhen` and `TwoExchangesDeadlockExactlyWhen` say what can happen.
- PairRuns.SaleAndTransferDeadlockExactlyWhen: of an order that would be placed.
- PairRuns.CountAndMoverDeadlockExactlyWhen: of a request that would be made.
- Where a service looks its key up again under its rows' locks, the INSERT that follows is taken to find it still
  free; the recipe, and so every interleaving, has both.
- A guest's customer row, made at their first checkout: of two made at once the later is refused (D114).
- Edits recorded as copied defects that take no lock: a coupon edit, a lead's note, the limits on homepage
  and carousel entries.
- Moves over a list in which another row is added or removed meanwhile.
- JSON's text: values are compared as parsed, and a number by its value; a header's parsing, and what a
  difference shows of the two bodies.
- The description of tokens, the timing of requests and percentiles.
- Names and values of an upload are bytes already encoded.
- Unique keys other than the primary ones in the tables a reset touches, and links to tables it does not.
- StockRoom.StockSure: does not hold of a transfer one of whose shelves loses more than its largest line, for which
  `ShipmentKeepsExactlyWhen` and `ShipmentOversellsExactlyWhen` are the exact conditions.
- StockRuns.OrdersShareOut: each order has one line, as in the race it models.
- ExchangeLaws.ExchangeAnswers: of the low-stock jobs for goods put back it says that none is queued for a shelf
  that gets none.
- EventLaws.EventCaptured: of an event whose look-up told the payment's order, amount and account as they are, none of
  which changes while it waits; so are `EventMismatched` and `EventFailed`.
- SupplierReturns.CreditedOnce: of sends each of which would succeed alone; `CreditedAtMostOnce` is of any.
- ExchangeLaws.DrawerMovesByDifference: of an exchange whose every tender goes to the one drawer.
