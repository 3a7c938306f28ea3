# LP trade log, approvals, ledger and money: a verification model

This project models the parts of the liquidity-provider platform on which its promises about money
and evidence rest, and proves those promises:

- the **hash-chained trade log**: the canonical serializer, the chain hash, three verifiers that were
  written independently, and two recorders that extend the chains concurrently;
- the **four-eyes approval protocol** and the **ledger** it posts to, together with opening balances,
  deposits, withdrawals and commissions;
- **Money**: exact decimals, their texts, paise, rounding and Indian digit groups;
- **itemised charges** of a fill;
- **cursor pagination** of trades and the **pairing of opens and closes** in the dashboard.

`dafny verify dfyconfig.toml` checks everything. Nothing here runs the original program.

## How it is organised

| files | contents |
|---|---|
| `Texts`, `Digits`, `Json`, `Utf8` | UTF-16 strings, digit strings, JSON text with one reading, UTF-8 with replacement |
| `JsonReader`, `Utf8Reader`, `DecimalReader` | readers of JSON, UTF-8 and decimal text, written apart from the printers |
| `Canonical`, `CanonicalText`, `HashChain`, `Trades`, `Verifiers` | serializer, the exact text of a trade, chains, hashed trade objects, the three walks |
| `Decimals`, `Money`, `Significance`, `MoneyText`, `MoneyFormat`, `NumericColumns`, `ColumnUnits` | values, arithmetic at 40 digits and its order, texts, currency format, `numeric(20,4)` columns |
| `Recorder`, `Serializability`, `TradeLog`, `Rereading`, `Orders` | concurrent recorders as a state machine, what isolation gives them, the recorders' code, verifying what was recorded, redelivery of jobs |
| `Ledger`, `PendingActions`, `Approvals`, `FourEyes`, `ApprovalWatcher`, `PollQueue`, `ApprovalTrace` | ledger and adjustments, the queue and its handlers, the protocol's steps, what every run keeps, the watcher's code, which actions it reaches, who approved what and when |
| `Funds`, `Commissions`, `Conservation`, `MoneyTrace` | the money handlers, the fee of a fill, what every run of them keeps, the balance from the steps of a run |
| `Charges`, `ChargeLines`, `RateTable`, `ChargeOrder`, `ChargeBounds`, `ChargeErrors`, `GstLines` | charges, which line says what, the rates worked out, growth and error bounds |
| `Pagination`, `Pnl`, `CashFlow` | listing, realised profit and loss, its meaning in cash |

Code that changes state in place is a class whose methods are proved against functions on a value of
the whole state; the results about runs are proved about those functions. Protocols are step functions
over sequences of labels, so that a statement about every sequence is a statement about every
interleaving; a step that is not possible changes nothing.

## What is assumed

- SHA-256 is a parameter. Lemmas that need it say so: digests are 64 hex digits, and the payloads of
  the chains at hand do not collide and do not hash to the genesis constant. Nothing is assumed of
  other inputs.
- In `Recorder` a recorder commits only if its broker's rows are those of its snapshot. What is
  assumed of SERIALIZABLE for it is that histories are serializable: of any two committed recorders
  of one broker one has read the other's row. `Serializability` derives the condition from that for
  recorders without it. The UNIQUE constraints on hash and trade id are modelled as they are declared.
- In the approval protocol a claimed row stays locked until its transaction ends (READ COMMITTED);
  admin handlers and the immediate adjustment are atomic, as the audit interceptor's transaction makes
  them.
- Deposit and withdrawal decisions update their row unconditionally
  (`apps/api/src/modules/admin/deposits/deposits-admin.controller.ts:143-146`), so the results of
  `Conservation` are about serialised handlers. `pending_actions` needs no such assumption.
- `updateStatus` of orders (`apps/api/src/modules/orders/orders.repository.ts:27-37`) has no caller.
  In `Orders` any status but FILLED may be set, at any time, on an order that is not filled.
- Generated ids come from a counter: a new one was never used before. Times, thresholds, the floor and
  the commission rate are parameters.

## Where the code and its documentation differ

- The recorders hash `Money.toString()` ("1"), the verifiers hash the column text ("1.0000"):
  `apps/workers/src/processors/order-processor.ts:101-102` against
  `apps/workers/src/processors/chain-verifier.ts:91-92`. `Rereading.RawMismatches` says which rows are
  reported for it, `Rereading.MismatchOccurs` gives a run, and `Rereading.RereadVerifies` says that
  nothing else is wrong with the rows.
- A wallet adjustment posts both legs to one wallet and so changes no balance
  (`packages/core/src/actions/wallet-adjust.ts:48-67`, `Ledger.AdjustmentNeutral`).
- The withdrawal floor is tested when the request is made, not when it is approved:
  `Conservation.FloorExactly` says exactly when it holds over runs, and `Conservation.FloorBroken`
  gives runs in which it does not.
- `recordFill` and `markFilled` are separate transactions, so an order can have more than one trade
  (`Orders.RedeliveryRecordsTwice`, `Orders.CrashRecordsTwice`). `Orders.TradesComplete` says exactly
  when it gets no further one, `Orders.OneTrade` in which runs it has one at most.
- The GST line need not be the rate times the emitted lines: `GstLines.GstConsistent` says by how
  much it can differ, `GstLines.OnePaisaReached` that this is reached with the table as it is.
- An action that is approved but cannot be dispatched, for instance because its amount does not fit
  the column, is polled again and again. 25 of them keep every later one from ever being executed
  (`PollQueue.NeverExecuted`).
- A request for nothing is accepted also below the floor (`Conservation.FloorKept`).
- `format` prints a minus sign for a value that rounds to zero from below ("-₹0.00",
  `MoneyFormat.MinusZero`).

## Model

| member | source | states |
|---|---|---|
| `Json.QuoteUnique` | packages/utils/src/hash-chain.ts:38-39 | two strings whose JSON quotations agree, whatever follows them, are the same string (escaping of section 7 of RFC 8259, lone surrogates escaped) |
| `Json.PrintUnique` | packages/utils/src/hash-chain.ts:63-65 | unique decodability: if two printed values agree as texts, each followed by anything that cannot extend a number, the values and the remainders are equal |
| `Canonical.Canonicalize` | packages/utils/src/hash-chain.ts:22-66 | the recursive serializer returns the printed normal form, or a TypeError, exactly as specified |
| `Canonical.CanonicalizeArray` | packages/utils/src/hash-chain.ts:47-49 | an array is printed element by element, undefined elements as null; the first failing element makes it throw |
| `Canonical.CanonicalizeObject` | packages/utils/src/hash-chain.ts:55-65 | the key loop prints the sorted, defined properties, equal to the normal form built from the unsorted ones |
| `Canonical.SortSorted` | packages/utils/src/hash-chain.ts:56 | sorting keeps the properties and orders their keys by code units |
| `Canonical.NormalizeSame` | packages/utils/src/hash-chain.ts:14-20 | normal forms are equal exactly for values equal by value: properties in any order, undefined ones absent, undefined elements null, dates and big integers as strings, toJSON objects replaced |
| `Canonical.CanonInjective` | packages/utils/src/hash-chain.ts:14-22 | the serializer is injective up to equality by value: two values print the same text if and only if they are equal by value |
| `Canonical.CanonTotal` | packages/utils/src/hash-chain.ts:31-43 | it throws exactly on values that hold a non-finite number, a function or a symbol |
| `Canonical.CanonIgnoresOrder` | packages/utils/src/hash-chain.ts:56 | listing the same properties in another order prints the same text |
| `Canonical.CanonWellFormed` | packages/utils/src/hash-chain.ts:77 | canonical text has no lone surrogate, so that UTF-8 loses nothing of it |
| `JsonReader.ValueReads` | packages/utils/src/hash-chain.ts:22-66 | a reader of JSON written apart from the printer, with its own punctuation, escapes and words, reads the printed text of every value back to the value, whatever follows that cannot extend a number |
| `JsonReader.ValueOnly` | packages/utils/src/hash-chain.ts:22-66 | and it accepts nothing else: whatever it reads is the printed text of what it found, followed by the rest |
| `CanonicalText.CanonReads` | packages/utils/src/hash-chain.ts:14-66 | the canonical text reads, to its end, as JSON that means the value (properties ascending, undefined ones absent, undefined elements null, dates and big integers as strings), and it is the only text that does |
| `Utf8.EncodeUnique` | packages/utils/src/hash-chain.ts:77 | UTF-8 encoding is injective on well-formed text |
| `Utf8.EncodeLosesLoneSurrogates` | packages/utils/src/hash-chain.ts:77 | and not on arbitrary strings: two different lone surrogates encode to the same bytes |
| `Utf8Reader.EncodedReads` | packages/utils/src/hash-chain.ts:77 | a decoder written apart from the encoder (section 3 of RFC 3629) reads the bytes of well-formed text back to the text |
| `Utf8Reader.EncodedReplaces` | packages/utils/src/hash-chain.ts:77 | and those of any text back to the text with every lone surrogate replaced by U+FFFD |
| `CanonicalText.HashPattern` | packages/utils/src/hash-chain.ts:72-75 | the pattern of a previous hash: 64 code units from 0-9, a-f and A-F; genesis is 64 zeros |
| `CanonicalText.HashedBytes` | packages/utils/src/hash-chain.ts:72-77 | the bytes hashed for a trade read as UTF-8 to the previous hash, a bar, and the trade's text |
| `HashChain.VerifyChain` | packages/utils/src/hash-chain.ts:91-108 | -1 exactly for an intact chain, otherwise the first row whose link or hash is wrong; a TypeError only for a row in good link whose record has no canonical text, never for a malformed previous hash |
| `HashChain.PayloadUnique` | packages/utils/src/hash-chain.ts:72-77 | the hashed bytes determine the previous hash and the canonical record |
| `HashChain.Extend` | packages/utils/src/hash-chain.ts:91-108 | appending a row that names the tail and carries its own hash keeps the chain intact and makes it the tail |
| `HashChain.PrefixIntact` | packages/utils/src/hash-chain.ts:91-108 | every prefix of an accepted chain is accepted |
| `HashChain.TailCommits` | packages/utils/src/hash-chain.ts:72-108 | two accepted chains of any lengths that end in the same hash have the same length and equal records row by row, if the payloads they contain do not collide and none hashes to the genesis constant |
| `HashChain.HashesDistinct` | packages/utils/src/hash-chain.ts:91-108 | under the same assumption no hash occurs twice in an accepted chain, and no two rows share a predecessor |
| `HashChain.RecordChanged` | packages/utils/src/hash-chain.ts:91-108 | after changing the record of row i by value, i is the first break |
| `HashChain.RowDeleted` | packages/utils/src/hash-chain.ts:91-108 | after deleting a row that is not the last, its position is the first break |
| `HashChain.RowsSwapped` | packages/utils/src/hash-chain.ts:91-108 | after swapping two rows, the earlier position is the first break |
| `HashChain.RowInserted` | packages/utils/src/hash-chain.ts:91-108 | a forged row in front of an existing one is found at its own position or, if its hash was computed correctly, at the next |
| `Trades.RecordSerializable` | apps/workers/src/processors/order-processor.ts:95-105 | the hashed object of a trade always has a canonical text |
| `Trades.RecordSame` | apps/workers/src/processors/order-processor.ts:95-105 | two trades have equal hashed objects exactly if all nine hashed columns agree |
| `CanonicalText.RecordText` | apps/workers/src/processors/order-processor.ts:95-106 | the exact text of every trade: nine quoted names in ascending order, each with a colon and its own column quoted, commas between, braces around |
| `Verifiers.RunForBroker` | apps/workers/src/processors/chain-verifier.ts:68-108 | the break list of the worker, row by row; it throws exactly if some row links to a predecessor with a malformed hash |
| `Verifiers.VerifyForBroker` | infra/scripts/verify-chain.ts:49-80 | the break count of the script, row by row; it throws exactly if some previous hash is malformed |
| `Verifiers.IntactExactly` | packages/utils/src/hash-chain.ts:91-108 | a chain is accepted exactly if every row names the hash before it (64 zeros for the first) and carries the digest of that hash, a bar and its own text |
| `Verifiers.ReportSays` | apps/workers/src/processors/chain-verifier.ts:74-105 | the worker's report, when it does not throw: one break for every row that names another predecessor or carries another hash than its digest, no other, in row order, each with its reason and the expected and the actual hash |
| `Verifiers.CountSays` | infra/scripts/verify-chain.ts:49-80 | the script's count is the number of wrong links plus the number of wrong hashes |
| `Verifiers.VerifiersAgree` | apps/workers/src/processors/chain-verifier.ts:68-108 | on rows with 64-digit hashes the three verifiers are clean together; the worker reports at most one break a row; the script counts one more for each row that fails both checks |
| `Verifiers.FirstBreakAgrees` | infra/scripts/verify-chain.ts:49-80 | where verifyChain stops is the worker's first break and the row of the script's first count |
| `Recorder.OneChain` | apps/workers/src/processors/order-processor.ts:88-124 | for every interleaving of recorders, each broker's rows in id order are one intact chain from genesis in commit order, and the hash of the greatest id is its tail |
| `Recorder.NoFork` | apps/api/src/modules/trades/trades.service.ts:46-82 | no two rows of a broker name the same previous hash, unless some hash is the genesis constant |
| `Recorder.CommittedInOrder` | apps/api/src/modules/trades/trades.repository.ts:93-102 | each broker's rows are committed in the order of their ids |
| `Recorder.RowsStay` | apps/api/src/modules/trades/trades.repository.ts:22-26 | committed rows are never changed or removed by any continuation of a run |
| `Recorder.RowsUnique` | apps/api/src/database/migrations/0000_init.sql:185-205 | in every interleaving no two rows, of any brokers, share their hash or their trade id |
| `Serializability.SerializableExactly` | apps/workers/src/processors/order-processor.ts:88-124 | for recorders that commit without any condition: of any two committed recorders of one broker one has read the other's row, if and only if every commit found its broker's rows as its snapshot had them |
| `Serializability.SerializableChain` | apps/api/src/modules/trades/trades.service.ts:46-110 | so every serializable history of unconditional recorders leaves the tables of the conditional ones, with one intact chain for each broker |
| `TradeLog.TradeStore.GetLastHash` | apps/api/src/modules/trades/trades.repository.ts:93-102 | the hash of the broker's row with the greatest id, none exactly if the broker has no row |
| `TradeLog.TradeStore.RecordFill` | apps/workers/src/processors/order-processor.ts:82-124 | records a row that continues the broker's chain and keeps every chain intact, or leaves the rows as they were, exactly when a value is malformed or not unique |
| `TradeLog.TradeStore.RecordCharges` | apps/api/src/modules/trades/trades.service.ts:83-101 | the charge lines of the fill, all of them or none: none exactly if they cannot be computed or one does not fit its column |
| `TradeLog.LinesFitMeans` | apps/api/src/database/migrations/0000_init.sql:206-215 | a line fits its column if its units of 0.0001 are below 10^20 |
| `TradeLog.TradeStore.RecordTrade` | apps/api/src/modules/trades/trades.service.ts:46-110 | the row as above and the fill's charge lines in the same transaction: both or neither; it fails exactly when a value is malformed, too large or not unique, the charges cannot be computed, or a line does not fit its column |
| `TradeLog.AloneIsSteps` | apps/workers/src/processors/order-processor.ts:88-124 | one recorder running alone does what its three steps do in the concurrent model |
| `NumericColumns.HalfAwayNearest` | apps/api/src/database/migrations/0000_init.sql:194-195 | a column keeps the nearest multiple of 0.0001, away from zero on ties |
| `NumericColumns.StoredExactly` | apps/api/src/database/migrations/0000_init.sql:194-195 | a decimal of at most four places is stored and read back unchanged |
| `NumericColumns.RereadSame` | apps/api/src/database/migrations/0000_init.sql:194-195 | parsing and printing the column text gives the canonical text exactly for values of at most four places |
| `NumericColumns.RawSame` | apps/api/src/database/migrations/0000_init.sql:194-195 | the raw column text is the canonical text exactly for values that need all four places |
| `Rereading.RecordedTexts` | apps/workers/src/processors/order-processor.ts:95-124 | a recorded trade carries the fill's own names and times, and its quantity and price equal as numbers and printed canonically |
| `Rereading.RecordedExactly` | apps/workers/src/processors/order-processor.ts:95-124 | a fill is recorded exactly if both texts can be read and have at most twenty digits at four places, and the previous hash is well formed; the row's hash is then the digest of that hash, a bar and the row's text |
| `Rereading.OrderFillsAreShort` | apps/workers/src/processors/order-processor.ts:58-59 | quantity and price that the order processor reads need at most four places |
| `Rereading.RereadVerifies` | apps/workers/src/processors/chain-verifier.ts:55-108 | if stored quantity and price are read through the canonical printer, every chain recorded from column texts verifies, in every run and for any number of trades |
| `Rereading.RereadVerifiesExactly` | apps/api/src/modules/trades/trades.service.ts:54-82 | for arbitrary texts it verifies if and only if no quantity or price needs a fifth decimal |
| `Rereading.RawMismatches` | apps/workers/src/processors/chain-verifier.ts:55-108 | run on any recorded chain with the raw column text, the worker does not throw and lists, in order, one HASH_MISMATCH for exactly each row whose quantity or price does not need all four decimals, with the hash of the row as read and the stored one, and nothing else |
| `Rereading.MismatchOccurs` | apps/workers/src/processors/chain-verifier.ts:84-108 | a run, with a digest that meets all assumptions, in which one fill of quantity and price "1.0000" is recorded and its intact chain is reported |
| `Orders.FilledHasTrade` | apps/workers/src/processors/order-processor.ts:44-67 | in every run with redeliveries and crashes a filled order has at least one trade |
| `Orders.TradesComplete` | apps/workers/src/processors/order-processor.ts:44-67 | no continuation of a run adds a trade for an order if and only if the order is filled or its fill price is malformed, and no job for it has been loaded without having been recorded |
| `Orders.OneTrade` | apps/workers/src/processors/order-processor.ts:44-67 | an order has at most one trade in every run in which a delivery of it is accepted only while no other job for it is open, and no job dies between recording and marking |
| `Orders.RedeliveryRecordsTwice` | apps/workers/src/processors/order-processor.ts:64-65 | a run with a second delivery before the order is marked, which records a second trade |
| `Orders.CrashRecordsTwice` | apps/workers/src/processors/order-processor.ts:64-65 | a run in which the process dies between recording and marking, with the same result |
| `Orders.DeliveryLoads` | apps/workers/src/processors/order-processor.ts:44-64 | a delivery loads an order exactly if it is pending or accepted and its price can be read: its own price if it has one, else "100" |
| `Orders.TradesPriced` | apps/workers/src/processors/order-processor.ts:58-64 | in every run every trade has the price of its order |
| `Decimals.CanonicalUnique` | packages/utils/src/money.ts:129-131 | canonical decimals are numerically equal exactly if coefficient and scale agree |
| `Money.MulExact` | packages/utils/src/money.ts:100-102 | a product is exact if the factors have at most 40 digits together |
| `Money.AddExact` | packages/utils/src/money.ts:94-96 | a sum is exact if both terms, at the larger scale, have fewer than 40 digits |
| `Money.RoundNearest` | packages/utils/src/money.ts:148-150 | rounding gives the nearest multiple of the unit, and the even one of two |
| `Money.RoundMonotone` | packages/utils/src/money.ts:148-150 | rounding is monotone |
| `Money.RoundIdempotentOdd` | packages/utils/src/money.ts:148-150 | rounding twice is rounding once, and rounding commutes with negation |
| `Significance.MulAt` | packages/utils/src/money.ts:100-102 | a product is the exact product rounded half even to 40 significant digits, at whatever scales it is written |
| `Significance.SumAt` | packages/utils/src/money.ts:94-96 | and so is a sum |
| `Significance.SigMonotone` | packages/utils/src/money.ts:5-10 | rounding to 40 significant digits is monotone |
| `Significance.SigIdempotent` | packages/utils/src/money.ts:5-10 | and rounding twice is rounding once |
| `Significance.FortyDigits` | packages/utils/src/money.ts:5-10 | at most 40 digits are kept as they are; beyond them the value is rounded to the nearest multiple of the fortieth digit's unit, to the even one of two |
| `MoneyText.ParsePrint` | packages/utils/src/money.ts:45-52 | the constructor reads what toString prints back to the same value, but for the sign of zero |
| `MoneyText.PrintCanonical` | packages/utils/src/money.ts:174-177 | two accepted strings print identically if and only if they are numerically equal |
| `MoneyText.PrintStable` | packages/utils/src/money.ts:174-177 | reading and printing a printed string changes nothing |
| `MoneyText.PositiveExactly` | packages/validators/src/primitives.ts:4 | the positive-amount pattern accepts exactly the unsigned decimals of positive value without a superfluous leading zero |
| `MoneyText.PositiveParses` | packages/validators/src/primitives.ts:17-20 | every match parses to a positive amount |
| `MoneyText.PositivePrints` | packages/validators/src/primitives.ts:17-20 | every positive amount prints to a match |
| `MoneyText.PaiseBack` | packages/utils/src/money.ts:69-92 | toPaise after fromPaise gives an integer of at most 40 digits back |
| `MoneyText.PaiseRounds` | packages/utils/src/money.ts:69-92 | fromPaise after toPaise equals the amount rounded to two places, for amounts whose hundredfold has at most 40 digits |
| `DecimalReader.ParseOnly` | packages/utils/src/money.ts:45-52 | the constructor accepts exactly digits with or without a minus and with or without a point and digits behind it, between white space |
| `DecimalReader.ParseReads` | packages/utils/src/money.ts:45-52 | and such a text stands for what its digits spell, in lowest terms |
| `DecimalReader.PrintSpells` | packages/utils/src/money.ts:174-177 | a value is printed with a minus if it is negative, without superfluous zeros in front, and with exactly its decimals |
| `DecimalReader.PaiseRead` | packages/utils/src/money.ts:69-83 | fromPaise accepts exactly digits with or without a minus, and gives a hundredth of what they spell, exactly for at most 40 digits |
| `MoneyFormat.GroupedShape` | packages/utils/src/money.ts:164-170 | grouped digits are groups joined by commas: the last of three digits, those before it of two, the first of one or two |
| `MoneyFormat.GroupedDeleted` | packages/utils/src/money.ts:164-170 | deleting the commas restores the digits, for any length |
| `MoneyFormat.FormatReads` | packages/utils/src/money.ts:156-172 | reading a formatted amount back gives exactly the rounded value, with its sign even when it is zero |
| `MoneyFormat.MinusZero` | packages/utils/src/money.ts:156-172 | -0.001 is formatted as minus zero |
| `Ledger.LedgerStore.FindOrCreateWallet` | apps/api/src/modules/ledger/ledger.repository.ts:30-49 | the first wallet of the broker in the currency, or one new wallet if there is none |
| `Ledger.LedgerStore.PostPair` | apps/workers/src/ledger/pg-ledger-ops.ts:30-53 | appends exactly the two legs, in order, under new ids |
| `Ledger.LedgerStore.GetBalance` | apps/api/src/modules/ledger/ledger.repository.ts:66-75 | credits minus debits of the wallet |
| `Ledger.AdjustedPair` | packages/core/src/actions/wallet-adjust.ts:44-73 | an adjustment leaves two new entries: on the broker's first wallet in the currency, or a new one, the payload's direction and then the other, of the same amount under one new reference |
| `Ledger.PayloadMeans` | packages/core/src/actions/wallet-adjust.ts:39-46 | the amount can be posted exactly if it is positive and its nearest number of units of 0.0001, ties upwards, has at most twenty digits; that number is posted |
| `Ledger.ExecuteWalletAdjust` | packages/core/src/actions/wallet-adjust.ts:35-74 | posts a debit and a credit of the amount under one new reference, or throws, exactly for amounts that are malformed, not positive or too large for the column |
| `Ledger.AdjustmentNeutral` | packages/core/src/actions/wallet-adjust.ts:48-67 | an adjustment changes no wallet's balance, since both legs fall on one wallet |
| `Ledger.PathsPostEqualLegs` | packages/core/src/actions/wallet-adjust.ts:39-46 | the queued path, with the amount as given, and the immediate path, with the amount printed, post equal legs |
| `PendingActions.PendingActionsRepository.Create` | apps/api/src/modules/admin/approvals/pending-actions.repository.ts:25-41 | adds one pending, undecided action |
| `PendingActions.PendingActionsRepository.Approve` | apps/api/src/modules/admin/approvals/pending-actions.repository.ts:65-89 | approves exactly a pending action requested by somebody else, and otherwise changes nothing |
| `PendingActions.PendingActionsRepository.Reject` | apps/api/src/modules/admin/approvals/pending-actions.repository.ts:91-115 | rejects exactly a pending action requested by somebody else, and otherwise changes nothing |
| `PendingActions.Database.WalletAdjust` | apps/api/src/modules/admin/interventions/interventions.controller.ts:54-114 | queues above the threshold, executes at once otherwise, with its audit row; an error leaves nothing behind |
| `PendingActions.AdjustRouted` | apps/api/src/modules/admin/interventions/interventions.controller.ts:54-114 | by the amount alone, read digit by digit: rejected if it is not positive, queued as given above the threshold, otherwise executed as its pair of legs, or rejected if it has more than twenty digits |
| `PendingActions.AmountMeans` | apps/api/src/modules/admin/interventions/interventions.controller.ts:25 | the amount pattern accepts exactly the texts of digits with at most four behind a point, and they parse to the units they spell |
| `PendingActions.Database.Approve` | apps/api/src/modules/admin/approvals/approvals.controller.ts:65-103 | not found, forbidden, conflict or done, in this order; state and audit row change together or not at all |
| `PendingActions.Database.Reject` | apps/api/src/modules/admin/approvals/approvals.controller.ts:113-155 | the same for rejecting, which needs a reason |
| `PendingActions.Database.ExpireStale` | apps/workers/src/processors/approval-watcher.ts:150-160 | an action's status becomes expired exactly if it was pending and older than the retention; every other field and row is as it was |
| `ApprovalWatcher.Watcher.Dispatch` | packages/core/src/dispatcher.ts:39-51 | only wallet adjustments do anything; the other types are reported as not implemented |
| `ApprovalWatcher.Watcher.ExecuteOne` | apps/workers/src/processors/approval-watcher.ts:69-148 | claim, dispatch, success audit; or everything undone and a failure audit; true exactly if it was executed |
| `ApprovalWatcher.Watcher.PollOnce` | apps/workers/src/processors/approval-watcher.ts:35-67 | executes the polled rows in order and counts them |
| `ApprovalWatcher.PollOutcome` | apps/workers/src/processors/approval-watcher.ts:35-67 | a poll that runs alone executes exactly the rows whose payload can be executed, leaves the others approved, and counts them |
| `ApprovalWatcher.RowExecuted` | apps/workers/src/processors/approval-watcher.ts:69-148 | one polled row: nothing if it is not approved any more; a failure audit and no other trace if its amount cannot be posted; otherwise it is marked executed, with one success audit and, for an adjustment, its pair of legs |
| `ApprovalWatcher.PolledInTurn` | apps/workers/src/processors/approval-watcher.ts:51-66 | a poll that runs alone leaves one audit row for each polled row, in the order of the poll |
| `ApprovalTrace.Requested` | apps/api/src/modules/admin/approvals/pending-actions.repository.ts:25-41 | over every run, an action carries the type, payload, requester and time of the step that asked for it |
| `ApprovalTrace.Approved` | apps/api/src/modules/admin/approvals/pending-actions.repository.ts:65-89 | over every run, an approved or executed action carries the user and the time of an approving step that found it pending, and that user is not the requester |
| `ApprovalTrace.OneApproval` | apps/api/src/modules/admin/approvals/pending-actions.repository.ts:65-89 | and that step is the only one with which it became approved |
| `ApprovalWatcher.ExecuteOneIsSteps` | apps/workers/src/processors/approval-watcher.ts:69-148 | executeOne undisturbed does what its claim, dispatch and commit (or failure) steps do in the protocol |
| `PollQueue.InEveryPoll` | apps/workers/src/processors/approval-watcher.ts:35-49 | an approved action is in every result the poll's query may return, however ties are broken, if and only if fewer than 25 other approved actions were approved no later |
| `ApprovalTrace.InEveryPollByLabels` | apps/workers/src/processors/approval-watcher.ts:35-49 | the same in terms of the steps: where the clock does not run backwards, an approved action is in every poll if and only if fewer than 25 other actions that are still approved were approved by an earlier step or at the same time |
| `ApprovalTrace.PolledInOrder` | apps/workers/src/processors/approval-watcher.ts:46 | of two actions in a poll, the one approved at the earlier time stands in front |
| `PollQueue.NextPollExecutes` | apps/workers/src/processors/approval-watcher.ts:35-67 | and a poll that runs alone is sure to execute it, if it can be dispatched, under exactly that condition |
| `PollQueue.NeverExecuted` | apps/workers/src/processors/approval-watcher.ts:35-67 | an approved action that no poller has read yet stays approved in every continuation of a run while 25 actions that cannot be dispatched were approved before it |
| `FourEyes.ExecutedOnce` | apps/workers/src/processors/approval-watcher.ts:79-110 | in every run of any number of pollers, with stale polls, crashes and lost connections, an action has status executed exactly if it has one success audit row, never more; exactly the decided actions have one audited decision |
| `FourEyes.ExecutedPair` | apps/workers/src/processors/approval-watcher.ts:91-110 | an executed wallet adjustment has exactly one posted pair, with its payload, under the reference of its success row |
| `FourEyes.ExecutionsApart` | apps/workers/src/processors/approval-watcher.ts:91-110 | different executions never share a reference |
| `FourEyes.AboveThreshold` | apps/api/src/modules/admin/interventions/interventions.controller.ts:71-113 | every adjustment entry above the threshold belongs to an executed action of that amount that somebody other than the requester approved |
| `FourEyes.DecisionsStand` | apps/api/src/modules/admin/approvals/pending-actions.repository.ts:65-115 | over any continuation of a run an action keeps its request, moves only from pending to a decision and from approved to executed, and rejected, expired and executed are final |
| `FourEyes.StartsPending` | apps/api/src/modules/admin/approvals/pending-actions.repository.ts:25-41 | every action starts pending and undecided |
| `FourEyes.OnlyStaleExpire` | apps/workers/src/processors/approval-watcher.ts:150-160 | in every run of the protocol an action turns expired if and only if the step is the expiry job and the action was pending and older than the retention: an approved action is never taken back |
| `FourEyes.OnlyCommitsChange` | apps/workers/src/processors/approval-watcher.ts:116-148 | no step of a poller but a commit changes an action or the ledger |
| `FourEyes.FailureLeavesApproved` | apps/workers/src/processors/approval-watcher.ts:116-148 | after a dispatch that throws, by its own outcome or for any other reason, the action is still approved and all tables are as they were |
| `Funds.Accounts.CreateBroker` | apps/api/src/modules/admin/brokers-admin/brokers-admin.controller.ts:137-220 | opens a wallet with one credit of the opening balance |
| `Funds.Accounts.TotalBalance` | apps/api/src/modules/broker-portal/broker-portal.controller.ts:177-180 | the loop adds up the balances of the broker's wallets |
| `Funds.Accounts.CreateRequest` | apps/api/src/modules/broker-portal/broker-portal.controller.ts:168-213 | accepts a withdrawal exactly up to the balance above the floor |
| `Funds.Accounts.Approve` | apps/api/src/modules/admin/deposits/deposits-admin.controller.ts:94-160 | not found, already decided, not covered, or one entry and the status |
| `Funds.Accounts.Reject` | apps/api/src/modules/admin/deposits/deposits-admin.controller.ts:166-195 | records the decision without touching the ledger |
| `Funds.Accounts.ChargeCommission` | apps/workers/src/processors/order-processor.ts:130-169 | an opening leg with a positive commission gets one charge and one debit of it on the first wallet; a closing leg gets nothing |
| `Funds.CommissionMeans` | apps/workers/src/processors/order-processor.ts:130-132 | what is charged, from the texts: nothing if the order id ends in the code units of -C or the fee times the quantity is not positive; else the exact product of the coefficients, rounded to 40 digits and to the nearest unit of 0.0001; an error for a malformed text or more than twenty digits |
| `Commissions.Fee` | apps/workers/src/processors/order-processor.ts:131 | the units are the nearest to the exact product, ties upwards, if that has at most 40 digits; else off by half a unit and half of the fortieth digit at most |
| `Funds.FillDebits` | apps/workers/src/processors/order-processor.ts:133-168 | the charge is debited once, on the broker's first wallet, or on a new one in USD, under the trade's id |
| `Funds.RequestUnitsAre` | apps/api/src/modules/broker-portal/broker-portal.controller.ts:28 | the amount of a request is what its digits spell |
| `Funds.RequestAsked` | apps/api/src/modules/broker-portal/broker-portal.controller.ts:90-213 | a withdrawal is accepted exactly if it is nothing or at most what all wallets hold above the floor, a deposit always; it is then added as pending in the currency of the broker's first wallet |
| `Funds.GrantDecided` | apps/api/src/modules/admin/deposits/deposits-admin.controller.ts:94-160 | a pending request is granted exactly if it is a deposit or its wallet covers it: status and one entry, a debit for a withdrawal and a credit for a deposit, on the broker's wallet in the request's currency |
| `Funds.RefusalDecided` | apps/api/src/modules/admin/deposits/deposits-admin.controller.ts:166-195 | a pending request is marked rejected and nothing else changes |
| `Funds.NotFoundGrant` | apps/api/src/modules/admin/deposits/deposits-admin.controller.ts:94-110 | a request that does not exist is neither granted nor refused |
| `Conservation.BalanceConserved` | apps/api/src/modules/ledger/ledger.repository.ts:66-75 | in every run, for every broker, the balance over all wallets is the opening credit plus granted deposits minus granted withdrawals minus commissions; adjustments cancel |
| `MoneyTrace.CommissionsDue` | apps/workers/src/processors/order-processor.ts:130-169 | in every run the commissions of a broker are what its opening fills come to, fill by fill, from their texts |
| `MoneyTrace.RequestSent` | apps/api/src/modules/broker-portal/broker-portal.controller.ts:90-213 | in every run every request was sent by a step of its kind and broker, and has the amount its text spells |
| `MoneyTrace.BalanceFromSteps` | apps/api/src/modules/ledger/ledger.repository.ts:66-75 | in every run the balance of a broker is the amount of the first step that opened its account, plus granted deposits, minus granted withdrawals, minus what its opening fills come to |
| `Conservation.RequestsPostOnce` | apps/api/src/modules/admin/deposits/deposits-admin.controller.ts:130-146 | every request has at most one ledger entry, and has its own exactly if it was approved |
| `Conservation.ChargesMatchDebits` | apps/workers/src/processors/order-processor.ts:133-168 | BROKERAGE charges and CHARGE debits match one to one, in order, amount and broker, and add up to the same |
| `Conservation.GrantCovers` | apps/api/src/modules/admin/deposits/deposits-admin.controller.ts:117-128 | approving a withdrawal takes its amount from a wallet and never leaves that wallet negative |
| `Conservation.FloorExactly` | apps/api/src/modules/broker-portal/broker-portal.controller.ts:170-190 | whatever happens between accepting and approving a withdrawal, the broker is left at or above the floor if and only if the amount and the broker's other debits in between are within what the request was measured against and the credits in between |
| `Conservation.FloorKept` | apps/api/src/modules/broker-portal/broker-portal.controller.ts:170-190 | in particular, with no other debit in between: if and only if the amount was positive or the broker was at the floor anyhow |
| `Conservation.TwoWithdrawals` | apps/api/src/modules/broker-portal/broker-portal.controller.ts:170-190 | in particular, after any run: two withdrawals accepted while both are pending and then approved leave the broker at or above the floor if and only if together they are within the first cap |
| `Conservation.FloorBroken` | apps/api/src/modules/broker-portal/broker-portal.controller.ts:170-190 | runs from the empty tables, for every opening above the floor by at most the floor, in which two accepted and approved requests leave the broker below it |
| `Charges.ActiveRate` | packages/constants/src/charge-rates.ts:80-89 | the applicable rate row that came into force last, an error exactly if none applies |
| `Charges.ComputeForFill` | apps/api/src/modules/charges/charges.service.ts:30-70 | the lines of a fill: six rounded amounts, those that are zero before rounding left out |
| `ChargeLines.ChargesComputed` | apps/api/src/modules/charges/charges.service.ts:30-33 | the charges can be computed exactly if a row of the segment is in force and both texts can be read |
| `ChargeLines.LinesOfAnyFill` | apps/api/src/modules/charges/charges.service.ts:50-69 | for all rates and fills, every line has the fill's trade id and no type of charge occurs twice |
| `ChargeLines.LinesByType` | apps/api/src/modules/charges/charges.service.ts:34-69 | a line of a type is there exactly if that charge on the turnover is not zero, and its text reads back to the nearest paise of that charge, even on ties, or off by what 40 digits lose of it |
| `RateTable.RowInForce` | packages/constants/src/charge-rates.ts:25-89 | from 2024-10-01 on one row is in force for each segment, and none before |
| `RateTable.CroreCharges` | packages/constants/src/charge-rates.ts:25-78 | what every charge of every segment and side comes to, in paise, on ten million rupees, and the brokerage on ten thousand |
| `Charges.TotalFor` | apps/api/src/modules/charges/charges.service.ts:72-74 | the lines added up |
| `Charges.ClampMonotoneExactly` | apps/api/src/modules/charges/charges.service.ts:77-85 | clamping keeps order if and only if the floor is not above a ceiling that is in force |
| `ChargeErrors.TurnoverNear` | apps/api/src/modules/charges/charges.service.ts:32 | quantity and price of at most 10^16, with any number of decimals, have a product of at most 10^32, exact up to eight decimals and else off by 5 * 10^-9 at most |
| `ChargeErrors.AmountsExact` | apps/api/src/modules/charges/charges.service.ts:34-48 | for turnovers of at most 24 digits, of which at most fifteen are decimals, every unrounded amount, GST included, is the exact product or sum |
| `ChargeErrors.FillTotal` | apps/api/src/modules/charges/charges.service.ts:50-74 | for every turnover up to 10^32, with any number of decimals, the total is the sum of the six rounded amounts in paise |
| `ChargeErrors.TotalNearExact` | apps/api/src/modules/charges/charges.service.ts:30-74 | for every turnover up to 10^32, with any number of decimals, the total is within 0.03 of the exact sum of the unrounded charges, and 0.00000109 for what arithmetic at 40 digits loses; nothing is lost for at most 24 digits with at most fifteen decimals. The brokerage bounds are in order, or rounding does not lift the brokerage to its floor |
| `ChargeErrors.ShortSteady` | apps/api/src/modules/charges/charges.service.ts:77-85 | which it never does for turnovers of at most 24 decimals |
| `ChargeErrors.SteadyExactly` | apps/api/src/modules/charges/charges.service.ts:77-85 | it does, with bounds out of order, exactly where the floor is due and the ceiling is charged |
| `ChargeErrors.CeilingInPlaceOfFloor` | apps/api/src/modules/charges/charges.service.ts:77-85 | an input where this happens, at a row that is not in the table |
| `ChargeErrors.FillNearExact` | apps/api/src/modules/charges/charges.service.ts:30-74 | from the texts of a fill: for every quantity and price that fit their columns, whatever their decimals, the total of the lines is within 0.03, and 0.00000113, of the exact charges on the exact turnover |
| `ChargeBounds.TotalNearAmounts` | apps/api/src/modules/charges/charges.service.ts:30-74 | wherever the paise of the lines have fewer than 39 digits, the total is within 0.03 of the sum of the unrounded amounts as computed at 40 digits |
| `ChargeBounds.LargeFillsFit` | apps/api/src/modules/charges/charges.service.ts:32-48 | which includes all turnovers up to 10^33 and so everything that quantity and price columns can produce |
| `ChargeOrder.TotalMonotone` | apps/api/src/modules/charges/charges.service.ts:30-85 | a larger turnover is never charged less in total: for every turnover that is not negative, also where 40 digits are not enough, and every row of non-negative rates whose brokerage bounds are in order |
| `ChargeOrder.TurnoverMonotone` | apps/api/src/modules/charges/charges.service.ts:32 | the turnover grows with quantity and price, at 40 digits |
| `GstLines.GstConsistent` | apps/api/src/modules/charges/charges.service.ts:47-48 | for every turnover up to 10^32, with any number of decimals, the GST line is within one paisa of GST computed again from the emitted, rounded lines if the GST rate is below two thirds, and within two for all rates below one |
| `ChargeLines.GstOnEmitted` | apps/api/src/modules/charges/charges.service.ts:47-69 | the same on the emitted lines, found by their types: the GST line is within a paisa (two for rates from two thirds on) of the rate times the brokerage, exchange and SEBI lines |
| `GstLines.OnePaisaReached` | packages/constants/src/charge-rates.ts:39-51 | in the table as it is: an intraday buy of 250 has a GST line of one paisa, and 18 % of its lines are two |
| `GstLines.TwoPaiseReached` | apps/api/src/modules/charges/charges.service.ts:47-48 | two paise are reached at a hypothetical row with a GST rate of 70 %, which is not in the table |
| `ChargeBounds.RowsGood` | packages/constants/src/charge-rates.ts:25-78 | every row of the rate table meets what these results ask of a row |
| `Pagination.Conditions` | apps/api/src/modules/trades/trades.repository.ts:46-62 | the pushed conditions hold of exactly the rows that match the query |
| `Pagination.FindByBroker` | apps/api/src/modules/trades/trades.repository.ts:46-91 | the matching rows in descending id order, up to the limit |
| `Pagination.List` | apps/api/src/modules/trades/trades.controller.ts:39-51 | the page, and a cursor one below its last id exactly if the page is full |
| `Pagination.ListAll` | apps/api/src/modules/trades/trades.controller.ts:46-50 | following the cursor ends, and lists every matching trade of the first request's table exactly once in descending id order, whatever is appended between the pages |
| `Pagination.ListedOnce` | apps/api/src/modules/trades/trades.controller.ts:46-50 | that list holds exactly the matching rows, strictly descending |
| `Pagination.RecordedTablesGrow` | apps/api/src/modules/trades/trades.repository.ts:93-102 | the tables the recorders leave at successive moments of a run are such growing tables |
| `Pnl.Realized` | apps/api/src/modules/broker-portal/broker-portal.controller.ts:415-429 | the two loops compute the sum over closing legs paired with their opens |
| `Pnl.OrderIrrelevant` | apps/api/src/modules/broker-portal/broker-portal.controller.ts:415-429 | any permutation of the rows gives the same result when no two legs open the same id |
| `Pnl.OrderCounts` | apps/api/src/modules/broker-portal/broker-portal.controller.ts:415-429 | for any rows: exchanging two neighbours that open the same id changes the result if and only if no later row opens it and its closes gain differently with the one and with the other |
| `Pnl.SidesSwapped` | apps/api/src/modules/broker-portal/broker-portal.controller.ts:415-429 | swapping all sides negates the result |
| `CashFlow.RealizedIsCash` | apps/api/src/modules/broker-portal/broker-portal.controller.ts:415-429 | when no leg has two counterparts and counterparts trade the same quantity on opposite sides, the result is what the paired sales brought in minus what the paired purchases cost |
| `CashFlow.CloseRaised` | apps/api/src/modules/broker-portal/broker-portal.controller.ts:415-429 | for any legs, raising the price of a closing leg by d moves the result by d for every unit of the last leg that opens its id: up if that was a purchase, down if it was a sale, and not at all if there is none |

## Left out

- ChargeErrors.TotalNearExact: stated for rate rows like those of the table: rates below one with at most seven decimals, brokerage bounds below 10^9, GST rates with at most four decimals; and for turnovers that are not negative.
- ChargeErrors.FillTotal: stated for the same rows and turnovers.
- ChargeErrors.FillNearExact: stated for the same rows with brokerage bounds in order, and for quantities and prices that are not negative.
- GstLines.GstConsistent: stated for the same rows and turnovers.
- ChargeLines.LinesByType: stated for the same rows and turnovers.
- ChargeLines.GstOnEmitted: stated for the same rows and turnovers.
- MoneyText.PaiseRounds: stated for amounts whose product with 100 has at most 40 digits, so that it is exact.
- Pnl.OrderIrrelevant: needs distinct open ids; with a repeated id the last row wins, and Pnl.OrderCounts shows that order then matters.
- `markExecuted` (`apps/api/src/modules/admin/approvals/pending-actions.repository.ts:117-123`) is unguarded and has no caller; it is no step of the protocol.
- Numbers in hashed values are integers that JavaScript prints without an exponent; other finite numbers, holes in arrays, cyclic objects and invalid dates are not modelled. Dates are their ISO strings.
- The `number` and `bigint` inputs of Money and `fromPaise`, and `Money.div` by anything but 100, are not modelled.
- JavaScript floats and the 1e-9 tolerances in portal and admin code are replaced by exact decimals.
- Descriptions, notes, comments, rejection reasons, IP addresses and similar columns that nothing computes with.
- Foreign keys: that a broker exists is not tested.
- Logging, publishing of events, HTTP status codes, schemas of fields that are not used here.
- `runForAllBrokers` and the `main` of the verification script, which only repeat the per-broker walk.
- Authentication, sessions, reauthentication and user management; web pages and SDK clients; settlement, matching, risk and archive code.
- Prices and quantities of a fill above the twenty digits of their columns make the insert fail; Postgres's other limits are not modelled.
