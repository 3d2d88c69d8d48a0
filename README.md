# Wallet app: a verified model of the ledger and the transaction views

This project is a Dafny model of the wallet ledger behind the Wallet app's
Express/Mongoose backend. It also models the pure logic of the React
transaction views.

## Backend

The backend stores users, one wallet per user, and transaction records. It
serves these requests:

- deposit;
- withdraw;
- transfer;
- the paged history;
- the per-type summary;
- the currency update;
- the test routes that create users and post raw transactions.

Money is held in whole cents. The backend is modelled in two layers.

- **`Ledger` (values).** Each request handler is a function
  `XStep(db, …) : Step<T>` from the database before the request to the HTTP
  reply and the database after it. The write order is explicit and not
  atomic:
  - first the records are created;
  - then a transfer's link is back-filled;
  - then each wallet document is moved and saved.

  Lemmas `XReply` state each handler's refusals (status, reason, "nothing
  written"), its success condition as an if-and-only-if, and exactly what a
  success writes. Lemmas `XKeepsInv` show that every handler preserves the
  store invariant `Inv`:
  - wallets belong to existing users and are never negative;
  - emails are unique;
  - records are schema-valid and point at existing users;
  - every link joins two records that name each other as the two halves of
    one transfer: the same amount, opposite types, each naming the other's
    owner. A transfer record may carry no link at all: the test route
    stores one, and so does a transfer whose second create fails.
- **`Handlers` (imperative).** `Store` is a class over mutable `users`,
  `wallets` and `txs` fields. `WalletDoc` is a loaded wallet document whose
  `UpdateBalance` moves the document and saves it. Each request is a method
  that works step by step: loaded documents, `Transaction.create`, the
  back-fill, `updateBalance`. Each method is proved to leave exactly the
  `Step` of its `Ledger` function and to keep `Valid()`.

Supporting modules:

- `Money`: 2-decimal rounding.
- `Constants`: the enums.
- `Wallets`: the wallet record.
- `TransactionModel`: the transaction schema and `Transaction.create`.
- `Queries`: the history filter, skip/limit and page count, and the
  `$group` plus `forEach` of the summary.
- `Text`: lower/upper case, trim, `||` on strings, number rendering.

## Frontend

- `Filters`: the filter record and the spreading of a patch over it.
- `FilterBar`: the filter bar's controls, active test and tags.
- `TransactionList`: the search, type and category filter; the sort
  comparator; selection; the empty state. Its `ListView` class holds the
  component's state.
- `TransactionItem`: icon, colour, label, sign and the relative-date
  buckets.
- `TransferWizard`: the three-step transfer page as a `Wizard` class.

`SelfTransfer` works through the concrete case of the finding below.

## Model

| member | source | states |
|---|---|---|
| Money.RoundToCents | backend/src/models/Wallet.js:15-16 | `Math.round(v*100)/100` on a value `num/den`: the result `c` is the whole number of cents nearest the value, halves rounding up (`c - 1/2 <= 100*num/den < c + 1/2`) |
| Money.ExactCentsUnchanged | backend/src/models/Wallet.js:15-16 | on a balance already held in whole cents the rounding setter and getter change nothing |
| Money.RoundIdempotent | backend/src/models/Wallet.js:15-16 | rounding a rounded balance again changes nothing |
| Money.RoundExample | backend/src/models/Transaction.js:28-29 | 19.999 is stored as 20.00 |
| Constants.ParseType | backend/src/utils/constants.js:3-8 | reading a type name: any type it yields is named exactly by the input |
| Constants.TypeNameRoundTrip | backend/src/utils/constants.js:3-8 | each of the four type names reads back as its type |
| Constants.ParseTypeRejects | backend/src/models/Transaction.js:19-23 | a string is refused as a type exactly when it is none of the four enum names |
| Text.ToLower | backend/src/controllers/transactionController.js:157 | `toLowerCase` on ASCII letters: same number of characters, each upper-case ASCII letter replaced by its lower-case letter and every other character kept |
| Text.ToLowerIdempotent | frontend/src/components/Transactions/TransactionItem.jsx:20-21 | lower-casing twice is lower-casing once |
| Text.ToUpper | backend/src/controllers/walletController.js:55 | `toUpperCase` on ASCII letters: same number of characters, each lower-case ASCII letter replaced by its upper-case letter and every other character kept |
| Text.ToUpperIdempotent | backend/src/models/Wallet.js:18-22 | the schema's `uppercase` on an upper-cased code changes nothing |
| Text.Trim | backend/src/models/Transaction.js:31-35 | `trim`: no white space at either end, never longer than the input |
| Text.TrimRemovesOnlyEnds | backend/src/models/Transaction.js:31-35 | the trimmed text is the slice of the input between its leading and its trailing white space, and everything cut off is white space |
| Text.TrimIdempotent | backend/src/models/Transaction.js:31-35 | trimming a trimmed description changes nothing |
| Text.OrDefault | backend/src/controllers/transactionController.js:40 | `description \|\| fallback`: a non-empty text is kept as it is, an empty one is replaced by the fallback, and the result is empty only when both are |
| Text.CentsToString | frontend/src/components/Transactions/TransactionList.jsx:63 | `amount.toString()` of an amount in cents: never empty, and it starts with `-` exactly when the amount is negative |
| Text.CentsToStringRoundTrip | frontend/src/components/Transactions/TransactionItem.jsx:190 | the text of a non-negative amount reads back (digits, an optional point and one or two digits) as exactly that amount, and a text with a point never ends in 0 |
| Text.NatToStringRoundTrip | frontend/src/components/Transactions/TransactionList.jsx:63 | the decimal rendering of a number reads back as that number |
| Text.IntToString | frontend/src/components/Transactions/TransactionItem.jsx:81-85 | the rendering of a count begins with '-' exactly when the count is negative |
| Wallets.NewWallet | backend/src/models/Wallet.js:11-30 | a new wallet belongs to its user and holds the starting balance of 1000.00, in USD, active |
| TransactionModel.Violations | backend/src/models/Transaction.js:19-35 | one violation per failed validator: the type outside the enum, an amount below 0.01, a trimmed description over 200 UTF-16 code units (Mongoose's `maxlength` counts `length`), each if and only if |
| Text.Utf16LengthBounds | backend/src/models/Transaction.js:33 | JavaScript's `length` counts one or two UTF-16 code units per character, and exactly one per character when no character lies outside the Basic Multilingual Plane |
| TransactionModel.Create | backend/src/models/Transaction.js:8-64 | `Transaction.create` fails exactly when some validator fails, with all of them; otherwise it stores the parsed type, the trimmed description, category defaulting to other, status defaulting to completed, the other fields as given and `createdAt` stamped, and the result is well-formed |
| Ledger.FindByEmail | backend/src/controllers/transactionController.js:157 | `User.findOne({ email })`: the first user with exactly that email, or none exactly when no user has it |
| Ledger.FindStoredEmail | backend/src/routes/test.js:14-20 | with unique emails, a user's own stored email finds that user |
| Ledger.PostKeepsInv | backend/src/controllers/transactionController.js:35-47 | creating a record and then moving and saving the owner's wallet keeps the store invariant |
| Ledger.DepositReply | backend/src/controllers/transactionController.js:9-63 | a missing or non-positive amount gives 400 and a missing wallet 404, both before any write; a deposit completes exactly when the amount is positive, the wallet exists and the description fits; it appends one deposit/income/completed record with `balanceAfter` B+a and leaves the caller's wallet, and only it, at B+a |
| Ledger.DepositKeepsInv | backend/src/controllers/transactionController.js:9-63 | a deposit keeps the store invariant |
| Ledger.WithdrawReply | backend/src/controllers/transactionController.js:68-130 | as the deposit, and a balance below the amount gives 400 "Insufficient funds" with nothing written, while a balance equal to it is accepted; a completed withdrawal appends one withdrawal/expense record with `balanceAfter` B−a and leaves the wallet at B−a, never negative |
| Ledger.WithdrawKeepsInv | backend/src/controllers/transactionController.js:68-130 | a withdrawal keeps the store invariant |
| Ledger.TestTransactionReply | backend/src/routes/test.js:82-145 | an unknown user or a missing wallet gives 404, an uncovered withdrawal 400; errors are only 400 or 404; a request completes exactly when the user and wallet exist, a withdrawal is covered, the schema accepts the record and the moved balance is not negative; a completed request appends one record of the parsed type (category other, status completed) and moves the wallet by +a for a deposit and −a for every other type, while a transfer-type record's `balanceAfter` keeps the old balance; when the wallet save is refused the record stays and the wallet does not change |
| Ledger.TestTransactionKeepsInv | backend/src/routes/test.js:82-145 | the test route keeps the store invariant |
| Ledger.RecordsWritten | backend/src/controllers/transactionController.js:196-224 | both transfer records are written exactly when both descriptions fit: a transfer_out on the sender naming the recipient and a transfer_in on the recipient naming the sender, each linked to the other; otherwise at most the unlinked transfer_out is left |
| Ledger.RecordsKeepInv | backend/src/controllers/transactionController.js:196-224 | the transfer's record writes keep records valid and links paired |
| Ledger.ExecuteReply | backend/src/controllers/transactionController.js:166-247 | a missing sender or recipient wallet gives 404 and insufficient funds 400, all before any write; once the recipient is known, the transfer completes exactly when both wallets exist, the balance covers the amount and the descriptions fit, and then writes exactly the two linked records, the debit and the credit |
| Ledger.ExecuteKeepsInv | backend/src/controllers/transactionController.js:166-247 | the transfer's writes keep the store invariant |
| Ledger.TransferReply | backend/src/controllers/transactionController.js:135-248 | a missing email or a non-positive amount gives 400; an email byte-equal to the caller's gives 400; an unknown lower-cased email gives 404; every refusal changes no wallet; the completion condition as an if-and-only-if, with the recipient found by the lower-cased email |
| Ledger.TransferKeepsInv | backend/src/controllers/transactionController.js:135-248 | a transfer keeps the store invariant |
| Ledger.TransferConserves | backend/src/controllers/transactionController.js:192-228 | between two different users a completed transfer debits the sender by a, credits the recipient by a, conserves their sum, changes no other wallet and writes two linked records |
| Ledger.SelfTransferCredits | backend/src/controllers/transactionController.js:175-228 | when the recipient resolves to the caller, both wallet documents are copies of one wallet, so the credit overwrites the debit: the balance ends at B+a under a transfer_out of a |
| Ledger.CaseVariantSelfTransfer | backend/src/controllers/transactionController.js:149-157 | any case variant of the caller's own email passes the self-transfer guard, completes as a transfer to the caller and raises the balance by the amount |
| Ledger.TransferCheckedConserves | backend/src/controllers/transactionController.js:149-228 | with the recipient compared after the lookup, a recipient resolving to the caller is refused with 400 and nothing written, and every completed transfer is between two users and conserves their balances |
| Ledger.TransferCheckedKeepsInv | backend/src/controllers/transactionController.js:135-248 | the corrected transfer keeps the store invariant |
| Ledger.CreateUserReply | backend/src/routes/test.js:9-43 | an email already stored gives 400 and writes nothing; otherwise the user gets the next id and exactly one wallet holding the starting balance; no record is written |
| Ledger.CreateUserKeepsInv | backend/src/routes/test.js:9-43 | creating a user keeps the store invariant, one wallet per user included |
| Ledger.UpdateCurrencyReply | backend/src/controllers/walletController.js:35-69 | a code whose `length` (in UTF-16 code units) is not 3 gives 400 before any lookup, a missing wallet 404; otherwise only the caller's currency changes, to the upper-cased code, and repeating the update changes nothing more |
| Ledger.AstralCurrencyRefused | backend/src/controllers/walletController.js:40-45 | the code "𝔘SD" (three characters, four UTF-16 code units) is refused with 400 and nothing is written |
| Ledger.UpdateCurrencyKeepsInv | backend/src/controllers/walletController.js:35-69 | a currency update keeps the store invariant |
| Handlers.WalletDoc.UpdateBalance | backend/src/models/Wallet.js:38-42 | the document's balance moves by the amount and `lastTransaction` is stamped, with no sufficiency check; the save goes through exactly when the new balance is not negative, and then files the document under its user |
| Handlers.Store.SaveWallet | backend/src/models/Wallet.js:14 | a wallet is saved exactly when its balance is not negative, and nothing else changes |
| Handlers.Store.CreateRecord | backend/src/models/Transaction.js:8-64 | `Transaction.create` appends the created record and returns its id, or writes nothing and returns the violations |
| Handlers.Store.PostRecord | backend/src/controllers/transactionController.js:35-47 | creating the record and then `updateBalance` leave exactly the posting of the value model |
| Handlers.Store.LinkRecord | backend/src/controllers/transactionController.js:223-224 | the back-fill sets one record's `relatedTransaction` and changes nothing else |
| Handlers.Store.CreateUser | backend/src/routes/test.js:9-43 | the store and reply of `CreateUserStep`, keeping `Valid()` |
| Handlers.Store.MyWallet | backend/src/controllers/walletController.js:6-30 | 200 with the caller's wallet exactly when it exists, otherwise 404 "Wallet not found" |
| Handlers.Store.Deposit | backend/src/controllers/transactionController.js:9-63 | the store and reply of `DepositStep`, keeping `Valid()` |
| Handlers.Store.Withdraw | backend/src/controllers/transactionController.js:68-130 | the store and reply of `WithdrawStep`, keeping `Valid()` |
| Handlers.Store.RecordTransfer | backend/src/controllers/transactionController.js:196-224 | the record writes of a transfer, step by step, equal `RecordsOf`; users and wallets are unchanged |
| Handlers.Store.SettleTransfer | backend/src/controllers/transactionController.js:227-228 | the sender document is debited and saved, then the recipient document is credited and saved; the second save goes through exactly when the credited balance is allowed |
| Handlers.Store.ExecuteTransfer | backend/src/controllers/transactionController.js:166-247 | the store and reply of `ExecuteStep` |
| Handlers.Store.Transfer | backend/src/controllers/transactionController.js:135-248 | the store and reply of `TransferStep`, as written, keeping `Valid()` |
| Handlers.Store.TransferChecked | backend/src/controllers/transactionController.js:149-157 | the store and reply of the corrected `TransferCheckedStep`, keeping `Valid()` |
| Handlers.Store.CreateTestTransaction | backend/src/routes/test.js:82-145 | the store and reply of `TestTransactionStep`, keeping `Valid()` |
| Handlers.Store.UpdateCurrency | backend/src/controllers/walletController.js:35-69 | the store and reply of `UpdateCurrencyStep`, keeping `Valid()` |
| Handlers.Store.History | backend/src/controllers/transactionController.js:253-318 | only the caller's records matching the type and date filters, in descending creation time, from offset (page−1)·limit and at most \|limit\| of them (page 1 and limit 10 by default); `total` is the unpaged count, `pages` its page count, the balance 0 without a wallet; a negative offset gives 500 |
| Handlers.Store.Summary | backend/src/controllers/transactionController.js:323-388 | deposits and withdrawals report their type's count and summed amount, and transfers the counts and sums of transfer_in and transfer_out added together; the balance is 0 without a wallet |
| Queries.BuildQuery | backend/src/controllers/transactionController.js:264-281 | the type filter is set exactly when the parameter names one of the four types, and then it is that type; the date bounds are as given |
| Queries.Matching | backend/src/controllers/transactionController.js:287 | `find(query)`: exactly the matching records of the store, no more of them than stored |
| Queries.MatchingCounts | backend/src/controllers/transactionController.js:287 | each matching record is kept as many times as it is stored, and every other record is dropped |
| Queries.InsertNewest | backend/src/controllers/transactionController.js:288 | one step of the sort: the listing grows by exactly one record |
| Queries.InsertNewestPermutes | backend/src/controllers/transactionController.js:288 | the records after an insertion are those of the listing plus the inserted one |
| Queries.InsertNewestKeepsOrder | backend/src/controllers/transactionController.js:288 | inserting into a listing sorted by descending creation time keeps it sorted |
| Queries.SortNewest | backend/src/controllers/transactionController.js:288 | `sort({ createdAt: -1 })`: as many records as its input, in descending creation time |
| Queries.SortNewestPermutes | backend/src/controllers/transactionController.js:288 | the sort is a permutation: the same multiset of records as its input |
| Queries.NewestFirst | backend/src/controllers/transactionController.js:287-288 | `find(query).sort({ createdAt: -1 })`: exactly the matching records, in descending creation time, no more of them than stored |
| Queries.NewestFirstCounts | backend/src/controllers/transactionController.js:287-288 | the listing holds each matching record as many times as the store does, and no other record |
| Queries.ListingPage | backend/src/controllers/transactionController.js:287-290 | a page of the listing is a run of consecutive positions of it, holds only matching records, and is in descending creation time |
| Queries.Window | backend/src/controllers/transactionController.js:284-290 | `.skip(s).limit(l)`: the records from position s on, at most \|l\| of them, all of them for limit 0 |
| Queries.SecondPageOfTen | backend/src/controllers/transactionController.js:284-290 | page 2 of 10 holds the 11th to the 20th matching records |
| Queries.PageCount | backend/src/controllers/transactionController.js:307 | `Math.ceil(total / limit)`: the least number of full pages covering the total; no finite value for limit 0 |
| Queries.Selected | backend/src/controllers/transactionController.js:329-344 | the `$match` stage: exactly the caller's records within the date range |
| Queries.SelectedCounts | backend/src/controllers/transactionController.js:329-344 | the `$match` stage keeps each of the caller's records in the range as many times as it is stored, and no other record |
| Queries.FormatSummary | backend/src/controllers/transactionController.js:355-370 | the `forEach` over the groups: deposits and withdrawals take the last group of their type (zero if none), transfers add up every transfer_in and transfer_out group |
| Queries.AggregateIsGrouping | backend/src/controllers/transactionController.js:343-352 | the `$group` stage yields distinct types, each with its positive count and summed amount, and a group for every type present |
| Queries.GroupingBuckets | backend/src/controllers/transactionController.js:343-370 | whatever order the groups come in, the last group of a type and the total of its groups are both that type's count and sum |
| Queries.SummaryOfGrouping | backend/src/controllers/transactionController.js:355-370 | the summary of any grouping: deposits and withdrawals are their type's bucket; transfers are the gross sum of both transfer buckets, not the net |
| Filters.MergeOverridesOnlySupplied | frontend/src/components/Transactions/TransactionList.jsx:28-32 | `handleFilterChange`: each key the patch supplies takes its value and every other key is unchanged |
| Filters.MergeNeutralAndIdempotent | frontend/src/components/Transactions/TransactionList.jsx:28-32 | the empty patch changes nothing, and applying a patch twice is applying it once |
| Filters.MergeThen | frontend/src/components/Transactions/TransactionList.jsx:28-32 | two successive filter changes equal one change by the combined patch, with the later keys winning |
| FilterBar.ToggledOrder | frontend/src/components/Transactions/FilterBar.jsx:169-171 | the sort-order button always yields 'asc' or 'desc' |
| FilterBar.ToggleTwice | frontend/src/components/Transactions/FilterBar.jsx:169-171 | a press always changes the order, and two presses return to the start exactly when it was 'asc' or 'desc' |
| FilterBar.InactiveExactlyAtDefaults | frontend/src/components/Transactions/FilterBar.jsx:51-57 | no filter is active exactly at type, date range and category 'all', sort by 'date' and order 'desc' |
| FilterBar.ClearAllResets | frontend/src/components/Transactions/FilterBar.jsx:41-49 | "Clear All" emits the default record, after which no filter is active |
| FilterBar.RemoveTagResetsOwnKey | frontend/src/components/Transactions/FilterBar.jsx:185-216 | a tag's remove button resets only its own key to 'all', after which that tag is hidden |
| FilterBar.TagsOnlyWhenActive | frontend/src/components/Transactions/FilterBar.jsx:181-216 | a type, category or date tag is shown only while some filter is active |
| FilterBar.EmitKeepsSortKeys | frontend/src/components/Transactions/FilterBar.jsx:94-171 | every control the bar offers keeps the sort key among the sort menu's values and the order 'asc' or 'desc' |
| TransactionList.Filtered | frontend/src/components/Transactions/TransactionList.jsx:57-79 | an order-preserving subsequence of the list, never longer, holding exactly the records that pass the search, type and category tests |
| TransactionList.FilteredCounts | frontend/src/components/Transactions/TransactionList.jsx:57-79 | every record that passes is kept with all its copies, and every other record is dropped |
| TransactionList.NoFilterKeepsAll | frontend/src/components/Transactions/TransactionList.jsx:59-76 | with no query and type and category 'all', every record is kept in order |
| TransactionList.LexCompare | frontend/src/components/Transactions/TransactionList.jsx:91 | the category comparison yields −1, 0 or 1, and 0 exactly for equal strings |
| TransactionList.LexCompareFlip | frontend/src/components/Transactions/TransactionList.jsx:91 | swapping the categories negates their comparison |
| TransactionList.CompareFlip | frontend/src/components/Transactions/TransactionList.jsx:82-95 | the comparator is antisymmetric, so a sort by it is well defined |
| TransactionList.Insert | frontend/src/components/Transactions/TransactionList.jsx:82-95 | inserting one record: the same records plus it, and a sorted list stays sorted |
| TransactionList.SortItems | frontend/src/components/Transactions/TransactionList.jsx:82-95 | the sorted copy is a permutation of the filtered list, in the comparator's order |
| TransactionList.SortedOrderUnderLabels | frontend/src/components/Transactions/TransactionList.jsx:83-91 | under 'desc', neighbours go in ascending date and amount and reverse alphabetical category; under any other order, the other way round |
| TransactionList.Without | frontend/src/components/Transactions/TransactionList.jsx:50-51 | `filter(x => x !== id)`: exactly the other selected ids, no longer than the selection, and the selection itself when the id was absent |
| TransactionList.WithoutCounts | frontend/src/components/Transactions/TransactionList.jsx:50-51 | every occurrence of the id is removed and every other selected id kept as many times as before |
| TransactionList.WithoutAppended | frontend/src/components/Transactions/TransactionList.jsx:48-54 | removing an id just appended to a selection without it restores that selection |
| TransactionList.ToggleTwice | frontend/src/components/Transactions/TransactionList.jsx:48-54 | a toggle flips the id's membership and keeps every other id's; toggling twice restores the selected set, and the selection itself when the id was not selected |
| TransactionList.Ids | frontend/src/components/Transactions/TransactionList.jsx:44 | `map(t => t.id)`: one id per record, in order |
| TransactionList.SelectAllTwice | frontend/src/components/Transactions/TransactionList.jsx:40-46 | "select all" clears the selection when its size equals the list's, otherwise it selects every record, and a second press then clears it |
| TransactionList.EmptyStateAlwaysOffersClear | frontend/src/components/Transactions/TransactionList.jsx:220-234 | while the sort keys come from their menus, the empty state's offer test holds, even right after its own clear, because sortBy and sortOrder are never 'all' |
| TransactionList.ListView.constructor | frontend/src/components/Transactions/TransactionList.jsx:17-26 | the list starts with an empty query and selection and the default filters |
| TransactionList.ListView.Shown | frontend/src/components/Transactions/TransactionList.jsx:57-95 | the records shown are a sorted permutation of the filtered records, never more than the list holds |
| TransactionList.ListView.HandleFilterChange | frontend/src/components/Transactions/TransactionList.jsx:28-32 | the filters become the patch spread over them; query and selection are unchanged |
| TransactionList.ListView.UseFilterBar | frontend/src/components/Transactions/FilterBar.jsx:41-216 | a filter-bar control applies its patch and keeps the sort keys valid |
| TransactionList.ListView.HandleSearch | frontend/src/components/Transactions/TransactionList.jsx:34-38 | only the query changes |
| TransactionList.ListView.HandleSelectAll | frontend/src/components/Transactions/TransactionList.jsx:40-46 | only the selection changes, by the select-all rule |
| TransactionList.ListView.HandleSelectTransaction | frontend/src/components/Transactions/TransactionList.jsx:48-54 | only the selection changes, by the toggle |
| TransactionList.ListView.ClearFromEmptyState | frontend/src/components/Transactions/TransactionList.jsx:224-233 | the query is emptied and type, date range and category reset; the offer stays |
| TransactionItem.IconIgnoresCase | frontend/src/components/Transactions/TransactionItem.jsx:20-45 | the icon depends on the category only up to letter case |
| TransactionItem.LedgerCategoriesIcon | frontend/src/components/Transactions/TransactionItem.jsx:20-45 | each category the ledger stores falls through to the TrendingUp icon |
| TransactionItem.LedgerTypesDisplay | frontend/src/components/Transactions/TransactionItem.jsx:47-70 | a ledger type is positive exactly for deposit and transfer_in and is then emerald, otherwise red; distinct types have distinct labels; any other type is labelled with itself and drawn gold or gray |
| TransactionItem.AmountSignFollowsType | frontend/src/components/Transactions/TransactionItem.jsx:96 | the shown amount starts with '+' exactly for a positive type and shows the magnitude, whatever the amount's sign |
| TransactionItem.FormatDateBuckets | frontend/src/components/Transactions/TransactionItem.jsx:72-92 | the gap falls in exactly one bucket: under 1 h, 1 h to 1 d, 1 d to 7 d, or 7 d on; each count is the floor of the gap in its unit (minutes under 60, hours 1–23, days 1–6) |
| TransactionItem.PluralOnlyAboveOne | frontend/src/components/Transactions/TransactionItem.jsx:80-86 | "hour" and "day" take an 's' exactly when the count exceeds 1, and minutes never do; only the calendar bucket has no relative text |
| TransferWizard.WithFieldChangesOnlyThatField | frontend/src/pages/Transfer.jsx:19-24 | the named field takes the value and the other fields keep theirs |
| TransferWizard.ProgressShowsStep | frontend/src/pages/Transfer.jsx:65-76 | circle n is lit exactly when step ≥ n, and a connector exactly when the circle after it is |
| TransferWizard.Wizard.constructor | frontend/src/pages/Transfer.jsx:5-10 | the wizard starts at step 1 with all three fields empty |
| TransferWizard.Wizard.HandleChange | frontend/src/pages/Transfer.jsx:19-24 | only the named field changes, and the step stays 1 |
| TransferWizard.Wizard.HandleContactSelect | frontend/src/pages/Transfer.jsx:26-31 | only the recipient changes |
| TransferWizard.Wizard.HandleSubmit | frontend/src/pages/Transfer.jsx:33-40 | an alert and no move exactly when recipient or amount is empty, otherwise on to step 2; the form is kept |
| TransferWizard.Wizard.Back | frontend/src/pages/Transfer.jsx:232 | from review back to step 1 with the form kept |
| TransferWizard.Wizard.HandleConfirm | frontend/src/pages/Transfer.jsx:42-46 | from review to step 3 with the form kept |
| TransferWizard.Wizard.HandleNewTransfer | frontend/src/pages/Transfer.jsx:48-51 | all fields cleared and back to step 1 |
| SelfTransfer.SelfTransferInflates | backend/src/controllers/transactionController.js:149-157 | a user holding 1000.00 under `ann@x.io` who sends 50.00 to `Ann@x.io` ends with 1050.00 |
| SelfTransfer.SelfTransferRefused | backend/src/controllers/transactionController.js:149-157 | with the corrected guard the same request gives 400 and writes nothing |

## Left out

- Persistence: Mongoose queries, `populate`, indexes and document ids become in-memory sequences and maps. Users and records are numbered by position.
- Authentication, sessions, password hashing and the HTTP/validation wiring are not modelled. The caller is a user id given as a parameter.
- Concurrency and crash windows between the writes are not modelled. Each handler runs to completion, in the order of its writes.
- Clocks are parameters (`now`). Dates are integer millisecond timestamps, so date-string parsing and `toLocaleDateString` are left out. The calendar bucket of `formatDate` has no text.
- Floating-point money is left out: amounts and balances are integer cents, so the rounding setters act as the identity (`Money.ExactCentsUnchanged`).
- `toLocaleString` digit grouping of the shown amount is left out: `TransactionItem.AmountText` renders plain decimal dollars.
- Query strings are taken as already parsed: `page` and `limit` are integers, and `parseInt` of non-numeric text (NaN) is not modelled.
- The history's `pages` is computed with the numeric limit; JavaScript's coercion of the limit string is the same for numeric strings.
- Queries.Aggregate: the database does not specify the order of `$group` output. The model fixes the order of the type enum, and `Queries.SummaryOfGrouping` covers every order.
- Queries.FormatSummary: `formattedSummary.deposits = item` also copies the group's `_id`; the bucket keeps only count and total.
- Queries.SortNewest: the database leaves the order of records with equal creation times unspecified. The model's insertion sort puts a later-stored record first among equal times; the contracts state only the descending order and the permutation.
- Text.ToLower / Text.ToUpper: case mapping covers ASCII letters only. Other letters are kept unchanged, so the result always has as many characters as the input, and multi-character mappings such as ß to SS are not modelled.
- TransactionList.LexCompare: `localeCompare` is modelled as comparison by character code. Locale collation and the NaN of a missing category are left out.
- TransactionList.Item: every record has a category; the optional chaining on a missing category is not modelled.
- TransactionList.SortItems: the result is stated as a sorted permutation. The stability and the exact algorithm of `Array.prototype.sort` are left out.
- TransferWizard.Wizard.HandleConfirm: the 1.5-second `setTimeout` is taken as an immediate step.
- The currency update's save cannot fail in the model: the wallet is already valid. The 500 catch-all of each handler is modelled only where a schema check can refuse a write.
- The user schema is not part of this model. Emails are compared exactly as stored, and stored emails are taken as given by `/create-user`, which does not lower-case them.

## Findings

| source | as written | input that shows it | evidently intended | confidence | as-written member | corrected member |
|---|---|---|---|---|---|---|
| backend/src/controllers/transactionController.js:149-157 | The self-transfer guard compares the email exactly as typed, but the recipient is looked up by the lower-cased email. A case variant of the caller's own email passes the guard and resolves to the caller. Both wallet documents are then copies of the caller's wallet, and the credit's save overwrites the debit's. | A user stored as `ann@x.io` with 1000.00 sends 50.00 to `Ann@x.io`: the transfer completes and the balance becomes 1050.00 | A recipient who is the caller is refused with 400 and nothing is written, so every transfer conserves money | high (proved; not executed) | Ledger.CaseVariantSelfTransfer | Ledger.TransferCheckedConserves |
