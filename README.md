# PLAccounting-Backend ledger core, modelled in Dafny

PLAccounting-Backend is a double-entry bookkeeping service. Its users own
**books** (one per accounting period). A book holds **account titles**,
each with a running `Amount`, an opening `AmountBase` and a `Type` whose
parity decides the sign convention. Users enter **transactions** made of
debit and credit **legs** (sub-transactions). Posting a transaction moves
the Amount of every account title a leg names, by the sign table of
`crud/transaction.go`. Updating a transaction reverses its old legs and
posts the new ones. Deleting it reverses its legs. A new book can be
carried forward from an old one, the old balances becoming the new bases.
Every HTTP handler first resolves the session user and the book, then
looks for a capability word ("read", "write", "update", "admin") in the
user's authorization row for the book.

The model has these modules:

- `Models` (models.dfy): the records of `models/book.go` as datatypes, the
  tables as one `Store` value, int64 wrap-around (`Wrap`), and the
  `ON DELETE CASCADE` foreign keys (`DropBook`, `DropTitle`).
- `Posting` (posting.dfy): the sign table, the posting loop as a function
  (`PostLegs`), and its laws. Reversal is the exact inverse of posting.
  Posting moves the parity-weighted total of a book by debits minus credits.
- `Ledger` (ledger.dfy) and `Journal` (journal.dfy): each database
  operation of `crud/transaction.go` as a function from the store before
  it to an `Outcome(store, ok)`, with the consistency of the store
  preserved and the effect on balances proved.
- `Crud` (crud.dfy): the database as a `class Database` whose table fields
  the operations update in place. The posting loops are `for` loops with
  invariants, and each method is proved to leave exactly the state its
  `Ledger`/`Journal` function describes.
- `Queries` and `Paging` (queries.dfy, paging.dfy): the lookups, the
  listing orders, the `Offset`/`Limit` window with Go's 64-bit offset
  arithmetic, and the page count of `GetBookPages`.
- `Authority` (authority.dfy): the `strings.Index` capability test and
  which words each handler requires.
- `Numbers` (numbers.dfy): `strconv.ParseUint(s, 10, 64)` and
  `strconv.Atoi` as the handlers use them on path parameters.
- `Gate` (gate.dfy): gin responses (the first status written wins) and
  the guard chain every handler runs.
- `BookEndpoints` and `TransactionEndpoints` (book_endpoints.dfy,
  transaction_endpoints.dfy): the handlers of `endpoints/book.go` and
  `endpoints/transactions.go`. The handlers that write are methods on the
  `Database`. The handlers that only read are functions of the store.

Conventions of the model:

- A database failure is a parameter, `fault: Option<nat>`. It is the index
  of the one write the database refuses in that call. Writes are numbered
  per operation, and the commit counts as a write. `None` means every
  write goes through. A refused write rolls back the unit of work.
- Generated values are parameters: the new book's UUID (`newId`) and the
  current time (`now`). Times are integers, and Go's zero time is 0 or
  `None`. The auto-increment sequences are fields of the store.
- The session is a parameter, `Login`: the user, a 401 refusal, or a 500
  refusal, as `getUserIdFromJWT` (endpoints/auth.go) decides.
- A request body that does not bind is `None`. A JSON response body is
  represented by its `message` text.
- Money is `int` kept in the int64 range by `Wrap`. A sum that overflows
  wraps around as Go's `int64` does.

## Model

| member | source | states |
|---|---|---|
| Posting.Delta | crud/transaction.go:282-295 | a debit adds to an even-Type account and subtracts from an odd-Type one; a credit does the opposite |
| Posting.PostLeg | crud/transaction.go:273-302 | one turn of the loop changes only the named title, only its Amount, by the wrapped delta |
| Posting.PostLegs | crud/transaction.go:273-303 | the loop keeps the set of titles and changes nothing but Amounts |
| Posting.AmountAfterNet | crud/transaction.go:273-303 | moving an amount leg by leg with wrap-around equals moving it once by the exact net, wrapped |
| Posting.PostLegsEffectOn | crud/transaction.go:273-303 | after posting, each title's Amount is its old Amount plus the net of the legs naming it, wrapped to int64 |
| Posting.PostLegsEffect | crud/transaction.go:273-303 | the same law for every title at once |
| Posting.PostLegsFrame | crud/transaction.go:273-303 | a title that no leg names is left exactly as it was |
| Posting.NetOnOpposite | crud/transaction.go:333-345 | the reversal table moves every account by minus the posting net |
| Posting.AmountAfterUndo | crud/transaction.go:333-345 | reversing legs after posting them restores an amount, whatever wrap-around happened |
| Posting.UndoOn | crud/transaction.go:439-451 | reversing the posted legs gives back one title exactly |
| Posting.Undo | crud/transaction.go:439-451 | reversal is the exact inverse of posting on the whole title table |
| Posting.RepostMoves | crud/transaction.go:324-404 | reversing old legs then posting new ones moves an account by new net minus old net, wrapped once |
| Posting.SamePostingsPostAlike | crud/transaction.go:273-303 | posting looks only at account, side and amount of each leg |
| Posting.WeightedDelta | crud/transaction.go:282-295 | weighted by account parity, every leg counts +amount as debit and -amount as credit |
| Posting.PostingShift | crud/transaction.go:273-303 | posting moves the parity-weighted total by debits minus credits plus a whole number of 2^64 steps |
| Posting.PostingShiftsWeightedTotal | crud/transaction.go:273-303 | posting moves the parity-weighted total by debits minus credits, modulo 2^64 |
| Posting.BalancedPostingKeepsWeightedTotal | crud/transaction.go:273-303 | a balanced entry leaves the parity-weighted total unchanged, modulo 2^64 |
| Posting.RawSumNotConserved | crud/transaction.go:282-295 | the plain sum of balances is not conserved: a balanced cash/capital entry raises it by 200 |
| Models.Attached | models/book.go:45 | stored legs carry the (BookId, TransactionId) of their transaction and keep their postings |
| Models.AttachedIdle | models/book.go:45 | legs already homed to their transaction are left as they are |
| Models.Numbered | models/book.go:52 | an insert keeps the postings and every leg submitted with an id; the legs without one take increasing ids from the auto-increment sequence, within the range drawn |
| Models.DrawnIdsDistinct | models/book.go:52 | legs all submitted without an id get pairwise distinct ids, one drawn per leg |
| Models.GivenIdsMayClash | models/book.go:52 | two legs submitted with the same id keep it, so their primary keys clash |
| Models.DropBook | models/book.go:11-14 | deleting a book removes its grants, titles, transactions and legs, and nothing of other books |
| Models.DropBookConsistent | models/book.go:11-14 | the book cascade leaves no dangling foreign key |
| Models.LegsWithout | models/book.go:35 | the surviving legs are exactly those not referencing the deleted title, and all of them when none does |
| Models.DropTitle | models/book.go:35 | deleting a title removes it alone, keeps every other title and every transaction key |
| Models.DropTitleCascade | models/book.go:35 | after the cascade no leg references the deleted title and transactions are otherwise unchanged |
| Models.DropTitleConsistent | models/book.go:35 | the title cascade keeps the store consistent |
| Ledger.CreateBook | crud/transaction.go:10-39 | succeeds exactly when the id is new, the creator has no grant row for it and all three writes go through; a failure changes nothing |
| Ledger.CreateBookGrantsCreator | crud/transaction.go:10-39 | a created book is new and its creator's grant passes every handler's check |
| Ledger.CreateBookConsistent | crud/transaction.go:10-39 | CreateBook keeps the store consistent |
| Ledger.UpdateBook | crud/transaction.go:41-50 | the stored book takes the new name unless it is empty and the new year unless it is zero; nothing else changes |
| Ledger.UpdateBookStoresSetFields | crud/transaction.go:41-50 | a book whose name and year are both set is stored exactly as given |
| Ledger.UpdateBookConsistent | crud/transaction.go:41-50 | UpdateBook keeps the store consistent |
| Ledger.DeleteBook | crud/transaction.go:52-61 | the delete succeeds unless refused and then cascades through the book's rows |
| Ledger.DeleteBookConsistent | crud/transaction.go:52-61 | DeleteBook keeps the store consistent |
| Ledger.CarriedTitle | crud/transaction.go:236-248 | the carried title keeps name and type, and its Amount and AmountBase are the old Amount |
| Ledger.Carried | crud/transaction.go:236-248 | every title of the old book is carried, in order |
| Ledger.InsertTitles | crud/transaction.go:250 | a batch insert keys row i under the next id plus i and keeps existing titles |
| Ledger.InsertedAt | crud/transaction.go:250 | row i of the batch is found under its new id |
| Ledger.CreateBookFromBook | crud/transaction.go:217-262 | succeeds exactly when the id is new, the old book has titles and the book, batch and commit go through; then the new book and the carried titles are stored, the grants never change, and a failure changes nothing |
| Ledger.CreateBookFromBookGranted | crud/transaction.go:10-39 | the carry-forward with the grant inside the unit, as CreateBook does it: succeeds exactly when the id and grant are new, the old book has titles and every write goes through; then book, grant and titles are stored |
| Ledger.CarryForward | crud/transaction.go:217-262 | every old title has a carried counterpart in the new book and existing titles keep their values |
| Ledger.CarryForwardWithoutGrant | crud/transaction.go:228-232 | the grant sent outside the unit names a book not yet committed, so its foreign key refuses it: after a carry-forward the book exists and its creator holds no grant |
| Ledger.CarryForwardGrantedGrantsCreator | crud/transaction.go:10-39 | with the grant inside the unit the creator holds the full grant on the new book |
| Ledger.CarriedIntoConsistent | crud/transaction.go:217-262 | storing a new book and its carried titles keeps the store consistent |
| Ledger.CreateBookFromBookConsistent | crud/transaction.go:217-262 | the carry-forward keeps books, grants, titles, transactions and legs consistent |
| Ledger.CreateBookFromBookGrantedConsistent | crud/transaction.go:217-262 | the carry-forward with its grant inside the unit keeps the store consistent |
| Ledger.InsertedTitlesKeyed | crud/transaction.go:250 | inserted titles sit under fresh ids below the advanced sequence, in an existing book |
| Ledger.InsertedTitlesKeepLegs | crud/transaction.go:250 | inserting titles leaves every stored leg's foreign key intact |
| Ledger.CreateAccountTitle | crud/transaction.go:103-112 | the insert succeeds exactly when the book exists and the write goes through, and takes the next id |
| Ledger.CreateAccountTitleConsistent | crud/transaction.go:103-112 | CreateAccountTitle keeps the store consistent |
| Ledger.UpdateAccountTitle | crud/transaction.go:161-170 | every column of the title matched by (id, book) is overwritten; any other title is untouched |
| Ledger.UpdateAccountTitleConsistent | crud/transaction.go:161-170 | UpdateAccountTitle keeps the store consistent |
| Ledger.DeleteAccountTitle | crud/transaction.go:151-159 | id 0 or a refused write fails with nothing changed; otherwise the title cascade runs |
| Ledger.DeleteAccountTitleUnscoped | crud/transaction.go:151-159 | the delete is matched on the id alone: a title of any book goes |
| Ledger.DeleteAccountTitleConsistent | crud/transaction.go:151-159 | DeleteAccountTitle keeps the store consistent |
| Journal.LegsInBookAfterPosting | crud/transaction.go:273-303 | posting changes amounts only, so the legs' foreign keys still hold |
| Journal.PostedConsistent | crud/transaction.go:273-303 | replacing titles by posted ones keeps a consistent store consistent |
| Journal.NewLegs | crud/transaction.go:266 | the inserted legs are homed to the new transaction and post what was submitted; legs submitted without an id are numbered |
| Journal.CreateTransaction | crud/transaction.go:264-312 | succeeds exactly when the book exists, every leg names a title of the book, the legs' primary keys differ and every write goes through; failure changes nothing |
| Journal.CreatedConsistent | crud/transaction.go:264-312 | a created transaction keeps the store consistent |
| Journal.CreateTransactionConsistent | crud/transaction.go:264-312 | CreateTransaction keeps the store consistent, whatever the fault |
| Journal.CreateTransactionMoves | crud/transaction.go:264-312 | each title keeps name, type and base and moves by the wrapped net of the legs naming it |
| Journal.CreateTransactionFrame | crud/transaction.go:264-312 | a title no leg names is unchanged |
| Journal.CreateTransactionStaysInBook | crud/transaction.go:264-312 | titles of other books are untouched |
| Journal.BalancedTransactionKeepsBookTotal | crud/transaction.go:264-312 | a balanced transaction keeps the book's parity-weighted total, modulo 2^64 |
| Journal.DeleteTransaction | crud/transaction.go:419-482 | succeeds exactly when the transaction is found, has legs whose titles exist and every write goes through; then its legs are reversed and it is gone |
| Journal.DeleteMissingFails | crud/transaction.go:423-428 | a missing transaction is an error and nothing changes |
| Journal.DeleteTransactionConsistent | crud/transaction.go:419-482 | DeleteTransaction keeps the store consistent |
| Journal.DeleteUndoesCreate | crud/transaction.go:419-482 | the delete effect restores the balances and the transaction table of before the create |
| Journal.DeleteAfterCreateRestores | crud/transaction.go:419-482 | a create followed by a delete of the same transaction restores balances, transactions and books |
| Journal.UpdateTransaction | crud/transaction.go:314-417 | fails when the transaction is not found; succeeds exactly when old legs resolve, new legs name titles of the book and every write goes through |
| Journal.UpdateAt | crud/transaction.go:324-417 | the update once the stored transaction is found, with the same success condition and effect |
| Journal.Rewritten | crud/transaction.go:372 | the stored transaction keeps its keys and creation time, takes the new description unless empty and the new time unless zero, and the new legs |
| Journal.UpdateTransactionConsistent | crud/transaction.go:314-417 | UpdateTransaction keeps the store consistent |
| Journal.UpdateTransactionMoves | crud/transaction.go:314-417 | each title moves by the net of the new legs minus the net of the old ones, wrapped |
| Journal.UpdateKeepingLegsRestoresBalances | crud/transaction.go:314-417 | an update that posts the same legs as before leaves every balance unchanged |
| Crud.Apply | crud/transaction.go:282-295 | the nested sign-table branches move the title's Amount by the posting delta, wrapped |
| Crud.ApplyIsPostLeg | crud/transaction.go:274-302 | re-reading, moving and saving a title is one step of PostLegs |
| Crud.Database.constructor | models/book.go:7-62 | a fresh database is the empty store with every sequence at 1 |
| Crud.Database.Commit | crud/transaction.go:307 | the tables take the staged state |
| Crud.Database.CreateBook | crud/transaction.go:10-39 | the new tables are Ledger.CreateBook of the old ones |
| Crud.Database.UpdateBook | crud/transaction.go:41-50 | the new tables are Ledger.UpdateBook of the old ones |
| Crud.Database.DeleteBook | crud/transaction.go:52-61 | the new tables are Ledger.DeleteBook of the old ones |
| Crud.Database.CarryTitles | crud/transaction.go:236-248 | the loop builds exactly Ledger.Carried of the old titles |
| Crud.Database.CreateBookFromBook | crud/transaction.go:217-262 | the new tables are Ledger.CreateBookFromBook of the old ones |
| Crud.Database.CreateAccountTitle | crud/transaction.go:103-112 | the new tables are Ledger.CreateAccountTitle of the old ones |
| Crud.Database.UpdateAccountTitle | crud/transaction.go:161-170 | the new tables are Ledger.UpdateAccountTitle of the old ones |
| Crud.Database.DeleteAccountTitle | crud/transaction.go:151-159 | the new tables are Ledger.DeleteAccountTitle of the old ones |
| Crud.Database.PostLoop | crud/transaction.go:273-303 | the loop succeeds exactly when every leg's title is found and every save goes through, and stages PostLegs |
| Crud.Database.StoreLegs | crud/transaction.go:355-362 | storing the new legs succeeds exactly when each names a title of the book and each write goes through |
| Crud.Database.CreateTransaction | crud/transaction.go:264-312 | the new tables and result are Journal.CreateTransaction of the old ones |
| Crud.Database.UpdateTransaction | crud/transaction.go:314-322 | the new tables and result are Journal.UpdateTransaction of the old ones |
| Crud.Database.UpdateFound | crud/transaction.go:324-417 | the new tables and result are Journal.UpdateAt of the old ones |
| Crud.Database.DeleteTransaction | crud/transaction.go:419-482 | the new tables and result are Journal.DeleteTransaction of the old ones |
| Queries.TitleIds | crud/transaction.go:125-136 | the ids of the book's titles, ascending and each a title of the book |
| Queries.TransactionIds | crud/transaction.go:496-508 | the ids of the book's transactions, ascending and each stored under the book |
| Queries.TitlesOf | crud/transaction.go:125-136 | every listed title belongs to the book |
| Queries.TransactionsOf | crud/transaction.go:496-508 | every listed transaction is stored under the book |
| Queries.TitlesOfComplete | crud/transaction.go:125-136 | in a consistent store the listing holds every title of the book |
| Queries.FindAccountTitle | crud/transaction.go:114-123 | a non-zero id finds exactly the title stored under it when it is of this book; id 0 finds a title exactly when the book has one, and in a consistent store that title is the stored one with the book's smallest id |
| Queries.FindTransactionId | crud/transaction.go:484-494 | the transaction with this id in this book; id 0 gives the book's smallest id |
| Queries.FindTransaction | crud/transaction.go:484-494 | a non-zero id finds exactly the row stored under (book, id), and nothing when there is none; id 0 finds the book's transaction with the smallest id; in a consistent store the row found belongs to the book and carries the id asked for |
| Queries.WithDebitsFirst | crud/transaction.go:499 | the preloaded legs of each transaction are ordered debits first |
| Queries.TransactionListing | crud/transaction.go:499 | the book's transactions in listing order are newest first and, in a consistent store, all of the book |
| Queries.ListTransactions | crud/transaction.go:496-508 | a page holds at most perPage transactions, all of the book in a consistent store |
| Queries.ListingNewestFirst | crud/transaction.go:496-508 | every page of the transaction listing is ordered by occurrence then creation, newest first |
| Queries.AllAccountTitles | crud/transaction.go:125-136 | the book's titles by descending id |
| Queries.AllAccountTitlesDescending | crud/transaction.go:125-136 | the title listing really is ordered by descending id |
| Queries.ListAccountTitles | crud/transaction.go:138-149 | a page holds at most perPage titles, all of the book |
| Queries.AccountTitlePagesDescending | crud/transaction.go:141 | in a consistent store every page of titles is in descending id order |
| Queries.AccountTitlePageHoldsTitle | crud/transaction.go:141 | title i of the listing is on page i / perPage, at position i % perPage, below the number of pages needed |
| Queries.BookPageCount | crud/transaction.go:75-88 | the corrected page count is the number of pages the book's transactions need |
| Queries.BookPagesCoverListing | crud/transaction.go:75-88 | with the corrected count, transaction i of the listing is on a counted page, at position i mod page size |
| Queries.ListingLength | crud/transaction.go:496-508 | the listing holds one entry per transaction of the book |
| Paging.PagesFromCount | crud/transaction.go:75-88 | the count as written adds a page exactly when one row is left over |
| Paging.BookPages | crud/transaction.go:75-88 | a failed count answers 1; otherwise the count as written |
| Paging.CeilPages | crud/transaction.go:75-88 | the least number of pages that holds every row |
| Paging.PagesFromCountIsCeilExactly | crud/transaction.go:84-87 | the count as written is right exactly when at most one row is left over |
| Paging.Window | crud/transaction.go:500 | Offset/Limit returns at most limit rows, the ones starting at the clamped offset, in order |
| Paging.PageOf | crud/transaction.go:500 | a page of perPage rows holds at most perPage of them, each a row of the listing |
| Paging.WindowHolds | crud/transaction.go:500 | position j of a window holds row offset + j |
| Paging.WindowPastEnd | crud/transaction.go:500 | a window starting past the end is empty |
| Paging.PageAt | crud/transaction.go:500 | a page whose offset fits in int64 is the window at that offset |
| Paging.PageHoldsRow | crud/transaction.go:500 | row i lies on page i / perPage at position i % perPage |
| Paging.PagesPastCeilEmpty | crud/transaction.go:500 | pages from the corrected count on are empty |
| Paging.AsWrittenPageCountHidesRows | crud/transaction.go:84-87 | 25 rows at 20 per page: the count as written says 1 page, yet page 1 holds 5 rows |
| Paging.HugePageWrapsToFirst | crud/transaction.go:500 | a page number whose offset wraps to 0 lists the first page again |
| Paging.Insert | crud/transaction.go:499 | inserting into a newest-first list keeps it newest first and a permutation |
| Paging.SortNewestFirst | crud/transaction.go:499 | the listing order is newest first and a permutation of the rows |
| Paging.WindowNewestFirst | crud/transaction.go:500 | every window of a newest-first listing is newest first |
| Paging.Debits | crud/transaction.go:499 | the filter keeps debit legs only |
| Paging.Credits | crud/transaction.go:499 | the filter keeps credit legs only |
| Paging.DebitsCreditsSplit | crud/transaction.go:499 | the debits and the credits together are, as a multiset, all the legs |
| Paging.DebitsFirst | crud/transaction.go:499 | the debits-first order is a permutation of the legs with every debit before every credit |
| Authority.IndexFrom | endpoints/book.go:92 | the search returns the first match position, or -1 when there is none |
| Authority.Index | endpoints/book.go:92 | strings.Index is -1 exactly when the word does not occur, else its first position |
| Authority.AllowsIffOccurs | endpoints/book.go:92 | the capability test passes exactly when the word occurs in the authority string |
| Authority.JoinedWordsAllowed | crud/transaction.go:23 | every word of a comma-joined grant passes the check against it |
| Authority.FullAuthorityText | crud/transaction.go:23 | the creator's grant is the text "admin,read,write,update,delete" |
| Authority.Required | endpoints/transactions.go:35 | each handler requires one of the four words read, write, update, admin |
| Authority.FullAuthorityAllowsAll | crud/transaction.go:23 | the creator's grant passes every handler's check |
| Authority.SingleWordGrants | endpoints/book.go:92 | a "read" grant admits exactly the read-only handlers; an "admin" grant exactly the admin ones |
| Authority.DeleteWordNeverRequired | endpoints/book.go:204 | no handler checks for "delete"; a grant of every word but admin admits all but the admin handlers |
| Authority.SubstringNotWord | endpoints/book.go:92 | "readonly" or "unread" pass a "read" check, since the test is on substrings |
| Numbers.Decimal | endpoints/book.go:333 | the decimal spelling of a number is a non-empty digit string |
| Numbers.DecimalValue | endpoints/book.go:333 | the digits of a decimal spelling denote its number |
| Numbers.ScanFrom | endpoints/book.go:333 | a scanned value stays below 2^64 |
| Numbers.ParseUint | endpoints/book.go:333 | the empty string and a string not starting with a digit are syntax errors; a value is below 2^64 |
| Numbers.ParseUintAccepts | endpoints/book.go:333 | ParseUint accepts exactly non-empty digit strings below 2^64, and yields their value |
| Numbers.ParseUintDecimal | endpoints/transactions.go:121 | the decimal spelling of every uint64 parses back to it |
| Numbers.AtoiDecimal | endpoints/transactions.go:237 | the decimal spelling of every int64 is read back exactly by Atoi |
| Numbers.Atoi | endpoints/transactions.go:237 | the empty string and a string starting with neither a sign nor a digit give 0; a negative result needs a leading minus |
| Numbers.AtoiRejectsToZero | endpoints/transactions.go:237 | a short page parameter with a non-digit reads as 0 |
| Numbers.AtoiClamps | endpoints/transactions.go:237 | a page number past the int64 range reads as the largest int64 |
| Gate.Write | endpoints/transactions.go:128-131 | a write appends its body; once a body has gone out the status stays the first one |
| Gate.FirstStatusWins | endpoints/transactions.go:128-150 | after any later writes the status is the first one written |
| Gate.LoginRefusal | endpoints/auth.go:247-287 | a refused session answers 401 or 500 |
| Gate.Admit | endpoints/book.go:72-96 | passes exactly when the user is known, the book exists, the grant row exists and holds the word; else the first failing step's response |
| Gate.LookupBook | crud/transaction.go:63-73 | a book is found exactly when one is stored under the id, and in a consistent store it carries that id |
| Gate.LookupGrant | crud/transaction.go:184-194 | the grant found is the (book, user) row, found exactly when it exists, and in a consistent store it names an existing book |
| Gate.RefusalsAreUnauthorized | endpoints/book.go:72-96 | every refusal is one body with 401, or 500 for a corrupt session |
| Gate.AdmitReadsTwoRows | endpoints/book.go:72-96 | the guard's verdict depends only on the book row and the grant row |
| Gate.CreatorAdmitted | crud/transaction.go:10-39 | after CreateBook its creator passes the guard of every handler on the new book |
| Gate.CarryForwardCreatorRefused | crud/transaction.go:228-232 | after a carry-forward its creator is answered 401 "No Authorization" by the guard of every handler on the new book |
| Gate.CarryForwardGrantedAdmitsCreator | crud/transaction.go:10-39 | with the grant inside the unit the creator of a carried-forward book passes every guard on it |
| Gate.ReaderAdmittedToReadsOnly | endpoints/book.go:72-96 | a "read" grant passes exactly the read-only handlers' guards |
| BookEndpoints.MergeBookSetsSupplied | endpoints/book.go:154-159 | the merge takes each supplied field and keeps the others |
| BookEndpoints.MergeAccountTitleSetsSupplied | endpoints/book.go:421-429 | the merge takes each supplied field and keeps the others |
| BookEndpoints.PatchedBookStored | endpoints/book.go:120-171 | an update that goes through stores the supplied name and year unless they are empty or zero, keeping the stored ones otherwise; other books and tables are unchanged; a failure changes nothing |
| BookEndpoints.PatchedTitleStored | endpoints/book.go:371-442 | an update that goes through stores the merged title in its book |
| BookEndpoints.CreateBook | endpoints/book.go:29-60 | bind failure 400, creation via Ledger.CreateBook, 500 on failure, 200 "Book was created" |
| BookEndpoints.GetBook | endpoints/book.go:72-102 | the guard for "read", then the book with 200 |
| BookEndpoints.UpdateBook | endpoints/book.go:120-171 | bind before guard, "update" guard, merged book stored via Ledger.UpdateBook, 500 or 200 |
| BookEndpoints.DeleteBook | endpoints/book.go:183-221 | "admin" guard, cascade delete via Ledger.DeleteBook, 500 or 200 |
| BookEndpoints.CreateAccountTitle | endpoints/book.go:240-294 | "admin" guard, bind, the title inserted in the book via Ledger.CreateAccountTitle, 500 or 200 |
| BookEndpoints.GetAccountTitle | endpoints/book.go:307-351 | "read" guard, 400 on a bad id, 404 when absent, else the title |
| BookEndpoints.UpdateAccountTitle | endpoints/book.go:371-442 | "update" guard, bind, 400 on a bad id, 400 "Invalid title id" when the title is absent, 404 when the update fails, else the merged title stored, 200 |
| BookEndpoints.DeleteAccountTitle | endpoints/book.go:455-498 | "admin" guard, 400 on a bad id, 404 when the delete fails, else 200 |
| TransactionEndpoints.StampedSetsBook | endpoints/transactions.go:55-57 | stamping sets every leg's book and keeps everything else |
| TransactionEndpoints.StampThenAttach | endpoints/transactions.go:55-57 | stamping before the insert homes the legs exactly as the insert would |
| TransactionEndpoints.StampBookId | endpoints/transactions.go:55-57 | the loop over the legs' array leaves it stamped with the book id |
| TransactionEndpoints.StampLegs | endpoints/transactions.go:140-142 | the submitted legs come back stamped with the book id |
| TransactionEndpoints.MergeTransactionSetsSupplied | endpoints/transactions.go:133-144 | the merge takes each supplied field, stamps supplied legs, keeps the rest |
| TransactionEndpoints.FailedLookupUpdatesNothing | endpoints/transactions.go:128-131 | after a failed lookup the zero record's update changes nothing, and the response keeps 400 with both bodies |
| TransactionEndpoints.CreateTransaction | endpoints/transactions.go:14-78 | "write" guard, bind, stamped legs posted via Journal.CreateTransaction, 500 or 200 |
| TransactionEndpoints.UpdateTransaction | endpoints/transactions.go:80-158 | "update" guard, bind, a failed lookup writes 400 and goes on, merged record updated via Journal.UpdateTransaction |
| TransactionEndpoints.GetTransaction | endpoints/transactions.go:160-206 | "read" guard, 400 on a bad id, 404 when absent, else the transaction |
| TransactionEndpoints.ListTransactions | endpoints/transactions.go:208-252 | "read" guard, then at most 20 transactions: the page the parameter names of the book's listing |
| TransactionEndpoints.ListingStartsAtFirstPage | endpoints/transactions.go:235-240 | a missing or non-numeric page parameter lists the first page |
| TransactionEndpoints.DeleteTransaction | endpoints/transactions.go:254-299 | "admin" guard, 400 on a bad id, 404 when the delete fails, else 200 |

## Left out

- Journal.UpdateTransaction: the stored legs of the transaction are modelled as replaced by the submitted legs, and those are what is posted. In the source each submitted leg is written with GORM `Updates`, the record with its associations, and the legs then re-read from the table are posted. A stored leg the request does not carry again would stay in the table and be posted again. The model does not capture such leftover legs. The submitted legs are stored as attached only: a leg sent without an id keeps id 0 and the leg sequence does not move, where the association save would draw an id, and two new legs with the same given id are not refused.
- Crud.Database.StoreLegs: GORM `Updates` skips zero-valued fields; the model stores each submitted leg whole.
- TransactionEndpoints.UpdateTransaction: after a failed lookup the source updates Go's zero record, whose conditions GORM drops, so the lookup inside the update could match the first transaction of any book. The model looks the zero record up under book "" and finds nothing; the response is 400 either way.
- Ledger.Carried: the fetch of the old book's titles has no ORDER BY; the model takes it to return them by ascending id, so the carried titles take their new ids in that order.
- Ledger.CreateBookFromBook: the grant is modelled as always refused, because PostgreSQL checks its foreign key from a connection that cannot see the uncommitted book; a database that let it through would leave the grant behind even when the carry-forward rolls back.
- The request structs of endpoints/transactions.go spell the field `OccuredAt`; models/book.go declares `OccurredAt`. The model treats them as the same field.
- Auto-increment sequences go back when a unit of work rolls back. PostgreSQL would keep the ids it handed out; only the values of later ids differ.
- An empty book id in the path, and read errors of the database other than the page count's (for the listings), are not modelled.
- `binding:"required"` is approximated by the binds predicates: non-empty strings and a non-zero year; the JSON decoder itself is not modelled.
- Year and Type are unbounded naturals; their `uint` width is not modelled.
- Concurrency between requests is not modelled; each handler runs alone against the store.
- The session check (JWT and Redis in endpoints/auth.go and utils/token.go) is the `Login` parameter; it is not part of this model.
- GetSubTransactionsFromAccountTitle, GetAllBooks and the authorization-management functions of crud/transaction.go (Create/Get/Update/DeleteBookAuthorization beyond their use by the guard and CreateBook) are not part of this model; nor are endpoints/rest.go, crud/crud.go, crud/auth.go, models/user.go, utils and main.go.
- Response bodies are represented by their message text; the JSON encoding of the records is not modelled.

## Findings

| source | as written | input that shows it | evidently intended | confidence | as-written member | corrected member |
|---|---|---|---|---|---|---|
| crud/transaction.go:228-232 | the creator's grant is inserted through the outer connection, outside the unit that has not yet committed the new book, and its error is dropped | any carry-forward that goes through: the grant's foreign key refuses the row, and the creator is answered 401 "No Authorization" on the book they just made | insert the grant inside the unit, as CreateBook does | not executed | Gate.CarryForwardCreatorRefused | Gate.CarryForwardGrantedAdmitsCreator |
| crud/transaction.go:84-87 | the page count adds a page only when `count % dataPerPages == 1` | 25 transactions at 20 per page: 1 page reported, while page 1 holds 5 | round up: one more page whenever the remainder is non-zero | not executed | Paging.AsWrittenPageCountHidesRows | Paging.PagesPastCeilEmpty |
