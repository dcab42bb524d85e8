/**
 * The records of models/book.go, the tables they are stored in, and the
 * relations between them: composite keys, the cascades on delete, and the
 * signed 64-bit arithmetic of the balance columns.
 */
module Models {

  datatype Option<+T> = None | Some(value: T) {
    function GetOr(default: T): T {
      match this
      case Some(v) => v
      case None => default
    }
  }

  // ---------------------------------------------------------------------
  // Go's int64
  // ---------------------------------------------------------------------

  const TwoTo64: int := 0x1_0000_0000_0000_0000
  const MinInt64: int := -0x8000_0000_0000_0000
  const MaxInt64: int := 0x7fff_ffff_ffff_ffff

  /** The range of Go's int64 (Amount of AccountTitle and SubTransaction). */
  type Int64 = x: int | MinInt64 <= x <= MaxInt64

  /** How many times x lies outside the int64 range, counted in steps of 2^64. */
  function Wraps(x: int): int {
    (x - MinInt64) / TwoTo64
  }

  /**
   * Two's-complement wrap-around: the int64 that Go's `+=` and `-=` leave
   * behind when the exact result is x.
   */
  function Wrap(x: int): Int64 {
    (x - MinInt64) % TwoTo64 + MinInt64
  }

  /** A result that fits in int64 is left as it is. */
  lemma {:induction false} WrapInRange(x: int)
    requires MinInt64 <= x <= MaxInt64
    ensures Wrap(x) == x
  {
  }

  /** Wrap takes away a whole number of 2^64 steps. */
  lemma {:induction false} WrapQuotient(x: int)
    ensures x == Wrap(x) + Wraps(x) * TwoTo64
  {
  }

  /** Wrap only depends on its argument modulo 2^64. */
  lemma {:induction false} WrapPeriodic(x: int, k: int)
    ensures Wrap(x + k * TwoTo64) == Wrap(x)
  {
    var a := x - MinInt64;
    var q := a / TwoTo64;
    var r := a % TwoTo64;
    assert a + k * TwoTo64 == (q + k) * TwoTo64 + r;
    ModUnique(a + k * TwoTo64, q + k, r);
  }

  /** Values a whole number of 2^64 steps apart wrap to the same int64. */
  lemma {:induction false} WrapSteps(y: int, x: int, k: int)
    requires y == x + k * TwoTo64
    ensures Wrap(y) == Wrap(x)
  {
    WrapPeriodic(x, k);
  }

  lemma {:induction false} ModUnique(a: int, q: int, r: int)
    requires 0 <= r < TwoTo64
    requires a == q * TwoTo64 + r
    ensures a % TwoTo64 == r
  {
  }

  /** Wrapping an intermediate result does not change a later wrapped sum. */
  lemma {:induction false} WrapAdd(x: int, y: int)
    ensures Wrap(Wrap(x) + y) == Wrap(x + y)
  {
    WrapQuotient(x);
    assert Wrap(x) + y == (x + y) + (-Wraps(x)) * TwoTo64;
    WrapPeriodic(x + y, -Wraps(x));
  }

  lemma {:induction false} MulMono(a: nat, b: nat, n: nat)
    requires a <= b
    ensures a * n <= b * n
  {
  }

  // ---------------------------------------------------------------------
  // Records
  // ---------------------------------------------------------------------

  type BookId = string
  type UserId = string

  /** A book (models/book.go:7-17); its id is generated by the database. */
  datatype Book = Book(bookId: BookId, name: string, year: nat)

  /**
   * An account title (models/book.go:29-39). `accountType` is the unsigned
   * Type column; only its parity is ever used.
   */
  datatype AccountTitle = AccountTitle(
    accountTitleId: nat,
    bookId: BookId,
    name: string,
    amount: Int64,
    amountBase: Int64,
    accountType: nat)

  /** One debit or credit leg of a transaction (models/book.go:51-62). */
  datatype SubTransaction = SubTransaction(
    subTransactionId: nat,
    bookId: BookId,
    transactionId: nat,
    isDebit: bool,
    accountTitleId: nat,
    amount: Int64)

  /**
   * A transaction with its legs (models/book.go:41-49). Times are instants
   * on an integer clock.
   */
  datatype Transaction = Transaction(
    transactionId: nat,
    bookId: BookId,
    description: string,
    occurredAt: int,
    createdAt: int,
    subTransactions: seq<SubTransaction>)

  /**
   * The ledger tables. Authorizations are keyed by their composite primary
   * key (BookId, UserId) and hold the authority string; transactions by
   * (BookId, TransactionId); account titles by their auto-increment
   * AccountTitleId, which the database draws from one sequence and so is
   * unique on its own. The three counters are those sequences.
   */
  datatype Store = Store(
    books: map<BookId, Book>,
    authorizations: map<(BookId, UserId), string>,
    titles: map<nat, AccountTitle>,
    transactions: map<(BookId, nat), Transaction>,
    nextTitleId: nat,
    nextTransactionId: nat,
    nextSubTransactionId: nat)

  /** The empty database: every auto-increment sequence starts at 1. */
  const EmptyStore: Store := Store(map[], map[], map[], map[], 1, 1, 1)

  // ---------------------------------------------------------------------
  // Keys
  // ---------------------------------------------------------------------

  /** Every leg carries the (BookId, TransactionId) of the transaction that owns it. */
  predicate LegsBelongTo(legs: seq<SubTransaction>, bookId: BookId, transactionId: nat) {
    forall x :: x in legs ==> x.bookId == bookId && x.transactionId == transactionId
  }

  /** A transaction stored under key k carries k, and so do its legs. */
  predicate StoredUnder(t: Transaction, k: (BookId, nat)) {
    t.bookId == k.0 && t.transactionId == k.1 && LegsBelongTo(t.subTransactions, k.0, k.1)
  }

  /**
   * The foreign key (AccountTitleId, BookId) of a leg: it names an account
   * title of the leg's own book.
   */
  predicate LegsInBook(titles: map<nat, AccountTitle>, legs: seq<SubTransaction>, bookId: BookId) {
    forall x :: x in legs ==> x.accountTitleId in titles && titles[x.accountTitleId].bookId == bookId
  }

  /**
   * The key discipline of the tables: every row is stored under its own
   * primary key, every auto-increment id in use lies between 1 and its
   * sequence, and the foreign keys of grants, titles, transactions and legs
   * hold.
   */
  predicate Consistent(s: Store) {
    && s.nextTitleId >= 1 && s.nextTransactionId >= 1
    && (forall b :: b in s.books ==> s.books[b].bookId == b)
    && (forall k: (BookId, UserId) :: k in s.authorizations ==> k.0 in s.books)
    && (forall id :: id in s.titles ==>
          s.titles[id].accountTitleId == id && 0 < id < s.nextTitleId && s.titles[id].bookId in s.books)
    && (forall k: (BookId, nat) :: k in s.transactions ==>
          && StoredUnder(s.transactions[k], k) && 0 < k.1 < s.nextTransactionId && k.0 in s.books
          && LegsInBook(s.titles, s.transactions[k].subTransactions, k.0))
  }

  /** Two legs post the same thing: same account, same side, same amount. */
  predicate SamePosting(a: SubTransaction, b: SubTransaction) {
    a.accountTitleId == b.accountTitleId && a.isDebit == b.isDebit && a.amount == b.amount
  }

  predicate SamePostings(a: seq<SubTransaction>, b: seq<SubTransaction>) {
    |a| == |b| && forall i :: 0 <= i < |a| ==> SamePosting(a[i], b[i])
  }

  /**
   * The foreign keys GORM fills in when it saves a transaction's legs: each
   * leg is re-homed to the owning (BookId, TransactionId).
   */
  function Attached(legs: seq<SubTransaction>, bookId: BookId, transactionId: nat): (r: seq<SubTransaction>)
    ensures SamePostings(r, legs)
    ensures LegsBelongTo(r, bookId, transactionId)
    ensures forall i :: 0 <= i < |r| ==> r[i].subTransactionId == legs[i].subTransactionId
  {
    seq(|legs|, i requires 0 <= i < |legs| => legs[i].(bookId := bookId, transactionId := transactionId))
  }

  /** Legs that already belong to their transaction are left as they are by Attached. */
  lemma {:induction false} AttachedIdle(legs: seq<SubTransaction>, bookId: BookId, transactionId: nat)
    requires LegsBelongTo(legs, bookId, transactionId)
    ensures Attached(legs, bookId, transactionId) == legs
  {
    var r := Attached(legs, bookId, transactionId);
    assert |r| == |legs|;
    forall i | 0 <= i < |legs| ensures r[i] == legs[i] {
    }
  }

  /** How many legs are submitted without a SubTransactionId (id 0), and so draw one from the sequence. */
  function Drawn(legs: seq<SubTransaction>): nat
    decreases |legs|
  {
    if legs == [] then 0
    else Drawn(legs[..|legs| - 1]) + (if legs[|legs| - 1].subTransactionId == 0 then 1 else 0)
  }

  lemma {:induction false} DrawnStep(legs: seq<SubTransaction>, i: nat)
    requires i < |legs|
    ensures Drawn(legs[..i + 1]) == Drawn(legs[..i]) + (if legs[i].subTransactionId == 0 then 1 else 0)
  {
    assert legs[..i + 1][..i] == legs[..i];
  }

  lemma {:induction false} DrawnMono(legs: seq<SubTransaction>, i: nat, j: nat)
    requires i <= j <= |legs|
    ensures Drawn(legs[..i]) <= Drawn(legs[..j])
    decreases j - i
  {
    if i < j {
      DrawnMono(legs, i, j - 1);
      DrawnStep(legs, j - 1);
    }
  }

  /** A leg drawing an id draws one below the count of every longer prefix. */
  lemma {:induction false} DrawnBefore(legs: seq<SubTransaction>)
    ensures forall i, j :: 0 <= i < j <= |legs| && legs[i].subTransactionId == 0 ==> Drawn(legs[..i]) < Drawn(legs[..j])
  {
    forall i, j | 0 <= i < j <= |legs| && legs[i].subTransactionId == 0
      ensures Drawn(legs[..i]) < Drawn(legs[..j])
    {
      DrawnStep(legs, i);
      DrawnMono(legs, i + 1, j);
    }
  }

  /**
   * The SubTransactionIds an insert stores: a leg submitted with id 0 takes
   * the next value of the auto-increment sequence, from `first` on, in
   * order; a leg submitted with an id keeps it.
   */
  function Numbered(legs: seq<SubTransaction>, first: nat): (r: seq<SubTransaction>)
    ensures SamePostings(r, legs)
    ensures forall i :: 0 <= i < |r| && legs[i].subTransactionId != 0 ==> r[i] == legs[i]
    ensures forall i :: 0 <= i < |r| && legs[i].subTransactionId == 0 ==>
      && r[i] == legs[i].(subTransactionId := r[i].subTransactionId)
      && first <= r[i].subTransactionId < first + Drawn(legs)
    ensures forall i, j :: 0 <= i < j < |r| && legs[i].subTransactionId == 0 && legs[j].subTransactionId == 0 ==>
      r[i].subTransactionId < r[j].subTransactionId
  {
    DrawnBefore(legs);
    assert legs[..|legs|] == legs;
    seq(|legs|, i requires 0 <= i < |legs| =>
      if legs[i].subTransactionId == 0 then legs[i].(subTransactionId := first + Drawn(legs[..i])) else legs[i])
  }

  /** The primary key (SubTransactionId, BookId, TransactionId) of the legs of one transaction: no id twice. */
  predicate DistinctLegIds(legs: seq<SubTransaction>) {
    forall i, j :: 0 <= i < j < |legs| ==> legs[i].subTransactionId != legs[j].subTransactionId
  }

  /** Legs submitted without ids all draw fresh, distinct ids, so their insert never clashes on the key. */
  lemma {:induction false} DrawnIdsDistinct(legs: seq<SubTransaction>, first: nat)
    requires forall i :: 0 <= i < |legs| ==> legs[i].subTransactionId == 0
    ensures DistinctLegIds(Numbered(legs, first))
    ensures Drawn(legs) == |legs|
    decreases |legs|
  {
    if legs != [] {
      var n := |legs| - 1;
      DrawnIdsDistinct(legs[..n], first);
    }
  }

  /** Two legs submitted with the same id clash on the key: a concrete case. */
  lemma {:induction false} GivenIdsMayClash()
    ensures var legs := [SubTransaction(7, "b", 1, true, 1, 100), SubTransaction(7, "b", 1, false, 2, 100)];
      !DistinctLegIds(Numbered(legs, 1))
  {
    var legs := [SubTransaction(7, "b", 1, true, 1, 100), SubTransaction(7, "b", 1, false, 2, 100)];
    var r := Numbered(legs, 1);
    assert r[0] == legs[0] && r[1] == legs[1];
  }

  // ---------------------------------------------------------------------
  // Cascades (constraint:OnDelete:CASCADE)
  // ---------------------------------------------------------------------

  /** Deleting a book removes its authorizations, titles, transactions and legs. */
  function DropBook(s: Store, bookId: BookId): (r: Store)
    ensures bookId !in r.books
    ensures forall k :: k in r.authorizations ==> k.0 != bookId
    ensures forall id :: id in r.titles ==> r.titles[id].bookId != bookId
    ensures forall k :: k in r.transactions ==> k.0 != bookId
    ensures forall b :: b in r.books <==> b in s.books && b != bookId
    ensures forall k :: k in r.authorizations <==> k in s.authorizations && k.0 != bookId
    ensures forall id :: id in r.titles <==> id in s.titles && s.titles[id].bookId != bookId
    ensures forall k :: k in r.transactions <==> k in s.transactions && k.0 != bookId
    ensures forall b :: b in r.books ==> r.books[b] == s.books[b]
    ensures forall k :: k in r.authorizations ==> r.authorizations[k] == s.authorizations[k]
    ensures forall id :: id in r.titles ==> r.titles[id] == s.titles[id]
    ensures forall k :: k in r.transactions ==> r.transactions[k] == s.transactions[k]
  {
    s.(books := map b | b in s.books && b != bookId :: s.books[b],
       authorizations := map k | k in s.authorizations && k.0 != bookId :: s.authorizations[k],
       titles := map id | id in s.titles && s.titles[id].bookId != bookId :: s.titles[id],
       transactions := map k | k in s.transactions && k.0 != bookId :: s.transactions[k])
  }

  /** The cascade leaves no dangling key behind. */
  lemma {:induction false} DropBookConsistent(s: Store, bookId: BookId)
    requires Consistent(s)
    ensures Consistent(DropBook(s, bookId))
  {
    var r := DropBook(s, bookId);
    forall k: (BookId, nat) | k in r.transactions
      ensures LegsInBook(r.titles, r.transactions[k].subTransactions, k.0)
    {
      var legs := s.transactions[k].subTransactions;
      assert LegsInBook(s.titles, legs, k.0);
      forall x | x in legs ensures x.accountTitleId in r.titles {
        assert s.titles[x.accountTitleId].bookId == k.0 != bookId;
      }
    }
  }

  /** A leg references the account title (accountTitleId, bookId). */
  predicate References(leg: SubTransaction, accountTitleId: nat, bookId: BookId) {
    leg.accountTitleId == accountTitleId && leg.bookId == bookId
  }

  /** The legs that survive the deletion of account title (accountTitleId, bookId), in order. */
  function LegsWithout(legs: seq<SubTransaction>, accountTitleId: nat, bookId: BookId): (r: seq<SubTransaction>)
    ensures forall x :: x in r <==> x in legs && !References(x, accountTitleId, bookId)
    ensures |r| <= |legs|
    ensures (forall i :: 0 <= i < |legs| ==> !References(legs[i], accountTitleId, bookId)) ==> r == legs
  {
    if legs == [] then []
    else if References(legs[0], accountTitleId, bookId) then LegsWithout(legs[1..], accountTitleId, bookId)
    else [legs[0]] + LegsWithout(legs[1..], accountTitleId, bookId)
  }

  /**
   * Deleting account title `id` (matched on AccountTitleId alone) removes the
   * legs that reference it; the balances of other titles are not adjusted.
   */
  function DropTitle(s: Store, id: nat): (r: Store)
    ensures id !in r.titles
    ensures forall k :: k in r.titles <==> k in s.titles && k != id
    ensures forall k :: k in r.titles ==> r.titles[k] == s.titles[k]
    ensures r.transactions.Keys == s.transactions.Keys
    ensures id !in s.titles ==> r == s
    ensures r.books == s.books && r.authorizations == s.authorizations
  {
    if id !in s.titles then s
    else
      var bookId := s.titles[id].bookId;
      s.(titles := map k | k in s.titles && k != id :: s.titles[k],
         transactions := map k | k in s.transactions ::
           s.transactions[k].(subTransactions := LegsWithout(s.transactions[k].subTransactions, id, bookId)))
  }

  /**
   * After DropTitle no leg references the deleted title, every surviving leg
   * was there before, and the transactions themselves are otherwise unchanged.
   */
  lemma {:induction false} DropTitleCascade(s: Store, id: nat)
    requires id in s.titles
    ensures var r := DropTitle(s, id);
      forall k :: k in r.transactions ==>
        && r.transactions[k].(subTransactions := s.transactions[k].subTransactions) == s.transactions[k]
        && (forall x :: x in r.transactions[k].subTransactions <==>
              x in s.transactions[k].subTransactions && !References(x, id, s.titles[id].bookId))
  {
  }

  lemma {:induction false} DropTitleConsistent(s: Store, id: nat)
    requires Consistent(s)
    ensures Consistent(DropTitle(s, id))
  {
    var r := DropTitle(s, id);
    if id in s.titles {
      var bookId := s.titles[id].bookId;
      forall k: (BookId, nat) | k in r.transactions
        ensures StoredUnder(r.transactions[k], k) && LegsInBook(r.titles, r.transactions[k].subTransactions, k.0)
      {
        var legs := s.transactions[k].subTransactions;
        assert StoredUnder(s.transactions[k], k) && LegsInBook(s.titles, legs, k.0);
        forall x | x in r.transactions[k].subTransactions
          ensures x.bookId == k.0 && x.transactionId == k.1
          ensures x.accountTitleId in r.titles && r.titles[x.accountTitleId].bookId == k.0
        {
          assert x in legs && !References(x, id, bookId);
        }
      }
    }
  }
}
