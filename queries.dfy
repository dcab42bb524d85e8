/**
 * The read operations of crud/transaction.go over a Store: the lookups of
 * one row and the listings, with the orders and the Offset/Limit windows
 * they ask for.
 *
 * A lookup builds its WHERE clause from a record, and a zero-valued field of
 * that record is left out of the clause; with a zero id the lookup thus
 * returns the first row of the book in primary-key order, that is the one
 * with the smallest id.
 */
module Queries {
  import opened Models
  import opened Paging

  // ---------------------------------------------------------------------
  // Rows of one book, in id order
  // ---------------------------------------------------------------------

  /** The ids below n of the account titles of book `bookId`, ascending. */
  function TitleIds(titles: map<nat, AccountTitle>, bookId: BookId, n: nat): (r: seq<nat>)
    ensures forall id :: id in r <==> id < n && id in titles && titles[id].bookId == bookId
    ensures forall i, j :: 0 <= i < j < |r| ==> r[i] < r[j]
    decreases n
  {
    if n == 0 then []
    else
      var front := TitleIds(titles, bookId, n - 1);
      assert forall i :: 0 <= i < |front| ==> front[i] < n - 1 by {
        forall i | 0 <= i < |front| ensures front[i] < n - 1 {
          assert front[i] in front;
        }
      }
      front + (if n - 1 in titles && titles[n - 1].bookId == bookId then [n - 1] else [])
  }

  /** The ids below n of the transactions stored under book `bookId`, ascending. */
  function TransactionIds(transactions: map<(BookId, nat), Transaction>, bookId: BookId, n: nat): (r: seq<nat>)
    ensures forall id :: id in r <==> id < n && (bookId, id) in transactions
    ensures forall i, j :: 0 <= i < j < |r| ==> r[i] < r[j]
    decreases n
  {
    if n == 0 then []
    else
      var front := TransactionIds(transactions, bookId, n - 1);
      assert forall i :: 0 <= i < |front| ==> front[i] < n - 1 by {
        forall i | 0 <= i < |front| ensures front[i] < n - 1 {
          assert front[i] in front;
        }
      }
      front + (if (bookId, n - 1) in transactions then [n - 1] else [])
  }

  /** The account titles of a book, by ascending id. */
  function TitlesOf(s: Store, bookId: BookId): (r: seq<AccountTitle>)
    ensures forall t :: t in r ==> t.bookId == bookId
  {
    var ids := TitleIds(s.titles, bookId, s.nextTitleId);
    seq(|ids|, i requires 0 <= i < |ids| => s.titles[ids[i]])
  }

  /** The transactions of a book, by ascending id. */
  function TransactionsOf(s: Store, bookId: BookId): (r: seq<Transaction>)
    ensures Consistent(s) ==> forall t :: t in r ==> t.bookId == bookId
  {
    var ids := TransactionIds(s.transactions, bookId, s.nextTransactionId);
    seq(|ids|, i requires 0 <= i < |ids| => s.transactions[(bookId, ids[i])])
  }

  /** In a consistent store, TitlesOf lists exactly the titles of the book. */
  lemma {:induction false} TitlesOfComplete(s: Store, bookId: BookId, id: nat)
    requires Consistent(s) && id in s.titles
    ensures s.titles[id].bookId == bookId <==> s.titles[id] in TitlesOf(s, bookId)
  {
    var ids := TitleIds(s.titles, bookId, s.nextTitleId);
    var r := TitlesOf(s, bookId);
    if s.titles[id].bookId == bookId {
      var i :| 0 <= i < |ids| && ids[i] == id;
      assert r[i] == s.titles[id];
    }
  }

  // ---------------------------------------------------------------------
  // Lookups of one row
  // ---------------------------------------------------------------------

  /**
   * GetAccountTitle: the title with this id in this book; with id 0 the
   * first title of the book.
   */
  function FindAccountTitle(s: Store, bookId: BookId, id: nat): (r: Option<AccountTitle>)
    ensures r.Some? ==> r.value.bookId == bookId
    ensures id != 0 ==> (r.Some? <==> id in s.titles && s.titles[id].bookId == bookId)
    ensures id != 0 && r.Some? ==> r.value == s.titles[id]
    ensures id == 0 ==> (r.Some? <==> TitlesOf(s, bookId) != [])
    ensures Consistent(s) && id == 0 && r.Some? ==>
      && r.value.accountTitleId in s.titles && s.titles[r.value.accountTitleId] == r.value
      && forall k :: k in s.titles && s.titles[k].bookId == bookId ==> r.value.accountTitleId <= k
  {
    if id == 0 then
      var ts := TitlesOf(s, bookId);
      if ts == [] then None
      else
        var ids := TitleIds(s.titles, bookId, s.nextTitleId);
        assert ts[0] == s.titles[ids[0]] && ids[0] in ids;
        assert Consistent(s) ==> forall k :: k in s.titles && s.titles[k].bookId == bookId ==> ids[0] <= k by {
          if Consistent(s) {
            forall k | k in s.titles && s.titles[k].bookId == bookId ensures ids[0] <= k {
              assert k in ids;
              var j :| 0 <= j < |ids| && ids[j] == k;
            }
          }
        }
        Some(ts[0])
    else if id in s.titles && s.titles[id].bookId == bookId then Some(s.titles[id])
    else None
  }

  /**
   * The key the transaction lookups find: the id itself when the book has
   * a transaction under it; with id 0 the smallest id of the book.
   */
  function FindTransactionId(s: Store, bookId: BookId, id: nat): (r: Option<nat>)
    ensures r.Some? ==> (bookId, r.value) in s.transactions
    ensures id != 0 ==> (r.Some? <==> (bookId, id) in s.transactions) && (r.Some? ==> r.value == id)
    ensures id == 0 && r.Some? ==> forall k :: (bookId, k) in s.transactions && k < s.nextTransactionId ==> r.value <= k
  {
    if id == 0 then
      var ids := TransactionIds(s.transactions, bookId, s.nextTransactionId);
      if ids == [] then None
      else
        assert forall k :: k in ids ==> ids[0] <= k by {
          forall k | k in ids ensures ids[0] <= k {
            var j :| 0 <= j < |ids| && ids[j] == k;
          }
        }
        Some(ids[0])
    else if (bookId, id) in s.transactions then Some(id)
    else None
  }

  /**
   * GetTransaction: the transaction, with its legs in stored order. A
   * non-zero id finds exactly the row stored under (book, id); id 0 finds
   * the book's transaction with the smallest id.
   */
  function FindTransaction(s: Store, bookId: BookId, id: nat): (r: Option<Transaction>)
    ensures id != 0 ==> (r.Some? <==> (bookId, id) in s.transactions) && (r.Some? ==> r.value == s.transactions[(bookId, id)])
    ensures Consistent(s) && r.Some? ==> r.value.bookId == bookId && (id != 0 ==> r.value.transactionId == id)
    ensures Consistent(s) && id == 0 && r.Some? ==>
      forall k :: (bookId, k) in s.transactions ==> r.value.transactionId <= k
  {
    match FindTransactionId(s, bookId, id)
    case None => None
    case Some(k) => Some(s.transactions[(bookId, k)])
  }

  // ---------------------------------------------------------------------
  // Listings
  // ---------------------------------------------------------------------

  /** Every transaction with its legs preloaded debits first. */
  function WithDebitsFirst(ts: seq<Transaction>): (r: seq<Transaction>)
    ensures |r| == |ts|
    ensures forall i :: 0 <= i < |r| ==> r[i] == ts[i].(subTransactions := DebitsFirst(ts[i].subTransactions))
  {
    seq(|ts|, i requires 0 <= i < |ts| => ts[i].(subTransactions := DebitsFirst(ts[i].subTransactions)))
  }

  /**
   * All the transactions of a book in listing order, before the window is
   * cut: newest first, and in a consistent store only the book's own.
   */
  function TransactionListing(s: Store, bookId: BookId): (r: seq<Transaction>)
    ensures NewestFirst(r)
    ensures Consistent(s) ==> forall t :: t in r ==> t.bookId == bookId
  {
    var ts := TransactionsOf(s, bookId);
    var sorted := SortNewestFirst(ts);
    var all := WithDebitsFirst(sorted);
    assert NewestFirst(all) by {
      forall i, j | 0 <= i < j < |all| ensures NewerOrSame(all[i], all[j]) {
        assert NewerOrSame(sorted[i], sorted[j]);
      }
    }
    assert Consistent(s) ==> forall t :: t in all ==> t.bookId == bookId by {
      if Consistent(s) {
        forall t | t in all ensures t.bookId == bookId {
          var i :| 0 <= i < |all| && all[i] == t;
          assert sorted[i] in multiset(ts);
        }
      }
    }
    all
  }

  /**
   * GetTransactions(book, perPage, page): newest first by OccurredAt, then
   * by CreatedAt, legs debits first, rows [perPage * page, perPage * page +
   * perPage) of that order; never more than perPage of them.
   */
  function ListTransactions(s: Store, bookId: BookId, perPage: Int64, page: Int64): (r: seq<Transaction>)
    ensures perPage >= 0 ==> |r| <= perPage
    ensures Consistent(s) ==> forall t :: t in r ==> t.bookId == bookId
  {
    PageOf(TransactionListing(s, bookId), perPage, page)
  }

  /** Every page of the listing is newest first. */
  lemma {:induction false} ListingNewestFirst(s: Store, bookId: BookId, perPage: Int64, page: Int64)
    ensures NewestFirst(ListTransactions(s, bookId, perPage, page))
  {
    WindowNewestFirst(TransactionListing(s, bookId), Wrap(perPage * page), perPage);
  }

  /** GetAllAccountTitles: the titles of a book by descending id. */
  function AllAccountTitles(s: Store, bookId: BookId): (r: seq<AccountTitle>)
    ensures |r| == |TitlesOf(s, bookId)|
    ensures forall i :: 0 <= i < |r| ==> r[i] == TitlesOf(s, bookId)[|r| - 1 - i]
  {
    var ts := TitlesOf(s, bookId);
    seq(|ts|, i requires 0 <= i < |ts| => ts[|ts| - 1 - i])
  }

  /** In a consistent store the listing really is ordered by descending AccountTitleId. */
  lemma {:induction false} AllAccountTitlesDescending(s: Store, bookId: BookId)
    requires Consistent(s)
    ensures IdsDescending(AllAccountTitles(s, bookId))
  {
    var ids := TitleIds(s.titles, bookId, s.nextTitleId);
    var r := AllAccountTitles(s, bookId);
    forall i, j | 0 <= i < j < |r| ensures r[i].accountTitleId > r[j].accountTitleId {
      assert r[i] == s.titles[ids[|r| - 1 - i]] && r[j] == s.titles[ids[|r| - 1 - j]];
    }
  }

  /**
   * GetAccountTitles(book, perPage, page): the same order, cut to one page
   * of at most perPage titles, all of the book.
   */
  function ListAccountTitles(s: Store, bookId: BookId, perPage: Int64, page: Int64): (r: seq<AccountTitle>)
    ensures perPage >= 0 ==> |r| <= perPage
    ensures forall t :: t in r ==> t.bookId == bookId
  {
    var all := AllAccountTitles(s, bookId);
    assert forall t :: t in all ==> t.bookId == bookId by {
      forall t | t in all ensures t.bookId == bookId {
        var i :| 0 <= i < |all| && all[i] == t;
        assert t in TitlesOf(s, bookId);
      }
    }
    PageOf(all, perPage, page)
  }

  /** In a consistent store every page of titles is in descending id order. */
  lemma {:induction false} AccountTitlePagesDescending(s: Store, bookId: BookId, perPage: Int64, page: Int64)
    requires Consistent(s)
    ensures IdsDescending(ListAccountTitles(s, bookId, perPage, page))
  {
    AllAccountTitlesDescending(s, bookId);
    WindowIdsDescending(AllAccountTitles(s, bookId), Wrap(perPage * page), perPage);
  }

  /**
   * Title i of the book's listing, by descending id, is on page i / perPage
   * at position i % perPage, a page below the number of pages needed.
   */
  lemma {:induction false} AccountTitlePageHoldsTitle(s: Store, bookId: BookId, perPage: nat, i: nat)
    requires 0 < perPage <= MaxInt64
    requires i < |AllAccountTitles(s, bookId)| <= MaxInt64
    ensures i / perPage < CeilPages(|AllAccountTitles(s, bookId)|, perPage)
    ensures var p := ListAccountTitles(s, bookId, perPage, i / perPage);
      i % perPage < |p| && p[i % perPage] == AllAccountTitles(s, bookId)[i]
  {
    PageHoldsRow(AllAccountTitles(s, bookId), perPage, i);
  }

  /**
   * The page count of a book's transactions, with the page arithmetic
   * corrected to round up; a failed count still answers 1.
   */
  function BookPageCount(s: Store, bookId: BookId, perPage: nat, countFails: bool): (r: nat)
    requires perPage > 0
    ensures !countFails ==> r == CeilPages(|TransactionIds(s.transactions, bookId, s.nextTransactionId)|, perPage)
  {
    if countFails then 1 else CeilPages(|TransactionIds(s.transactions, bookId, s.nextTransactionId)|, perPage)
  }

  /**
   * With the corrected page count every transaction of the book appears on
   * one of the counted pages: position i of the listing is row i % perPage
   * of page `page` = i / perPage.
   */
  lemma {:induction false} BookPagesCoverListing(s: Store, bookId: BookId, perPage: nat, i: nat, page: Int64)
    requires 0 < perPage <= MaxInt64
    requires i < |TransactionListing(s, bookId)| <= MaxInt64
    requires page == i / perPage
    ensures page < BookPageCount(s, bookId, perPage, false)
    ensures var p := ListTransactions(s, bookId, perPage, page);
      i % perPage < |p| && p[i % perPage] == TransactionListing(s, bookId)[i]
  {
    ListingLength(s, bookId);
    PageHoldsRow(TransactionListing(s, bookId), perPage, i);
  }

  /** The listing holds one entry per transaction of the book. */
  lemma {:induction false} ListingLength(s: Store, bookId: BookId)
    ensures |TransactionListing(s, bookId)| == |TransactionIds(s.transactions, bookId, s.nextTransactionId)|
  {
    var ts := TransactionsOf(s, bookId);
    assert |multiset(SortNewestFirst(ts))| == |multiset(ts)|;
  }
}
