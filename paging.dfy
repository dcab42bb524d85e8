/**
 * The arithmetic of the listing queries: the page count of GetBookPages,
 * the Offset/Limit window of GetTransactions and GetAccountTitles, and the
 * orders those queries ask the database for.
 */
module Paging {
  import opened Models

  // ---------------------------------------------------------------------
  // Page count (GetBookPages)
  // ---------------------------------------------------------------------

  /**
   * The page count as GetBookPages computes it from a transaction count:
   * one page more than the quotient only when exactly one row is left over.
   */
  function PagesFromCount(count: nat, perPage: nat): (r: nat)
    requires perPage > 0
    ensures count / perPage <= r <= count / perPage + 1
    ensures r == count / perPage + 1 <==> count % perPage == 1
  {
    if count % perPage == 1 then count / perPage + 1 else count / perPage
  }

  /** GetBookPages: a failed count query answers 1. */
  function BookPages(count: Option<nat>, perPage: nat): (r: nat)
    requires perPage > 0
    ensures count.None? ==> r == 1
    ensures count.Some? ==> r == PagesFromCount(count.value, perPage)
  {
    match count
    case None => 1
    case Some(c) => PagesFromCount(c, perPage)
  }

  /** The number of pages that `count` rows need: the least r with count <= r * perPage. */
  function CeilPages(count: nat, perPage: nat): (r: nat)
    requires perPage > 0
    ensures count <= r * perPage
    ensures r == 0 || (r - 1) * perPage < count
  {
    if count % perPage == 0 then count / perPage else count / perPage + 1
  }

  /**
   * The page count as written agrees with the number of pages needed exactly
   * when at most one row is left over after the full pages.
   */
  lemma {:induction false} PagesFromCountIsCeilExactly(count: nat, perPage: nat)
    requires perPage > 0
    ensures PagesFromCount(count, perPage) == CeilPages(count, perPage) <==> count % perPage <= 1
  {
  }

  // ---------------------------------------------------------------------
  // Offset / Limit
  // ---------------------------------------------------------------------

  /**
   * The rows an `Offset(offset).Limit(limit)` query returns from `rows`: a
   * non-positive offset skips nothing and a negative limit returns everything.
   */
  function Window<T>(rows: seq<T>, offset: int, limit: int): (r: seq<T>)
    ensures limit >= 0 ==> |r| <= limit
    ensures var start := if offset <= 0 then 0 else if offset < |rows| then offset else |rows|;
      && |r| == (if 0 <= limit < |rows| - start then limit else |rows| - start)
      && forall i :: 0 <= i < |r| ==> r[i] == rows[start + i]
  {
    var start := if offset <= 0 then 0 else if offset < |rows| then offset else |rows|;
    var rest := rows[start..];
    if 0 <= limit < |rest| then rest[..limit] else rest
  }

  /**
   * Page `page` of `perPage` rows: the offset dataPerPage * page is computed
   * in Go's 64-bit int, so it wraps around for huge page numbers.
   */
  function PageOf<T>(rows: seq<T>, perPage: Int64, page: Int64): (r: seq<T>)
    ensures perPage >= 0 ==> |r| <= perPage
    ensures forall x :: x in r ==> x in rows
  {
    Window(rows, Wrap(perPage * page), perPage)
  }

  /** Position j of the window that starts at a real offset holds row offset + j. */
  lemma {:induction false} WindowHolds<T>(rows: seq<T>, offset: nat, limit: nat, j: nat)
    requires j < limit && offset + j < |rows|
    ensures j < |Window(rows, offset, limit)| && Window(rows, offset, limit)[j] == rows[offset + j]
  {
  }

  /** A window that starts at or past the end is empty. */
  lemma {:induction false} WindowPastEnd<T>(rows: seq<T>, offset: int, limit: int)
    requires offset >= |rows|
    ensures Window(rows, offset, limit) == []
  {
  }

  lemma {:induction false} DivMod(i: nat, n: nat)
    requires n > 0
    ensures i % n <= i && n * (i / n) == i - i % n
  {
  }

  /** Row i falls on a page below the number of pages needed. */
  lemma {:induction false} PageIndexBound(count: nat, perPage: nat, i: nat)
    requires 0 < perPage && i < count
    ensures i / perPage < CeilPages(count, perPage)
  {
    var q := i / perPage;
    var c := CeilPages(count, perPage);
    if c <= q {
      MulMono(c, q, perPage);
      assert false;
    }
  }

  /** A page whose offset fits in int64 is the window at that offset. */
  lemma {:induction false} PageAt<T>(rows: seq<T>, perPage: Int64, page: Int64, offset: int)
    requires offset == perPage * page
    requires MinInt64 <= offset <= MaxInt64
    ensures PageOf(rows, perPage, page) == Window(rows, offset, perPage)
  {
  }

  /** Every row lies on page i / perPage, at position i % perPage. */
  lemma {:induction false} PageHoldsRow<T>(rows: seq<T>, perPage: nat, i: nat)
    requires 0 < perPage <= MaxInt64 && i < |rows| <= MaxInt64
    ensures i / perPage < CeilPages(|rows|, perPage)
    ensures var p := PageOf(rows, perPage, i / perPage);
      i % perPage < |p| && p[i % perPage] == rows[i]
  {
    PageIndexBound(|rows|, perPage, i);
    DivMod(i, perPage);
    PageAt(rows, perPage, i / perPage, i - i % perPage);
    WindowHolds(rows, i - i % perPage, perPage, i % perPage);
  }

  /** Pages from CeilPages on are empty: the corrected count lists every non-empty page. */
  lemma {:induction false} PagesPastCeilEmpty<T>(rows: seq<T>, perPage: nat, page: nat)
    requires 0 < perPage <= MaxInt64 && page <= MaxInt64 && perPage * page <= MaxInt64
    requires page >= CeilPages(|rows|, perPage)
    ensures PageOf(rows, perPage, page) == []
  {
    MulMono(CeilPages(|rows|, perPage), page, perPage);
    PageAt(rows, perPage, page, page * perPage);
    WindowPastEnd(rows, page * perPage, perPage);
  }

  /**
   * With the count as written, 25 transactions at 20 per page report one
   * page, yet page 1 holds the last five.
   */
  lemma {:induction false} AsWrittenPageCountHidesRows<T>(rows: seq<T>)
    requires |rows| == 25
    ensures PagesFromCount(|rows|, 20) == 1
    ensures CeilPages(|rows|, 20) == 2
    ensures |PageOf(rows, 20, 1)| == 5
  {
  }

  /** A page number so large that its offset wraps around to 0 lists the first page again. */
  lemma {:induction false} HugePageWrapsToFirst<T>(rows: seq<T>)
    ensures PageOf(rows, 20, 0x4000_0000_0000_0000) == PageOf(rows, 20, 0)
  {
    WrapSteps(20 * 0x4000_0000_0000_0000, 0, 5);
  }

  // ---------------------------------------------------------------------
  // Orders
  // ---------------------------------------------------------------------

  /** `ORDER BY occurred_at DESC, created_at DESC`: a may come before b. */
  predicate NewerOrSame(a: Transaction, b: Transaction) {
    a.occurredAt > b.occurredAt || (a.occurredAt == b.occurredAt && a.createdAt >= b.createdAt)
  }

  predicate NewestFirst(ts: seq<Transaction>) {
    forall i, j :: 0 <= i < j < |ts| ==> NewerOrSame(ts[i], ts[j])
  }

  function Insert(t: Transaction, ts: seq<Transaction>): (r: seq<Transaction>)
    requires NewestFirst(ts)
    ensures NewestFirst(r)
    ensures multiset(r) == multiset(ts) + multiset{t}
    decreases |ts|
  {
    if ts == [] then [t]
    else if NewerOrSame(t, ts[0]) then [t] + ts
    else
      var tail := Insert(t, ts[1..]);
      assert ts == [ts[0]] + ts[1..];
      assert forall x :: x in tail ==> NewerOrSame(ts[0], x) by {
        forall x | x in tail ensures NewerOrSame(ts[0], x) {
          assert x in multiset(tail);
          if x != t {
            assert x in multiset(ts[1..]);
            var k :| 0 <= k < |ts[1..]| && ts[1..][k] == x;
            assert ts[k + 1] == x;
          }
        }
      }
      [ts[0]] + tail
  }

  /** The transactions in the order the listing query asks for. */
  function SortNewestFirst(ts: seq<Transaction>): (r: seq<Transaction>)
    ensures NewestFirst(r)
    ensures multiset(r) == multiset(ts)
    decreases |ts|
  {
    if ts == [] then []
    else
      assert ts == ts[..|ts| - 1] + [ts[|ts| - 1]];
      Insert(ts[|ts| - 1], SortNewestFirst(ts[..|ts| - 1]))
  }

  /** Any Offset/Limit window of a newest-first listing is newest first. */
  lemma {:induction false} WindowNewestFirst(rows: seq<Transaction>, offset: int, limit: int)
    requires NewestFirst(rows)
    ensures NewestFirst(Window(rows, offset, limit))
  {
    var w := Window(rows, offset, limit);
    var start := if offset <= 0 then 0 else if offset < |rows| then offset else |rows|;
    forall i, j | 0 <= i < j < |w| ensures NewerOrSame(w[i], w[j]) {
      assert w[i] == rows[start + i] && w[j] == rows[start + j];
    }
  }

  /** The debit legs, in stored order. */
  function Debits(legs: seq<SubTransaction>): (r: seq<SubTransaction>)
    ensures forall x :: x in r ==> x.isDebit
    decreases |legs|
  {
    if legs == [] then []
    else (if legs[0].isDebit then [legs[0]] else []) + Debits(legs[1..])
  }

  /** The credit legs, in stored order. */
  function Credits(legs: seq<SubTransaction>): (r: seq<SubTransaction>)
    ensures forall x :: x in r ==> !x.isDebit
    decreases |legs|
  {
    if legs == [] then []
    else (if legs[0].isDebit then [] else [legs[0]]) + Credits(legs[1..])
  }

  lemma {:induction false} DebitsCreditsSplit(legs: seq<SubTransaction>)
    ensures multiset(Debits(legs)) + multiset(Credits(legs)) == multiset(legs)
    decreases |legs|
  {
    if legs != [] {
      DebitsCreditsSplit(legs[1..]);
      assert legs == [legs[0]] + legs[1..];
    }
  }

  /** `ORDER BY is_debit DESC` on the preloaded legs: the debits, then the credits. */
  function DebitsFirst(legs: seq<SubTransaction>): (r: seq<SubTransaction>)
    ensures multiset(r) == multiset(legs)
    ensures forall i, j :: 0 <= i < j < |r| && r[j].isDebit ==> r[i].isDebit
  {
    DebitsCreditsSplit(legs);
    var d := Debits(legs);
    var c := Credits(legs);
    assert forall i :: 0 <= i < |d| + |c| ==> (d + c)[i] in (if i < |d| then d else c);
    d + c
  }

  /** `ORDER BY account_title_id DESC`. */
  predicate IdsDescending(titles: seq<AccountTitle>) {
    forall i, j :: 0 <= i < j < |titles| ==> titles[i].accountTitleId > titles[j].accountTitleId
  }

  /** Every window of a list in descending id order is in descending id order. */
  lemma {:induction false} WindowIdsDescending(rows: seq<AccountTitle>, offset: int, limit: int)
    requires IdsDescending(rows)
    ensures IdsDescending(Window(rows, offset, limit))
  {
    var w := Window(rows, offset, limit);
    var start := if offset <= 0 then 0 else if offset < |rows| then offset else |rows|;
    forall i, j | 0 <= i < j < |w| ensures w[i].accountTitleId > w[j].accountTitleId {
      assert w[i] == rows[start + i] && w[j] == rows[start + j];
    }
  }
}
