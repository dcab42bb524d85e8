/**
 * The data-access layer of crud/transaction.go as it runs: a database whose
 * tables are updated in place. Each method does what the Go function does,
 * step by step: it reads rows, posts legs one at a time in a loop, and
 * stages every write of its unit of work. Only at the commit are the staged
 * writes stored in the tables; an error before that leaves the tables as
 * they were, which is what the rollback does.
 *
 * `fault` names the one write of the call (numbered from 0, the commit
 * included) that the database refuses, if any. Each method is proved to
 * leave exactly the state, and to report exactly the success, that the
 * matching function of Ledger or Journal describes.
 */
module Crud {
  import opened Models
  import opened Posting
  import opened Queries
  import Ledger
  import Journal
  import Authority

  /** Write `i` of a call is the one the database refuses. */
  predicate Refuses(fault: Option<nat>, i: nat) {
    fault == Some(i)
  }

  /** Write n goes through, so writes 0 .. n do. */
  lemma {:induction false} ClearStep(fault: Option<nat>, n: nat)
    requires Ledger.Clear(fault, n) && !Refuses(fault, n)
    ensures Ledger.Clear(fault, n + 1)
  {
  }

  /** The legs up to and including leg i are those up to i, then leg i. */
  lemma {:induction false} PrefixStep(legs: seq<SubTransaction>, i: nat)
    requires i < |legs|
    ensures legs[..i + 1] == legs[..i] + [legs[i]]
    ensures legs[..i + 1][..i] == legs[..i] && legs[..i + 1][i] == legs[i]
  {
  }

  /**
   * One turn of the posting loop as the Go code writes it: the sign table
   * is applied to the Amount the title has now, with int64 wrap-around.
   */
  function Apply(title: AccountTitle, leg: SubTransaction, dir: Direction): (r: AccountTitle)
    ensures r == title.(amount := Wrap(title.amount + LegDelta(leg, title.accountType, dir)))
  {
    var amount :=
      if leg.isDebit == (dir == Post) then
        if title.accountType % 2 == 0 then title.amount + leg.amount else title.amount - leg.amount
      else
        if title.accountType % 2 == 0 then title.amount - leg.amount else title.amount + leg.amount;
    title.(amount := Wrap(amount))
  }

  /** Re-reading the leg's title, applying the table and saving it back is one step of PostLegs. */
  lemma {:induction false} ApplyIsPostLeg(m: map<nat, AccountTitle>, leg: SubTransaction, dir: Direction)
    requires leg.accountTitleId in m
    ensures PostLeg(m, leg, dir) == m[leg.accountTitleId := Apply(m[leg.accountTitleId], leg, dir)]
  {
  }

  /** One more turn of the posting loop: the title of leg i takes Apply. */
  lemma {:induction false} PostLegsStep(work: map<nat, AccountTitle>, legs: seq<SubTransaction>, i: nat, dir: Direction)
    requires i < |legs|
    requires legs[i].accountTitleId in work
    ensures var m := PostLegs(work, legs[..i], dir);
      && legs[i].accountTitleId in m
      && PostLegs(work, legs[..i + 1], dir) == PostLeg(m, legs[i], dir)
  {
    PrefixStep(legs, i);
    assert PostLegs(work, legs[..i + 1], dir) == PostLeg(PostLegs(work, legs[..i], dir), legs[i], dir);
  }

  /** A leg whose title is there extends the resolved prefix. */
  lemma {:induction false} ResolvesStep(work: map<nat, AccountTitle>, legs: seq<SubTransaction>, i: nat)
    requires i < |legs| && Resolves(work, legs[..i]) && legs[i].accountTitleId in work
    ensures Resolves(work, legs[..i + 1])
  {
    PrefixStep(legs, i);
  }

  /** A leg whose title is in the book extends the checked prefix. */
  lemma {:induction false} InBookStep(work: map<nat, AccountTitle>, legs: seq<SubTransaction>, i: nat, bookId: BookId)
    requires i < |legs| && LegsInBook(work, legs[..i], bookId)
    requires legs[i].accountTitleId in work && work[legs[i].accountTitleId].bookId == bookId
    ensures LegsInBook(work, legs[..i + 1], bookId)
  {
    PrefixStep(legs, i);
  }

  /** Legs whose titles are in the book are found by the lookup. */
  lemma {:induction false} InBookResolves(work: map<nat, AccountTitle>, legs: seq<SubTransaction>, bookId: BookId)
    requires LegsInBook(work, legs, bookId)
    ensures Resolves(work, legs)
  {
  }

  /** One more carried title. */
  lemma {:induction false} CarriedStep(olds: seq<AccountTitle>, i: nat, newId: BookId)
    requires i < |olds|
    ensures Ledger.Carried(olds[..i + 1], newId) == Ledger.Carried(olds[..i], newId) + [Ledger.CarriedTitle(olds[i], newId)]
  {
    assert olds[..i + 1][..i] == olds[..i];
  }

  class Database {
    var books: map<BookId, Book>
    var authorizations: map<(BookId, UserId), string>
    var titles: map<nat, AccountTitle>
    var transactions: map<(BookId, nat), Transaction>
    var nextTitleId: nat
    var nextTransactionId: nat
    var nextSubTransactionId: nat

    /** The tables as one value. */
    function State(): Store
      reads this
    {
      Store(books, authorizations, titles, transactions, nextTitleId, nextTransactionId, nextSubTransactionId)
    }

    /** A fresh database: no rows, every sequence at 1. */
    constructor ()
      ensures State() == EmptyStore
    {
      books, authorizations, titles, transactions := map[], map[], map[], map[];
      nextTitleId, nextTransactionId, nextSubTransactionId := 1, 1, 1;
    }

    /** The commit: the tables take the staged state. */
    method Commit(s: Store)
      modifies this
      ensures State() == s
    {
      books, authorizations, titles, transactions := s.books, s.authorizations, s.titles, s.transactions;
      nextTitleId, nextTransactionId, nextSubTransactionId := s.nextTitleId, s.nextTransactionId, s.nextSubTransactionId;
    }

    // -------------------------------------------------------------------
    // Books
    // -------------------------------------------------------------------

    /** CreateBook: the book, then the full grant for its creator, in one unit. */
    method CreateBook(user: UserId, newId: BookId, name: string, year: nat, fault: Option<nat>) returns (ok: bool)
      modifies this
      ensures var r := Ledger.CreateBook(old(State()), user, newId, name, year, fault);
        ok == r.ok && State() == r.store
    {
      if newId in books || Refuses(fault, 0) {
        return false;
      }
      var stagedBooks := books[newId := Book(newId, name, year)];
      if (newId, user) in authorizations || Refuses(fault, 1) {
        return false;
      }
      var stagedGrants := authorizations[(newId, user) := Authority.FullAuthority];
      if Refuses(fault, 2) {
        return false;
      }
      books, authorizations := stagedBooks, stagedGrants;
      ok := true;
    }

    /** UpdateBook: the row with the book's id takes its non-zero name and year. */
    method UpdateBook(b: Book, fault: Option<nat>) returns (ok: bool)
      modifies this
      ensures var r := Ledger.UpdateBook(old(State()), b, fault);
        ok == r.ok && State() == r.store
    {
      if Refuses(fault, 0) {
        return false;
      }
      if b.bookId in books {
        books := books[b.bookId := Ledger.UpdatesBook(books[b.bookId], b)];
      }
      ok := true;
    }

    /** DeleteBook: the delete cascades through the book's rows. */
    method DeleteBook(bookId: BookId, fault: Option<nat>) returns (ok: bool)
      modifies this
      ensures var r := Ledger.DeleteBook(old(State()), bookId, fault);
        ok == r.ok && State() == r.store
    {
      if bookId == "" || Refuses(fault, 0) {
        return false;
      }
      Commit(DropBook(State(), bookId));
      ok := true;
    }

    /**
     * The carry-forward loop: for each title of the old book, in order, a
     * new title of the new book with the same name and type, whose balance
     * and base are the old balance.
     */
    method CarryTitles(olds: seq<AccountTitle>, newId: BookId) returns (rows: seq<AccountTitle>)
      ensures rows == Ledger.Carried(olds, newId)
    {
      rows := [];
      for i := 0 to |olds|
        invariant rows == Ledger.Carried(olds[..i], newId)
      {
        var t := olds[i];
        CarriedStep(olds, i, newId);
        rows := rows + [AccountTitle(0, newId, t.name, t.amount, t.amount, t.accountType)];
      }
      assert olds[..|olds|] == olds;
    }

    /**
     * CreateBookAndAccountTitleFromBook: the new book inside the unit; the
     * grant, sent outside it, is refused by its foreign key to the book not
     * yet committed (its error dropped), so it writes nothing; then copies
     * of the old book's titles built one by one and inserted in one batch.
     */
    method CreateBookFromBook(admin: UserId, newId: BookId, name: string, year: nat, oldBookId: BookId,
                              fault: Option<nat>) returns (ok: bool)
      modifies this
      ensures var r := Ledger.CreateBookFromBook(old(State()), admin, newId, name, year, oldBookId, fault);
        ok == r.ok && State() == r.store
    {
      var s := State();
      if newId in books || Refuses(fault, 0) {
        return false;
      }
      var rows := CarryTitles(TitlesOf(s, oldBookId), newId);
      if rows == [] || Refuses(fault, 2) || Refuses(fault, 3) {
        return false;
      }
      Commit(s.(books := s.books[newId := Book(newId, name, year)],
                titles := Ledger.InsertTitles(s.titles, rows, s.nextTitleId),
                nextTitleId := s.nextTitleId + |rows|));
      ok := true;
    }

    // -------------------------------------------------------------------
    // Account titles
    // -------------------------------------------------------------------

    /** CreateAccountTitle: one insert taking the next id. */
    method CreateAccountTitle(t: AccountTitle, fault: Option<nat>) returns (ok: bool)
      modifies this
      ensures var r := Ledger.CreateAccountTitle(old(State()), t, fault);
        ok == r.ok && State() == r.store
    {
      if t.bookId !in books || Refuses(fault, 0) {
        return false;
      }
      titles := titles[nextTitleId := t.(accountTitleId := nextTitleId)];
      nextTitleId := nextTitleId + 1;
      ok := true;
    }

    /** UpdateAccountTitle: every column of the row matched by (id, book) is overwritten. */
    method UpdateAccountTitle(t: AccountTitle, fault: Option<nat>) returns (ok: bool)
      modifies this
      ensures var r := Ledger.UpdateAccountTitle(old(State()), t, fault);
        ok == r.ok && State() == r.store
    {
      if Refuses(fault, 0) {
        return false;
      }
      if t.accountTitleId in titles && titles[t.accountTitleId].bookId == t.bookId {
        titles := titles[t.accountTitleId := t];
      }
      ok := true;
    }

    /** DeleteAccountTitle: the delete is conditioned on the id alone. */
    method DeleteAccountTitle(id: nat, fault: Option<nat>) returns (ok: bool)
      modifies this
      ensures var r := Ledger.DeleteAccountTitle(old(State()), id, fault);
        ok == r.ok && State() == r.store
    {
      if id == 0 || Refuses(fault, 0) {
        return false;
      }
      Commit(DropTitle(State(), id));
      ok := true;
    }

    // -------------------------------------------------------------------
    // Transactions
    // -------------------------------------------------------------------

    /**
     * The posting loop inside a unit of work: for each leg, the title is
     * looked up by AccountTitleId alone (a missing one aborts), moved by the
     * sign table and saved (write first + i). The result is the staged
     * titles, or None when the unit has to roll back.
     */
    method PostLoop(work: map<nat, AccountTitle>, legs: seq<SubTransaction>, dir: Direction,
                    fault: Option<nat>, first: nat) returns (r: Option<map<nat, AccountTitle>>)
      requires Ledger.Clear(fault, first)
      ensures r.Some? <==> Resolves(work, legs) && Ledger.Clear(fault, first + |legs|)
      ensures r.Some? ==> r.value == PostLegs(work, legs, dir)
    {
      var staged := work;
      for i := 0 to |legs|
        invariant staged == PostLegs(work, legs[..i], dir)
        invariant Resolves(work, legs[..i])
        invariant Ledger.Clear(fault, first + i)
      {
        var leg := legs[i];
        if leg.accountTitleId !in staged {
          assert leg in legs;
          return None;
        }
        if Refuses(fault, first + i) {
          return None;
        }
        ClearStep(fault, first + i);
        PostLegsStep(work, legs, i, dir);
        ResolvesStep(work, legs, i);
        ApplyIsPostLeg(staged, leg, dir);
        var title := staged[leg.accountTitleId];
        staged := staged[leg.accountTitleId := Apply(title, leg, dir)];
      }
      assert legs[..|legs|] == legs;
      return Some(staged);
    }

    /**
     * Storing the new legs of an update, one write each (write first + j):
     * the foreign key of each wants a title of the book.
     */
    method StoreLegs(work: map<nat, AccountTitle>, legs: seq<SubTransaction>, bookId: BookId,
                     fault: Option<nat>, first: nat) returns (ok: bool)
      requires Ledger.Clear(fault, first)
      ensures ok <==> LegsInBook(work, legs, bookId) && Ledger.Clear(fault, first + |legs|)
    {
      for j := 0 to |legs|
        invariant LegsInBook(work, legs[..j], bookId)
        invariant Ledger.Clear(fault, first + j)
      {
        var leg := legs[j];
        if leg.accountTitleId !in work || work[leg.accountTitleId].bookId != bookId || Refuses(fault, first + j) {
          assert leg in legs;
          return false;
        }
        InBookStep(work, legs, j, bookId);
        ClearStep(fault, first + j);
      }
      assert legs[..|legs|] == legs;
      return true;
    }

    /**
     * CreateTransaction: write 0 inserts the transaction with its legs (the
     * foreign keys want the book, and a title of the book for every leg);
     * the legs are then posted in order and the unit committed.
     */
    method CreateTransaction(t: Transaction, now: int, fault: Option<nat>) returns (ok: bool)
      modifies this
      ensures var r := Journal.CreateTransaction(old(State()), t, now, fault);
        ok == r.ok && State() == r.store
    {
      var s := State();
      var id := nextTransactionId;
      var legs := Journal.NewLegs(s, t);
      Journal.LegsInBookAlike(titles, legs, t.subTransactions, t.bookId);
      if t.bookId !in books || (t.bookId, id) in transactions || !LegsInBook(titles, legs, t.bookId)
         || !DistinctLegIds(legs) || Refuses(fault, 0) {
        return false;
      }
      var posted := PostLoop(titles, legs, Post, fault, 1);
      var commit := 1 + |legs|;
      if posted.None? || Refuses(fault, commit) {
        return false;
      }
      ClearStep(fault, commit);
      Commit(s.(transactions := transactions[(t.bookId, id) := Transaction(id, t.bookId, t.description, t.occurredAt, now, legs)],
               titles := posted.value,
               nextTransactionId := id + 1,
               nextSubTransactionId := nextSubTransactionId + Drawn(t.subTransactions)));
      ok := true;
    }

    /**
     * UpdateTransaction: the stored transaction is found by (book, id); its
     * legs are reversed one by one; the new legs are stored (each wants a
     * title of the book) and the record rewritten; the new legs are posted
     * one by one; the unit is committed.
     */
    method UpdateTransaction(t: Transaction, fault: Option<nat>) returns (ok: bool)
      modifies this
      ensures var r := Journal.UpdateTransaction(old(State()), t, fault);
        ok == r.ok && State() == r.store
    {
      var found := FindTransactionId(State(), t.bookId, t.transactionId);
      if found.None? {
        return false;
      }
      ok := UpdateFound(t, found.value, fault);
    }

    /** The rest of UpdateTransaction, once the stored transaction is found under (book, k). */
    method UpdateFound(t: Transaction, k: nat, fault: Option<nat>) returns (ok: bool)
      requires (t.bookId, k) in transactions
      modifies this
      ensures var r := Journal.UpdateAt(old(State()), t, k, fault);
        ok == r.ok && State() == r.store
    {
      var s := State();
      var stored := transactions[(t.bookId, k)];
      var olds := stored.subTransactions;
      var news := Attached(t.subTransactions, t.bookId, k);
      Journal.LegsInBookAlike(titles, news, t.subTransactions, t.bookId);
      var reversed := PostLoop(titles, olds, Reverse, fault, 0);
      if reversed.None? {
        return false;
      }
      var mid := reversed.value;
      assert mid == PostLegs(titles, olds, Reverse);
      Journal.LegsInBookAfterPosting(titles, mid, news, t.bookId);
      var inBook := StoreLegs(mid, news, t.bookId, fault, |olds|);
      if !inBook || Refuses(fault, |olds| + |news|) {
        return false;
      }
      ClearStep(fault, |olds| + |news|);
      InBookResolves(mid, news, t.bookId);
      var firstPost := |olds| + |news| + 1;
      var posted := PostLoop(mid, news, Post, fault, firstPost);
      var commit := firstPost + |news|;
      if posted.None? || Refuses(fault, commit) {
        return false;
      }
      ClearStep(fault, commit);
      Commit(s.(transactions := transactions[(t.bookId, k) := Journal.Rewritten(stored, t, news)],
               titles := posted.value));
      ok := true;
    }

    /**
     * DeleteTransaction: the transaction is found by (book, id); its legs
     * are reversed one by one; the legs, then the transaction, are deleted;
     * the unit is committed.
     */
    method DeleteTransaction(bookId: BookId, id: nat, fault: Option<nat>) returns (ok: bool)
      modifies this
      ensures var r := Journal.DeleteTransaction(old(State()), bookId, id, fault);
        ok == r.ok && State() == r.store
    {
      var s := State();
      var found := FindTransactionId(s, bookId, id);
      if found.None? {
        return false;
      }
      var k := found.value;
      var legs := transactions[(bookId, k)].subTransactions;
      var reversed := PostLoop(titles, legs, Reverse, fault, 0);
      var dropLegs := 0 + |legs|;
      if reversed.None? || legs == [] || Refuses(fault, dropLegs) {
        return false;
      }
      ClearStep(fault, dropLegs);
      if Refuses(fault, dropLegs + 1) {
        return false;
      }
      ClearStep(fault, dropLegs + 1);
      if Refuses(fault, dropLegs + 2) {
        return false;
      }
      ClearStep(fault, dropLegs + 2);
      Commit(s.(transactions := transactions - {(bookId, k)}, titles := reversed.value));
      ok := true;
    }
  }
}
