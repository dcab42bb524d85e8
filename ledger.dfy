/**
 * What each write operation of crud/transaction.go does to the tables: its
 * outcome as a function of the state before it, its arguments and the
 * database's refusals.
 *
 * A refusal is described by `fault`, the index of the first store write of
 * the operation that the database refuses (the commit of a unit of work
 * counts as a write). A unit of work that meets a refusal rolls back, so its
 * outcome is the state it started from.
 */
module Ledger {
  import opened Models
  import opened Posting
  import opened Queries
  import Authority

  /** The state after an operation, and whether it reported success (a nil error). */
  datatype Outcome = Outcome(store: Store, ok: bool)

  /** Writes 0 .. writes - 1 of the operation all go through. */
  predicate Clear(fault: Option<nat>, writes: nat) {
    fault.None? || writes <= fault.value
  }

  // ---------------------------------------------------------------------
  // Books
  // ---------------------------------------------------------------------

  /**
   * CreateBook: one unit inserting the book (write 0) and the full grant for
   * its creator (write 1), then the commit (write 2). `newId` is the id the
   * database generates for the book.
   */
  function CreateBook(s: Store, user: UserId, newId: BookId, name: string, year: nat, fault: Option<nat>): (r: Outcome)
    ensures r.ok <==> newId !in s.books && (newId, user) !in s.authorizations && Clear(fault, 3)
    ensures !r.ok ==> r.store == s
  {
    if newId in s.books || !Clear(fault, 1) then Outcome(s, false)
    else if (newId, user) in s.authorizations || !Clear(fault, 2) then Outcome(s, false)
    else if !Clear(fault, 3) then Outcome(s, false)
    else
      Outcome(s.(books := s.books[newId := Book(newId, name, year)],
                 authorizations := s.authorizations[(newId, user) := Authority.FullAuthority]), true)
  }

  /** A created book is new, its creator may use every handler on it, and nothing else changes. */
  lemma {:induction false} CreateBookGrantsCreator(s: Store, user: UserId, newId: BookId, name: string, year: nat, fault: Option<nat>, op: Authority.Operation)
    requires CreateBook(s, user, newId, name, year, fault).ok
    ensures var r := CreateBook(s, user, newId, name, year, fault).store;
      && newId !in s.books && r.books.Keys == s.books.Keys + {newId}
      && (newId, user) in r.authorizations
      && Authority.Allows(r.authorizations[(newId, user)], Authority.Required(op))
      && (forall k :: k in s.authorizations ==> k in r.authorizations && r.authorizations[k] == s.authorizations[k])
      && r.titles == s.titles && r.transactions == s.transactions
  {
    Authority.FullAuthorityAllowsAll(op);
  }

  lemma {:induction false} CreateBookConsistent(s: Store, user: UserId, newId: BookId, name: string, year: nat, fault: Option<nat>)
    requires Consistent(s)
    ensures Consistent(CreateBook(s, user, newId, name, year, fault).store)
  {
  }

  /**
   * An update from a struct writes only its non-zero fields: an empty name
   * or a zero year leaves the stored value in place.
   */
  function UpdatesBook(stored: Book, b: Book): Book {
    stored.(name := if b.name == "" then stored.name else b.name,
            year := if b.year == 0 then stored.year else b.year)
  }

  /**
   * UpdateBook: the stored book with this id takes the new name, unless it
   * is empty, and the new year, unless it is zero.
   */
  function UpdateBook(s: Store, b: Book, fault: Option<nat>): (r: Outcome)
    ensures r.ok <==> Clear(fault, 1)
    ensures r.store.books.Keys == s.books.Keys
    ensures r.store.(books := s.books) == s
    ensures r.ok && b.bookId in s.books ==>
      && r.store.books[b.bookId].bookId == s.books[b.bookId].bookId
      && r.store.books[b.bookId].name == (if b.name != "" then b.name else s.books[b.bookId].name)
      && r.store.books[b.bookId].year == (if b.year != 0 then b.year else s.books[b.bookId].year)
    ensures forall id :: id in s.books && (id != b.bookId || !r.ok) ==> r.store.books[id] == s.books[id]
  {
    if !Clear(fault, 1) then Outcome(s, false)
    else if b.bookId in s.books then Outcome(s.(books := s.books[b.bookId := UpdatesBook(s.books[b.bookId], b)]), true)
    else Outcome(s, true)
  }

  /** A book whose name and year are both set is stored exactly as given. */
  lemma {:induction false} UpdateBookStoresSetFields(s: Store, b: Book, fault: Option<nat>)
    requires Consistent(s)
    requires b.name != "" && b.year != 0 && b.bookId in s.books
    requires UpdateBook(s, b, fault).ok
    ensures UpdateBook(s, b, fault).store.books[b.bookId] == b
  {
    assert s.books[b.bookId].bookId == b.bookId;
  }

  lemma {:induction false} UpdateBookConsistent(s: Store, b: Book, fault: Option<nat>)
    requires Consistent(s)
    ensures Consistent(UpdateBook(s, b, fault).store)
  {
  }

  /**
   * DeleteBook: the delete cascades to the book's authorizations, titles,
   * transactions and legs. An empty id gives the delete no condition, which
   * the library refuses.
   */
  function DeleteBook(s: Store, bookId: BookId, fault: Option<nat>): (r: Outcome)
    ensures r.ok <==> bookId != "" && Clear(fault, 1)
    ensures !r.ok ==> r.store == s
    ensures r.ok ==> r.store == DropBook(s, bookId)
  {
    if bookId == "" || !Clear(fault, 1) then Outcome(s, false)
    else Outcome(DropBook(s, bookId), true)
  }

  lemma {:induction false} DeleteBookConsistent(s: Store, bookId: BookId, fault: Option<nat>)
    requires Consistent(s)
    ensures Consistent(DeleteBook(s, bookId, fault).store)
  {
    DropBookConsistent(s, bookId);
  }

  /** The title the carry-forward copies from `t` into book `newId`: the balance becomes the new base. */
  function CarriedTitle(t: AccountTitle, newId: BookId): (r: AccountTitle)
    ensures r.bookId == newId && r.name == t.name && r.accountType == t.accountType
    ensures r.amount == t.amount && r.amountBase == t.amount
  {
    AccountTitle(0, newId, t.name, t.amount, t.amount, t.accountType)
  }

  function Carried(olds: seq<AccountTitle>, newId: BookId): (r: seq<AccountTitle>)
    ensures |r| == |olds| && forall i :: 0 <= i < |r| ==> r[i] == CarriedTitle(olds[i], newId)
  {
    seq(|olds|, i requires 0 <= i < |olds| => CarriedTitle(olds[i], newId))
  }

  /** A batch insert of titles: row i takes id first + i of the sequence. */
  function InsertTitles(titles: map<nat, AccountTitle>, rows: seq<AccountTitle>, first: nat): (r: map<nat, AccountTitle>)
    ensures forall id :: id in r <==> id in titles || first <= id < first + |rows|
    ensures forall i :: 0 <= i < |rows| ==> r[first + i] == rows[i].(accountTitleId := first + i)
    ensures forall id :: id in titles && !(first <= id < first + |rows|) ==> r[id] == titles[id]
    decreases |rows|
  {
    if rows == [] then titles
    else
      var n := |rows| - 1;
      InsertTitles(titles, rows[..n], first)[first + n := rows[n].(accountTitleId := first + n)]
  }

  /** Row i of a batch insert is found under id first + i. */
  lemma {:induction false} InsertedAt(titles: map<nat, AccountTitle>, rows: seq<AccountTitle>, first: nat, i: nat)
    requires i < |rows|
    ensures var r := InsertTitles(titles, rows, first);
      first + i in r && r[first + i] == rows[i].(accountTitleId := first + i)
  {
  }

  /**
   * The tables once a carry-forward has gone through: the new book, and a
   * copy of every title of the old book inserted in one batch.
   */
  function CarriedInto(s: Store, newId: BookId, name: string, year: nat, oldBookId: BookId): Store {
    var olds := TitlesOf(s, oldBookId);
    s.(books := s.books[newId := Book(newId, name, year)],
       titles := InsertTitles(s.titles, Carried(olds, newId), s.nextTitleId),
       nextTitleId := s.nextTitleId + |olds|)
  }

  /**
   * CreateBookAndAccountTitleFromBook as written. The unit inserts the new
   * book (write 0). The grant for the creator (write 1) goes through the
   * outer connection, outside the unit, where the uncommitted book is not
   * visible: the grant's foreign key to the book refuses it, and the error
   * is discarded. The unit then inserts copies of the old book's titles in
   * one batch (write 2; the library refuses an empty batch) and commits
   * (write 3). The grant table never changes.
   */
  function CreateBookFromBook(s: Store, admin: UserId, newId: BookId, name: string, year: nat,
                              oldBookId: BookId, fault: Option<nat>): (r: Outcome)
    ensures !r.ok ==> r.store == s
    ensures r.ok ==> r.store == CarriedInto(s, newId, name, year, oldBookId)
    ensures r.ok <==> newId !in s.books && TitlesOf(s, oldBookId) != [] && Clear(fault, 1) && fault != Some(2) && fault != Some(3)
    ensures r.store.authorizations == s.authorizations
  {
    if newId in s.books || !Clear(fault, 1) then Outcome(s, false)
    else if TitlesOf(s, oldBookId) == [] || fault == Some(2) || fault == Some(3) then Outcome(s, false)
    else Outcome(CarriedInto(s, newId, name, year, oldBookId), true)
  }

  /**
   * The carry-forward as evidently intended: the grant written inside the
   * unit (write 1), as CreateBook does, so that it commits with the book.
   */
  function CreateBookFromBookGranted(s: Store, admin: UserId, newId: BookId, name: string, year: nat,
                                     oldBookId: BookId, fault: Option<nat>): (r: Outcome)
    ensures !r.ok ==> r.store == s
    ensures r.ok <==> newId !in s.books && (newId, admin) !in s.authorizations && TitlesOf(s, oldBookId) != [] && Clear(fault, 4)
    ensures r.ok ==> r.store == CarriedInto(s, newId, name, year, oldBookId)
                                  .(authorizations := s.authorizations[(newId, admin) := Authority.FullAuthority])
  {
    if newId in s.books || !Clear(fault, 1) then Outcome(s, false)
    else if (newId, admin) in s.authorizations || !Clear(fault, 2) then Outcome(s, false)
    else if TitlesOf(s, oldBookId) == [] || !Clear(fault, 4) then Outcome(s, false)
    else
      var r := CarriedInto(s, newId, name, year, oldBookId);
      Outcome(r.(authorizations := s.authorizations[(newId, admin) := Authority.FullAuthority]), true)
  }

  /**
   * The carry-forward: every title of the old book has a counterpart in the
   * new book with the same name and type, whose balance and base are the old
   * balance; the titles that were there keep their values.
   */
  lemma {:induction false} CarryForward(s: Store, newId: BookId, name: string, year: nat, oldBookId: BookId, id: nat)
    requires Consistent(s)
    requires id in s.titles && s.titles[id].bookId == oldBookId
    ensures var r := CarriedInto(s, newId, name, year, oldBookId);
      && (forall k :: k in s.titles ==> k in r.titles && r.titles[k] == s.titles[k])
      && exists n :: n in r.titles && r.titles[n] == CarriedTitle(s.titles[id], newId).(accountTitleId := n)
  {
    var r := CarriedInto(s, newId, name, year, oldBookId);
    var olds := TitlesOf(s, oldBookId);
    var rows := Carried(olds, newId);
    assert r.titles == InsertTitles(s.titles, rows, s.nextTitleId);
    TitlesOfComplete(s, oldBookId, id);
    var i :| 0 <= i < |olds| && olds[i] == s.titles[id];
    InsertedAt(s.titles, rows, s.nextTitleId, i);
  }

  /**
   * As written, the carry-forward leaves its creator without a grant on the
   * new book: in a consistent store no grant names a book that does not
   * exist yet, and the carry-forward writes none.
   */
  lemma {:induction false} CarryForwardWithoutGrant(s: Store, admin: UserId, newId: BookId, name: string, year: nat,
                                                    oldBookId: BookId, fault: Option<nat>)
    requires Consistent(s)
    requires CreateBookFromBook(s, admin, newId, name, year, oldBookId, fault).ok
    ensures var r := CreateBookFromBook(s, admin, newId, name, year, oldBookId, fault).store;
      newId in r.books && (newId, admin) !in r.authorizations
  {
    assert (newId, admin) !in s.authorizations;
  }

  /** With the grant inside the unit, the creator holds the full grant on the new book. */
  lemma {:induction false} CarryForwardGrantedGrantsCreator(s: Store, admin: UserId, newId: BookId, name: string, year: nat,
                                                            oldBookId: BookId, fault: Option<nat>, op: Authority.Operation)
    requires CreateBookFromBookGranted(s, admin, newId, name, year, oldBookId, fault).ok
    ensures var r := CreateBookFromBookGranted(s, admin, newId, name, year, oldBookId, fault).store;
      && newId in r.books && (newId, admin) in r.authorizations
      && Authority.Allows(r.authorizations[(newId, admin)], Authority.Required(op))
  {
    Authority.FullAuthorityAllowsAll(op);
  }

  /** A carry-forward that goes through keeps the store consistent. */
  lemma {:induction false} CarriedIntoConsistent(s: Store, newId: BookId, name: string, year: nat, oldBookId: BookId)
    requires Consistent(s) && newId !in s.books
    ensures Consistent(CarriedInto(s, newId, name, year, oldBookId))
  {
    var rows := Carried(TitlesOf(s, oldBookId), newId);
    var books := s.books[newId := Book(newId, name, year)];
    var r := CarriedInto(s, newId, name, year, oldBookId);
    assert r.titles == InsertTitles(s.titles, rows, s.nextTitleId) && r.books == books;
    assert r.nextTitleId == s.nextTitleId + |rows|;
    InsertedTitlesKeyed(s, rows, newId, books);
    InsertedTitlesKeepLegs(s, rows);
  }

  lemma {:induction false} CreateBookFromBookConsistent(s: Store, admin: UserId, newId: BookId, name: string, year: nat,
                                     oldBookId: BookId, fault: Option<nat>)
    requires Consistent(s)
    ensures Consistent(CreateBookFromBook(s, admin, newId, name, year, oldBookId, fault).store)
  {
    if CreateBookFromBook(s, admin, newId, name, year, oldBookId, fault).ok {
      CarriedIntoConsistent(s, newId, name, year, oldBookId);
    }
  }

  lemma {:induction false} CreateBookFromBookGrantedConsistent(s: Store, admin: UserId, newId: BookId, name: string, year: nat,
                                            oldBookId: BookId, fault: Option<nat>)
    requires Consistent(s)
    ensures Consistent(CreateBookFromBookGranted(s, admin, newId, name, year, oldBookId, fault).store)
  {
    if CreateBookFromBookGranted(s, admin, newId, name, year, oldBookId, fault).ok {
      CarriedIntoConsistent(s, newId, name, year, oldBookId);
    }
  }

  /** The inserted titles are keyed by their new ids, below the advanced sequence, in an existing book. */
  lemma {:induction false} InsertedTitlesKeyed(s: Store, rows: seq<AccountTitle>, newId: BookId, books: map<BookId, Book>)
    requires Consistent(s)
    requires forall i :: 0 <= i < |rows| ==> rows[i].bookId == newId
    requires newId in books && s.books.Keys <= books.Keys
    ensures var titles := InsertTitles(s.titles, rows, s.nextTitleId);
      forall id :: id in titles ==>
        titles[id].accountTitleId == id && 0 < id < s.nextTitleId + |rows| && titles[id].bookId in books
  {
    var first := s.nextTitleId;
    var titles := InsertTitles(s.titles, rows, first);
    forall id | id in titles
      ensures titles[id].accountTitleId == id && 0 < id < first + |rows| && titles[id].bookId in books
    {
      if first <= id {
        InsertedAt(s.titles, rows, first, id - first);
      }
    }
  }

  /** Inserting titles above the sequence leaves every stored leg's foreign key intact. */
  lemma {:induction false} InsertedTitlesKeepLegs(s: Store, rows: seq<AccountTitle>)
    requires Consistent(s)
    ensures forall k :: k in s.transactions ==>
      LegsInBook(InsertTitles(s.titles, rows, s.nextTitleId), s.transactions[k].subTransactions, k.0)
  {
    var titles := InsertTitles(s.titles, rows, s.nextTitleId);
    forall k: (BookId, nat) | k in s.transactions
      ensures LegsInBook(titles, s.transactions[k].subTransactions, k.0)
    {
      var legs := s.transactions[k].subTransactions;
      assert LegsInBook(s.titles, legs, k.0);
      forall x | x in legs ensures titles[x.accountTitleId] == s.titles[x.accountTitleId] {
        assert x.accountTitleId < s.nextTitleId;
      }
    }
  }

  // ---------------------------------------------------------------------
  // Account titles
  // ---------------------------------------------------------------------

  /**
   * CreateAccountTitle: one insert; the new title takes the next id of the
   * sequence, and the foreign key wants its book to exist.
   */
  function CreateAccountTitle(s: Store, t: AccountTitle, fault: Option<nat>): (r: Outcome)
    ensures r.ok <==> t.bookId in s.books && Clear(fault, 1)
    ensures !r.ok ==> r.store == s
    ensures r.ok ==> && r.store.titles == s.titles[s.nextTitleId := t.(accountTitleId := s.nextTitleId)]
                     && r.store.nextTitleId == s.nextTitleId + 1
  {
    if t.bookId !in s.books || !Clear(fault, 1) then Outcome(s, false)
    else Outcome(s.(titles := s.titles[s.nextTitleId := t.(accountTitleId := s.nextTitleId)],
                    nextTitleId := s.nextTitleId + 1), true)
  }

  lemma {:induction false} CreateAccountTitleConsistent(s: Store, t: AccountTitle, fault: Option<nat>)
    requires Consistent(s)
    ensures Consistent(CreateAccountTitle(s, t, fault).store)
  {
    var r := CreateAccountTitle(s, t, fault);
    if r.ok {
      forall k: (BookId, nat) | k in r.store.transactions
        ensures LegsInBook(r.store.titles, r.store.transactions[k].subTransactions, k.0)
      {
        var legs := s.transactions[k].subTransactions;
        assert LegsInBook(s.titles, legs, k.0);
        forall x | x in legs ensures r.store.titles[x.accountTitleId] == s.titles[x.accountTitleId] {
          assert x.accountTitleId < s.nextTitleId;
        }
      }
    }
  }

  /**
   * UpdateAccountTitle: every column of the title matched by (id, book) is
   * overwritten, the balance included; no match changes nothing.
   */
  function UpdateAccountTitle(s: Store, t: AccountTitle, fault: Option<nat>): (r: Outcome)
    ensures r.ok <==> Clear(fault, 1)
    ensures r.store.titles.Keys == s.titles.Keys && r.store.(titles := s.titles) == s
    ensures forall id :: id in s.titles && (id != t.accountTitleId || !r.ok) ==> r.store.titles[id] == s.titles[id]
    ensures r.ok && t.accountTitleId in s.titles ==>
      r.store.titles[t.accountTitleId] == (if s.titles[t.accountTitleId].bookId == t.bookId then t else s.titles[t.accountTitleId])
  {
    if !Clear(fault, 1) then Outcome(s, false)
    else if t.accountTitleId in s.titles && s.titles[t.accountTitleId].bookId == t.bookId then
      Outcome(s.(titles := s.titles[t.accountTitleId := t]), true)
    else Outcome(s, true)
  }

  lemma {:induction false} UpdateAccountTitleConsistent(s: Store, t: AccountTitle, fault: Option<nat>)
    requires Consistent(s)
    ensures Consistent(UpdateAccountTitle(s, t, fault).store)
  {
    var r := UpdateAccountTitle(s, t, fault);
    forall k: (BookId, nat) | k in r.store.transactions
      ensures LegsInBook(r.store.titles, r.store.transactions[k].subTransactions, k.0)
    {
      var legs := s.transactions[k].subTransactions;
      assert LegsInBook(s.titles, legs, k.0);
    }
  }

  /**
   * DeleteAccountTitle: the delete is conditioned on the id alone, whatever
   * book the request came through; the cascade removes the legs that
   * reference the title. Id 0 leaves the delete without a condition, which
   * the library refuses.
   */
  function DeleteAccountTitle(s: Store, id: nat, fault: Option<nat>): (r: Outcome)
    ensures r.ok <==> id != 0 && Clear(fault, 1)
    ensures !r.ok ==> r.store == s
    ensures r.ok ==> r.store == DropTitle(s, id)
  {
    if id == 0 || !Clear(fault, 1) then Outcome(s, false)
    else Outcome(DropTitle(s, id), true)
  }

  /** The delete is not scoped to the book: a title of any book goes, by its id alone. */
  lemma {:induction false} DeleteAccountTitleUnscoped(s: Store, id: nat, fault: Option<nat>)
    requires id in s.titles && id != 0 && Clear(fault, 1)
    ensures var r := DeleteAccountTitle(s, id, fault);
      r.ok && id !in r.store.titles
  {
  }

  lemma {:induction false} DeleteAccountTitleConsistent(s: Store, id: nat, fault: Option<nat>)
    requires Consistent(s)
    ensures Consistent(DeleteAccountTitle(s, id, fault).store)
  {
    DropTitleConsistent(s, id);
  }
}
