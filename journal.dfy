/**
 * The posting engine of crud/transaction.go: CreateTransaction,
 * UpdateTransaction and DeleteTransaction as functions from the state
 * before them to their outcome, and the laws that relate them.
 */
module Journal {
  import opened Models
  import opened Posting
  import opened Queries
  import opened Ledger

  // ---------------------------------------------------------------------
  // Foreign keys under posting
  // ---------------------------------------------------------------------

  /** Posting changes amounts only, so the leg foreign keys that held still hold. */
  lemma {:induction false} LegsInBookAfterPosting(titles: map<nat, AccountTitle>, posted: map<nat, AccountTitle>,
                               legs: seq<SubTransaction>, bookId: BookId)
    requires posted.Keys == titles.Keys
    requires forall id :: id in posted ==> SameExceptAmount(posted[id], titles[id])
    ensures LegsInBook(posted, legs, bookId) <==> LegsInBook(titles, legs, bookId)
  {
  }

  /** Legs that post alike name the same accounts, so they satisfy the same foreign key. */
  lemma {:induction false} LegsInBookAlike(titles: map<nat, AccountTitle>, a: seq<SubTransaction>, b: seq<SubTransaction>, bookId: BookId)
    requires SamePostings(a, b)
    ensures LegsInBook(titles, a, bookId) <==> LegsInBook(titles, b, bookId)
  {
    assert forall x :: x in a ==> exists i :: 0 <= i < |a| && a[i] == x && SamePosting(x, b[i]);
    assert forall x :: x in b ==> exists i :: 0 <= i < |b| && b[i] == x && SamePosting(a[i], x);
  }

  /** Replacing the titles by posted ones keeps a consistent store consistent. */
  lemma {:induction false} PostedConsistent(s: Store, posted: map<nat, AccountTitle>)
    requires Consistent(s)
    requires posted.Keys == s.titles.Keys
    requires forall id :: id in posted ==> SameExceptAmount(posted[id], s.titles[id])
    ensures Consistent(s.(titles := posted))
  {
    forall k: (BookId, nat) | k in s.transactions
      ensures LegsInBook(posted, s.transactions[k].subTransactions, k.0)
    {
      LegsInBookAfterPosting(s.titles, posted, s.transactions[k].subTransactions, k.0);
    }
  }

  /** Storing a transaction under its own key, with legs of its book, keeps the store consistent. */
  lemma {:induction false} StoredConsistent(s: Store, k: (BookId, nat), t: Transaction, next: nat)
    requires Consistent(s)
    requires StoredUnder(t, k) && 0 < k.1 < next && s.nextTransactionId <= next && k.0 in s.books
    requires LegsInBook(s.titles, t.subTransactions, k.0)
    ensures Consistent(s.(transactions := s.transactions[k := t], nextTransactionId := next))
  {
  }

  // ---------------------------------------------------------------------
  // CreateTransaction
  // ---------------------------------------------------------------------

  /**
   * The legs as the insert stores them: homed to the new transaction, those
   * submitted without an id numbered from the leg sequence.
   */
  function NewLegs(s: Store, t: Transaction): (r: seq<SubTransaction>)
    ensures SamePostings(r, t.subTransactions)
    ensures LegsBelongTo(r, t.bookId, s.nextTransactionId)
  {
    Numbered(Attached(t.subTransactions, t.bookId, s.nextTransactionId), s.nextSubTransactionId)
  }

  /**
   * CreateTransaction(t) at instant `now`. Write 0 inserts the transaction
   * with its legs; its foreign keys want the book and, for each leg, a title
   * of that book, and the legs' primary keys must differ. Writes 1 .. |legs| save each leg's account after posting
   * the leg (the account is looked up by id alone, which the foreign key
   * makes succeed). Write |legs| + 1 is the commit.
   */
  function CreateTransaction(s: Store, t: Transaction, now: int, fault: Option<nat>): (r: Outcome)
    ensures !r.ok ==> r.store == s
    ensures r.ok ==> r.store == Created(s, t, now)
    ensures r.ok <==>
      && t.bookId in s.books && (t.bookId, s.nextTransactionId) !in s.transactions
      && LegsInBook(s.titles, t.subTransactions, t.bookId)
      && DistinctLegIds(NewLegs(s, t))
      && Clear(fault, |t.subTransactions| + 2)
  {
    var id := s.nextTransactionId;
    var legs := NewLegs(s, t);
    LegsInBookAlike(s.titles, legs, t.subTransactions, t.bookId);
    if t.bookId !in s.books || (t.bookId, id) in s.transactions || !LegsInBook(s.titles, legs, t.bookId)
       || !DistinctLegIds(legs) || !Clear(fault, 1) then
      Outcome(s, false)
    else if !Clear(fault, |legs| + 2) then
      Outcome(s, false)
    else
      Outcome(Created(s, t, now), true)
  }

  /** The tables once CreateTransaction has gone through. */
  function Created(s: Store, t: Transaction, now: int): Store {
    var id := s.nextTransactionId;
    var legs := NewLegs(s, t);
    s.(transactions := s.transactions[(t.bookId, id) := Transaction(id, t.bookId, t.description, t.occurredAt, now, legs)],
       titles := PostLegs(s.titles, legs, Post),
       nextTransactionId := id + 1,
       nextSubTransactionId := s.nextSubTransactionId + Drawn(t.subTransactions))
  }

  /** A created transaction whose legs all name accounts of its book keeps the store consistent. */
  lemma {:induction false} CreatedConsistent(s: Store, t: Transaction, now: int)
    requires Consistent(s)
    requires t.bookId in s.books && (t.bookId, s.nextTransactionId) !in s.transactions
    requires LegsInBook(s.titles, t.subTransactions, t.bookId)
    ensures Consistent(Created(s, t, now))
  {
    var id := s.nextTransactionId;
    var legs := NewLegs(s, t);
    var posted := PostLegs(s.titles, legs, Post);
    var tx := Transaction(id, t.bookId, t.description, t.occurredAt, now, legs);
    var mid := s.(titles := posted);
    assert Consistent(mid) by { PostedConsistent(s, posted); }
    assert LegsInBook(mid.titles, legs, t.bookId) by {
      LegsInBookAlike(s.titles, legs, t.subTransactions, t.bookId);
      LegsInBookAfterPosting(s.titles, posted, legs, t.bookId);
    }
    StoredConsistent(mid, (t.bookId, id), tx, id + 1);
    assert Created(s, t, now) == mid.(transactions := mid.transactions[(t.bookId, id) := tx], nextTransactionId := id + 1)
                                    .(nextSubTransactionId := s.nextSubTransactionId + Drawn(t.subTransactions));
  }

  lemma {:induction false} CreateTransactionConsistent(s: Store, t: Transaction, now: int, fault: Option<nat>)
    requires Consistent(s)
    ensures Consistent(CreateTransaction(s, t, now, fault).store)
  {
    if CreateTransaction(s, t, now, fault).ok {
      CreatedConsistent(s, t, now);
    }
  }

  /**
   * The balances after a created transaction: every account keeps its name,
   * type and base, and its Amount moves by the net of the legs that name it,
   * wrapped to int64.
   */
  lemma {:induction false} CreateTransactionMoves(s: Store, t: Transaction, now: int, id: nat)
    requires id in s.titles
    ensures var r := Created(s, t, now);
      && id in r.titles && SameExceptAmount(r.titles[id], s.titles[id])
      && r.titles[id].amount == Wrap(s.titles[id].amount + NetOn(t.subTransactions, id, s.titles[id].accountType, Post))
  {
    var legs := NewLegs(s, t);
    var p1 := PostLegs(s.titles, legs, Post);
    var p2 := PostLegs(s.titles, t.subTransactions, Post);
    assert Created(s, t, now).titles == p1;
    assert p1[id] == p2[id] by {
      SamePostingsPostAlikeOn(s.titles, legs, t.subTransactions, Post, id);
    }
    assert p2[id].amount == Wrap(s.titles[id].amount + NetOn(t.subTransactions, id, s.titles[id].accountType, Post)) by {
      PostLegsEffectOn(s.titles, t.subTransactions, Post, id);
    }
  }

  /** An account that no leg names is left exactly as it was. */
  lemma {:induction false} CreateTransactionFrame(s: Store, t: Transaction, now: int, id: nat)
    requires id in s.titles
    requires forall x :: x in t.subTransactions ==> x.accountTitleId != id
    ensures var r := Created(s, t, now);
      id in r.titles && r.titles[id] == s.titles[id]
  {
    SamePostingsPostAlikeOn(s.titles, NewLegs(s, t), t.subTransactions, Post, id);
    PostLegsFrame(s.titles, t.subTransactions, Post, id);
  }

  /**
   * The foreign key confines a posting to its own book: when every leg
   * names a title of the transaction's book, the titles of every other book
   * are untouched.
   */
  lemma {:induction false} CreateTransactionStaysInBook(s: Store, t: Transaction, now: int, id: nat)
    requires LegsInBook(s.titles, t.subTransactions, t.bookId)
    requires id in s.titles && s.titles[id].bookId != t.bookId
    ensures var r := Created(s, t, now);
      id in r.titles && r.titles[id] == s.titles[id]
  {
    var legs := NewLegs(s, t);
    LegsInBookAlike(s.titles, legs, t.subTransactions, t.bookId);
    PostLegsFrame(s.titles, legs, Post, id);
  }

  /**
   * A balanced transaction (debits total credits) whose legs name titles of
   * its book leaves the parity-weighted total of the book's accounts where
   * it was, modulo 2^64.
   */
  lemma {:induction false} BalancedTransactionKeepsBookTotal(s: Store, t: Transaction, now: int)
    requires Consistent(s)
    requires LegsInBook(s.titles, t.subTransactions, t.bookId)
    requires DebitMinusCredit(t.subTransactions) == 0
    ensures var r := Created(s, t, now);
      var ids := TitleIds(s.titles, t.bookId, s.nextTitleId);
      && (forall id :: id in ids ==> id in r.titles)
      && Wrap(WeightedTotal(r.titles, ids)) == Wrap(WeightedTotal(s.titles, ids))
  {
    var ids := TitleIds(s.titles, t.bookId, s.nextTitleId);
    SamePostingsPostAlike(s.titles, NewLegs(s, t), t.subTransactions, Post);
    assert forall x :: x in t.subTransactions ==> x.accountTitleId in ids;
    BalancedPostingKeepsWeightedTotal(s.titles, t.subTransactions, ids);
  }

  // ---------------------------------------------------------------------
  // DeleteTransaction
  // ---------------------------------------------------------------------

  /**
   * DeleteTransaction(book, id). The transaction is looked up by (book, id)
   * (with id 0, the book's first). Writes 0 .. |legs| - 1 save each leg's
   * account after reversing the leg; a leg whose account is missing aborts.
   * Write |legs| deletes the legs (an empty list leaves that delete without
   * a condition, which the library refuses), write |legs| + 1 the
   * transaction, write |legs| + 2 is the commit.
   */
  function DeleteTransaction(s: Store, bookId: BookId, id: nat, fault: Option<nat>): (r: Outcome)
    ensures !r.ok ==> r.store == s
    ensures r.ok <==>
      && FindTransactionId(s, bookId, id).Some?
      && var legs := s.transactions[(bookId, FindTransactionId(s, bookId, id).value)].subTransactions;
         legs != [] && Resolves(s.titles, legs) && Clear(fault, |legs| + 3)
    ensures r.ok ==> r.store == Deleted(s, (bookId, FindTransactionId(s, bookId, id).value))
  {
    match FindTransactionId(s, bookId, id)
    case None => Outcome(s, false)
    case Some(k) =>
      var legs := s.transactions[(bookId, k)].subTransactions;
      if !Resolves(s.titles, legs) || !Clear(fault, |legs|) then Outcome(s, false)
      else if legs == [] || !Clear(fault, |legs| + 3) then Outcome(s, false)
      else Outcome(Deleted(s, (bookId, k)), true)
  }

  /** The tables once the transaction under key k has been deleted: its legs reversed, it and its legs gone. */
  function Deleted(s: Store, k: (BookId, nat)): Store
    requires k in s.transactions
  {
    s.(transactions := s.transactions - {k},
       titles := PostLegs(s.titles, s.transactions[k].subTransactions, Reverse))
  }

  /** A missing transaction is an error, and nothing changes. */
  lemma {:induction false} DeleteMissingFails(s: Store, bookId: BookId, id: nat, fault: Option<nat>)
    requires id != 0 && (bookId, id) !in s.transactions
    ensures DeleteTransaction(s, bookId, id, fault) == Outcome(s, false)
  {
  }

  lemma {:induction false} DeleteTransactionConsistent(s: Store, bookId: BookId, id: nat, fault: Option<nat>)
    requires Consistent(s)
    ensures Consistent(DeleteTransaction(s, bookId, id, fault).store)
  {
    var r := DeleteTransaction(s, bookId, id, fault);
    if r.ok {
      var k := (bookId, FindTransactionId(s, bookId, id).value);
      PostedConsistent(s, PostLegs(s.titles, s.transactions[k].subTransactions, Reverse));
    }
  }

  /** The delete effect undoes the create effect: balances and transactions are back where they were. */
  lemma {:induction false} DeleteUndoesCreate(s: Store, t: Transaction, now: int)
    requires Consistent(s)
    ensures var s1 := Created(s, t, now);
      var k := (t.bookId, s.nextTransactionId);
      k in s1.transactions && Deleted(s1, k).titles == s.titles && Deleted(s1, k).transactions == s.transactions
  {
    var s1 := Created(s, t, now);
    var k := (t.bookId, s.nextTransactionId);
    var legs := NewLegs(s, t);
    assert k !in s.transactions;
    assert s1.transactions[k].subTransactions == legs;
    assert Deleted(s1, k).titles == s.titles by {
      Undo(s.titles, legs, Post);
    }
    assert s1.transactions - {k} == s.transactions;
  }

  /**
   * Deleting a transaction right after creating it restores every balance
   * and the transaction table.
   */
  lemma {:induction false} DeleteAfterCreateRestores(s: Store, t: Transaction, now: int, f1: Option<nat>, f2: Option<nat>)
    requires Consistent(s)
    requires CreateTransaction(s, t, now, f1).ok
    requires DeleteTransaction(CreateTransaction(s, t, now, f1).store, t.bookId, s.nextTransactionId, f2).ok
    ensures var r := DeleteTransaction(CreateTransaction(s, t, now, f1).store, t.bookId, s.nextTransactionId, f2).store;
      r.titles == s.titles && r.transactions == s.transactions && r.books == s.books
  {
    var s1 := Created(s, t, now);
    DeleteUndoesCreate(s, t, now);
    assert FindTransactionId(s1, t.bookId, s.nextTransactionId) == Some(s.nextTransactionId);
  }

  // ---------------------------------------------------------------------
  // UpdateTransaction
  // ---------------------------------------------------------------------

  /**
   * UpdateTransaction(t), where t is the stored transaction with the
   * request's fields merged in. The transaction is looked up by (book, id).
   * Writes 0 .. |old| - 1 save each account after reversing an old leg;
   * writes |old| .. |old| + |new| - 1 store the new legs (their foreign key
   * wants titles of the book); write |old| + |new| updates the transaction;
   * the next |new| save each account after posting a new leg; the last is
   * the commit.
   */
  function UpdateTransaction(s: Store, t: Transaction, fault: Option<nat>): (r: Outcome)
    ensures !r.ok ==> r.store == s
    ensures FindTransactionId(s, t.bookId, t.transactionId).None? ==> !r.ok
    ensures r.ok ==> r.store == Updated(s, t, FindTransactionId(s, t.bookId, t.transactionId).value)
    ensures r.ok <==>
      && FindTransactionId(s, t.bookId, t.transactionId).Some?
      && var k := FindTransactionId(s, t.bookId, t.transactionId).value;
         var olds := s.transactions[(t.bookId, k)].subTransactions;
         && Resolves(s.titles, olds)
         && LegsInBook(s.titles, t.subTransactions, t.bookId)
         && Clear(fault, |olds| + 2 * |t.subTransactions| + 2)
  {
    match FindTransactionId(s, t.bookId, t.transactionId)
    case None => Outcome(s, false)
    case Some(k) => UpdateAt(s, t, k, fault)
  }

  /** UpdateTransaction once the stored transaction has been found under (book, k). */
  function UpdateAt(s: Store, t: Transaction, k: nat, fault: Option<nat>): (r: Outcome)
    requires (t.bookId, k) in s.transactions
    ensures !r.ok ==> r.store == s
    ensures r.ok ==> r.store == Updated(s, t, k)
    ensures r.ok <==>
      var olds := s.transactions[(t.bookId, k)].subTransactions;
      && Resolves(s.titles, olds)
      && LegsInBook(s.titles, t.subTransactions, t.bookId)
      && Clear(fault, |olds| + 2 * |t.subTransactions| + 2)
  {
    var olds := s.transactions[(t.bookId, k)].subTransactions;
    var news := Attached(t.subTransactions, t.bookId, k);
    LegsInBookAlike(s.titles, news, t.subTransactions, t.bookId);
    if !Resolves(s.titles, olds) || !Clear(fault, |olds|) then Outcome(s, false)
    else if !LegsInBook(s.titles, news, t.bookId) || !Clear(fault, |olds| + 2 * |news| + 2) then Outcome(s, false)
    else Outcome(Updated(s, t, k), true)
  }

  /**
   * The record as the update writes it: GORM's Updates with a struct skips
   * its zero fields, so an empty description or a zero occurrence time
   * keeps the stored one; the legs become `news`.
   */
  function Rewritten(stored: Transaction, t: Transaction, news: seq<SubTransaction>): (r: Transaction)
    ensures r.transactionId == stored.transactionId && r.bookId == stored.bookId && r.createdAt == stored.createdAt
    ensures r.description == (if t.description != "" then t.description else stored.description)
    ensures r.occurredAt == (if t.occurredAt != 0 then t.occurredAt else stored.occurredAt)
    ensures r.subTransactions == news
  {
    var description := if t.description == "" then stored.description else t.description;
    var occurredAt := if t.occurredAt == 0 then stored.occurredAt else t.occurredAt;
    stored.(description := description, occurredAt := occurredAt, subTransactions := news)
  }

  /**
   * The tables once the transaction under (book, k) has been updated from
   * t: old legs reversed, new legs posted, the record rewritten.
   */
  function Updated(s: Store, t: Transaction, k: nat): Store
    requires (t.bookId, k) in s.transactions
  {
    var stored := s.transactions[(t.bookId, k)];
    var news := Attached(t.subTransactions, t.bookId, k);
    s.(transactions := s.transactions[(t.bookId, k) := Rewritten(stored, t, news)],
       titles := PostLegs(PostLegs(s.titles, stored.subTransactions, Reverse), news, Post))
  }

  lemma {:induction false} UpdateTransactionConsistent(s: Store, t: Transaction, fault: Option<nat>)
    requires Consistent(s)
    ensures Consistent(UpdateTransaction(s, t, fault).store)
  {
    var r := UpdateTransaction(s, t, fault);
    if r.ok {
      var k := FindTransactionId(s, t.bookId, t.transactionId).value;
      var stored := s.transactions[(t.bookId, k)];
      var news := Attached(t.subTransactions, t.bookId, k);
      var mid := PostLegs(s.titles, stored.subTransactions, Reverse);
      var posted := PostLegs(mid, news, Post);
      assert forall id :: id in posted ==> SameExceptAmount(posted[id], s.titles[id]);
      PostedConsistent(s, posted);
      LegsInBookAlike(s.titles, news, t.subTransactions, t.bookId);
      LegsInBookAfterPosting(s.titles, posted, news, t.bookId);
      var tx := Rewritten(stored, t, news);
      assert StoredUnder(stored, (t.bookId, k));
      assert StoredUnder(tx, (t.bookId, k));
      StoredConsistent(s.(titles := posted), (t.bookId, k), tx, s.nextTransactionId);
      assert r.store == s.(titles := posted).(transactions := s.transactions[(t.bookId, k) := tx], nextTransactionId := s.nextTransactionId);
    }
  }

  /**
   * The balances after an update: each account keeps name, type and base,
   * and moves by the net of the new legs minus the net of the old ones,
   * wrapped to int64.
   */
  lemma {:induction false} UpdateTransactionMoves(s: Store, t: Transaction, k: nat, id: nat)
    requires (t.bookId, k) in s.transactions
    requires id in s.titles
    ensures var olds := s.transactions[(t.bookId, k)].subTransactions;
      var r := Updated(s, t, k);
      var ty := s.titles[id].accountType;
      && id in r.titles && SameExceptAmount(r.titles[id], s.titles[id])
      && r.titles[id].amount == Wrap(s.titles[id].amount + NetOn(t.subTransactions, id, ty, Post) - NetOn(olds, id, ty, Post))
  {
    var olds := s.transactions[(t.bookId, k)].subTransactions;
    var news := Attached(t.subTransactions, t.bookId, k);
    var mid := PostLegs(s.titles, olds, Reverse);
    assert Updated(s, t, k).titles == PostLegs(mid, news, Post);
    SamePostingsPostAlikeOn(mid, news, t.subTransactions, Post, id);
    RepostMoves(s.titles, olds, t.subTransactions, id);
  }

  /** An update that posts the same legs as before leaves every balance where it started. */
  lemma {:induction false} UpdateKeepingLegsRestoresBalances(s: Store, t: Transaction, k: nat)
    requires (t.bookId, k) in s.transactions
    requires SamePostings(t.subTransactions, s.transactions[(t.bookId, k)].subTransactions)
    ensures Updated(s, t, k).titles == s.titles
  {
    var olds := s.transactions[(t.bookId, k)].subTransactions;
    var news := Attached(t.subTransactions, t.bookId, k);
    var mid := PostLegs(s.titles, olds, Reverse);
    assert Updated(s, t, k).titles == PostLegs(mid, news, Post);
    assert SamePostings(news, olds);
    SamePostingsPostAlike(mid, news, olds, Post);
    Undo(s.titles, olds, Reverse);
  }
}
