/**
 * The five transaction handlers of endpoints/transactions.go: the guard,
 * the request, the BookId stamped onto every submitted leg, and the hand-over
 * to the posting engine. A request body the binder cannot decode is `None`.
 */
module TransactionEndpoints {
  import opened Models
  import opened Gate
  import Authority
  import Journal
  import Queries
  import Paging
  import Numbers
  import Crud

  /**
   * The body of POST .../transaction. `occurredAt` is None when the field is
   * missing or the zero time, and `subTransactions` when the list is missing.
   */
  datatype NewTransaction = NewTransaction(description: string, occurredAt: Option<int>,
                                           subTransactions: Option<seq<SubTransaction>>)

  /** The body of PATCH .../transaction/{tid}: each field may be absent. */
  datatype TransactionPatch = TransactionPatch(description: Option<string>, occurredAt: Option<int>,
                                               subTransactions: Option<seq<SubTransaction>>)

  /** The `binding:"required"` check: a description, a time and a list of legs. */
  predicate BindsNewTransaction(body: Option<NewTransaction>) {
    body.Some? && body.value.description != "" && body.value.occurredAt.Some? && body.value.subTransactions.Some?
  }

  const BadTransactionId: string := "Transaction ID is invalid"

  /** The page size of the listing. */
  const PageSize: Int64 := 20

  /** The zero transaction: what the update goes on with when its lookup fails. */
  const ZeroTransaction: Transaction := Transaction(0, "", "", 0, 0, [])

  // ---------------------------------------------------------------------
  // Stamping the book onto the legs
  // ---------------------------------------------------------------------

  /** The legs with the path's book written into each. */
  function Stamped(legs: seq<SubTransaction>, bookId: BookId): seq<SubTransaction> {
    seq(|legs|, i requires 0 <= i < |legs| => legs[i].(bookId := bookId))
  }

  /**
   * Stamping sets the book of every leg and nothing else: the postings, the
   * leg ids and the transaction ids stay, and a second stamp changes nothing.
   */
  lemma {:induction false} StampedSetsBook(legs: seq<SubTransaction>, bookId: BookId)
    ensures var r := Stamped(legs, bookId);
      && SamePostings(r, legs)
      && (forall x :: x in r ==> x.bookId == bookId)
      && (forall i :: 0 <= i < |r| ==> r[i].subTransactionId == legs[i].subTransactionId
                                        && r[i].transactionId == legs[i].transactionId)
      && Stamped(r, bookId) == r
  {
    var r := Stamped(legs, bookId);
    forall x | x in r ensures x.bookId == bookId {
      var i :| 0 <= i < |r| && r[i] == x;
    }
  }

  /**
   * The posting engine attaches every leg to its transaction anyway: the
   * legs it stores are the same whether or not the handler stamped them.
   */
  lemma {:induction false} StampThenAttach(legs: seq<SubTransaction>, bookId: BookId, transactionId: nat)
    ensures Attached(Stamped(legs, bookId), bookId, transactionId) == Attached(legs, bookId, transactionId)
  {
    var a := Attached(Stamped(legs, bookId), bookId, transactionId);
    var b := Attached(legs, bookId, transactionId);
    assert |a| == |b|;
    forall i | 0 <= i < |a| ensures a[i] == b[i] {
      assert SamePosting(a[i], legs[i]) && SamePosting(b[i], legs[i]);
    }
  }

  /** The loop `for idx := range legs { legs[idx].BookId = bookId }`, in place. */
  method StampBookId(legs: array<SubTransaction>, bookId: BookId)
    modifies legs
    ensures legs[..] == Stamped(old(legs[..]), bookId)
  {
    for i := 0 to legs.Length
      invariant forall j :: 0 <= j < i ==> legs[j] == old(legs[j]).(bookId := bookId)
      invariant forall j :: i <= j < legs.Length ==> legs[j] == old(legs[j])
    {
      legs[i] := legs[i].(bookId := bookId);
    }
  }

  /** The submitted legs, stamped in place in a slice of their own. */
  method StampLegs(submitted: seq<SubTransaction>, bookId: BookId) returns (legs: seq<SubTransaction>)
    ensures legs == Stamped(submitted, bookId)
  {
    var slice := new SubTransaction[|submitted|](i requires 0 <= i < |submitted| => submitted[i]);
    assert slice[..] == submitted;
    StampBookId(slice, bookId);
    legs := slice[..];
  }

  /** The loaded transaction with the supplied fields of the patch written over it; new legs are stamped. */
  function MergeTransaction(t: Transaction, p: TransactionPatch, bookId: BookId): Transaction {
    t.(description := p.description.GetOr(t.description),
       occurredAt := p.occurredAt.GetOr(t.occurredAt),
       subTransactions := if p.subTransactions.Some? then Stamped(p.subTransactions.value, bookId) else t.subTransactions)
  }

  /**
   * A patch replaces exactly the supplied fields. The keys of the loaded
   * transaction are never touched, so the update looks up the row it loaded.
   */
  lemma {:induction false} MergeTransactionSetsSupplied(t: Transaction, p: TransactionPatch, bookId: BookId)
    ensures var r := MergeTransaction(t, p, bookId);
      && r.transactionId == t.transactionId && r.bookId == t.bookId && r.createdAt == t.createdAt
      && (r.description == if p.description.Some? then p.description.value else t.description)
      && (r.occurredAt == if p.occurredAt.Some? then p.occurredAt.value else t.occurredAt)
      && (p.subTransactions.None? ==> r.subTransactions == t.subTransactions)
      && (p.subTransactions.Some? ==> SamePostings(r.subTransactions, p.subTransactions.value)
                                      && forall x :: x in r.subTransactions ==> x.bookId == bookId)
  {
    if p.subTransactions.Some? {
      StampedSetsBook(p.subTransactions.value, bookId);
    }
  }

  /**
   * When the lookup of the transaction fails, the handler goes on with the
   * zero transaction, whose book is empty; in a consistent store no book has
   * the empty id, so the update finds nothing and changes nothing, and the
   * client sees status 400 with the two bodies.
   */
  lemma {:induction false} FailedLookupUpdatesNothing(s: Store, p: TransactionPatch, bookId: BookId, fault: Option<nat>)
    requires Consistent(s) && "" !in s.books
    ensures var t := MergeTransaction(ZeroTransaction, p, bookId);
      && !Journal.UpdateTransaction(s, t, fault).ok && Journal.UpdateTransaction(s, t, fault).store == s
      && Write(Send(StatusBadRequest, BadTransactionId), StatusInternalServerError, "Transactiuon could not created")
         == Response(StatusBadRequest, [BadTransactionId, "Transactiuon could not created"])
  {
    var t := MergeTransaction(ZeroTransaction, p, bookId);
    var ids := Queries.TransactionIds(s.transactions, "", s.nextTransactionId);
    assert forall id :: id !in ids;
    assert Queries.FindTransactionId(s, t.bookId, t.transactionId).None?;
  }

  // ---------------------------------------------------------------------
  // Handlers
  // ---------------------------------------------------------------------

  /** POST .../transaction: "write", the body, the legs stamped, then CreateTransaction. */
  method CreateTransaction(db: Crud.Database, login: Login, bid: BookId, body: Option<NewTransaction>, now: int,
                           fault: Option<nat>) returns (resp: Response)
    modifies db
    ensures var s := old(db.State());
      var a := Admit(s, login, bid, Authority.Required(Authority.CreateTransaction));
      if a.Stop? then resp == a.response && db.State() == s
      else if !BindsNewTransaction(body) then resp == Send(StatusBadRequest, BadRequestBody) && db.State() == s
      else
        var b := body.value;
        var t := Transaction(0, a.book.bookId, b.description, b.occurredAt.value, 0, Stamped(b.subTransactions.value, a.book.bookId));
        var r := Journal.CreateTransaction(s, t, now, fault);
        && db.State() == r.store
        && resp == if r.ok then Send(StatusOK, "Transaction was created") else Send(StatusInternalServerError, "Transactiuon could not created")
  {
    var a := Admit(db.State(), login, bid, Authority.Required(Authority.CreateTransaction));
    if a.Stop? {
      return a.response;
    }
    if !BindsNewTransaction(body) {
      return Send(StatusBadRequest, BadRequestBody);
    }
    var b := body.value;
    var legs := StampLegs(b.subTransactions.value, a.book.bookId);
    var t := Transaction(0, a.book.bookId, b.description, b.occurredAt.value, 0, legs);
    var ok := db.CreateTransaction(t, now, fault);
    if !ok {
      return Send(StatusInternalServerError, "Transactiuon could not created");
    }
    resp := Send(StatusOK, "Transaction was created");
  }

  /**
   * PATCH .../transaction/{tid}: "update", the body, the id, the lookup. A
   * failed lookup writes 400 and the handler carries on with the zero
   * transaction; the supplied fields are merged in and UpdateTransaction
   * runs. The status is the first one written.
   */
  method UpdateTransaction(db: Crud.Database, login: Login, bid: BookId, body: Option<TransactionPatch>, tid: string,
                           fault: Option<nat>) returns (resp: Response)
    modifies db
    ensures var s := old(db.State());
      var a := Admit(s, login, bid, Authority.Required(Authority.UpdateTransaction));
      if a.Stop? then resp == a.response && db.State() == s
      else if body.None? then resp == Send(StatusBadRequest, BadRequestBody) && db.State() == s
      else if !Numbers.ParseUint(tid).Value? then resp == Send(StatusBadRequest, BadTransactionId) && db.State() == s
      else
        var found := Queries.FindTransaction(s, a.book.bookId, Numbers.ParseUint(tid).n);
        var t := MergeTransaction(found.GetOr(ZeroTransaction), body.value, a.book.bookId);
        var r := Journal.UpdateTransaction(s, t, fault);
        var before := if found.Some? then Blank else Send(StatusBadRequest, BadTransactionId);
        && db.State() == r.store
        && resp == (if r.ok then Write(before, StatusOK, "Transaction was created")
                    else Write(before, StatusInternalServerError, "Transactiuon could not created"))
        && (found.None? ==> resp.status == StatusBadRequest)
  {
    var a := Admit(db.State(), login, bid, Authority.Required(Authority.UpdateTransaction));
    if a.Stop? {
      return a.response;
    }
    if body.None? {
      return Send(StatusBadRequest, BadRequestBody);
    }
    var parsed := Numbers.ParseUint(tid);
    if !parsed.Value? {
      return Send(StatusBadRequest, BadTransactionId);
    }
    resp := Blank;
    var found := Queries.FindTransaction(db.State(), a.book.bookId, parsed.n);
    var t := ZeroTransaction;
    if found.None? {
      resp := Write(resp, StatusBadRequest, BadTransactionId);
    } else {
      t := found.value;
    }
    var patch := body.value;
    if patch.description.Some? {
      t := t.(description := patch.description.value);
    }
    if patch.occurredAt.Some? {
      t := t.(occurredAt := patch.occurredAt.value);
    }
    if patch.subTransactions.Some? {
      var legs := StampLegs(patch.subTransactions.value, a.book.bookId);
      t := t.(subTransactions := legs);
    }
    assert t == MergeTransaction(found.GetOr(ZeroTransaction), patch, a.book.bookId);
    var ok := db.UpdateTransaction(t, fault);
    if !ok {
      return Write(resp, StatusInternalServerError, "Transactiuon could not created");
    }
    resp := Write(resp, StatusOK, "Transaction was created");
  }

  /** GET .../transaction/{tid}: "read", the id, the lookup in the book. */
  function GetTransaction(s: Store, login: Login, bid: BookId, tid: string): (r: Reply<Transaction>)
    ensures var a := Admit(s, login, bid, Authority.Required(Authority.GetTransaction));
      && (a.Stop? ==> r == Reply(a.response, None))
      && (a.Pass? && !Numbers.ParseUint(tid).Value? ==> r == Reply(Send(StatusBadRequest, BadTransactionId), None))
      && (r.payload.Some? <==> a.Pass? && Numbers.ParseUint(tid).Value?
                               && Queries.FindTransactionId(s, a.book.bookId, Numbers.ParseUint(tid).n).Some?)
      && (r.payload.Some? ==> r.response.status == StatusOK
                              && (Consistent(s) ==> r.payload.value.bookId == a.book.bookId))
      && (a.Pass? && Numbers.ParseUint(tid).Value? && r.payload.None? ==> r.response == Send(StatusNotFound, "Transaction could not found"))
  {
    match Admit(s, login, bid, Authority.Required(Authority.GetTransaction))
    case Stop(refusal) => Reply(refusal, None)
    case Pass(book, _) =>
      match Numbers.ParseUint(tid)
      case Syntax => Reply(Send(StatusBadRequest, BadTransactionId), None)
      case Range => Reply(Send(StatusBadRequest, BadTransactionId), None)
      case Value(n) =>
        match Queries.FindTransaction(s, book.bookId, n)
        case None => Reply(Send(StatusNotFound, "Transaction could not found"), None)
        case Some(t) => Reply(Send(StatusOK, "Transaction was found"), Some(t))
  }

  /** The page the listing handler asks for: 0, or the page parameter as strconv.Atoi reads it. */
  function PageParam(pageGiven: bool, pid: string): Int64 {
    if pageGiven then Numbers.Atoi(pid) else 0
  }

  /**
   * GET .../transactions[/{pid}]: "read", then page PageParam of 20 rows of
   * the book's listing.
   */
  function ListTransactions(s: Store, login: Login, bid: BookId, pageGiven: bool, pid: string): (r: Reply<seq<Transaction>>)
    ensures var a := Admit(s, login, bid, Authority.Required(Authority.ListTransactions));
      && (a.Stop? ==> r == Reply(a.response, None))
      && (a.Pass? ==> r.payload.Some? && r.response.status == StatusOK && |r.payload.value| <= PageSize)
      && (a.Pass? ==> r.payload.value == Queries.ListTransactions(s, a.book.bookId, PageSize, PageParam(pageGiven, pid)))
  {
    match Admit(s, login, bid, Authority.Required(Authority.ListTransactions))
    case Stop(refusal) => Reply(refusal, None)
    case Pass(book, _) =>
      Reply(Send(StatusOK, "Transactions was found"), Some(Queries.ListTransactions(s, book.bookId, PageSize, PageParam(pageGiven, pid))))
  }

  /**
   * Without a page parameter, and with one that is not a number, the
   * listing is the first 20 rows of the book's transactions, newest first.
   */
  lemma {:induction false} ListingStartsAtFirstPage(s: Store, login: Login, bid: BookId, pageGiven: bool, pid: string, k: nat)
    requires Admit(s, login, bid, Authority.Required(Authority.ListTransactions)).Pass?
    requires pageGiven ==> k < |pid| < 19 && !Numbers.IsDigit(pid[k]) && (k > 0 || !Numbers.IsSign(pid[k]))
    ensures var book := Admit(s, login, bid, Authority.Required(Authority.ListTransactions)).book;
      var rows := Queries.TransactionListing(s, book.bookId);
      var page := ListTransactions(s, login, bid, pageGiven, pid).payload.value;
      && |page| == (if |rows| < 20 then |rows| else 20)
      && forall i :: 0 <= i < |page| ==> page[i] == rows[i]
  {
    if pageGiven {
      Numbers.AtoiRejectsToZero(pid, k);
    }
    WrapInRange(0);
  }

  /** DELETE .../transaction/{tid}: "admin" (not "delete"), the id, then DeleteTransaction. */
  method DeleteTransaction(db: Crud.Database, login: Login, bid: BookId, tid: string, fault: Option<nat>)
    returns (resp: Response)
    modifies db
    ensures var s := old(db.State());
      var a := Admit(s, login, bid, Authority.Required(Authority.DeleteTransaction));
      if a.Stop? then resp == a.response && db.State() == s
      else if !Numbers.ParseUint(tid).Value? then resp == Send(StatusBadRequest, BadTransactionId) && db.State() == s
      else
        var r := Journal.DeleteTransaction(s, a.book.bookId, Numbers.ParseUint(tid).n, fault);
        && db.State() == r.store
        && resp == if r.ok then Send(StatusOK, "Transaction was deleted") else Send(StatusNotFound, "Transaction could not delete")
  {
    var a := Admit(db.State(), login, bid, Authority.Required(Authority.DeleteTransaction));
    if a.Stop? {
      return a.response;
    }
    var parsed := Numbers.ParseUint(tid);
    if !parsed.Value? {
      return Send(StatusBadRequest, BadTransactionId);
    }
    var ok := db.DeleteTransaction(a.book.bookId, parsed.n, fault);
    if !ok {
      return Send(StatusNotFound, "Transaction could not delete");
    }
    resp := Send(StatusOK, "Transaction was deleted");
  }
}
