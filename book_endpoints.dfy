/**
 * The book and account-title handlers of endpoints/book.go. Each resolves
 * the user, the book and the grant through the guard, binds its request,
 * parses the account-title id where there is one, and hands over to the
 * ledger. A request body the binder cannot decode is `None`.
 */
module BookEndpoints {
  import opened Models
  import opened Gate
  import Authority
  import Ledger
  import Queries
  import Numbers
  import Crud

  /** The body of POST /book. */
  datatype NewBook = NewBook(name: string, year: nat)

  /** The body of PATCH /book/{bid}: each field may be absent. */
  datatype BookPatch = BookPatch(name: Option<string>, year: Option<nat>)

  /** The body of POST /book/{bid}/accountTitle; amount and type default to 0. */
  datatype NewAccountTitle = NewAccountTitle(name: string, amount: Int64, accountType: nat)

  /** The body of PATCH /book/{bid}/accountTitle/{tid}: each field may be absent. */
  datatype AccountTitlePatch = AccountTitlePatch(name: Option<string>, amount: Option<Int64>, accountType: Option<nat>)

  const BadTitleId: string := "tid could not convert to integer"

  /** The `binding:"required"` check refuses a missing body, an empty name and a zero year. */
  predicate BindsNewBook(body: Option<NewBook>) {
    body.Some? && body.value.name != "" && body.value.year != 0
  }

  predicate BindsNewAccountTitle(body: Option<NewAccountTitle>) {
    body.Some? && body.value.name != ""
  }

  // ---------------------------------------------------------------------
  // Field merges
  // ---------------------------------------------------------------------

  /** The stored book with the supplied fields of the patch written over it. */
  function MergeBook(b: Book, p: BookPatch): Book {
    b.(name := p.name.GetOr(b.name), year := p.year.GetOr(b.year))
  }

  /** The stored title with the supplied fields of the patch written over it. */
  function MergeAccountTitle(t: AccountTitle, p: AccountTitlePatch): AccountTitle {
    t.(name := p.name.GetOr(t.name), amount := p.amount.GetOr(t.amount), accountType := p.accountType.GetOr(t.accountType))
  }

  /**
   * A book patch sets exactly the supplied fields: the id is kept, every
   * supplied field takes the patch's value and every absent one keeps the
   * stored value; applying the patch twice is applying it once.
   */
  lemma {:induction false} MergeBookSetsSupplied(b: Book, p: BookPatch)
    ensures var r := MergeBook(b, p);
      && r.bookId == b.bookId
      && (r.name == if p.name.Some? then p.name.value else b.name)
      && (r.year == if p.year.Some? then p.year.value else b.year)
      && MergeBook(r, p) == r
      && (p.name.None? && p.year.None? ==> r == b)
  {
  }

  /**
   * An account-title patch sets exactly the supplied fields; the id, the
   * book and the base are kept. It is the one path that sets a balance
   * outright.
   */
  lemma {:induction false} MergeAccountTitleSetsSupplied(t: AccountTitle, p: AccountTitlePatch)
    ensures var r := MergeAccountTitle(t, p);
      && r.accountTitleId == t.accountTitleId && r.bookId == t.bookId && r.amountBase == t.amountBase
      && (r.name == if p.name.Some? then p.name.value else t.name)
      && (r.amount == if p.amount.Some? then p.amount.value else t.amount)
      && (r.accountType == if p.accountType.Some? then p.accountType.value else t.accountType)
      && MergeAccountTitle(r, p) == r
  {
  }

  /**
   * A book update through the handler stores the supplied name and year
   * unless they are empty or zero, and leaves the absent fields, every other
   * book and every other table as they were.
   */
  lemma {:induction false} PatchedBookStored(s: Store, bid: BookId, p: BookPatch, fault: Option<nat>)
    requires Consistent(s) && bid in s.books
    ensures var r := Ledger.UpdateBook(s, MergeBook(s.books[bid], p), fault);
      && (r.ok ==> r.store.books[bid] == Book(bid, if p.name.Some? && p.name.value != "" then p.name.value else s.books[bid].name,
                                                   if p.year.Some? && p.year.value != 0 then p.year.value else s.books[bid].year))
      && (!r.ok ==> r.store == s)
      && (forall other :: other in s.books && other != bid ==> r.store.books[other] == s.books[other])
      && r.store.(books := s.books) == s
  {
  }

  /**
   * An account-title update through the handler stores the merged title
   * over the one the lookup found, and no other title changes.
   */
  lemma {:induction false} PatchedTitleStored(s: Store, bookId: BookId, id: nat, p: AccountTitlePatch, fault: Option<nat>)
    requires Consistent(s) && Queries.FindAccountTitle(s, bookId, id).Some?
    ensures var found := Queries.FindAccountTitle(s, bookId, id).value;
      var r := Ledger.UpdateAccountTitle(s, MergeAccountTitle(found, p), fault);
      && (r.ok ==> r.store.titles[found.accountTitleId] == MergeAccountTitle(found, p))
      && (forall k :: k in s.titles && k != found.accountTitleId ==> r.store.titles[k] == s.titles[k])
      && r.store.(titles := s.titles) == s
  {
    var found := Queries.FindAccountTitle(s, bookId, id).value;
    assert found.accountTitleId in s.titles && s.titles[found.accountTitleId].bookId == found.bookId;
  }

  // ---------------------------------------------------------------------
  // Books
  // ---------------------------------------------------------------------

  /** POST /book: user, body, then CreateBook with the id the database draws. */
  method CreateBook(db: Crud.Database, login: Login, body: Option<NewBook>, newId: BookId, fault: Option<nat>)
    returns (resp: Response)
    modifies db
    ensures var s := old(db.State());
      if !login.Known? then resp == LoginRefusal(login) && db.State() == s
      else if !BindsNewBook(body) then resp == Send(StatusBadRequest, BadRequestBody) && db.State() == s
      else
        var r := Ledger.CreateBook(s, login.user, newId, body.value.name, body.value.year, fault);
        && db.State() == r.store
        && resp == if r.ok then Send(StatusOK, "Book was created") else Send(StatusInternalServerError, "Book could not created")
  {
    if !login.Known? {
      return LoginRefusal(login);
    }
    if !BindsNewBook(body) {
      return Send(StatusBadRequest, BadRequestBody);
    }
    var ok := db.CreateBook(login.user, newId, body.value.name, body.value.year, fault);
    if !ok {
      return Send(StatusInternalServerError, "Book could not created");
    }
    resp := Send(StatusOK, "Book was created");
  }

  /** GET /book/{bid}: read. */
  function GetBook(s: Store, login: Login, bid: BookId): (r: Reply<Book>)
    ensures var a := Admit(s, login, bid, Authority.Required(Authority.GetBook));
      && (r.payload.Some? <==> a.Pass?)
      && (a.Pass? ==> r.payload.value == s.books[bid] && r.response.status == StatusOK)
      && (a.Stop? ==> r.response == a.response)
  {
    match Admit(s, login, bid, Authority.Required(Authority.GetBook))
    case Stop(refusal) => Reply(refusal, None)
    case Pass(book, _) => Reply(Send(StatusOK, "Created Book Successed"), Some(book))
  }

  /**
   * PATCH /book/{bid}: the body is bound before the book and the grant are
   * looked at; "update"; the supplied fields are merged into the stored book.
   */
  method UpdateBook(db: Crud.Database, login: Login, bid: BookId, body: Option<BookPatch>, fault: Option<nat>)
    returns (resp: Response)
    modifies db
    ensures var s := old(db.State());
      var a := Admit(s, login, bid, Authority.Required(Authority.UpdateBook));
      if !login.Known? then resp == LoginRefusal(login) && db.State() == s
      else if body.None? then resp == Send(StatusBadRequest, BadRequestBody) && db.State() == s
      else if a.Stop? then resp == a.response && db.State() == s
      else
        var r := Ledger.UpdateBook(s, MergeBook(a.book, body.value), fault);
        && db.State() == r.store
        && resp == if r.ok then Send(StatusOK, "Book was created") else Send(StatusInternalServerError, "Book could not created")
  {
    if !login.Known? {
      return LoginRefusal(login);
    }
    if body.None? {
      return Send(StatusBadRequest, BadRequestBody);
    }
    var a := Admit(db.State(), login, bid, Authority.Required(Authority.UpdateBook));
    if a.Stop? {
      return a.response;
    }
    var book := a.book;
    if body.value.name.Some? {
      book := book.(name := body.value.name.value);
    }
    if body.value.year.Some? {
      book := book.(year := body.value.year.value);
    }
    assert book == MergeBook(a.book, body.value);
    var ok := db.UpdateBook(book, fault);
    if !ok {
      return Send(StatusInternalServerError, "Book could not created");
    }
    resp := Send(StatusOK, "Book was created");
  }

  /** DELETE /book/{bid}: "admin"; the delete cascades. */
  method DeleteBook(db: Crud.Database, login: Login, bid: BookId, fault: Option<nat>) returns (resp: Response)
    modifies db
    ensures var s := old(db.State());
      var a := Admit(s, login, bid, Authority.Required(Authority.DeleteBook));
      if a.Stop? then resp == a.response && db.State() == s
      else
        var r := Ledger.DeleteBook(s, a.book.bookId, fault);
        && db.State() == r.store
        && resp == if r.ok then Send(StatusOK, "Book was deleted") else Send(StatusInternalServerError, "Delete the book was failed")
  {
    var a := Admit(db.State(), login, bid, Authority.Required(Authority.DeleteBook));
    if a.Stop? {
      return a.response;
    }
    var ok := db.DeleteBook(a.book.bookId, fault);
    if !ok {
      return Send(StatusInternalServerError, "Delete the book was failed");
    }
    resp := Send(StatusOK, "Book was deleted");
  }

  // ---------------------------------------------------------------------
  // Account titles
  // ---------------------------------------------------------------------

  /** POST /book/{bid}/accountTitle: "admin", then the body; AmountBase is left at 0. */
  method CreateAccountTitle(db: Crud.Database, login: Login, bid: BookId, body: Option<NewAccountTitle>, fault: Option<nat>)
    returns (resp: Response)
    modifies db
    ensures var s := old(db.State());
      var a := Admit(s, login, bid, Authority.Required(Authority.CreateAccountTitle));
      if a.Stop? then resp == a.response && db.State() == s
      else if !BindsNewAccountTitle(body) then resp == Send(StatusBadRequest, BadRequestBody) && db.State() == s
      else
        var t := AccountTitle(0, a.book.bookId, body.value.name, body.value.amount, 0, body.value.accountType);
        var r := Ledger.CreateAccountTitle(s, t, fault);
        && db.State() == r.store
        && resp == if r.ok then Send(StatusOK, "Account Title was created") else Send(StatusInternalServerError, "Create Account Title was failed")
  {
    var a := Admit(db.State(), login, bid, Authority.Required(Authority.CreateAccountTitle));
    if a.Stop? {
      return a.response;
    }
    if !BindsNewAccountTitle(body) {
      return Send(StatusBadRequest, BadRequestBody);
    }
    var t := AccountTitle(0, a.book.bookId, body.value.name, body.value.amount, 0, body.value.accountType);
    var ok := db.CreateAccountTitle(t, fault);
    if !ok {
      return Send(StatusInternalServerError, "Create Account Title was failed");
    }
    resp := Send(StatusOK, "Account Title was created");
  }

  /** GET /book/{bid}/accountTitle/{tid}: "read", then the id, then the lookup in the book. */
  function GetAccountTitle(s: Store, login: Login, bid: BookId, tid: string): (r: Reply<AccountTitle>)
    ensures var a := Admit(s, login, bid, Authority.Required(Authority.GetAccountTitle));
      && (a.Stop? ==> r == Reply(a.response, None))
      && (a.Pass? && !Numbers.ParseUint(tid).Value? ==> r == Reply(Send(StatusBadRequest, BadTitleId), None))
      && (r.payload.Some? <==> a.Pass? && Numbers.ParseUint(tid).Value?
                               && Queries.FindAccountTitle(s, a.book.bookId, Numbers.ParseUint(tid).n).Some?)
      && (r.payload.Some? ==> r.payload.value.bookId == a.book.bookId && r.response.status == StatusOK)
      && (a.Pass? && Numbers.ParseUint(tid).Value? && r.payload.None? ==> r.response == Send(StatusNotFound, "No Account Title"))
  {
    match Admit(s, login, bid, Authority.Required(Authority.GetAccountTitle))
    case Stop(refusal) => Reply(refusal, None)
    case Pass(book, _) =>
      match Numbers.ParseUint(tid)
      case Syntax => Reply(Send(StatusBadRequest, BadTitleId), None)
      case Range => Reply(Send(StatusBadRequest, BadTitleId), None)
      case Value(n) =>
        match Queries.FindAccountTitle(s, book.bookId, n)
        case None => Reply(Send(StatusNotFound, "No Account Title"), None)
        case Some(title) => Reply(Send(StatusOK, "Account Title was found"), Some(title))
  }

  /**
   * PATCH /book/{bid}/accountTitle/{tid}: "update", the body, the id, the
   * lookup in the book; the supplied fields are merged into the found title.
   */
  method UpdateAccountTitle(db: Crud.Database, login: Login, bid: BookId, body: Option<AccountTitlePatch>, tid: string,
                            fault: Option<nat>) returns (resp: Response)
    modifies db
    ensures var s := old(db.State());
      var a := Admit(s, login, bid, Authority.Required(Authority.UpdateAccountTitle));
      if a.Stop? then resp == a.response && db.State() == s
      else if body.None? then resp == Send(StatusBadRequest, BadRequestBody) && db.State() == s
      else if !Numbers.ParseUint(tid).Value? then resp == Send(StatusBadRequest, BadTitleId) && db.State() == s
      else
        var found := Queries.FindAccountTitle(s, a.book.bookId, Numbers.ParseUint(tid).n);
        if found.None? then resp == Send(StatusBadRequest, "Invalid title id") && db.State() == s
        else
          var r := Ledger.UpdateAccountTitle(s, MergeAccountTitle(found.value, body.value), fault);
          && db.State() == r.store
          && resp == if r.ok then Send(StatusOK, "Account Title was updated")
                     else Send(StatusNotFound, "The account title could not deleted")
  {
    var a := Admit(db.State(), login, bid, Authority.Required(Authority.UpdateAccountTitle));
    if a.Stop? {
      return a.response;
    }
    if body.None? {
      return Send(StatusBadRequest, BadRequestBody);
    }
    var parsed := Numbers.ParseUint(tid);
    if !parsed.Value? {
      return Send(StatusBadRequest, BadTitleId);
    }
    var found := Queries.FindAccountTitle(db.State(), a.book.bookId, parsed.n);
    if found.None? {
      return Send(StatusBadRequest, "Invalid title id");
    }
    var title := found.value;
    var patch := body.value;
    if patch.name.Some? {
      title := title.(name := patch.name.value);
    }
    if patch.amount.Some? {
      title := title.(amount := patch.amount.value);
    }
    if patch.accountType.Some? {
      title := title.(accountType := patch.accountType.value);
    }
    assert title == MergeAccountTitle(found.value, patch);
    var ok := db.UpdateAccountTitle(title, fault);
    if !ok {
      return Send(StatusNotFound, "The account title could not deleted");
    }
    resp := Send(StatusOK, "Account Title was updated");
  }

  /**
   * DELETE /book/{bid}/accountTitle/{tid}: "admin", then the id; the
   * delete itself is by id alone.
   */
  method DeleteAccountTitle(db: Crud.Database, login: Login, bid: BookId, tid: string, fault: Option<nat>)
    returns (resp: Response)
    modifies db
    ensures var s := old(db.State());
      var a := Admit(s, login, bid, Authority.Required(Authority.DeleteAccountTitle));
      if a.Stop? then resp == a.response && db.State() == s
      else if !Numbers.ParseUint(tid).Value? then resp == Send(StatusBadRequest, BadTitleId) && db.State() == s
      else
        var r := Ledger.DeleteAccountTitle(s, Numbers.ParseUint(tid).n, fault);
        && db.State() == r.store
        && resp == if r.ok then Send(StatusOK, "Account Title was deleted")
                   else Send(StatusNotFound, "The account title could not deleted")
  {
    var a := Admit(db.State(), login, bid, Authority.Required(Authority.DeleteAccountTitle));
    if a.Stop? {
      return a.response;
    }
    var parsed := Numbers.ParseUint(tid);
    if !parsed.Value? {
      return Send(StatusBadRequest, BadTitleId);
    }
    var ok := db.DeleteAccountTitle(parsed.n, fault);
    if !ok {
      return Send(StatusNotFound, "The account title could not deleted");
    }
    resp := Send(StatusOK, "Account Title was deleted");
  }
}
