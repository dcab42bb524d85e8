/**
 * The guard every handler of endpoints/book.go and endpoints/transactions.go
 * runs before it touches the ledger: resolve the user from the session,
 * resolve the book named in the path, fetch the user's authorization row for
 * that book, and look for the handler's capability word in the row's
 * authority string. The first step that fails writes its response and ends
 * the handler.
 */
module Gate {
  import opened Models
  import Authority
  import Ledger

  // ---------------------------------------------------------------------
  // Responses
  // ---------------------------------------------------------------------

  const StatusOK: nat := 200
  const StatusBadRequest: nat := 400
  const StatusUnauthorized: nat := 401
  const StatusNotFound: nat := 404
  const StatusInternalServerError: nat := 500

  const BookNotFound: string := "Book was not found"
  /** The text of NoAuthorizationError (endpoints/auth.go:19). */
  const NoAuthorization: string := "No Authorization"
  const BadRequestBody: string := "Infection Informations"

  /**
   * What a handler has written to the client: the status line and the
   * bodies in order. JSON bodies are represented by their "message" field.
   */
  datatype Response = Response(status: nat, bodies: seq<string>)

  /** A reading handler's response, with the rows it returns when it succeeds. */
  datatype Reply<T> = Reply(response: Response, payload: Option<T>)

  /** Nothing written yet; gin's status defaults to 200. */
  const Blank: Response := Response(StatusOK, [])

  /**
   * One more write to the client. Once a body has gone out the status line
   * is fixed: a later write appends its body and keeps the first status.
   */
  function Write(r: Response, status: nat, body: string): (w: Response)
    ensures w.bodies == r.bodies + [body]
    ensures r.bodies != [] ==> w.status == r.status
    ensures r.bodies == [] ==> w.status == status
  {
    if r.bodies == [] then Response(status, [body]) else Response(r.status, r.bodies + [body])
  }

  /** A fresh response carrying one body. */
  function Send(status: nat, body: string): Response {
    Write(Blank, status, body)
  }

  /** After any number of later writes, the status is the first one written. */
  lemma {:induction false} FirstStatusWins(status: nat, body: string, later: seq<(nat, string)>)
    ensures WriteAll(Send(status, body), later).status == status
    ensures |WriteAll(Send(status, body), later).bodies| == 1 + |later|
    decreases |later|
  {
    if later != [] {
      var n := |later| - 1;
      FirstStatusWins(status, body, later[..n]);
    }
  }

  /** Several writes in a row. */
  function WriteAll(r: Response, writes: seq<(nat, string)>): Response
    decreases |writes|
  {
    if writes == [] then r
    else
      var n := |writes| - 1;
      Write(WriteAll(r, writes[..n]), writes[n].0, writes[n].1)
  }

  // ---------------------------------------------------------------------
  // The session
  // ---------------------------------------------------------------------

  /**
   * What getUserIdFromJWT makes of the request: the user, or a refusal it
   * has already written. A missing or invalid token, an unknown session, an
   * expired one and an unknown user are all 401 "Unauthorized"; a session
   * entry that is not a number is 500 "Internal Server Error".
   */
  datatype Login = Known(user: UserId) | Unauthorized | CorruptSession

  function LoginRefusal(login: Login): (r: Response)
    requires !login.Known?
    ensures r.status == StatusUnauthorized || r.status == StatusInternalServerError
  {
    if login.Unauthorized? then Send(StatusUnauthorized, "Unauthorized")
    else Send(StatusInternalServerError, "Internal Server Error")
  }

  // ---------------------------------------------------------------------
  // The guard chain
  // ---------------------------------------------------------------------

  /** The guard's verdict: go on with the book and user, or stop with this response. */
  datatype Admission = Pass(book: Book, user: UserId) | Stop(response: Response)

  /**
   * GetBook: the book whose id is the path parameter; not found when there
   * is none, and in a consistent store the row found carries that id.
   */
  function LookupBook(s: Store, bid: BookId): (r: Option<Book>)
    ensures r.Some? <==> bid in s.books
    ensures Consistent(s) && r.Some? ==> r.value.bookId == bid
  {
    if bid in s.books then Some(s.books[bid]) else None
  }

  /**
   * GetBookAuthorization: the authority string of the (book, user) row; not
   * found when there is none, and in a consistent store a grant found names
   * an existing book.
   */
  function LookupGrant(s: Store, bid: BookId, user: UserId): (r: Option<string>)
    ensures r.Some? <==> (bid, user) in s.authorizations
    ensures r.Some? ==> r.value == s.authorizations[(bid, user)]
    ensures Consistent(s) && r.Some? ==> bid in s.books
  {
    if (bid, user) in s.authorizations then Some(s.authorizations[(bid, user)]) else None
  }

  /**
   * The guard chain of a handler that requires `word`: user, book,
   * authorization row, capability word, stopping at the first failure.
   */
  function Admit(s: Store, login: Login, bid: BookId, word: string): (a: Admission)
    ensures a.Pass? <==>
      && login.Known? && bid in s.books && (s.books[bid].bookId, login.user) in s.authorizations
      && Authority.Allows(s.authorizations[(s.books[bid].bookId, login.user)], word)
    ensures a.Pass? ==> a.book == s.books[bid] && a.user == login.user
    ensures !login.Known? ==> a == Stop(LoginRefusal(login))
    ensures login.Known? && bid !in s.books ==> a == Stop(Send(StatusUnauthorized, BookNotFound))
    ensures login.Known? && bid in s.books && a.Stop? ==> a == Stop(Send(StatusUnauthorized, NoAuthorization))
  {
    match login
    case Unauthorized => Stop(LoginRefusal(login))
    case CorruptSession => Stop(LoginRefusal(login))
    case Known(user) =>
      match LookupBook(s, bid)
      case None => Stop(Send(StatusUnauthorized, BookNotFound))
      case Some(book) =>
        match LookupGrant(s, book.bookId, user)
        case None => Stop(Send(StatusUnauthorized, NoAuthorization))
        case Some(authority) =>
          if Authority.Index(authority, word) == -1 then Stop(Send(StatusUnauthorized, NoAuthorization))
          else Pass(book, user)
  }

  /** Every refusal of the guard is one body with status 401, or 500 for a corrupt session. */
  lemma {:induction false} RefusalsAreUnauthorized(s: Store, login: Login, bid: BookId, word: string)
    requires Admit(s, login, bid, word).Stop?
    ensures var r := Admit(s, login, bid, word).response;
      && |r.bodies| == 1
      && (r.status == StatusUnauthorized <==> !login.CorruptSession?)
      && (r.status == StatusInternalServerError <==> login.CorruptSession?)
  {
  }

  /**
   * The guard reads one book row and one authorization row: two stores that
   * agree on those give the same verdict, whatever else they hold.
   */
  lemma {:induction false} AdmitReadsTwoRows(s: Store, t: Store, user: UserId, bid: BookId, word: string)
    requires Consistent(s) && Consistent(t)
    requires (bid in s.books <==> bid in t.books) && (bid in s.books ==> s.books[bid] == t.books[bid])
    requires ((bid, user) in s.authorizations <==> (bid, user) in t.authorizations)
    requires (bid, user) in s.authorizations ==> s.authorizations[(bid, user)] == t.authorizations[(bid, user)]
    ensures Admit(s, Known(user), bid, word) == Admit(t, Known(user), bid, word)
  {
  }

  /** Once CreateBook has gone through, its creator passes the guard of every handler on the new book. */
  lemma {:induction false} CreatorAdmitted(s: Store, user: UserId, newId: BookId, name: string, year: nat,
                                           fault: Option<nat>, op: Authority.Operation)
    requires Ledger.CreateBook(s, user, newId, name, year, fault).ok
    ensures var r := Ledger.CreateBook(s, user, newId, name, year, fault).store;
      Admit(r, Known(user), newId, Authority.Required(op)) == Pass(Book(newId, name, year), user)
  {
    Ledger.CreateBookGrantsCreator(s, user, newId, name, year, fault, op);
  }

  /**
   * As written, the creator of a carried-forward book is stopped by the
   * guard of every handler on it: the book exists but holds no grant for
   * them, so the answer is 401 "No Authorization".
   */
  lemma {:induction false} CarryForwardCreatorRefused(s: Store, admin: UserId, newId: BookId, name: string, year: nat,
                                                      oldBookId: BookId, fault: Option<nat>, op: Authority.Operation)
    requires Consistent(s)
    requires Ledger.CreateBookFromBook(s, admin, newId, name, year, oldBookId, fault).ok
    ensures var r := Ledger.CreateBookFromBook(s, admin, newId, name, year, oldBookId, fault).store;
      Admit(r, Known(admin), newId, Authority.Required(op)) == Stop(Send(StatusUnauthorized, NoAuthorization))
  {
    Ledger.CarryForwardWithoutGrant(s, admin, newId, name, year, oldBookId, fault);
  }

  /** With the grant inside the unit, the creator passes the guard of every handler on the carried-forward book. */
  lemma {:induction false} CarryForwardGrantedAdmitsCreator(s: Store, admin: UserId, newId: BookId, name: string, year: nat,
                                                            oldBookId: BookId, fault: Option<nat>, op: Authority.Operation)
    requires Ledger.CreateBookFromBookGranted(s, admin, newId, name, year, oldBookId, fault).ok
    ensures var r := Ledger.CreateBookFromBookGranted(s, admin, newId, name, year, oldBookId, fault).store;
      Admit(r, Known(admin), newId, Authority.Required(op)) == Pass(Book(newId, name, year), admin)
  {
    Ledger.CarryForwardGrantedGrantsCreator(s, admin, newId, name, year, oldBookId, fault, op);
  }

  /**
   * A user who holds only "read" on a book passes the guard of exactly the
   * four handlers that only read.
   */
  lemma {:induction false} ReaderAdmittedToReadsOnly(s: Store, user: UserId, bid: BookId, op: Authority.Operation)
    requires Consistent(s)
    requires bid in s.books && (bid, user) in s.authorizations && s.authorizations[(bid, user)] == Authority.ReadWord
    ensures Admit(s, Known(user), bid, Authority.Required(op)).Pass? <==> Authority.ReadsOnly(op)
  {
    Authority.SingleWordGrants(op);
  }
}
