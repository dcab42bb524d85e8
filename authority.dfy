/**
 * The capability test of the handlers: an authorization row holds a
 * comma-joined authority string, and a handler admits a request when its
 * capability word occurs in that string, as `strings.Index(authority, word)
 * != -1` decides.
 */
module Authority {

  /** `sub` occurs in `s` starting at position k. */
  predicate MatchAt(s: string, sub: string, k: nat) {
    k + |sub| <= |s| && s[k..k + |sub|] == sub
  }

  ghost predicate Occurs(s: string, sub: string) {
    exists k: nat :: MatchAt(s, sub, k)
  }

  /** The search of strings.Index from position k on. */
  function IndexFrom(s: string, sub: string, k: nat): (r: int)
    requires k <= |s|
    ensures r == -1 || (k <= r && MatchAt(s, sub, r))
    ensures r == -1 ==> forall j: nat :: k <= j ==> !MatchAt(s, sub, j)
    ensures r != -1 ==> forall j: nat :: k <= j < r ==> !MatchAt(s, sub, j)
    decreases |s| - k
  {
    if MatchAt(s, sub, k) then k
    else if k + |sub| >= |s| then
      assert forall j: nat :: k < j ==> !MatchAt(s, sub, j);
      -1
    else IndexFrom(s, sub, k + 1)
  }

  /**
   * strings.Index: the position of the first occurrence of `sub` in `s`, or
   * -1 when there is none.
   */
  function Index(s: string, sub: string): (r: int)
    ensures r == -1 <==> !Occurs(s, sub)
    ensures r != -1 ==> 0 <= r && MatchAt(s, sub, r) && forall j: nat :: j < r ==> !MatchAt(s, sub, j)
  {
    IndexFrom(s, sub, 0)
  }

  /** The capability test: the word occurs somewhere in the authority string. */
  predicate Allows(authority: string, word: string) {
    Index(authority, word) != -1
  }

  lemma {:induction false} AllowsIffOccurs(authority: string, word: string)
    ensures Allows(authority, word) <==> Occurs(authority, word)
  {
  }

  /** A word placed at the end of a string occurs there. */
  lemma {:induction false} MatchAtEnd(a: string, sub: string)
    ensures MatchAt(a + sub, sub, |a|)
  {
    assert (a + sub)[|a|..] == sub;
  }

  /** An occurrence survives anything appended after it. */
  lemma {:induction false} MatchExtends(s: string, sub: string, t: string, k: nat)
    requires MatchAt(s, sub, k)
    ensures MatchAt(s + t, sub, k)
  {
    assert (s + t)[k..k + |sub|] == s[k..k + |sub|];
  }

  /** A word with a character that the authority string lacks does not occur in it. */
  lemma {:induction false} CharMissing(s: string, sub: string, i: nat)
    requires i < |sub| && sub[i] !in s
    ensures !Occurs(s, sub)
  {
  }

  /** Capability words joined with commas, as authority strings are written. */
  function Join(words: seq<string>): string {
    if |words| == 0 then ""
    else if |words| == 1 then words[0]
    else Join(words[..|words| - 1]) + "," + words[|words| - 1]
  }

  /** A character that is neither a comma nor in any of the words is not in their join. */
  lemma {:induction false} CharNotInJoin(words: seq<string>, c: char)
    requires c != ',' && forall w :: w in words ==> c !in w
    ensures c !in Join(words)
    decreases |words|
  {
    if |words| > 1 {
      var n := |words| - 1;
      assert forall w :: w in words[..n] ==> w in words;
      CharNotInJoin(words[..n], c);
      assert c !in words[n];
    }
  }

  /** Every word of a comma-joined grant passes the capability check against it. */
  lemma {:induction false} JoinedWordsAllowed(words: seq<string>, i: nat)
    requires i < |words|
    ensures Allows(Join(words), words[i])
    decreases |words|
  {
    var n := |words| - 1;
    if n == 0 {
      MatchAtEnd("", words[0]);
      assert "" + words[0] == Join(words);
    } else if i == n {
      MatchAtEnd(Join(words[..n]) + ",", words[n]);
    } else {
      var front := Join(words[..n]);
      JoinedWordsAllowed(words[..n], i);
      assert words[..n][i] == words[i];
      var k: nat :| MatchAt(front, words[i], k);
      MatchExtends(front, words[i], ",", k);
      MatchExtends(front + ",", words[i], words[n], k);
    }
  }

  const AdminWord: string := "admin"
  const ReadWord: string := "read"
  const WriteWord: string := "write"
  const UpdateWord: string := "update"
  const DeleteWord: string := "delete"

  /** The grant CreateBook and CreateBookAndAccountTitleFromBook give the book's creator. */
  const FullAuthority: string := Join([AdminWord, ReadWord, WriteWord, UpdateWord, DeleteWord])

  /** FullAuthority spelled out. */
  lemma {:induction false} FullAuthorityText()
    ensures FullAuthority == "admin,read,write,update,delete"
  {
    var w2 := [AdminWord, ReadWord];
    var w3 := w2 + [WriteWord];
    var w4 := w3 + [UpdateWord];
    assert w2[..1] == [AdminWord] && w3[..2] == w2 && w4[..3] == w3 && (w4 + [DeleteWord])[..4] == w4;
    assert Join(w2) == "admin,read";
    assert Join(w3) == "admin,read,write";
    assert Join(w4) == "admin,read,write,update";
    assert w4 + [DeleteWord] == [AdminWord, ReadWord, WriteWord, UpdateWord, DeleteWord];
  }

  /** The handlers that look at a book's authorization row. */
  datatype Operation =
    | GetBook | UpdateBook | DeleteBook
    | CreateAccountTitle | GetAccountTitle | UpdateAccountTitle | DeleteAccountTitle
    | CreateTransaction | UpdateTransaction | GetTransaction | ListTransactions | DeleteTransaction

  /** The capability word each handler checks for. */
  function Required(op: Operation): (w: string)
    ensures w in {AdminWord, ReadWord, WriteWord, UpdateWord}
  {
    match op
    case GetBook => ReadWord
    case UpdateBook => UpdateWord
    case DeleteBook => AdminWord
    case CreateAccountTitle => AdminWord
    case GetAccountTitle => ReadWord
    case UpdateAccountTitle => UpdateWord
    case DeleteAccountTitle => AdminWord
    case CreateTransaction => WriteWord
    case UpdateTransaction => UpdateWord
    case GetTransaction => ReadWord
    case ListTransactions => ReadWord
    case DeleteTransaction => AdminWord
  }

  /** The operations that only read the ledger. */
  predicate ReadsOnly(op: Operation) {
    op.GetBook? || op.GetAccountTitle? || op.GetTransaction? || op.ListTransactions?
  }

  /** The grant a book's creator receives passes every handler's check. */
  lemma {:induction false} FullAuthorityAllowsAll(op: Operation)
    ensures Allows(FullAuthority, Required(op))
  {
    var words := [AdminWord, ReadWord, WriteWord, UpdateWord, DeleteWord];
    var w := Required(op);
    var i: nat := if w == AdminWord then 0 else if w == ReadWord then 1 else if w == WriteWord then 2 else 3;
    JoinedWordsAllowed(words, i);
  }

  /**
   * A grant of "read" alone admits exactly the read-only handlers; "admin"
   * alone admits exactly the handlers that require "admin", and no reads.
   */
  lemma {:induction false} SingleWordGrants(op: Operation)
    ensures Allows(ReadWord, Required(op)) <==> ReadsOnly(op)
    ensures Allows(AdminWord, Required(op)) <==> Required(op) == AdminWord
  {
    JoinedWordsAllowed([ReadWord], 0);
    JoinedWordsAllowed([AdminWord], 0);
    CharMissing(ReadWord, AdminWord, 2);
    CharMissing(ReadWord, WriteWord, 0);
    CharMissing(ReadWord, UpdateWord, 0);
    CharMissing(AdminWord, ReadWord, 0);
    CharMissing(AdminWord, WriteWord, 0);
    CharMissing(AdminWord, UpdateWord, 0);
  }

  /**
   * No handler ever checks for the "delete" word: a grant of every word but
   * "admin" admits every handler except the four that require "admin".
   */
  lemma {:induction false} DeleteWordNeverRequired(op: Operation)
    ensures Required(op) != DeleteWord
    ensures Allows(Join([ReadWord, WriteWord, UpdateWord, DeleteWord]), Required(op)) <==> Required(op) != AdminWord
  {
    var words := [ReadWord, WriteWord, UpdateWord, DeleteWord];
    var w := Required(op);
    if w == AdminWord {
      CharNotInJoin(words, 'm');
      CharMissing(Join(words), AdminWord, 2);
    } else {
      var i: nat := if w == ReadWord then 0 else if w == WriteWord then 1 else 2;
      JoinedWordsAllowed(words, i);
    }
  }

  /**
   * The test is on substrings, not on comma-separated words: grants that
   * name only "readonly" or "unread" pass a "read" check.
   */
  lemma {:induction false} SubstringNotWord()
    ensures Allows(Join(["readonly"]), ReadWord)
    ensures Allows(Join([AdminWord, "unread"]), ReadWord)
  {
    MatchAtEnd("", "read");
    MatchExtends("" + "read", "read", "only", 0);
    assert Join(["readonly"]) == "" + "read" + "only";
    MatchAtEnd("admin,un", "read");
    assert Join([AdminWord, "unread"]) == "admin,un" + "read";
  }
}
