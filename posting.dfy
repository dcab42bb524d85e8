/**
 * The posting rule of the ledger: how one debit or credit leg moves the
 * running Amount of the account title it names, the reversal of that move,
 * and what a whole sequence of legs does to the balances.
 */
module Posting {
  import opened Models

  /**
   * The sign table of crud/transaction.go: a debit adds to an account of
   * even Type and subtracts from one of odd Type; a credit does the opposite.
   */
  function Delta(isDebit: bool, accountType: nat, amount: int): (r: int)
    ensures isDebit && accountType % 2 == 0 ==> r == amount
    ensures isDebit && accountType % 2 == 1 ==> r == -amount
    ensures !isDebit && accountType % 2 == 0 ==> r == -amount
    ensures !isDebit && accountType % 2 == 1 ==> r == amount
  {
    if isDebit == (accountType % 2 == 0) then amount else -amount
  }

  /** Posting applies the sign table; reversal applies the opposite table. */
  datatype Direction = Post | Reverse {
    function Opposite(): Direction {
      if this == Post then Reverse else Post
    }
  }

  function LegDelta(leg: SubTransaction, accountType: nat, dir: Direction): int {
    if dir == Post then Delta(leg.isDebit, accountType, leg.amount)
    else -Delta(leg.isDebit, accountType, leg.amount)
  }

  /** Every leg names an account title that the lookup by AccountTitleId finds. */
  predicate Resolves(titles: map<nat, AccountTitle>, legs: seq<SubTransaction>) {
    forall x :: x in legs ==> x.accountTitleId in titles
  }

  /** Only Amount differs between two versions of one account title. */
  predicate SameExceptAmount(a: AccountTitle, b: AccountTitle) {
    a.(amount := b.amount) == b
  }

  /**
   * One turn of the posting loop: the title is re-read, its Amount moved by
   * the leg with int64 wrap-around, and saved back. (A leg whose title is
   * missing aborts the whole operation; that case is decided by Resolves
   * before any of this is used, and is a no-op here.)
   */
  function PostLeg(titles: map<nat, AccountTitle>, leg: SubTransaction, dir: Direction): (r: map<nat, AccountTitle>)
    ensures r.Keys == titles.Keys
    ensures forall id {:trigger r[id]} :: id in r ==> SameExceptAmount(r[id], titles[id])
    ensures leg.accountTitleId in titles ==>
      r[leg.accountTitleId].amount ==
        Wrap(titles[leg.accountTitleId].amount + LegDelta(leg, titles[leg.accountTitleId].accountType, dir))
    ensures forall id {:trigger r[id]} :: id in r && id != leg.accountTitleId ==> r[id] == titles[id]
  {
    if leg.accountTitleId !in titles then titles
    else
      var t := titles[leg.accountTitleId];
      titles[leg.accountTitleId := t.(amount := Wrap(t.amount + LegDelta(leg, t.accountType, dir)))]
  }

  /** The whole posting loop, leg after leg, in order. */
  function PostLegs(titles: map<nat, AccountTitle>, legs: seq<SubTransaction>, dir: Direction): (r: map<nat, AccountTitle>)
    ensures r.Keys == titles.Keys
    ensures forall id {:trigger r[id]} :: id in r ==> SameExceptAmount(r[id], titles[id])
    decreases |legs|
  {
    if legs == [] then titles
    else PostLeg(PostLegs(titles, legs[..|legs| - 1], dir), legs[|legs| - 1], dir)
  }

  /** The exact (unwrapped) net movement the legs make on account `id` of the given Type. */
  function NetOn(legs: seq<SubTransaction>, id: nat, accountType: nat, dir: Direction): int
    decreases |legs|
  {
    if legs == [] then 0
    else
      var last := legs[|legs| - 1];
      NetOn(legs[..|legs| - 1], id, accountType, dir) + (if last.accountTitleId == id then LegDelta(last, accountType, dir) else 0)
  }

  /** The Amount of one account of the given Type after the legs, each move wrapped in turn. */
  function AmountAfter(amount: Int64, accountType: nat, legs: seq<SubTransaction>, id: nat, dir: Direction): Int64
    decreases |legs|
  {
    if legs == [] then amount
    else
      var before := AmountAfter(amount, accountType, legs[..|legs| - 1], id, dir);
      var last := legs[|legs| - 1];
      if last.accountTitleId == id then Wrap(before + LegDelta(last, accountType, dir)) else before
  }

  /** The posting loop leaves account `id` with only its Amount replaced, by AmountAfter. */
  lemma {:induction false} PostLegsAt(titles: map<nat, AccountTitle>, legs: seq<SubTransaction>, dir: Direction, id: nat)
    requires id in titles
    ensures PostLegs(titles, legs, dir)[id].amount == AmountAfter(titles[id].amount, titles[id].accountType, legs, id, dir)
    decreases |legs|
  {
    if legs != [] {
      PostLegsAt(titles, legs[..|legs| - 1], dir, id);
    }
  }

  /** AmountAfter is the start amount moved by the exact net movement, wrapped once. */
  lemma {:induction false} AmountAfterNet(amount: Int64, accountType: nat, legs: seq<SubTransaction>, id: nat, dir: Direction)
    ensures AmountAfter(amount, accountType, legs, id, dir) == Wrap(amount + NetOn(legs, id, accountType, dir))
    decreases |legs|
  {
    if legs != [] {
      var front := legs[..|legs| - 1];
      var last := legs[|legs| - 1];
      AmountAfterNet(amount, accountType, front, id, dir);
      if last.accountTitleId == id {
        WrapAdd(amount + NetOn(front, id, accountType, dir), LegDelta(last, accountType, dir));
      }
    }
  }

  /** AmountAfterNet for the account stored under `id`. */
  lemma {:induction false} AmountAfterNetAt(titles: map<nat, AccountTitle>, legs: seq<SubTransaction>, dir: Direction, id: nat)
    requires id in titles
    ensures AmountAfter(titles[id].amount, titles[id].accountType, legs, id, dir) ==
      Wrap(titles[id].amount + NetOn(legs, id, titles[id].accountType, dir))
  {
    AmountAfterNet(titles[id].amount, titles[id].accountType, legs, id, dir);
  }

  /**
   * The effect of the posting loop on one account: its Amount moves by the
   * sum of the deltas of the legs that name it, taken modulo 2^64 into the
   * int64 range. Repeated legs on one account accumulate.
   */
  lemma {:induction false} PostLegsEffectOn(titles: map<nat, AccountTitle>, legs: seq<SubTransaction>, dir: Direction, id: nat)
    requires id in titles
    ensures PostLegs(titles, legs, dir)[id].amount == Wrap(titles[id].amount + NetOn(legs, id, titles[id].accountType, dir))
  {
    PostLegsAt(titles, legs, dir, id);
    AmountAfterNetAt(titles, legs, dir, id);
  }

  /** PostLegsEffectOn, for every account at once. */
  lemma {:induction false} PostLegsEffect(titles: map<nat, AccountTitle>, legs: seq<SubTransaction>, dir: Direction)
    ensures forall id :: id in titles ==>
      PostLegs(titles, legs, dir)[id].amount == Wrap(titles[id].amount + NetOn(legs, id, titles[id].accountType, dir))
  {
    forall id | id in titles
      ensures PostLegs(titles, legs, dir)[id].amount == Wrap(titles[id].amount + NetOn(legs, id, titles[id].accountType, dir))
    {
      PostLegsEffectOn(titles, legs, dir, id);
    }
  }

  /** Legs that do not name an account leave its Amount alone. */
  lemma {:induction false} AmountAfterUnreferenced(amount: Int64, accountType: nat, legs: seq<SubTransaction>, id: nat, dir: Direction)
    requires forall x :: x in legs ==> x.accountTitleId != id
    ensures AmountAfter(amount, accountType, legs, id, dir) == amount
    decreases |legs|
  {
    if legs != [] {
      assert forall x :: x in legs[..|legs| - 1] ==> x in legs;
      AmountAfterUnreferenced(amount, accountType, legs[..|legs| - 1], id, dir);
    }
  }

  /** Two versions of a title that differ from a third only in Amount, and agree on it, are equal. */
  lemma {:induction false} SameTitle(t0: AccountTitle, t1: AccountTitle, t2: AccountTitle)
    requires SameExceptAmount(t1, t0) && SameExceptAmount(t2, t0)
    requires t1.amount == t2.amount
    ensures t1 == t2
  {
  }

  /** Only the accounts some leg names change, and nothing but their Amount. */
  lemma {:induction false} PostLegsFrame(titles: map<nat, AccountTitle>, legs: seq<SubTransaction>, dir: Direction, id: nat)
    requires id in titles
    requires forall x :: x in legs ==> x.accountTitleId != id
    ensures PostLegs(titles, legs, dir)[id] == titles[id]
  {
    PostLegsAt(titles, legs, dir, id);
    AmountAfterUnreferenced(titles[id].amount, titles[id].accountType, legs, id, dir);
    SameTitle(titles[id], PostLegs(titles, legs, dir)[id], titles[id]);
  }

  lemma {:induction false} NetOnOpposite(legs: seq<SubTransaction>, id: nat, accountType: nat, dir: Direction)
    ensures NetOn(legs, id, accountType, dir.Opposite()) == -NetOn(legs, id, accountType, dir)
    decreases |legs|
  {
    if legs != [] {
      NetOnOpposite(legs[..|legs| - 1], id, accountType, dir);
    }
  }

  /** Moving an amount by the legs and then back by the same legs reversed restores it. */
  lemma {:induction false} AmountAfterUndo(amount: Int64, accountType: nat, legs: seq<SubTransaction>, id: nat, dir: Direction)
    ensures AmountAfter(AmountAfter(amount, accountType, legs, id, dir), accountType, legs, id, dir.Opposite()) == amount
  {
    var n := NetOn(legs, id, accountType, dir);
    var mid := AmountAfter(amount, accountType, legs, id, dir);
    AmountAfterNet(amount, accountType, legs, id, dir);
    AmountAfterNet(mid, accountType, legs, id, dir.Opposite());
    NetOnOpposite(legs, id, accountType, dir);
    WrapAdd(amount + n, -n);
  }

  /** Reversing the legs just posted gives back one account exactly. */
  lemma {:induction false} UndoOn(titles: map<nat, AccountTitle>, legs: seq<SubTransaction>, dir: Direction, id: nat)
    requires id in titles
    ensures PostLegs(PostLegs(titles, legs, dir), legs, dir.Opposite())[id] == titles[id]
  {
    var mid := PostLegs(titles, legs, dir);
    PostLegsAt(titles, legs, dir, id);
    PostLegsAt(mid, legs, dir.Opposite(), id);
    AmountAfterUndo(titles[id].amount, titles[id].accountType, legs, id, dir);
    SameTitle(titles[id], PostLegs(mid, legs, dir.Opposite())[id], titles[id]);
  }

  /**
   * Reversal is the exact inverse of posting: reversing the legs just posted
   * gives back every balance as it was, whatever wrap-around happened.
   */
  lemma {:induction false} Undo(titles: map<nat, AccountTitle>, legs: seq<SubTransaction>, dir: Direction)
    ensures PostLegs(PostLegs(titles, legs, dir), legs, dir.Opposite()) == titles
  {
    var back := PostLegs(PostLegs(titles, legs, dir), legs, dir.Opposite());
    forall id | id in titles ensures back[id] == titles[id] {
      UndoOn(titles, legs, dir, id);
    }
  }

  /** Reversing legs adds minus their posting net. */
  lemma {:induction false} ReversedNet(a: int, legs: seq<SubTransaction>, id: nat, accountType: nat)
    ensures Wrap(a + NetOn(legs, id, accountType, Reverse)) == Wrap(a - NetOn(legs, id, accountType, Post))
  {
    NetOnOpposite(legs, id, accountType, Post);
  }

  /** A wrapped subtraction followed by a wrapped addition is one wrapped sum. */
  lemma {:induction false} WrapShift(a: int, m: int, n: int, b: int)
    requires b == Wrap(a - m)
    ensures Wrap(b + n) == Wrap(a + n - m)
  {
    WrapAdd(a - m, n);
    assert a - m + n == a + n - m;
  }

  /** The amount of one account after reversing some legs and posting others. */
  lemma {:induction false} RepostAmount(a: Int64, accountType: nat, olds: seq<SubTransaction>, news: seq<SubTransaction>, id: nat)
    ensures AmountAfter(AmountAfter(a, accountType, olds, id, Reverse), accountType, news, id, Post) ==
      Wrap(a + NetOn(news, id, accountType, Post) - NetOn(olds, id, accountType, Post))
  {
    var b := AmountAfter(a, accountType, olds, id, Reverse);
    AmountAfterNet(a, accountType, olds, id, Reverse);
    ReversedNet(a, olds, id, accountType);
    AmountAfterNet(b, accountType, news, id, Post);
    WrapShift(a, NetOn(olds, id, accountType, Post), NetOn(news, id, accountType, Post), b);
  }

  /**
   * Reversing some legs and then posting others moves an account by the
   * net of the new legs minus the net of the old ones, wrapped once.
   */
  lemma {:induction false} RepostMoves(titles: map<nat, AccountTitle>, olds: seq<SubTransaction>, news: seq<SubTransaction>, id: nat)
    requires id in titles
    ensures PostLegs(PostLegs(titles, olds, Reverse), news, Post)[id].amount ==
      Wrap(titles[id].amount + NetOn(news, id, titles[id].accountType, Post) - NetOn(olds, id, titles[id].accountType, Post))
  {
    var mid := PostLegs(titles, olds, Reverse);
    var a, ty := titles[id].amount, titles[id].accountType;
    var m := mid[id].amount;
    assert m == AmountAfter(a, ty, olds, id, Reverse) by { PostLegsAt(titles, olds, Reverse, id); }
    assert PostLegs(mid, news, Post)[id].amount == AmountAfter(m, ty, news, id, Post) by {
      assert mid[id].accountType == ty;
      PostLegsAt(mid, news, Post, id);
    }
    RepostAmount(a, ty, olds, news, id);
  }

  /** Legs that post alike move an amount alike. */
  lemma {:induction false} AmountAfterSamePostings(amount: Int64, accountType: nat, a: seq<SubTransaction>, b: seq<SubTransaction>, id: nat, dir: Direction)
    requires SamePostings(a, b)
    ensures AmountAfter(amount, accountType, a, id, dir) == AmountAfter(amount, accountType, b, id, dir)
    decreases |a|
  {
    if a != [] {
      AmountAfterSamePostings(amount, accountType, a[..|a| - 1], b[..|b| - 1], id, dir);
    }
  }

  /** Posting only looks at the account, side and amount of each leg. */
  lemma {:induction false} SamePostingsPostAlike(titles: map<nat, AccountTitle>, a: seq<SubTransaction>, b: seq<SubTransaction>, dir: Direction)
    requires SamePostings(a, b)
    ensures PostLegs(titles, a, dir) == PostLegs(titles, b, dir)
  {
    forall id | id in titles ensures PostLegs(titles, a, dir)[id] == PostLegs(titles, b, dir)[id] {
      SamePostingsPostAlikeOn(titles, a, b, dir, id);
    }
  }

  lemma {:induction false} SamePostingsPostAlikeOn(titles: map<nat, AccountTitle>, a: seq<SubTransaction>, b: seq<SubTransaction>, dir: Direction, id: nat)
    requires SamePostings(a, b)
    requires id in titles
    ensures PostLegs(titles, a, dir)[id] == PostLegs(titles, b, dir)[id]
  {
    PostLegsAt(titles, a, dir, id);
    PostLegsAt(titles, b, dir, id);
    AmountAfterSamePostings(titles[id].amount, titles[id].accountType, a, b, id, dir);
    SameTitle(titles[id], PostLegs(titles, a, dir)[id], PostLegs(titles, b, dir)[id]);
  }

  // ---------------------------------------------------------------------
  // The parity-weighted total
  // ---------------------------------------------------------------------

  /** An amount on an account weighted by the account's parity: kept if Type is even, negated if odd. */
  function Weighted(accountType: nat, amount: int): int {
    if accountType % 2 == 0 then amount else -amount
  }

  /**
   * Weighted by its account's parity, every leg counts the same way whatever
   * the account: +amount if debit and -amount if credit.
   */
  lemma {:induction false} WeightedDelta(isDebit: bool, accountType: nat, amount: int)
    ensures Weighted(accountType, Delta(isDebit, accountType, amount)) == (if isDebit then amount else -amount)
  {
  }

  /** A leg's amount with the sign of its side: + for a debit, - for a credit. */
  function Signed(leg: SubTransaction): int {
    if leg.isDebit then leg.amount as int else -(leg.amount as int)
  }

  /** Total debits minus total credits of a sequence of legs. */
  function DebitMinusCredit(legs: seq<SubTransaction>): int
    decreases |legs|
  {
    if legs == [] then 0
    else DebitMinusCredit(legs[..|legs| - 1]) + Signed(legs[|legs| - 1])
  }

  predicate Distinct(ids: seq<nat>) {
    forall i, j :: 0 <= i < j < |ids| ==> ids[i] != ids[j]
  }

  /** Balances of even-Type accounts minus balances of odd-Type accounts, over `ids`. */
  function WeightedTotal(titles: map<nat, AccountTitle>, ids: seq<nat>): int
    requires forall id :: id in ids ==> id in titles
  {
    if ids == [] then 0
    else Weighted(titles[ids[0]].accountType, titles[ids[0]].amount) + WeightedTotal(titles, ids[1..])
  }

  /** Replacing one account's row moves the weighted total by the change in its weighted amount. */
  lemma {:induction false} WeightedTotalUpdate(titles: map<nat, AccountTitle>, ids: seq<nat>, id: nat, v: AccountTitle)
    requires forall k :: k in ids ==> k in titles
    requires Distinct(ids) && id in ids
    requires v.accountType == titles[id].accountType
    ensures WeightedTotal(titles[id := v], ids) ==
      WeightedTotal(titles, ids) + Weighted(v.accountType, v.amount - titles[id].amount)
  {
    var u := titles[id := v];
    if ids[0] == id {
      assert id !in ids[1..] by {
        forall j | 0 <= j < |ids[1..]| ensures ids[1..][j] != id {
          assert ids[1..][j] == ids[j + 1];
        }
      }
      WeightedTotalUnaffected(titles, ids[1..], id, v);
    } else {
      assert Distinct(ids[1..]) by {
        forall i, j | 0 <= i < j < |ids[1..]| ensures ids[1..][i] != ids[1..][j] {
          assert ids[1..][i] == ids[i + 1] && ids[1..][j] == ids[j + 1];
        }
      }
      WeightedTotalUpdate(titles, ids[1..], id, v);
    }
  }

  lemma {:induction false} WeightedTotalUnaffected(titles: map<nat, AccountTitle>, ids: seq<nat>, id: nat, v: AccountTitle)
    requires forall k :: k in ids ==> k in titles
    requires id !in ids
    ensures WeightedTotal(titles[id := v], ids) == WeightedTotal(titles, ids)
  {
    if ids != [] {
      WeightedTotalUnaffected(titles, ids[1..], id, v);
    }
  }

  /**
   * One posted leg moves the weighted total by its signed amount, up to a
   * whole number k of 2^64 steps lost to wrap-around.
   */
  lemma {:induction false} PostLegShift(mid: map<nat, AccountTitle>, last: SubTransaction, ids: seq<nat>) returns (k: int)
    requires Distinct(ids)
    requires forall id :: id in ids ==> id in mid
    requires last.accountTitleId in ids
    ensures WeightedTotal(PostLeg(mid, last, Post), ids) == WeightedTotal(mid, ids) + Signed(last) + k * TwoTo64
  {
    var id := last.accountTitleId;
    var ty := mid[id].accountType;
    var a := mid[id].amount;
    var d := Delta(last.isDebit, ty, last.amount);
    WeightedTotalUpdate(mid, ids, id, mid[id].(amount := Wrap(a + d)));
    WeightedDelta(last.isDebit, ty, last.amount);
    k := if ty % 2 == 0 then -Wraps(a + d) else Wraps(a + d);
  }

  /** Posting legs moves the weighted total by debits minus credits, up to k steps of 2^64. */
  lemma {:induction false} PostingShift(titles: map<nat, AccountTitle>, legs: seq<SubTransaction>, ids: seq<nat>) returns (k: int)
    requires Distinct(ids)
    requires forall id :: id in ids ==> id in titles
    requires forall x :: x in legs ==> x.accountTitleId in ids
    ensures WeightedTotal(PostLegs(titles, legs, Post), ids) == WeightedTotal(titles, ids) + DebitMinusCredit(legs) + k * TwoTo64
    decreases |legs|
  {
    if legs == [] {
      k := 0;
    } else {
      var front := legs[..|legs| - 1];
      assert forall x :: x in front ==> x in legs;
      var k0 := PostingShift(titles, front, ids);
      var k1 := PostLegShift(PostLegs(titles, front, Post), legs[|legs| - 1], ids);
      k := k0 + k1;
    }
  }

  /**
   * Posting legs moves the parity-weighted total (even balances minus odd
   * balances) by total debits minus total credits, modulo 2^64. The raw sum
   * of balances obeys no such law (see RawSumNotConserved).
   */
  lemma {:induction false} PostingShiftsWeightedTotal(titles: map<nat, AccountTitle>, legs: seq<SubTransaction>, ids: seq<nat>)
    requires Distinct(ids)
    requires forall id :: id in ids ==> id in titles
    requires forall x :: x in legs ==> x.accountTitleId in ids
    ensures Wrap(WeightedTotal(PostLegs(titles, legs, Post), ids)) == Wrap(WeightedTotal(titles, ids) + DebitMinusCredit(legs))
  {
    var k := PostingShift(titles, legs, ids);
    WrapSteps(WeightedTotal(PostLegs(titles, legs, Post), ids), WeightedTotal(titles, ids) + DebitMinusCredit(legs), k);
  }

  /** When debits equal credits, the weighted total is unchanged (modulo 2^64). */
  lemma {:induction false} BalancedPostingKeepsWeightedTotal(titles: map<nat, AccountTitle>, legs: seq<SubTransaction>, ids: seq<nat>)
    requires Distinct(ids)
    requires forall id :: id in ids ==> id in titles
    requires forall x :: x in legs ==> x.accountTitleId in ids
    requires DebitMinusCredit(legs) == 0
    ensures Wrap(WeightedTotal(PostLegs(titles, legs, Post), ids)) == Wrap(WeightedTotal(titles, ids))
  {
    PostingShiftsWeightedTotal(titles, legs, ids);
  }

  /**
   * The plain sum of balances is not conserved: a balanced entry that debits
   * an even-Type account and credits an odd-Type account raises both.
   */
  lemma {:induction false} RawSumNotConserved()
    ensures var titles := map[0 := AccountTitle(0, "b", "cash", 0, 0, 0), 1 := AccountTitle(1, "b", "capital", 0, 0, 1)];
      var legs := [SubTransaction(0, "b", 0, true, 0, 100), SubTransaction(1, "b", 0, false, 1, 100)];
      var after := PostLegs(titles, legs, Post);
      && DebitMinusCredit(legs) == 0
      && after[0].amount + after[1].amount == titles[0].amount + titles[1].amount + 200
  {
    var titles := map[0 := AccountTitle(0, "b", "cash", 0, 0, 0), 1 := AccountTitle(1, "b", "capital", 0, 0, 1)];
    var legs := [SubTransaction(0, "b", 0, true, 0, 100), SubTransaction(1, "b", 0, false, 1, 100)];
    assert legs[..1] == [legs[0]];
    assert legs[..1][..0] == [];
  }
}
