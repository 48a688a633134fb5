/** Affiliate commission: payments and overrides against a mutable transaction list and a running
    total kept beside it. */
module Affiliates {
  import opened Basics

  datatype Tx = Tx(affiliate: Id, amount: int, original: Option<int>, overridden: bool)

  /** `totals` holds the affiliates that exist. Transactions are identified by position. */
  datatype Accounts = Accounts(totals: map<Id, int>, txs: seq<Tx>)

  function SumFor(txs: seq<Tx>, affiliate: Id): int {
    if |txs| == 0 then 0
    else
      SumFor(txs[..|txs| - 1], affiliate)
      + (if txs[|txs| - 1].affiliate == affiliate then txs[|txs| - 1].amount else 0)
  }

  /** Neither call runs in a database transaction: `totalLost` says that the second save, of the
      affiliate's total, failed after the first one went through. */
  datatype Call =
    | Pay(affiliate: Id, amount: int, totalLost: bool)
    | Override(tx: nat, amount: int, reasonBlank: bool, totalLost: bool)

  predicate Accepted(a: Accounts, c: Call) {
    match c
    case Pay(affiliate, _, _) => affiliate in a.totals
    case Override(i, amount, reasonBlank, _) => amount > 0 && !reasonBlank && i < |a.txs|
  }

  function Overridden(t: Tx, amount: int): Tx {
    Tx(t.affiliate, amount, if t.overridden then t.original else Some(t.amount), true)
  }

  function Apply(a: Accounts, c: Call): Accounts {
    if !Accepted(a, c) then a
    else match c
      case Pay(x, amount, lost) =>
        Accounts(if lost then a.totals else a.totals[x := a.totals[x] + amount], a.txs + [Tx(x, amount, None, false)])
      case Override(i, amount, _, lost) =>
        var t := a.txs[i];
        Accounts(if lost || t.affiliate !in a.totals then a.totals
                 else a.totals[t.affiliate := a.totals[t.affiliate] + (amount - t.amount)],
                 a.txs[i := Overridden(t, amount)])
  }

  class AffiliateAccounts {
    var totals: map<Id, int>
    var txs: seq<Tx>

    function Contents(): Accounts
      reads this
    {
      Accounts(totals, txs)
    }

    /** processAffiliatePayment. */
    method ProcessPayment(affiliate: Id, amount: int, totalLost: bool) returns (ok: bool)
      modifies this
      ensures Contents() == Apply(old(Contents()), Pay(affiliate, amount, totalLost))
      ensures ok <==> affiliate in old(totals) && !totalLost
      ensures affiliate in old(totals) ==> txs == old(txs) + [Tx(affiliate, amount, None, false)]
      ensures totals == if ok then old(totals)[affiliate := old(totals)[affiliate] + amount] else old(totals)
    {
      if affiliate !in totals {
        return false;
      }
      txs := txs + [Tx(affiliate, amount, None, false)];
      if totalLost {
        return false;
      }
      totals := totals[affiliate := totals[affiliate] + amount];
      return true;
    }

    /** overrideAffiliateTransaction. */
    method OverrideTransaction(tx: nat, newAmount: int, reasonBlank: bool, totalLost: bool) returns (ok: bool)
      modifies this
      ensures Contents() == Apply(old(Contents()), Override(tx, newAmount, reasonBlank, totalLost))
      ensures ok <==>
        newAmount > 0 && !reasonBlank && tx < |old(txs)| && !(totalLost && old(txs)[tx].affiliate in old(totals))
      ensures newAmount > 0 && !reasonBlank && tx < |old(txs)| ==>
        && |txs| == |old(txs)| && txs[tx].amount == newAmount && txs[tx].overridden
        && (forall i :: 0 <= i < |txs| && i != tx ==> txs[i] == old(txs)[i])
        && totals == (var x := old(txs)[tx].affiliate;
                      if totalLost || x !in old(totals) then old(totals)
                      else old(totals)[x := old(totals)[x] + (newAmount - old(txs)[tx].amount)])
    {
      if newAmount <= 0 || reasonBlank || tx >= |txs| {
        return false;
      }
      var transaction := txs[tx];
      if !transaction.overridden {
        transaction := transaction.(original := Some(transaction.amount));
      }
      var delta := newAmount - transaction.amount;
      transaction := transaction.(amount := newAmount, overridden := true);
      txs := txs[tx := transaction];
      if transaction.affiliate in totals {
        if totalLost {
          return false;
        }
        totals := totals[transaction.affiliate := totals[transaction.affiliate] + delta];
      }
      return true;
    }
  }

  // ---------------------------------------------------------------- runs

  function Play(a: Accounts, calls: seq<Call>): Accounts
    decreases |calls|
  {
    if |calls| == 0 then a else Apply(Play(a, calls[..|calls| - 1]), calls[|calls| - 1])
  }

  /** How much a call should have added to the affiliate's total but did not. */
  function LostBy(a: Accounts, c: Call, affiliate: Id): int {
    if !Accepted(a, c) || !c.totalLost then 0
    else match c
      case Pay(x, amount, _) => if x == affiliate then amount else 0
      case Override(i, amount, _, _) => if a.txs[i].affiliate == affiliate then amount - a.txs[i].amount else 0
  }

  function Lost(a: Accounts, calls: seq<Call>, affiliate: Id): int
    decreases |calls|
  {
    if |calls| == 0 then 0
    else Lost(a, calls[..|calls| - 1], affiliate) + LostBy(Play(a, calls[..|calls| - 1]), calls[|calls| - 1], affiliate)
  }

  lemma {:induction false} SumAfterUpdate(txs: seq<Tx>, i: nat, t: Tx, affiliate: Id)
    requires i < |txs| && t.affiliate == txs[i].affiliate
    ensures SumFor(txs[i := t], affiliate)
         == SumFor(txs, affiliate) + (if t.affiliate == affiliate then t.amount - txs[i].amount else 0)
    decreases |txs|
  {
    var n := |txs| - 1;
    if i < n {
      assert txs[i := t][..n] == txs[..n][i := t];
      SumAfterUpdate(txs[..n], i, t, affiliate);
    } else {
      assert txs[i := t][..n] == txs[..n];
    }
  }

  lemma SyncStep(a: Accounts, c: Call, affiliate: Id)
    requires affiliate in a.totals
    ensures affiliate in Apply(a, c).totals
    ensures Apply(a, c).totals[affiliate] - SumFor(Apply(a, c).txs, affiliate)
         == a.totals[affiliate] - SumFor(a.txs, affiliate) - LostBy(a, c, affiliate)
  {
    if Accepted(a, c) {
      match c
      case Pay(x, amount, _) => assert Apply(a, c).txs[..|a.txs|] == a.txs;
      case Override(i, amount, _, _) => SumAfterUpdate(a.txs, i, Overridden(a.txs[i], amount), affiliate);
    }
  }

  /** Over every run of payments and overrides, an affiliate's total is its starting value plus the
      change in the sum of its current transaction amounts, less what failed total saves lost; so the
      total follows the list exactly if and only if those losses sum to zero. */
  lemma {:induction false} TotalFollowsTransactions(a: Accounts, calls: seq<Call>, affiliate: Id)
    requires affiliate in a.totals
    ensures affiliate in Play(a, calls).totals
    ensures Play(a, calls).totals[affiliate]
         == a.totals[affiliate]
            + SumFor(Play(a, calls).txs, affiliate) - SumFor(a.txs, affiliate) - Lost(a, calls, affiliate)
    ensures Play(a, calls).totals[affiliate] - a.totals[affiliate]
            == SumFor(Play(a, calls).txs, affiliate) - SumFor(a.txs, affiliate)
       <==> Lost(a, calls, affiliate) == 0
    decreases |calls|
  {
    if |calls| > 0 {
      var init := calls[..|calls| - 1];
      TotalFollowsTransactions(a, init, affiliate);
      SyncStep(Play(a, init), calls[|calls| - 1], affiliate);
    }
  }

  /** The amount a transaction was created with. */
  function FirstAmount(t: Tx): int {
    if t.overridden && t.original.Some? then t.original.value else t.amount
  }

  predicate WellMarked(t: Tx) {
    t.overridden <==> t.original.Some?
  }

  /** However often it is overridden, a transaction keeps its owner and the very first amount as its
      original amount; and a new payment starts unmarked with the amount paid. */
  lemma {:induction false} OriginalAmountKept(a: Accounts, calls: seq<Call>, i: nat)
    requires i < |a.txs| && forall k :: 0 <= k < |a.txs| ==> WellMarked(a.txs[k])
    ensures var b := Play(a, calls);
            && |b.txs| >= |a.txs| && (forall k :: 0 <= k < |b.txs| ==> WellMarked(b.txs[k]))
            && b.txs[i].affiliate == a.txs[i].affiliate
            && FirstAmount(b.txs[i]) == FirstAmount(a.txs[i])
            && (b.txs[i].overridden ==> b.txs[i].original == Some(FirstAmount(a.txs[i])))
            && (a.txs[i].overridden ==> b.txs[i].overridden)
    decreases |calls|
  {
    if |calls| > 0 {
      OriginalAmountKept(a, calls[..|calls| - 1], i);
    }
  }

  /** A payment of 30 whose total save fails: the list says 30, the total still 0. */
  lemma LostSaveDesynchronises()
    ensures var a := Play(Accounts(map["x" := 0], []), [Pay("x", 30, true)]);
            SumFor(a.txs, "x") == 30 && a.totals["x"] == 0
  {
    var start, calls := Accounts(map["x" := 0], []), [Pay("x", 30, true)];
    assert calls[..0] == [];
    assert [Tx("x", 30, None, false)][..0] == [];
  }
}
