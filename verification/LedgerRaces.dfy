/**
 Posts that race: a purchase reads its debt before its transaction, and a reversal checks before it posts.
 */
module LedgerRaces {
  import opened Wrappers
  import opened LedgerEntries
  import opened CreditLedger
  import opened LedgerLaws
  import opened LedgerDelivery

  // ---------------------------------------------------------------------------
  // A debt read too early
  // ---------------------------------------------------------------------------

  /** The balance a purchase leaves, given what it absorbs. */
  lemma BalanceWithDebt(rows: Table, user: string, credits: int, externalRef: string, debt: nat, now: nat)
    requires StampedByNow(rows, now)
    ensures Spendable(WithDebt(rows, user, credits, externalRef, debt, now), user, now)
         == Leaves(PoolDelta(rows, user, now), BoughtSum(rows, user),
                   Overspend(rows, user, FirstOr(rows, user, now), now), credits, debt)
  {
    var after := WithDebt(rows, user, credits, externalRef, debt, now);
    AfterPurchase(rows, user, credits, externalRef, debt, now);
    PurchasedSplits(after, user, now, FirstOr(rows, user, now));
    assert Over(after, user, now) == Max(0, -PoolDelta(after, user, now));
  }

  function Leaves(pool: int, bought: int, earlier: int, credits: int, debt: int): int {
    Max(0, pool + debt) + Left(bought + credits, earlier + Max(0, -(pool + debt)))
  }

  lemma MoreDebtLeavesMore(pool: int, bought: int, earlier: int, credits: int, owed: int, read: int)
    requires earlier >= 0 && credits > 0 && read >= 0 && owed == Max(0, earlier + Max(0, -pool) - bought)
    ensures var raced := Leaves(pool, bought, earlier, credits, read);
            var atomic := Leaves(pool, bought, earlier, credits, owed);
            (raced == atomic <==> read == owed) && (raced > atomic <==> read > owed)
  {
  }

  /**
   A purchase that absorbs a debt read earlier leaves the balance of one that reads it in its own
   transaction if and only if the debt has not changed since; more where it was larger, less where smaller.
   */
  lemma EarlyDebtIsRightExactlyWhen(rows: Table, user: string, credits: int, externalRef: string, read: nat, now: nat)
    requires StampedByNow(rows, now) && credits > 0
    ensures var raced := Spendable(WithDebt(rows, user, credits, externalRef, read, now), user, now);
            var atomic := Spendable(WithPurchase(rows, user, credits, externalRef, now), user, now);
            && (raced == atomic <==> read == PrePurchaseDebt(rows, user, now))
            && (raced > atomic <==> read > PrePurchaseDebt(rows, user, now))
  {
    var owed := PrePurchaseDebt(rows, user, now);
    BeforePurchase(rows, user, now);
    BalanceWithDebt(rows, user, credits, externalRef, read, now);
    BalanceWithDebt(rows, user, credits, externalRef, owed, now);
    MoreDebtLeavesMore(PoolDelta(rows, user, now), BoughtSum(rows, user),
                       Overspend(rows, user, FirstOr(rows, user, now), now), credits, owed, read);
  }

  lemma DebtAfterPurchase(rows: Table, user: string, credits: int, externalRef: string, now: nat)
    requires StampedByNow(rows, now) && credits > 0
    ensures var after, owed := WithPurchase(rows, user, credits, externalRef, now), PrePurchaseDebt(rows, user, now);
            && StampedByNow(after, now)
            && PrePurchaseDebt(after, user, now) <= owed
            && (PrePurchaseDebt(after, user, now) == owed <==> owed == 0)
  {
    var after, owed := WithPurchase(rows, user, credits, externalRef, now), PrePurchaseDebt(rows, user, now);
    BeforePurchase(rows, user, now);
    AfterPurchase(rows, user, credits, externalRef, owed, now);
    BeforePurchase(after, user, now);
    assert Over(after, user, now) == Max(0, -PoolDelta(after, user, now));
    assert Over(rows, user, now) == Max(0, -PoolDelta(rows, user, now));
  }

  /**
   Two packs of one buyer delivered at once, both debts read before either posts: the balance is that of
   one after the other if and only if there was no debt to absorb; otherwise it is absorbed twice.
   */
  lemma TwoDeliveriesRaceExactlyWhen(rows: Table, user: string, first: int, firstRef: string,
                                     second: int, secondRef: string, now: nat)
    requires StampedByNow(rows, now) && RefKey(firstRef) != RefKey(secondRef)
    requires FirstDelivery(rows, user, first, firstRef, now) && FirstDelivery(rows, user, second, secondRef, now)
    ensures var owed, middle := PrePurchaseDebt(rows, user, now), WithPurchase(rows, user, first, firstRef, now);
            var raced := Spendable(WithDebt(middle, user, second, secondRef, owed, now), user, now);
            var inTurn := Spendable(WithPurchase(middle, user, second, secondRef, now), user, now);
            && PurchaseOutcome(rows, user, first, firstRef, now) == Some(middle)
            && FirstDelivery(middle, user, second, secondRef, now)
            && (raced == inTurn <==> owed == 0) && raced >= inTurn
  {
    var owed, middle := PrePurchaseDebt(rows, user, now), WithPurchase(rows, user, first, firstRef, now);
    PurchasePosts(rows, user, first, firstRef, now);
    SecondAccepted(rows, user, first, firstRef, second, secondRef, owed, now);
    DebtAfterPurchase(rows, user, first, firstRef, now);
    EarlyDebtIsRightExactlyWhen(middle, user, second, secondRef, owed, now);
  }

  lemma SecondAccepted(rows: Table, user: string, first: int, firstRef: string,
                       second: int, secondRef: string, debt: int, now: nat)
    requires RefKey(firstRef) != RefKey(secondRef) && !Refused(rows, PurchaseRow(user, second, secondRef, now))
    ensures !Refused(WithDebt(rows, user, first, firstRef, debt, now), PurchaseRow(user, second, secondRef, now))
  {
  }

  /** A pack of 10, overspent by 50 last month, then two packs at once: the 50 is absorbed twice. */
  lemma DebtIsAbsorbedTwice(none: Table, bought: Entry, charged: Entry)
    requires none == [] && bought == PurchaseRow("buyer", 10, "cs_1", 0) && charged == ChargeRow("r1", "buyer", 60, 0)
    ensures var rows := none + [bought] + [charged];
            && Unique(rows) && StampedByNow(rows, 1) && PrePurchaseDebt(rows, "buyer", 1) == 50
            && var middle := WithPurchase(rows, "buyer", 20, "cs_2", 1);
               && FirstDelivery(middle, "buyer", 30, "cs_3", 1)
               && Spendable(WithDebt(middle, "buyer", 30, "cs_3", 50, 1), "buyer", 1)
                  > Spendable(WithPurchase(middle, "buyer", 30, "cs_3", 1), "buyer", 1)
  {
    var rows := none + [bought] + [charged];
    OverspentPack(none, bought, charged);
    TwoDeliveriesRaceExactlyWhen(rows, "buyer", 20, "cs_2", 30, "cs_3", 1);
  }

  lemma OverspentPack(none: Table, bought: Entry, charged: Entry)
    requires none == [] && bought == PurchaseRow("buyer", 10, "cs_1", 0) && charged == ChargeRow("r1", "buyer", 60, 0)
    ensures PrePurchaseDebt(none + [bought] + [charged], "buyer", 1) == 50
  {
    var rows := none + [bought] + [charged];
    PurchaseRowEffect(none, bought, 0, 0, 1);
    PurchaseRowEffect(none, bought, 1, 0, 1);
    FirstPurchasePush(none, bought, "buyer");
    PoolRowEffect(none + [bought], charged);
    SumPush(none + [bought], charged, PoolOf("buyer", 1));
    OverspendPush(none + [bought], charged, "buyer", 0, 1);
    BeforePurchase(rows, "buyer", 1);
  }

  // ---------------------------------------------------------------------------
  // Reversals that have all checked
  // ---------------------------------------------------------------------------

  /** The rows once `n` reversals of one entry, all past the check for an earlier one, have posted. */
  function Reversed(rows: Table, id: nat, n: nat): (after: Table)
    requires id < |rows|
    ensures rows <= after
  {
    if n == 0 then rows else Reversed(rows, id, n - 1) + [ReversalRow(rows, id)]
  }

  lemma ReversalIsNeverRefused(rows: Table, e: Entry)
    requires e.entryType == Reversal
    ensures !Refused(rows, e)
  {
  }

  lemma {:induction false} NetOfReversals(rows: Table, id: nat, n: nat)
    requires id < |rows| && NetEffect(rows, id) == rows[id].credits
    ensures NetEffect(Reversed(rows, id, n), id) == (1 - n) * rows[id].credits
  {
    if n > 0 {
      NetOfReversals(rows, id, n - 1);
      NetPush(Reversed(rows, id, n - 1), id, ReversalRow(rows, id));
      OneLess(n, rows[id].credits);
    }
  }

  lemma NetPush(rows: Table, id: nat, e: Entry)
    requires id < |rows|
    ensures NetEffect(rows + [e], id) == NetEffect(rows, id) + Share(ReversalsOf(id), e)
  {
    SumPush(rows, e, ReversalsOf(id));
  }

  lemma NoSmaller(a: nat, b: nat)
    requires a > 0
    ensures a * b >= b
  {
  }

  lemma ZeroExactlyWhen(n: int, credits: int)
    ensures (1 - n) * credits == 0 <==> n == 1 || credits == 0
  {
    var times := 1 - n;
    if times == 0 || credits == 0 {
      assert times * credits == 0;
    } else {
      var a: nat, b: nat := if times > 0 then times else -times, if credits > 0 then credits else -credits;
      NoSmaller(a, b);
      assert times * credits == a * b || times * credits == -(a * b);
    }
  }

  lemma OneLess(n: int, credits: int)
    ensures (1 - n) * credits == (1 - (n - 1)) * credits - credits
  {
  }

  lemma NotReversedYet(rows: Table, id: nat)
    requires ReversalsMatch(rows) && ReversalOutcome(rows, id).Ok?
    ensures NetEffect(rows, id) == rows[id].credits
  {
  }

  /**
   No constraint stands behind the check: every one of them posts, and the entry nets to its value less n
   times its value. That is the promised zero if and only if one posted, or there was nothing to reverse.
   */
  lemma ReversalsRaceExactlyWhen(rows: Table, id: nat, n: nat)
    requires ReversalsMatch(rows) && ReversalOutcome(rows, id).Ok?
    ensures !Refused(Reversed(rows, id, n), ReversalRow(rows, id))
    ensures NetEffect(Reversed(rows, id, n), id) == (1 - n) * rows[id].credits
    ensures NetEffect(Reversed(rows, id, n), id) == 0 <==> n == 1 || rows[id].credits == 0
  {
    NotReversedYet(rows, id);
    NetOfReversals(rows, id, n);
    ZeroExactlyWhen(n, rows[id].credits);
    ReversalIsNeverRefused(Reversed(rows, id, n), ReversalRow(rows, id));
  }

  /** Two at once leave an entry at minus its value. */
  lemma TwoReversalsOverturn(rows: Table, id: nat, both: nat)
    requires ReversalsMatch(rows) && ReversalOutcome(rows, id).Ok? && both == 2
    ensures NetEffect(Reversed(rows, id, both), id) == -rows[id].credits
  {
    ReversalsRaceExactlyWhen(rows, id, both);
  }

  // ---------------------------------------------------------------------------
  // Which references are one
  // ---------------------------------------------------------------------------

  ghost predicate AgreeAt(a: string, b: string, k: nat) {
    (k < |a| <==> k < |b|) && (k < |a| && k < |b| ==> a[k] == b[k])
  }

  /** The same in each of the first 128 characters, or both ended. */
  ghost predicate SameFor128(a: string, b: string) {
    forall k :: 0 <= k < 128 ==> AgreeAt(a, b, k)
  }

  lemma RefKeysAgree(a: string, b: string)
    ensures RefKey(a) == RefKey(b) <==> SameFor128(a, b)
  {
    var keyA, keyB := RefKey(a), RefKey(b);
    assert forall k :: 0 <= k < |keyA| ==> keyA[k] == a[k];
    assert forall k :: 0 <= k < |keyB| ==> keyB[k] == b[k];
    if SameFor128(a, b) {
      var shorter := Min(|keyA|, |keyB|);
      assert shorter < 128 ==> AgreeAt(a, b, shorter);
      forall k | 0 <= k < shorter ensures keyA[k] == keyB[k] {
        assert AgreeAt(a, b, k);
      }
    }
  }

  /** After one delivery, another that is new to the ledger is accepted exactly when its reference differs so early. */
  lemma SecondReferenceAcceptedExactlyWhen(rows: Table, user: string, first: int, firstRef: string,
                                           second: int, secondRef: string, debt: int, now: nat)
    requires user != "" && secondRef != "" && second > 0
    requires !Refused(rows, PurchaseRow(user, second, secondRef, now))
    ensures PurchaseOutcome(WithDebt(rows, user, first, firstRef, debt, now), user, second, secondRef, now).Some?
       <==> !SameFor128(firstRef, secondRef)
  {
    var after, row := WithDebt(rows, user, first, firstRef, debt, now), PurchaseRow(user, second, secondRef, now);
    RefKeysAgree(firstRef, secondRef);
    assert after[|rows|] == PurchaseRow(user, first, firstRef, now);
    if RefKey(firstRef) == RefKey(secondRef) {
      assert Collide(after[|rows|], row);
    } else {
      SecondAccepted(rows, user, first, firstRef, second, secondRef, debt, now);
      PurchasePosts(after, user, second, secondRef, now);
    }
  }
}
