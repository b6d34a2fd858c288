/** What one charge, one purchase and one reversal do to a balance, from any ledger. */
module LedgerLaws {
  import opened Wrappers
  import opened LedgerEntries
  import opened CreditLedger

  /** Nothing the user bought is stamped with a month still to come. */
  ghost predicate BoughtByNow(rows: Table, user: string, now: nat) {
    FirstPurchase(rows, user).Some? ==> FirstPurchase(rows, user).value <= now
  }

  function MonthlyLeft(rows: Table, user: string, now: nat): int {
    Recompute(rows, user, now).monthly
  }

  function Spendable(rows: Table, user: string, now: nat): int {
    Recompute(rows, user, now).Total()
  }

  /** Overspend of the months before `now`, from the first purchase on, less everything bought. */
  function InheritedDebt(rows: Table, user: string, now: nat): int {
    match FirstPurchase(rows, user)
    case None => 0
    case Some(first) => Overspend(rows, user, first, now) - BoughtSum(rows, user)
  }

  // ---------------------------------------------------------------------------
  // Spend order
  // ---------------------------------------------------------------------------

  /** A row that is not a purchase moves its month's pool and nothing else. */
  lemma PoolRowEffect(rows: Table, e: Entry)
    requires e.kind != Purchased
    ensures PoolDelta(rows + [e], e.user, e.period) == PoolDelta(rows, e.user, e.period) + e.credits
    ensures BoughtSum(rows + [e], e.user) == BoughtSum(rows, e.user)
    ensures FirstPurchase(rows + [e], e.user) == FirstPurchase(rows, e.user)
  {
    SumPush(rows, e, PoolOf(e.user, e.period));
    SumPush(rows, e, BoughtBy(e.user));
    FirstPurchasePush(rows, e, e.user);
  }

  /** What is left of `bought` credits once `spent` of them are gone. */
  function Left(bought: int, spent: int): int {
    if bought <= 0 then 0 else Max(0, bought - spent)
  }

  /** The purchased bucket around such a row: beside the row's own month, `elsewhere` is overspent. */
  lemma PurchasedAroundPoolRow(rows: Table, e: Entry) returns (elsewhere: int)
    requires e.kind != Purchased && BoughtByNow(rows, e.user, e.period)
    ensures PurchasedRemaining(rows, e.user)
         == Left(BoughtSum(rows, e.user), elsewhere + Over(rows, e.user, e.period))
    ensures PurchasedRemaining(rows + [e], e.user)
         == Left(BoughtSum(rows, e.user), elsewhere + Over(rows + [e], e.user, e.period))
  {
    PoolRowEffect(rows, e);
    HorizonPush(rows, e);
    var until := Horizon(rows + [e]);
    PurchasedUpTo(rows, e.user, until);
    match FirstPurchase(rows, e.user) {
      case None =>
        NeverBought(rows, e.user);
        elsewhere := 0;
      case Some(from) =>
        OverspendPush(rows, e, e.user, from, until);
        elsewhere := Overspend(rows, e.user, from, until) - Over(rows, e.user, e.period);
    }
  }

  /**
   A charge in the current month is taken from the month first and then from what was bought, and
   never drives either below zero.
   */
  lemma ChargeSpendsMonthlyFirst(rows: Table, requestId: string, user: string, credits: int, now: nat)
    requires credits > 0 && requestId != "" && !Refused(rows, ChargeRow(requestId, user, credits, now))
    requires BoughtByNow(rows, user, now)
    ensures ChargeOutcome(rows, requestId, user, credits, now).Some?
    ensures var after := ChargeOutcome(rows, requestId, user, credits, now).value;
            var monthly, bought := MonthlyLeft(rows, user, now), PurchasedRemaining(rows, user);
            && MonthlyLeft(after, user, now) == Max(0, monthly - credits)
            && PurchasedRemaining(after, user) == Max(0, bought - Max(0, credits - monthly))
            && Spendable(after, user, now) == Max(0, Spendable(rows, user, now) - credits)
  {
    ChargeRowEffect(rows, ChargeRow(requestId, user, credits, now));
  }

  lemma ChargeRowEffect(rows: Table, e: Entry)
    requires e.kind != Purchased && e.credits < 0 && BoughtByNow(rows, e.user, e.period)
    ensures var monthly, bought := MonthlyLeft(rows, e.user, e.period), PurchasedRemaining(rows, e.user);
            && MonthlyLeft(rows + [e], e.user, e.period) == Max(0, monthly + e.credits)
            && PurchasedRemaining(rows + [e], e.user) == Max(0, bought - Max(0, -e.credits - monthly))
  {
    PoolRowEffect(rows, e);
    var elsewhere := PurchasedAroundPoolRow(rows, e);
    ChargeNumbers(PoolDelta(rows, e.user, e.period), BoughtSum(rows, e.user), elsewhere, -e.credits);
  }

  lemma ChargeNumbers(pool: int, bought: int, elsewhere: int, credits: int)
    requires credits > 0
    ensures Max(0, pool - credits) == Max(0, Max(0, pool) - credits)
    ensures Left(bought, elsewhere + Max(0, credits - pool))
         == Max(0, Left(bought, elsewhere + Max(0, -pool)) - Max(0, credits - Max(0, pool)))
  {
  }

  // ---------------------------------------------------------------------------
  // Buying
  // ---------------------------------------------------------------------------

  lemma PurchaseRowEffect(rows: Table, e: Entry, period: nat, from: nat, until: nat)
    requires e.kind == Purchased
    ensures BoughtSum(rows + [e], e.user) == BoughtSum(rows, e.user) + e.credits
    ensures PoolDelta(rows + [e], e.user, period) == PoolDelta(rows, e.user, period)
    ensures Overspend(rows + [e], e.user, from, until) == Overspend(rows, e.user, from, until)
  {
    SumPush(rows, e, BoughtBy(e.user));
    SumPush(rows, e, PoolOf(e.user, period));
    SumPush(rows, e, PoolOf(e.user, e.period));
    OverspendPush(rows, e, e.user, from, until);
  }

  /** The debt, month by month: earlier months' overspend plus this month's, less what was bought. */
  lemma DebtSplits(rows: Table, user: string, now: nat, first: nat)
    requires first <= now && first == FirstOr(rows, user, now) && StampedByNow(rows, now)
    ensures PrePurchaseDebt(rows, user, now)
         == Max(0, Overspend(rows, user, first, now) + Over(rows, user, now) - BoughtSum(rows, user))
  {
    HorizonIsBeyond(rows);
    OverspendEnds(rows, user, first, Horizon(rows), Max(Horizon(rows), now + 1));
    OverspendEnds(rows, user, first, now + 1, Max(Horizon(rows), now + 1));
  }

  ghost predicate StampedByNow(rows: Table, now: nat) {
    forall k :: 0 <= k < |rows| ==> rows[k].period <= now
  }

  lemma StampedBoughtByNow(rows: Table, user: string, now: nat)
    requires StampedByNow(rows, now)
    ensures BoughtByNow(rows, user, now)
    ensures Horizon(rows) <= now + 1
  {
    FirstPurchaseIsEarliest(rows, user);
    HorizonWithin(rows, now);
  }

  lemma {:induction false} HorizonWithin(rows: Table, now: nat)
    requires StampedByNow(rows, now)
    ensures Horizon(rows) <= now + 1
  {
    if |rows| > 0 { HorizonWithin(rows[..|rows| - 1], now); }
  }

  function FirstOr(rows: Table, user: string, now: nat): nat {
    match FirstPurchase(rows, user) case Some(p) => p case None => now
  }

  /** The rows a first delivery leaves when `debt` is what it absorbs. */
  function WithDebt(rows: Table, user: string, credits: int, externalRef: string, debt: int, now: nat): Table {
    var granted := rows + [PurchaseRow(user, credits, externalRef, now)];
    if debt <= 0 then granted else granted + [AbsorptionRow(user, debt, now)]
  }

  function WithPurchase(rows: Table, user: string, credits: int, externalRef: string, now: nat): Table {
    WithDebt(rows, user, credits, externalRef, PrePurchaseDebt(rows, user, now), now)
  }

  ghost predicate FirstDelivery(rows: Table, user: string, credits: int, externalRef: string, now: nat) {
    && user != "" && externalRef != "" && credits > 0
    && !Refused(rows, PurchaseRow(user, credits, externalRef, now))
  }

  lemma PurchasePosts(rows: Table, user: string, credits: int, externalRef: string, now: nat)
    requires FirstDelivery(rows, user, credits, externalRef, now)
    ensures PurchaseOutcome(rows, user, credits, externalRef, now)
         == Some(WithPurchase(rows, user, credits, externalRef, now))
  {
  }

  /** What the rows of a purchase leave: the month's pool and the purchased side. */
  lemma AfterPurchase(rows: Table, user: string, credits: int, externalRef: string, debt: nat, now: nat)
    requires StampedByNow(rows, now)
    ensures var after := WithDebt(rows, user, credits, externalRef, debt, now);
            var first := FirstOr(rows, user, now);
            && StampedByNow(after, now) && FirstPurchase(after, user) == Some(first) && first <= now
            && PoolDelta(after, user, now) == PoolDelta(rows, user, now) + debt
            && BoughtSum(after, user) == BoughtSum(rows, user) + credits
            && Overspend(after, user, first, now) == Overspend(rows, user, first, now)
  {
    var bought := PurchaseRow(user, credits, externalRef, now);
    var first, absorbed := FirstOr(rows, user, now), AbsorptionRow(user, debt, now);
    StampedBoughtByNow(rows, user, now);
    PurchaseRowEffect(rows, bought, now, first, now);
    FirstPurchasePush(rows, bought, user);
    PoolRowEffect(rows + [bought], absorbed);
    OverspendPush(rows + [bought], absorbed, user, first, now);
  }

  /** With every row stamped by now, the purchased bucket is the months before now and then now. */
  lemma PurchasedSplits(rows: Table, user: string, now: nat, first: nat)
    requires StampedByNow(rows, now) && FirstPurchase(rows, user) == Some(first)
    ensures PurchasedRemaining(rows, user)
         == Left(BoughtSum(rows, user), Overspend(rows, user, first, now) + Over(rows, user, now))
  {
    StampedBoughtByNow(rows, user, now);
    PurchasedUpTo(rows, user, now + 1);
  }

  /** Bucket, debt and inherited debt in the same three amounts, bought something or not. */
  lemma BeforePurchase(rows: Table, user: string, now: nat)
    requires StampedByNow(rows, now)
    ensures var first := FirstOr(rows, user, now);
            var earlier, over := Overspend(rows, user, first, now), Over(rows, user, now);
            var bought := BoughtSum(rows, user);
            && first <= now
            && PurchasedRemaining(rows, user) == Left(bought, earlier + over)
            && PrePurchaseDebt(rows, user, now) == Max(0, earlier + over - bought)
            && InheritedDebt(rows, user, now) == earlier - bought
  {
    var first := FirstOr(rows, user, now);
    StampedBoughtByNow(rows, user, now);
    DebtSplits(rows, user, now, first);
    if FirstPurchase(rows, user).Some? {
      PurchasedSplits(rows, user, now, first);
    } else {
      NeverBought(rows, user);
    }
  }

  /**
   A pack of c raises the balance by c, or by the whole inherited debt where that is larger; the
   purchased bucket itself rises by exactly c unless there is inherited debt.
   */
  lemma PurchaseRaisesBalance(rows: Table, user: string, credits: int, externalRef: string, now: nat)
    requires FirstDelivery(rows, user, credits, externalRef, now) && StampedByNow(rows, now)
    ensures PurchaseOutcome(rows, user, credits, externalRef, now).Some?
    ensures var after := PurchaseOutcome(rows, user, credits, externalRef, now).value;
            var debt := InheritedDebt(rows, user, now);
            && Spendable(after, user, now) == Spendable(rows, user, now) + Max(credits, debt)
            && (debt <= 0 ==>
                  PurchasedRemaining(after, user) == PurchasedRemaining(rows, user) + credits)
  {
    PurchasePosts(rows, user, credits, externalRef, now);
    BalanceWithPurchase(rows, user, credits, externalRef, now);
  }

  lemma BalanceWithPurchase(rows: Table, user: string, credits: int, externalRef: string, now: nat)
    requires StampedByNow(rows, now) && credits > 0
    ensures var after := WithPurchase(rows, user, credits, externalRef, now);
            var debt := InheritedDebt(rows, user, now);
            && MonthlyLeft(after, user, now) + PurchasedRemaining(after, user)
               == MonthlyLeft(rows, user, now) + PurchasedRemaining(rows, user) + Max(credits, debt)
            && (debt <= 0 ==>
                  PurchasedRemaining(after, user) == PurchasedRemaining(rows, user) + credits)
  {
    var after := WithPurchase(rows, user, credits, externalRef, now);
    AfterPurchase(rows, user, credits, externalRef, PrePurchaseDebt(rows, user, now), now);
    PurchasedSplits(after, user, now, FirstOr(rows, user, now));
    BalanceAround(rows, after, user, credits, now);
  }

  lemma BalanceAround(rows: Table, after: Table, user: string, credits: int, now: nat)
    requires StampedByNow(rows, now) && credits > 0
    requires PoolDelta(after, user, now) == PoolDelta(rows, user, now) + PrePurchaseDebt(rows, user, now)
    requires PurchasedRemaining(after, user)
          == Left(BoughtSum(rows, user) + credits,
                  Overspend(rows, user, FirstOr(rows, user, now), now) + Over(after, user, now))
    ensures var debt := InheritedDebt(rows, user, now);
            && Max(0, PoolDelta(after, user, now)) + PurchasedRemaining(after, user)
               == Max(0, PoolDelta(rows, user, now)) + PurchasedRemaining(rows, user) + Max(credits, debt)
            && (debt <= 0 ==>
                  PurchasedRemaining(after, user) == PurchasedRemaining(rows, user) + credits)
  {
    BeforePurchase(rows, user, now);
    assert Over(rows, user, now) == Max(0, -PoolDelta(rows, user, now));
    assert Over(after, user, now) == Max(0, -PoolDelta(after, user, now));
    PurchaseNumbers(PoolDelta(rows, user, now), PoolDelta(after, user, now),
                    Over(rows, user, now), Over(after, user, now),
                    BoughtSum(rows, user), Overspend(rows, user, FirstOr(rows, user, now), now), credits,
                    PurchasedRemaining(rows, user), PurchasedRemaining(after, user));
  }

  lemma PurchaseNumbers(pool: int, poolAfter: int, over: int, overAfter: int, bought: int,
                        earlier: int, credits: int, bucket: int, bucketAfter: int)
    requires earlier >= 0 && credits > 0
    requires over == Max(0, -pool) && overAfter == Max(0, -poolAfter)
    requires poolAfter == pool + Max(0, earlier + over - bought)
    requires bucket == Left(bought, earlier + over) && bucketAfter == Left(bought + credits, earlier + overAfter)
    ensures Max(0, poolAfter) + bucketAfter == Max(0, pool) + bucket + Max(credits, earlier - bought)
    ensures earlier <= bought ==> bucketAfter == bucket + credits
  {
  }

  /** A buyer gets exactly what was paid for if and only if no larger debt is carried in. */
  lemma PackGivesExactlyItself(rows: Table, user: string, credits: int, externalRef: string, now: nat)
    requires FirstDelivery(rows, user, credits, externalRef, now) && StampedByNow(rows, now)
    ensures PurchaseOutcome(rows, user, credits, externalRef, now).Some?
    ensures Spendable(PurchaseOutcome(rows, user, credits, externalRef, now).value, user, now)
              == Spendable(rows, user, now) + credits
            <==> InheritedDebt(rows, user, now) <= credits
  {
    PurchaseRaisesBalance(rows, user, credits, externalRef, now);
  }

  /** A repeat buyer who overspent a pack last month: the next pack of 10 adds 50. */
  lemma RepeatBuyerIsGivenMore()
    ensures exists rows: Table, after: Table ::
              && Unique(rows) && StampedByNow(rows, 1)
              && PurchaseOutcome(rows, "buyer", 10, "cs_2", 1) == Some(after)
              && Spendable(rows, "buyer", 1) == 0 && Spendable(after, "buyer", 1) == 50
  {
    var bought, charged := PurchaseRow("buyer", 10, "cs_1", 0), ChargeRow("r1", "buyer", 60, 0);
    var rows := [] + [bought] + [charged];
    PurchaseRowEffect([], bought, 0, 0, 1);
    PurchaseRowEffect([], bought, 1, 0, 1);
    FirstPurchasePush([], bought, "buyer");
    PoolRowEffect([] + [bought], charged);
    SumPush([] + [bought], charged, PoolOf("buyer", 1));
    OverspendPush([] + [bought], charged, "buyer", 0, 1);
    PurchasedSplits(rows, "buyer", 1, 0);
    PurchaseRaisesBalance(rows, "buyer", 10, "cs_2", 1);
  }

  // ---------------------------------------------------------------------------
  // Reversing
  // ---------------------------------------------------------------------------

  lemma {:induction false} SameBought(rows: Table, i: nat, user: string)
    requires i < |rows| && rows[i].kind != Purchased
    ensures FirstPurchase(Without(rows, i), user) == FirstPurchase(rows, user)
  {
    var n := |rows| - 1;
    WithoutStep(rows, i);
    if i < n {
      SameBought(rows[..n], i, user);
      FirstPurchasePush(Without(rows[..n], i), rows[n], user);
    }
  }

  lemma {:induction false} SamePoolsSameOverspend(a: Table, b: Table, user: string, from: nat, until: nat)
    requires forall period: nat :: PoolDelta(a, user, period) == PoolDelta(b, user, period)
    ensures Overspend(a, user, from, until) == Overspend(b, user, from, until)
  {
    if from < until { SamePoolsSameOverspend(a, b, user, from, until - 1); }
  }

  /** Equal pools, equal purchases: the two buckets agree, whatever else the tables hold. */
  lemma SamePoolsSameBuckets(a: Table, b: Table, user: string, period: nat)
    requires forall p: nat :: PoolDelta(a, user, p) == PoolDelta(b, user, p)
    requires BoughtSum(a, user) == BoughtSum(b, user) && FirstPurchase(a, user) == FirstPurchase(b, user)
    ensures MonthlyLeft(a, user, period) == MonthlyLeft(b, user, period)
    ensures PurchasedRemaining(a, user) == PurchasedRemaining(b, user)
  {
    var until := Max(Horizon(a), Horizon(b));
    PurchasedUpTo(a, user, until);
    PurchasedUpTo(b, user, until);
    if FirstPurchase(a, user).Some? {
      SamePoolsSameOverspend(a, b, user, FirstPurchase(a, user).value, until);
    }
  }

  /**
   Reversing a charge (or any row that was not bought), however many rows later, leaves both buckets
   of every user and month as if neither row had been posted.
   */
  lemma ReversalCancels(rows: Table, i: nat, user: string, period: nat)
    requires i < |rows| && rows[i].kind != Purchased && ReversalOutcome(rows, i).Ok?
    ensures var after := ReversalOutcome(rows, i).value;
            && MonthlyLeft(after, user, period) == MonthlyLeft(Without(rows, i), user, period)
            && PurchasedRemaining(after, user) == PurchasedRemaining(Without(rows, i), user)
  {
    var e := ReversalRow(rows, i);
    forall p: nat ensures PoolDelta(rows + [e], user, p) == PoolDelta(Without(rows, i), user, p) {
      SumPush(rows, e, PoolOf(user, p));
      SumWithout(rows, i, PoolOf(user, p));
    }
    SumPush(rows, e, BoughtBy(user));
    SumWithout(rows, i, BoughtBy(user));
    SameBought(rows, i, user);
    FirstPurchasePush(rows, e, user);
    SamePoolsSameBuckets(rows + [e], Without(rows, i), user, period);
  }

  /** Without a purchase, its buyer's first purchase is the same or later, and whatever was bought is still there. */
  lemma {:induction false} FirstPurchaseWithout(rows: Table, i: nat, user: string)
    requires i < |rows|
    ensures var first, other := FirstPurchase(rows, user), FirstPurchase(Without(rows, i), user);
            other.Some? ==> first.Some? && first.value <= other.value
  {
    var n := |rows| - 1;
    WithoutStep(rows, i);
    if i < n {
      FirstPurchaseWithout(rows[..n], i, user);
      FirstPurchasePush(Without(rows[..n], i), rows[n], user);
    }
  }

  /** Months before `until` overspent since the purchase, which only its own credits could cover. */
  function OnlyItCovers(rows: Table, i: nat): int
    requires i < |rows|
  {
    var user := rows[i].user;
    match (FirstPurchase(rows, user), FirstPurchase(Without(rows, i), user))
    case (Some(first), Some(other)) => Overspend(rows, user, first, other)
    case _ => 0
  }

  /**
   Reversing a purchase keeps its month as the first one bought in. So the buyer's buckets are those of
   the ledger with neither row if and only if no month before the next purchase was overspent, or
   nothing bought would be left anyway.
   */
  lemma PurchaseReversalCancelsExactlyWhen(rows: Table, i: nat, period: nat)
    requires i < |rows| && rows[i].kind == Purchased && ReversalOutcome(rows, i).Ok?
    ensures var user, after := rows[i].user, ReversalOutcome(rows, i).value;
            && MonthlyLeft(after, user, period) == MonthlyLeft(Without(rows, i), user, period)
            && (PurchasedRemaining(after, user) == PurchasedRemaining(Without(rows, i), user)
                <==> OnlyItCovers(rows, i) == 0 || PurchasedRemaining(Without(rows, i), user) == 0)
  {
    var user, e, without := rows[i].user, ReversalRow(rows, i), Without(rows, i);
    var after := rows + [e];
    forall p: nat ensures PoolDelta(after, user, p) == PoolDelta(without, user, p) == PoolDelta(rows, user, p) {
      SumPush(rows, e, PoolOf(user, p));
      SumWithout(rows, i, PoolOf(user, p));
    }
    SumPush(rows, e, BoughtBy(user));
    SumWithout(rows, i, BoughtBy(user));
    FirstPurchasePush(rows, e, user);
    FirstPurchaseIsEarliest(rows, user);
    FirstPurchaseWithout(rows, i, user);
    var first, other := FirstPurchase(rows, user), FirstPurchase(without, user);
    assert FirstPurchase(after, user) == first;
    var until := Max(Horizon(after), Max(Horizon(without), if other.Some? then other.value else 0));
    PurchasedUpTo(after, user, until);
    PurchasedUpTo(without, user, until);
    if other.None? {
      NeverBought(without, user);
    } else {
      SamePoolsSameOverspend(after, without, user, other.value, until);
      SamePoolsSameOverspend(after, rows, user, first.value, other.value);
      OverspendConcat(after, user, first.value, other.value, until);
    }
  }

  /** Two packs, of 10 and of 50 a month later, then a late charge of 30: refunding the first takes from the other. */
  lemma RefundedPackStillCovers(rows: Table, first: Entry, second: Entry, late: Entry)
    requires first == PurchaseRow("buyer", 10, "cs_1", 0) && second == PurchaseRow("buyer", 50, "cs_2", 1)
    requires late == ChargeRow("r1", "buyer", 30, 0) && rows == [first] + [second] + [late]
    ensures Unique(rows) && ReversalOutcome(rows, 0).Ok?
    ensures PurchasedRemaining(Without(rows, 0), "buyer") == 50
    ensures PurchasedRemaining(ReversalOutcome(rows, 0).value, "buyer") != 50
  {
    var none: Table := [];
    OneOfEach(none, second, late);
    var without := none + [second] + [late];
    assert Without(rows, 0) == without;
    OnePurchase(none, first);
    FirstPurchasePush([first], second, "buyer");
    FirstPurchasePush([first] + [second], late, "buyer");
    SumPush(none, first, PoolOf("buyer", 0));
    SumPush([first], second, PoolOf("buyer", 0));
    SumPush([first] + [second], late, PoolOf("buyer", 0));
    assert none + [first] == [first];
    assert Overspend(rows, "buyer", 0, 1) == Overspend(rows, "buyer", 0, 0) + Over(rows, "buyer", 0);
    PurchaseReversalCancelsExactlyWhen(rows, 0, 0);
  }

  lemma OnePurchase(none: Table, bought: Entry)
    requires none == [] && bought.kind == Purchased
    ensures FirstPurchase(none + [bought], bought.user) == Some(bought.period)
    ensures BoughtSum(none + [bought], bought.user) == bought.credits
  {
    FirstPurchasePush(none, bought, bought.user);
    SumPush(none, bought, BoughtBy(bought.user));
  }

  lemma OneOfEach(none: Table, second: Entry, late: Entry)
    requires none == [] && second == PurchaseRow("buyer", 50, "cs_2", 1) && late == ChargeRow("r1", "buyer", 30, 0)
    ensures FirstPurchase(none + [second] + [late], "buyer") == Some(1)
    ensures PurchasedRemaining(none + [second] + [late], "buyer") == 50
  {
    var rows := none + [second] + [late];
    OnePurchase(none, second);
    FirstPurchasePush(none + [second], late, "buyer");
    SumPush(none + [second], late, BoughtBy("buyer"));
    SumPush(none, second, PoolOf("buyer", 1));
    SumPush(none + [second], late, PoolOf("buyer", 1));
    PurchasedSplits(rows, "buyer", 1, 1);
  }

  /** A charge's reversal raises the displayed allowance by the amount charged. */
  lemma ReversalRaisesAllowance(rows: Table, i: nat)
    requires i < |rows| && rows[i].entryType == Charge && rows[i].kind != Purchased && ReversalOutcome(rows, i).Ok?
    ensures PoolCredits(ReversalOutcome(rows, i).value, rows[i].user, rows[i].period)
         == PoolCredits(Without(rows, i), rows[i].user, rows[i].period) - rows[i].credits
  {
    SumPush(rows, ReversalRow(rows, i), PoolCreditsOf(rows[i].user, rows[i].period));
    SumWithout(rows, i, PoolCreditsOf(rows[i].user, rows[i].period));
  }

  /** The displayed allowance, too, is as if neither row had been posted, exactly unless a charge was reversed. */
  lemma AllowanceCancelsExactlyWhen(rows: Table, i: nat)
    requires i < |rows| && ReversalOutcome(rows, i).Ok?
    ensures PoolCredits(ReversalOutcome(rows, i).value, rows[i].user, rows[i].period)
              == PoolCredits(Without(rows, i), rows[i].user, rows[i].period)
            <==> rows[i].kind == Purchased || rows[i].entryType != Charge || rows[i].credits == 0
  {
    SumPush(rows, ReversalRow(rows, i), PoolCreditsOf(rows[i].user, rows[i].period));
    SumWithout(rows, i, PoolCreditsOf(rows[i].user, rows[i].period));
  }
}
