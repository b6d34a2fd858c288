/**
 Conservation over whole runs: while no charge exceeds the balance it was checked against, what was
 granted or bought is what was charged, plus what is spendable, plus the past months' unused allowance.
 */
module LedgerConservation {
  import opened Wrappers
  import opened LedgerEntries
  import opened CreditLedger
  import opened LedgerLaws

  /** Allowance that months before `until` left unspent. */
  function Unused(rows: Table, user: string, until: nat): int {
    if until == 0 then 0 else Unused(rows, user, until - 1) + Max(0, PoolDelta(rows, user, until - 1))
  }

  /** Charges, net of their reversals, as a positive amount. */
  function NetCharged(rows: Table, user: string): int {
    -Sum(rows, NotGrantedTo(user))
  }

  /** The month from which overspend may draw on purchases; with none, no month yet. */
  function CoveredFrom(rows: Table, user: string, now: nat): nat {
    FirstOr(rows, user, now + 1)
  }

  /** No month before the first purchase is overspent, and later overspend is covered by what was bought. */
  ghost predicate Covered(rows: Table, user: string, now: nat) {
    && StampedByNow(rows, now)
    && (forall k :: 0 <= k < |rows| && rows[k].entryType == Charge ==>
          rows[k].kind != Purchased && rows[k].credits <= 0)
    && Overspend(rows, user, 0, CoveredFrom(rows, user, now)) == 0
    && Overspend(rows, user, CoveredFrom(rows, user, now), now + 1) <= BoughtSum(rows, user)
  }

  ghost predicate Disciplined(s: State, event: Event) {
    match event
    case Read(_, _, month) => MonthOr(month, s.now) <= s.now
    case ChargeFor(_, user, credits, month) =>
      MonthOr(month, s.now) == s.now && credits <= Spendable(s.rows, user, s.now)
    case PostManually(_, credits, _, entryType, _, month) =>
      entryType == Grant && credits >= 0 && MonthOr(month, s.now) <= s.now
    case Reverse(id) => id < |s.rows| ==> s.rows[id].entryType == Charge
    case _ => true
  }

  // ---------------------------------------------------------------------------
  // The equation
  // ---------------------------------------------------------------------------

  function PoolsUpTo(rows: Table, user: string, until: nat): int {
    if until == 0 then 0 else PoolsUpTo(rows, user, until - 1) + PoolDelta(rows, user, until - 1)
  }

  lemma {:induction false} PoolsSplit(rows: Table, user: string, until: nat)
    ensures PoolsUpTo(rows, user, until) == Unused(rows, user, until) - Overspend(rows, user, 0, until)
  {
    if until > 0 { PoolsSplit(rows, user, until - 1); }
  }

  lemma {:induction false} PoolsPush(rows: Table, e: Entry, user: string, until: nat)
    ensures PoolsUpTo(rows + [e], user, until)
         == PoolsUpTo(rows, user, until) + if e.period < until then Share(NotBoughtBy(user), e) else 0
  {
    if until > 0 {
      PoolsPush(rows, e, user, until - 1);
      SumPush(rows, e, PoolOf(user, until - 1));
    }
  }

  /** Every row that was not bought belongs to exactly one month's pool. */
  lemma {:induction false} PoolsAddUp(rows: Table, user: string, until: nat)
    requires forall k :: 0 <= k < |rows| ==> rows[k].period < until
    ensures PoolsUpTo(rows, user, until) == Sum(rows, NotBoughtBy(user))
  {
    if |rows| == 0 {
      NoPools(rows, user, until);
    } else {
      var n := |rows| - 1;
      PoolsAddUp(rows[..n], user, until);
      PoolsPush(rows[..n], rows[n], user, until);
      assert rows[..n] + [rows[n]] == rows;
    }
  }

  lemma {:induction false} NoPools(rows: Table, user: string, until: nat)
    requires |rows| == 0
    ensures PoolsUpTo(rows, user, until) == 0
  {
    if until > 0 { NoPools(rows, user, until - 1); }
  }

  lemma {:induction false} TwoWaysToCount(rows: Table, user: string)
    ensures Sum(rows, GrantedTo(user)) + Sum(rows, NotGrantedTo(user))
         == Sum(rows, BoughtBy(user)) + Sum(rows, NotBoughtBy(user))
  {
    if |rows| > 0 { TwoWaysToCount(rows[..|rows| - 1], user); }
  }

  lemma CoveredBucket(rows: Table, user: string, now: nat)
    requires Covered(rows, user, now)
    ensures CoveredFrom(rows, user, now) <= now + 1
    ensures Overspend(rows, user, 0, now + 1) == Overspend(rows, user, CoveredFrom(rows, user, now), now + 1)
    ensures PurchasedRemaining(rows, user) == BoughtSum(rows, user) - Overspend(rows, user, 0, now + 1)
  {
    StampedBoughtByNow(rows, user, now);
    OverspendConcat(rows, user, 0, CoveredFrom(rows, user, now), now + 1);
    if FirstPurchase(rows, user).None? { NeverBought(rows, user); }
    PurchasedUpTo(rows, user, now + 1);
  }

  lemma CoveredBalances(rows: Table, user: string, now: nat)
    requires Covered(rows, user, now)
    ensures Sum(rows, GrantedTo(user))
         == NetCharged(rows, user) + Spendable(rows, user, now) + Unused(rows, user, now)
  {
    CoveredBucket(rows, user, now);
    PoolsSplit(rows, user, now + 1);
    PoolsAddUp(rows, user, now + 1);
    TwoWaysToCount(rows, user);
  }

  lemma CoveredNeedsNoAbsorption(rows: Table, user: string, now: nat)
    requires Covered(rows, user, now)
    ensures PrePurchaseDebt(rows, user, now) == 0
  {
    BeforePurchase(rows, user, now);
    CoveredBucket(rows, user, now);
    var first := FirstOr(rows, user, now);
    OverspendConcat(rows, user, 0, first, now + 1);
    if FirstPurchase(rows, user).None? { NeverBought(rows, user); }
  }

  // ---------------------------------------------------------------------------
  // Every step keeps it
  // ---------------------------------------------------------------------------

  /** More credit on the month's side never uncovers anything. */
  lemma CreditKeepsCovered(rows: Table, e: Entry, user: string, now: nat)
    requires Covered(rows, user, now)
    requires e.kind != Purchased && e.entryType != Charge && e.credits >= 0 && e.period <= now
    ensures Covered(rows + [e], user, now)
  {
    var from := CoveredFrom(rows, user, now);
    FirstPurchasePush(rows, e, user);
    SumPush(rows, e, BoughtBy(user));
    SumPush(rows, e, PoolOf(user, e.period));
    OverspendPush(rows, e, user, 0, from);
    OverspendPush(rows, e, user, from, now + 1);
  }

  lemma PackKeepsCovered(rows: Table, e: Entry, user: string, now: nat)
    requires Covered(rows, user, now)
    requires e.kind == Purchased && e.entryType != Charge && e.credits >= 0 && e.period <= now
    ensures Covered(rows + [e], user, now)
  {
    CoveredBucket(rows, user, now);
    FirstPurchasePush(rows, e, user);
    SumPush(rows, e, BoughtBy(user));
    SumPush(rows, e, PoolOf(user, e.period));
    var from, next := CoveredFrom(rows, user, now), CoveredFrom(rows + [e], user, now);
    OverspendConcat(rows, user, 0, next, from);
    OverspendConcat(rows, user, next, from, now + 1);
    OverspendPush(rows, e, user, 0, next);
    OverspendPush(rows, e, user, next, now + 1);
  }

  /** A charge within the balance spends the month, then what was bought, and no more. */
  lemma ChargeKeepsCovered(rows: Table, e: Entry, user: string, now: nat)
    requires Covered(rows, user, now)
    requires e.kind != Purchased && e.credits <= 0 && e.period == now
    requires e.user == user ==> -e.credits <= Spendable(rows, user, now)
    ensures Covered(rows + [e], user, now)
  {
    CoveredBucket(rows, user, now);
    ChargeOverspends(rows, e, user, now, PurchasedRemaining(rows, user));
    StampedBoughtByNow(rows, user, now);
    FirstPurchasePush(rows, e, user);
    SumPush(rows, e, BoughtBy(user));
    var from := CoveredFrom(rows, user, now);
    OverspendPush(rows, e, user, 0, from);
    OverspendPush(rows, e, user, from, now + 1);
    if FirstPurchase(rows, user).None? { NeverBought(rows, user); }
  }

  /** The month's overspend grows by no more than the bucket holds. */
  lemma ChargeOverspends(rows: Table, e: Entry, user: string, now: nat, bucket: int)
    requires e.kind != Purchased && e.period == now && bucket >= 0
    requires e.user == user ==> -e.credits <= Max(0, PoolDelta(rows, user, now)) + bucket
    ensures Over(rows + [e], user, now) <= Over(rows, user, now) + bucket
  {
    SumPush(rows, e, PoolOf(user, now));
  }

  lemma MonthKeepsCovered(rows: Table, user: string, now: nat, later: nat)
    requires Covered(rows, user, now) && now <= later
    ensures Covered(rows, user, later)
  {
    CoveredBucket(rows, user, now);
    var from := CoveredFrom(rows, user, now);
    OverspendEnds(rows, user, 0, now + 1, later + 1);
    OverspendEnds(rows, user, from, now + 1, later + 1);
    if FirstPurchase(rows, user).None? { NeverBought(rows, user); }
  }

  lemma BuyKeepsCovered(s: State, policy: Policy, event: Event, user: string)
    requires event.Buy? && Covered(s.rows, user, s.now) && Covered(s.rows, event.user, s.now)
    ensures Covered(Step(s, policy, event).rows, user, s.now)
  {
    CoveredNeedsNoAbsorption(s.rows, event.user, s.now);
    if PurchaseOutcome(s.rows, event.user, event.credits, event.externalRef, s.now).Some? {
      PackKeepsCovered(s.rows, PurchaseRow(event.user, event.credits, event.externalRef, s.now), user, s.now);
    }
  }

  lemma StepKeepsCovered(s: State, policy: Policy, event: Event, user: string)
    requires forall u :: Covered(s.rows, u, s.now)
    requires Disciplined(s, event)
    ensures Covered(Step(s, policy, event).rows, user, Step(s, policy, event).now)
  {
    assert Covered(s.rows, user, s.now);
    match event {
      case Read(reader, plan, month) =>
        var owed := OwedGrant(s.rows, policy, reader, plan, MonthOr(month, s.now));
        if owed.Some? { CreditKeepsCovered(s.rows, owed.value, user, s.now); }
      case ChargeFor(requestId, payer, credits, month) =>
        if credits > 0 { ChargeKeepsCovered(s.rows, ChargeRow(requestId, payer, credits, s.now), user, s.now); }
      case Buy(_, _, _) => BuyKeepsCovered(s, policy, event, user);
      case PostManually(owner, credits, kind, entryType, refId, month) =>
        var e := ManualRow(owner, credits, kind, entryType, refId, MonthOr(month, s.now));
        if kind == Purchased { PackKeepsCovered(s.rows, e, user, s.now); }
        else { CreditKeepsCovered(s.rows, e, user, s.now); }
      case Reverse(id) =>
        if id < |s.rows| { CreditKeepsCovered(s.rows, ReversalRow(s.rows, id), user, s.now); }
      case CacheExpires(_, _) =>
      case MonthPasses(months) => MonthKeepsCovered(s.rows, user, s.now, s.now + months);
    }
  }

  ghost predicate DisciplinedRun(policy: Policy, events: seq<Event>) {
    forall k :: 0 <= k < |events| ==> Disciplined(Run(EMPTY, policy, events[..k]), events[k])
  }

  lemma {:induction false} RunStaysCovered(policy: Policy, events: seq<Event>, user: string)
    requires DisciplinedRun(policy, events)
    ensures Covered(Run(EMPTY, policy, events).rows, user, Run(EMPTY, policy, events).now)
    decreases |events|
  {
    if |events| > 0 {
      var n := |events| - 1;
      forall k | 0 <= k < n ensures Disciplined(Run(EMPTY, policy, events[..n][..k]), events[..n][k]) {
        assert events[..n][..k] == events[..k];
      }
      var before := Run(EMPTY, policy, events[..n]);
      forall u ensures Covered(before.rows, u, before.now) {
        RunStaysCovered(policy, events[..n], u);
      }
      StepKeepsCovered(before, policy, events[n], user);
    }
  }

  /** Nothing is minted and nothing is lost, for every user, at the end of every disciplined run. */
  lemma CreditsAreConserved(policy: Policy, events: seq<Event>, user: string)
    requires DisciplinedRun(policy, events)
    ensures var s := Run(EMPTY, policy, events);
            Sum(s.rows, GrantedTo(user))
            == NetCharged(s.rows, user) + Spendable(s.rows, user, s.now) + Unused(s.rows, user, s.now)
  {
    RunStaysCovered(policy, events, user);
    var s := Run(EMPTY, policy, events);
    CoveredBalances(s.rows, user, s.now);
  }

  lemma BuyPostsOneRow(s: State, policy: Policy, user: string, credits: int, externalRef: string)
    requires PrePurchaseDebt(s.rows, user, s.now) == 0
    ensures |Step(s, policy, Buy(user, credits, externalRef)).rows| <= |s.rows| + 1
  {
  }

  /** In such a run a purchase is its one row: there is never overshoot to absorb. */
  lemma NothingIsAbsorbed(policy: Policy, events: seq<Event>, user: string, credits: int, externalRef: string)
    requires DisciplinedRun(policy, events)
    ensures var s := Run(EMPTY, policy, events);
            PrePurchaseDebt(s.rows, user, s.now) == 0
            && |Step(s, policy, Buy(user, credits, externalRef)).rows| <= |s.rows| + 1
  {
    RunStaysCovered(policy, events, user);
    var s := Run(EMPTY, policy, events);
    CoveredNeedsNoAbsorption(s.rows, user, s.now);
    BuyPostsOneRow(s, policy, user, credits, externalRef);
  }
}
