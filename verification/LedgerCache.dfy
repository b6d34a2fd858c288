/** The cached balance of the current month is always what the rows say. */
module LedgerCache {
  import opened Wrappers
  import opened LedgerEntries
  import opened CreditLedger

  /** Nothing is cached for a month to come, and the current month's entries are the recomputed ones. */
  ghost predicate Coherent(s: State) {
    forall key :: key in s.cache ==>
      key.1 <= s.now && (key.1 == s.now ==> s.cache[key] == Recompute(s.rows, key.0, s.now))
  }

  /** Readers ask about the current month or an earlier one. Everything else is unrestricted. */
  ghost predicate ReadsNoFuture(s: State, event: Event) {
    event.Read? ==> MonthOr(event.month, s.now) <= s.now
  }

  /** Whatever month the new row carries, dropping its key and the current one is enough. */
  lemma PostKeepsCoherent(s: State, e: Entry)
    requires Coherent(s)
    ensures Coherent(Posted(s, s.rows + [e], e.user, e.period))
  {
    var after := Posted(s, s.rows + [e], e.user, e.period);
    forall key | key in after.cache && key.1 == s.now
      ensures after.cache[key] == Recompute(after.rows, key.0, s.now)
    {
      OthersRowsDoNotCount(s.rows, e, key.0, s.now);
    }
  }

  lemma GrantKeepsCoherent(s: State, policy: Policy, user: string, plan: string, period: nat)
    requires Coherent(s)
    ensures Coherent(Granted(s, policy, user, plan, period))
    ensures Granted(s, policy, user, plan, period).now == s.now
  {
    var owed := OwedGrant(s.rows, policy, user, plan, period);
    if owed.Some? { PostKeepsCoherent(s, owed.value); }
  }

  /** Two rows at once: a grant and its absorption row, both of one user and of the current month. */
  lemma TwoPostsKeepCoherent(s: State, a: Entry, b: Entry)
    requires Coherent(s) && a.user == b.user && a.period == b.period == s.now
    ensures Coherent(Posted(s, s.rows + [a] + [b], a.user, s.now))
  {
    var after := Posted(s, s.rows + [a] + [b], a.user, s.now);
    forall key | key in after.cache && key.1 == s.now
      ensures after.cache[key] == Recompute(after.rows, key.0, s.now)
    {
      OthersRowsDoNotCount(s.rows, a, key.0, s.now);
      OthersRowsDoNotCount(s.rows + [a], b, key.0, s.now);
    }
  }

  lemma BuyKeepsCoherent(s: State, policy: Policy, user: string, credits: int, externalRef: string)
    requires Coherent(s)
    ensures Coherent(Step(s, policy, Buy(user, credits, externalRef)))
  {
    var outcome := PurchaseOutcome(s.rows, user, credits, externalRef, s.now);
    if outcome.Some? {
      var bought := PurchaseRow(user, credits, externalRef, s.now);
      var debt := PrePurchaseDebt(s.rows, user, s.now);
      if debt <= 0 {
        PostKeepsCoherent(s, bought);
      } else {
        TwoPostsKeepCoherent(s, bought, AbsorptionRow(user, debt, s.now));
      }
    }
  }

  lemma StepKeepsCoherent(s: State, policy: Policy, event: Event)
    requires Coherent(s) && ReadsNoFuture(s, event)
    ensures Coherent(Step(s, policy, event))
  {
    match event {
      case Read(user, plan, month) => GrantKeepsCoherent(s, policy, user, plan, MonthOr(month, s.now));
      case ChargeFor(requestId, user, credits, month) => ChargeKeepsCoherent(s, policy, event);
      case Buy(user, credits, externalRef) => BuyKeepsCoherent(s, policy, user, credits, externalRef);
      case PostManually(user, credits, kind, entryType, refId, month) =>
        PostKeepsCoherent(s, ManualRow(user, credits, kind, entryType, refId, MonthOr(month, s.now)));
      case Reverse(id) => ReverseKeepsCoherent(s, policy, id);
      case CacheExpires(_, _) =>
      case MonthPasses(_) =>
    }
  }

  lemma ChargeKeepsCoherent(s: State, policy: Policy, event: Event)
    requires Coherent(s) && event.ChargeFor?
    ensures Coherent(Step(s, policy, event))
  {
    PostKeepsCoherent(s, ChargeRow(event.requestId, event.user, event.credits, MonthOr(event.month, s.now)));
  }

  lemma ReverseKeepsCoherent(s: State, policy: Policy, id: nat)
    requires Coherent(s)
    ensures Coherent(Step(s, policy, Reverse(id)))
  {
    if id < |s.rows| { PostKeepsCoherent(s, ReversalRow(s.rows, id)); }
  }

  ghost predicate NeverReadsFuture(s: State, policy: Policy, events: seq<Event>) {
    forall k :: 0 <= k < |events| ==> ReadsNoFuture(Run(s, policy, events[..k]), events[k])
  }

  lemma {:induction false} CoherentStays(s: State, policy: Policy, events: seq<Event>)
    requires Coherent(s) && NeverReadsFuture(s, policy, events)
    ensures Coherent(Run(s, policy, events))
  {
    if |events| > 0 {
      var n := |events| - 1;
      forall k | 0 <= k < n ensures ReadsNoFuture(Run(s, policy, events[..n][..k]), events[..n][k]) {
        assert events[..n][..k] == events[..k];
      }
      CoherentStays(s, policy, events[..n]);
      StepKeepsCoherent(Run(s, policy, events[..n]), policy, events[n]);
    }
  }

  /** After any run of reads, posts, expiries and month ends, a cached current balance is the true one. */
  lemma CacheAgreesWithRows(policy: Policy, events: seq<Event>)
    requires NeverReadsFuture(EMPTY, policy, events)
    ensures Coherent(Run(EMPTY, policy, events))
  {
    CoherentStays(EMPTY, policy, events);
  }

  /** So every read of the current month returns the balance of the rows it leaves. */
  lemma ReadReturnsTruth(policy: Policy, events: seq<Event>, user: string, plan: string)
    requires NeverReadsFuture(EMPTY, policy, events)
    requires user != "" && Entitlement(policy, plan).Some?
    ensures var after := Step(Run(EMPTY, policy, events), policy, Read(user, plan, None));
            && (user, after.now) in after.cache
            && after.cache[(user, after.now)] == Recompute(after.rows, user, after.now)
  {
    CacheAgreesWithRows(policy, events);
    StepKeepsCoherent(Run(EMPTY, policy, events), policy, Read(user, plan, None));
  }

  /** Dropping only the charged month would not do: a late charge leaves the current entry wrong. */
  lemma ChargedMonthAloneIsNotEnough()
    ensures exists s: State, e: Entry ::
              && Coherent(s) && e.entryType == Charge && e.period < s.now
              && !Coherent(s.(rows := s.rows + [e], cache := s.cache - {(e.user, e.period)}))
  {
    var bought, late := PurchaseRow("buyer", 50, "cs_1", 0), ChargeRow("r1", "buyer", 40, 0);
    var rows := [] + [bought];
    var s := State(rows, map[("buyer", 1) := Recompute(rows, "buyer", 1)], 1);
    var after := s.(rows := rows + [late], cache := s.cache - {("buyer", 0)});
    OnePackOneCharge(bought, late);
    assert ("buyer", 1) in after.cache;
    assert after.cache[("buyer", 1)] != Recompute(after.rows, "buyer", 1);
    assert Coherent(s) && !Coherent(after);
  }

  lemma OnePackOneCharge(bought: Entry, late: Entry)
    requires bought == PurchaseRow("buyer", 50, "cs_1", 0) && late == ChargeRow("r1", "buyer", 40, 0)
    ensures PurchasedRemaining([] + [bought], "buyer") == 50
    ensures PurchasedRemaining([] + [bought] + [late], "buyer") == 10
  {
    var none: Table := [];
    OnePack(none, bought);
    FirstPurchasePush(none + [bought], late, "buyer");
    SumPush(none + [bought], late, BoughtBy("buyer"));
    SumPush(none + [bought], late, PoolOf("buyer", 0));
    HorizonPush(none + [bought], late);
    var rows := none + [bought] + [late];
    assert Overspend(rows, "buyer", 0, 1) == Overspend(rows, "buyer", 0, 0) + Over(rows, "buyer", 0);
  }

  lemma OnePack(none: Table, bought: Entry)
    requires none == [] && bought == PurchaseRow("buyer", 50, "cs_1", 0)
    ensures var rows := none + [bought];
            && FirstPurchase(rows, "buyer") == Some(0) && Horizon(rows) == 1
            && BoughtSum(rows, "buyer") == 50 && PoolDelta(rows, "buyer", 0) == 0
            && PurchasedRemaining(rows, "buyer") == 50
  {
    FirstPurchasePush(none, bought, "buyer");
    SumPush(none, bought, BoughtBy("buyer"));
    SumPush(none, bought, PoolOf("buyer", 0));
    HorizonPush(none, bought);
    var rows := none + [bought];
    assert Overspend(rows, "buyer", 0, 1) == Overspend(rows, "buyer", 0, 0) + Over(rows, "buyer", 0);
  }

  /**
   Nor can the reader be let loose on months to come: a balance read ahead of time goes stale while
   its month approaches, because posts drop the current month and not that one.
   */
  lemma ReadingAheadGoesStale(policy: Policy, early: Event, pack: Event, tick: Event)
    requires policy == Policy(map[]) && early == Read("buyer", "free", Some(1))
    requires pack == Buy("buyer", 50, "cs_1") && tick == MonthPasses(1)
    ensures !Coherent(Run(EMPTY, policy, [early, pack, tick]))
  {
    RunOfThree(EMPTY, policy, early, pack, tick);
    StaleAfter(policy, early, pack, tick);
  }

  lemma StaleAfter(policy: Policy, early: Event, pack: Event, tick: Event)
    requires policy == Policy(map[]) && early == Read("buyer", "free", Some(1))
    requires pack == Buy("buyer", 50, "cs_1") && tick == MonthPasses(1)
    ensures !Coherent(Step(Step(Step(EMPTY, policy, early), policy, pack), policy, tick))
  {
    var s1 := Step(EMPTY, policy, early);
    ReadAhead(policy, s1);
    var s2 := Step(s1, policy, pack);
    PackAhead(policy, s1, s2);
    var s3 := Step(s2, policy, tick);
    assert ("buyer", 1) in s3.cache && s3.now == 1 && s3.rows == s2.rows;
  }

  lemma RunOfThree(s: State, policy: Policy, a: Event, b: Event, c: Event)
    ensures Run(s, policy, [a, b, c]) == Step(Step(Step(s, policy, a), policy, b), policy, c)
  {
    assert [a, b, c][..2] == [a, b] && [a, b][..1] == [a] && [a][..0] == [];
    assert Run(s, policy, [a]) == Step(s, policy, a);
  }

  lemma ReadAhead(policy: Policy, s: State)
    requires policy == Policy(map[]) && s == Step(EMPTY, policy, Read("buyer", "free", Some(1)))
    ensures s == State([], map[("buyer", 1) := Breakdown(0, 0, 0)], 0)
  {
  }

  lemma PackAhead(policy: Policy, s: State, after: State)
    requires s == State([], map[("buyer", 1) := Breakdown(0, 0, 0)], 0)
    requires after == Step(s, policy, Buy("buyer", 50, "cs_1"))
    ensures after.now == 0 && ("buyer", 1) in after.cache && after.cache[("buyer", 1)].purchased == 0
    ensures PurchasedRemaining(after.rows, "buyer") == 50
  {
    OnePack(s.rows, PurchaseRow("buyer", 50, "cs_1", 0));
  }

  // ---------------------------------------------------------------------------
  // Exactly when the cache can be relied on
  // ---------------------------------------------------------------------------

  ghost predicate CurrentIsRight(s: State) {
    forall key :: key in s.cache && key.1 == s.now ==> s.cache[key] == Recompute(s.rows, key.0, s.now)
  }

  /** Whatever happens next, current balances stay right, as long as nobody reads a month to come. */
  ghost predicate StaysRight(s: State, policy: Policy) {
    forall events :: NeverReadsFuture(s, policy, events) ==> CurrentIsRight(Run(s, policy, events))
  }

  /** A manual grant of bought credits that leaves any wanted amount, none or one, in the bucket. */
  function GrantLeaving(rows: Table, user: string, now: nat, left: nat): Entry {
    var from := match FirstPurchase(rows, user) case Some(p) => Min(p, now) case None => now;
    var spent := Overspend(rows, user, from, Max(Horizon(rows), now + 1));
    ManualRow(user, (if left == 0 then 0 else spent + left) - BoughtSum(rows, user), Purchased, Grant, None, now)
  }

  lemma GrantLeaves(rows: Table, user: string, now: nat, left: nat)
    ensures PurchasedRemaining(rows + [GrantLeaving(rows, user, now, left)], user) == left
    ensures !Refused(rows, GrantLeaving(rows, user, now, left))
  {
    var e := GrantLeaving(rows, user, now, left);
    SumPush(rows, e, BoughtBy(user));
    SumPush(rows, e, PoolOf(user, now));
    FirstPurchasePush(rows, e, user);
    HorizonPush(rows, e);
    var from := FirstPurchase(rows + [e], user).value;
    OverspendPush(rows, e, user, from, Horizon(rows + [e]));
  }

  lemma RunOfTwo(s: State, policy: Policy, a: Event, b: Event)
    ensures Run(s, policy, [a, b]) == Step(Step(s, policy, a), policy, b)
  {
    assert [a, b][..1] == [a] && [a][..0] == [];
    assert Run(s, policy, [a]) == Step(s, policy, a);
  }

  /** A balance cached for any month to come can be made wrong: one posting, and the month arrives. */
  lemma FutureEntryGoesWrong(s: State, policy: Policy, user: string, month: nat) returns (events: seq<Event>)
    requires (user, month) in s.cache && s.now < month
    ensures NeverReadsFuture(s, policy, events) && !CurrentIsRight(Run(s, policy, events))
  {
    var e := GrantLeaving(s.rows, user, s.now, if s.cache[(user, month)].purchased == 0 then 1 else 0);
    GrantLeaves(s.rows, user, s.now, 0);
    GrantLeaves(s.rows, user, s.now, 1);
    var post, tick := PostManually(user, e.credits, Purchased, Grant, None, None), MonthPasses(month - s.now);
    events := [post, tick];
    RunOfTwo(s, policy, post, tick);
    var after := Step(Step(s, policy, post), policy, tick);
    assert after.now == month && after.rows == s.rows + [e];
    assert (user, month) in after.cache && after.cache[(user, month)] == s.cache[(user, month)];
    assert Recompute(after.rows, user, month).purchased != after.cache[(user, month)].purchased;
  }

  /** From any state whose current balances are right: they can be relied on if and only if no later month is cached. */
  lemma StaysRightExactlyWhen(s: State, policy: Policy)
    requires CurrentIsRight(s)
    ensures StaysRight(s, policy) <==> forall key :: key in s.cache ==> key.1 <= s.now
  {
    if forall key :: key in s.cache ==> key.1 <= s.now {
      forall events | NeverReadsFuture(s, policy, events) ensures CurrentIsRight(Run(s, policy, events)) {
        CoherentStays(s, policy, events);
      }
    } else {
      var key :| key in s.cache && s.now < key.1;
      var events := FutureEntryGoesWrong(s, policy, key.0, key.1);
    }
  }
}
