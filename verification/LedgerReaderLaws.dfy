/** When the balance a reader caches is right, and what it is when others post between its statements. */
module LedgerReaderLaws {
  import opened Wrappers
  import opened LedgerEntries
  import opened CreditLedger
  import opened LedgerLaws
  import opened LedgerReaders

  // ---------------------------------------------------------------------------
  // Undisturbed
  // ---------------------------------------------------------------------------

  ghost predicate NoRowsOf(rows: Table, user: string, from: nat) {
    forall k :: from <= k < |rows| ==> rows[k].user != user
  }

  lemma {:induction false} SumUpTo(rows: Table, k: nat, q: Query)
    requires k <= |rows| && forall j :: k <= j < |rows| ==> !Selects(q, rows[j])
    ensures Sum(rows[..k], q) == Sum(rows, q)
  {
    if k == |rows| {
      assert rows[..k] == rows;
    } else {
      SumUpTo(rows[..|rows| - 1], k, q);
      assert rows[..|rows| - 1][..k] == rows[..k];
    }
  }

  lemma {:induction false} FirstPurchaseUpTo(rows: Table, k: nat, user: string)
    requires k <= |rows| && NoRowsOf(rows, user, k)
    ensures FirstPurchase(rows[..k], user) == FirstPurchase(rows, user)
  {
    if k == |rows| {
      assert rows[..k] == rows;
    } else {
      FirstPurchaseUpTo(rows[..|rows| - 1], k, user);
      assert rows[..|rows| - 1][..k] == rows[..k];
    }
  }

  lemma OverspendUpTo(rows: Table, k: nat, user: string, from: nat)
    requires k <= |rows| && NoRowsOf(rows, user, k)
    ensures Overspend(rows[..k], user, from, Horizon(rows[..k])) == Overspend(rows, user, from, Horizon(rows))
  {
    var until := Max(Horizon(rows[..k]), Horizon(rows));
    forall period: nat ensures PoolDelta(rows[..k], user, period) == PoolDelta(rows, user, period) {
      SumUpTo(rows, k, PoolOf(user, period));
    }
    SamePoolsSameOverspend(rows[..k], rows, user, from, until);
    HorizonIsBeyond(rows);
    HorizonIsBeyond(rows[..k]);
    OverspendEnds(rows[..k], user, from, Horizon(rows[..k]), until);
    OverspendEnds(rows, user, from, Horizon(rows), until);
  }

  lemma QuietReadIsRight(rows: Table, user: string, period: nat, from: nat, m: seq<nat>)
    requires |m| == 5 && Moments(m, 0, |rows|) && Moments(m, from, |rows|) && NoRowsOf(rows, user, from)
    ensures ReadAt(rows, user, period, m) == Recompute(rows, user, period)
  {
    SumUpTo(rows, m[0], PoolCreditsOf(user, period));
    SumUpTo(rows, m[1], PoolOf(user, period));
    SumUpTo(rows, m[2], BoughtBy(user));
    FirstPurchaseUpTo(rows, m[3], user);
    if FirstPurchase(rows, user).Some? { OverspendUpTo(rows, m[4], user, FirstPurchase(rows, user).value); }
  }

  /** In every run: with no posting of the user since its reader began, what the reader caches is right. */
  lemma UndisturbedStoreIsRight(policy: Policy, steps: seq<ReaderStep>, reader: nat)
    requires var r := ReaderRun(Readers(EMPTY, map[]), policy, steps);
             reader in r.at && r.at[reader].Done? && NoRowsOf(r.ledger.rows, r.at[reader].user, r.at[reader].since)
    ensures var r := ReaderRun(Readers(EMPTY, map[]), policy, steps);
            var user, period := r.at[reader].user, r.at[reader].period;
            var after := ReaderNext(r, policy, Store(reader)).ledger;
            (user, period) in after.cache && after.cache[(user, period)] == Recompute(after.rows, user, period)
  {
    CachedBalancesWereReadInOrder(policy, steps);
    var r := ReaderRun(Readers(EMPTY, map[]), policy, steps);
    UndisturbedReadingIsRight(r.ledger.rows, r.at[reader]);
  }

  lemma UndisturbedReadingIsRight(rows: Table, r: Reading)
    requires SomeFit(rows, r) && r.Done? && NoRowsOf(rows, r.user, r.since)
    ensures r.balance == Recompute(rows, r.user, r.period)
  {
    var m :| Fits(rows, r, m);
    QuietReadIsRight(rows, r.user, r.period, r.since, m);
  }

  // ---------------------------------------------------------------------------
  // A posting between the last statement and the store
  // ---------------------------------------------------------------------------

  ghost predicate EntryIsRight(s: State, user: string) {
    (user, s.now) in s.cache && s.cache[(user, s.now)] == Recompute(s.rows, user, s.now)
  }

  /** A reader holds this month's balance, right until now. */
  ghost predicate HoldsTruth(r: Readers, reader: nat, user: string) {
    && reader in r.at && r.at[reader].Done? && r.at[reader].user == user && r.at[reader].period == r.ledger.now
    && r.at[reader].balance == Recompute(r.ledger.rows, user, r.ledger.now)
  }

  function LateSteps(reader: nat, event: Event): seq<ReaderStep> {
    [Do(event), Store(reader)]
  }

  lemma LateStore(r: Readers, policy: Policy, reader: nat, user: string, event: Event)
    requires HoldsTruth(r, reader, user) && !event.MonthPasses?
    ensures var posted := Step(r.ledger, policy, event);
            var end := ReaderRun(r, policy, LateSteps(reader, event)).ledger;
            EntryIsRight(end, user)
            <==> Recompute(r.ledger.rows, user, r.ledger.now) == Recompute(posted.rows, user, r.ledger.now)
  {
    var steps := LateSteps(reader, event);
    assert steps[..1] == [Do(event)] && steps[..1][..0] == [];
    var middle := ReaderNext(r, policy, Do(event));
    assert ReaderRun(r, policy, steps[..1]) == middle;
    assert ReaderRun(r, policy, steps) == ReaderNext(middle, policy, Store(reader));
    NowStays(r.ledger, policy, event);
  }

  lemma NowStays(s: State, policy: Policy, event: Event)
    requires !event.MonthPasses?
    ensures Step(s, policy, event).now == s.now
  {
  }

  lemma ChargedBreakdown(before: Breakdown, after: Breakdown, credits: int)
    requires credits > 0 && before.monthly >= 0 && before.purchased >= 0 && after.allowance == before.allowance
    requires after.monthly == Max(0, before.monthly - credits)
    requires after.purchased == Max(0, before.purchased - Max(0, credits - before.monthly))
    ensures before == after <==> before.Total() == 0
  {
  }

  /** Both sides of a charge, and the allowance it leaves alone. */
  lemma AroundCharge(rows: Table, e: Entry, requestId: string, user: string, credits: int, now: nat)
    requires credits > 0 && e == ChargeRow(requestId, user, credits, now) && BoughtByNow(rows, user, now)
    ensures var before, after := Recompute(rows, user, now), Recompute(rows + [e], user, now);
            && before.monthly >= 0 && before.purchased >= 0 && after.allowance == before.allowance
            && after.monthly == Max(0, before.monthly - credits)
            && after.purchased == Max(0, before.purchased - Max(0, credits - before.monthly))
  {
    ChargeRowEffect(rows, e);
    AllowanceStays(rows, e, user, now);
    assert MonthlyLeft(rows + [e], user, now) == Max(0, MonthlyLeft(rows, user, now) - credits);
  }

  lemma AllowanceStays(rows: Table, e: Entry, user: string, period: nat)
    requires e.entryType == Charge
    ensures PoolCredits(rows + [e], user, period) == PoolCredits(rows, user, period)
  {
    SumPush(rows, e, PoolCreditsOf(user, period));
  }

  lemma ChargeStep(s: State, policy: Policy, requestId: string, user: string, credits: int)
    requires credits > 0 && requestId != "" && !Refused(s.rows, ChargeRow(requestId, user, credits, s.now))
    ensures Step(s, policy, ChargeFor(requestId, user, credits, None)).rows
         == s.rows + [ChargeRow(requestId, user, credits, s.now)]
  {
  }

  /** After a charge, what the cache then holds is right if and only if there was nothing left to spend. */
  lemma LateStoreIsRightExactlyWhen(r: Readers, policy: Policy, reader: nat, requestId: string, user: string,
                                    credits: int)
    requires HoldsTruth(r, reader, user) && BoughtByNow(r.ledger.rows, user, r.ledger.now)
    requires credits > 0 && requestId != ""
    requires !Refused(r.ledger.rows, ChargeRow(requestId, user, credits, r.ledger.now))
    ensures var charge := ChargeFor(requestId, user, credits, None);
            EntryIsRight(ReaderRun(r, policy, LateSteps(reader, charge)).ledger, user)
            <==> Spendable(r.ledger.rows, user, r.ledger.now) == 0
  {
    var s, e := r.ledger, ChargeRow(requestId, user, credits, r.ledger.now);
    LateStore(r, policy, reader, user, ChargeFor(requestId, user, credits, None));
    ChargeStep(s, policy, requestId, user, credits);
    AroundCharge(s.rows, e, requestId, user, credits, s.now);
    ChargedBreakdown(Recompute(s.rows, user, s.now), Recompute(s.rows + [e], user, s.now), credits);
  }

  lemma BuyStep(s: State, policy: Policy, user: string, credits: int, ref: string)
    requires FirstDelivery(s.rows, user, credits, ref, s.now)
    ensures Step(s, policy, Buy(user, credits, ref)).rows == WithPurchase(s.rows, user, credits, ref, s.now)
  {
    PurchasePosts(s.rows, user, credits, ref, s.now);
  }

  lemma PurchaseMovesBalance(rows: Table, user: string, credits: int, ref: string, now: nat)
    requires FirstDelivery(rows, user, credits, ref, now) && StampedByNow(rows, now)
    ensures Recompute(rows, user, now) != Recompute(WithPurchase(rows, user, credits, ref, now), user, now)
  {
    PurchasePosts(rows, user, credits, ref, now);
    PurchaseRaisesBalance(rows, user, credits, ref, now);
    assert Spendable(WithPurchase(rows, user, credits, ref, now), user, now) > Spendable(rows, user, now);
  }

  /** After a purchase it is never right. */
  lemma LateStoreAfterPurchaseIsWrong(r: Readers, policy: Policy, reader: nat, user: string, credits: int, ref: string)
    requires HoldsTruth(r, reader, user) && StampedByNow(r.ledger.rows, r.ledger.now)
    requires FirstDelivery(r.ledger.rows, user, credits, ref, r.ledger.now)
    ensures !EntryIsRight(ReaderRun(r, policy, LateSteps(reader, Buy(user, credits, ref))).ledger, user)
  {
    LateStore(r, policy, reader, user, Buy(user, credits, ref));
    BuyStep(r.ledger, policy, user, credits, ref);
    PurchaseMovesBalance(r.ledger.rows, user, credits, ref, r.ledger.now);
  }

  /**
   After any other row of the current month (a grant, a manual entry, a reversal of what was not bought), it
   is right if and only if that row carries nothing.
   */
  lemma LateStoreAfterRowExactlyWhen(r: Readers, policy: Policy, reader: nat, user: string, event: Event, e: Entry)
    requires HoldsTruth(r, reader, user) && BoughtByNow(r.ledger.rows, user, r.ledger.now) && !event.MonthPasses?
    requires Step(r.ledger, policy, event).rows == r.ledger.rows + [e]
    requires e.user == user && e.period == r.ledger.now && e.kind != Purchased && e.entryType != Charge
    ensures EntryIsRight(ReaderRun(r, policy, LateSteps(reader, event)).ledger, user) <==> e.credits == 0
  {
    LateStore(r, policy, reader, user, event);
    RowMovesBalance(r.ledger.rows, e);
  }

  lemma RowMovesBalance(rows: Table, e: Entry)
    requires e.kind != Purchased && e.entryType != Charge && BoughtByNow(rows, e.user, e.period)
    ensures Recompute(rows, e.user, e.period) == Recompute(rows + [e], e.user, e.period) <==> e.credits == 0
  {
    SumPush(rows, e, PoolCreditsOf(e.user, e.period));
    PoolRowEffect(rows, e);
    var elsewhere := PurchasedAroundPoolRow(rows, e);
  }

  // ---------------------------------------------------------------------------
  // A charge between the month's statement and the purchased ones
  // ---------------------------------------------------------------------------

  lemma {:induction false} ReaderRunFirst(r: Readers, policy: Policy, a: ReaderStep, rest: seq<ReaderStep>)
    ensures ReaderRun(r, policy, [a] + rest) == ReaderRun(ReaderNext(r, policy, a), policy, rest)
    decreases |rest|
  {
    var all := [a] + rest;
    if |rest| == 0 {
      assert all[..0] == [] && ReaderRun(r, policy, all[..0]) == r;
    } else {
      ReaderRunFirst(r, policy, a, rest[..|rest| - 1]);
      assert all[..|all| - 1] == [a] + rest[..|rest| - 1];
    }
  }

  /** Three statements in a row see one bucket, whether or not the first or second ends the reading. */
  lemma ThreeStatements(r: Reading, rows: Table)
    requires r.MonthRead?
    ensures AfterStatement(AfterStatement(AfterStatement(r, rows), rows), rows)
         == Done(r.user, r.period, r.since, Breakdown(r.monthly, PurchasedRemaining(rows, r.user), r.allowance))
  {
  }

  function ThreeAndStore(reader: nat): seq<ReaderStep> {
    [Statement(reader), Statement(reader), Statement(reader), Store(reader)]
  }

  lemma ThreeAndStoreRun(r: Readers, policy: Policy, reader: nat)
    requires reader in r.at && r.at[reader].MonthRead?
    ensures var end := ReaderRun(r, policy, ThreeAndStore(reader)).ledger;
            var reading := r.at[reader];
            end == r.ledger.(cache := r.ledger.cache[(reading.user, reading.period) :=
              Breakdown(reading.monthly, PurchasedRemaining(r.ledger.rows, reading.user), reading.allowance)])
  {
    var a, store := Statement(reader), Store(reader);
    ThreeStatements(r.at[reader], r.ledger.rows);
    var r1 := ReaderNext(r, policy, a);
    var r2 := ReaderNext(r1, policy, a);
    var r3 := ReaderNext(r2, policy, a);
    assert ThreeAndStore(reader) == [a] + [a, a, store] && [a, a, store] == [a] + [a, store];
    assert [a, store] == [a] + [store] && [store] == [store] + [];
    ReaderRunFirst(r, policy, a, [a, a, store]);
    ReaderRunFirst(r1, policy, a, [a, store]);
    ReaderRunFirst(r2, policy, a, [store]);
    ReaderRunFirst(r3, policy, store, []);
  }

  /** Two statements, the charge, the other three, and the store. */
  function MixedSteps(reader: nat, charge: Event): seq<ReaderStep> {
    [Statement(reader), Statement(reader), Do(charge)] + ThreeAndStore(reader)
  }

  /** What is cached then: the month from before the charge, the bucket from after it. */
  function Mixed(rows: Table, e: Entry, user: string, now: nat): Breakdown {
    Breakdown(MonthlyLeft(rows, user, now), PurchasedRemaining(rows + [e], user), PoolCredits(rows, user, now))
  }

  lemma MixedRun(r: Readers, policy: Policy, reader: nat, requestId: string, user: string, credits: int)
    requires reader in r.at && r.at[reader].Begun? && r.at[reader].user == user && r.at[reader].period == r.ledger.now
    requires credits > 0 && requestId != ""
    requires !Refused(r.ledger.rows, ChargeRow(requestId, user, credits, r.ledger.now))
    ensures var e := ChargeRow(requestId, user, credits, r.ledger.now);
            var end := ReaderRun(r, policy, MixedSteps(reader, ChargeFor(requestId, user, credits, None))).ledger;
            && end.rows == r.ledger.rows + [e] && end.now == r.ledger.now && (user, end.now) in end.cache
            && end.cache[(user, end.now)] == Mixed(r.ledger.rows, e, user, end.now)
  {
    var charge, rest := ChargeFor(requestId, user, credits, None), ThreeAndStore(reader);
    var a := Statement(reader);
    var r1 := ReaderNext(r, policy, a);
    var r2 := ReaderNext(r1, policy, a);
    var r3 := ReaderNext(r2, policy, Do(charge));
    ChargeStep(r.ledger, policy, requestId, user, credits);
    NowStays(r.ledger, policy, charge);
    ThreeAndStoreRun(r3, policy, reader);
    ReaderRunFirst(r, policy, a, [a, Do(charge)] + rest);
    ReaderRunFirst(r1, policy, a, [Do(charge)] + rest);
    ReaderRunFirst(r2, policy, Do(charge), rest);
    assert MixedSteps(reader, charge) == [a] + ([a, Do(charge)] + rest);
    assert [a, Do(charge)] + rest == [a] + ([Do(charge)] + rest);
  }

  /**
   From any state with a reader at its start: the cached balance is that of before or of after the charge
   if and only if the month's side was empty or bore the whole charge, or nothing bought was left.
   */
  lemma MixedIsOfOneMomentExactlyWhen(r: Readers, policy: Policy, reader: nat, requestId: string, user: string,
                                      credits: int)
    requires reader in r.at && r.at[reader].Begun? && r.at[reader].user == user && r.at[reader].period == r.ledger.now
    requires credits > 0 && requestId != "" && BoughtByNow(r.ledger.rows, user, r.ledger.now)
    requires !Refused(r.ledger.rows, ChargeRow(requestId, user, credits, r.ledger.now))
    ensures var end := ReaderRun(r, policy, MixedSteps(reader, ChargeFor(requestId, user, credits, None))).ledger;
            var before, now := r.ledger.rows, r.ledger.now;
            && (user, now) in end.cache
            && (end.cache[(user, now)] in {Recompute(before, user, now), Recompute(end.rows, user, now)}
                <==> || MonthlyLeft(before, user, now) == 0 || credits <= MonthlyLeft(before, user, now)
                     || PurchasedRemaining(before, user) == 0)
  {
    var e := ChargeRow(requestId, user, credits, r.ledger.now);
    MixedRun(r, policy, reader, requestId, user, credits);
    AroundCharge(r.ledger.rows, e, requestId, user, credits, r.ledger.now);
    MixedBreakdown(Recompute(r.ledger.rows, user, r.ledger.now), Recompute(r.ledger.rows + [e], user, r.ledger.now),
                   credits);
  }

  lemma MixedBreakdown(before: Breakdown, after: Breakdown, credits: int)
    requires credits > 0 && before.monthly >= 0 && before.purchased >= 0 && after.allowance == before.allowance
    requires after.monthly == Max(0, before.monthly - credits)
    requires after.purchased == Max(0, before.purchased - Max(0, credits - before.monthly))
    ensures var mixed := Breakdown(before.monthly, after.purchased, before.allowance);
            mixed == before || mixed == after
            <==> before.monthly == 0 || credits <= before.monthly || before.purchased == 0
  {
  }

  // ---------------------------------------------------------------------------
  // A run in which it is of no moment at all
  // ---------------------------------------------------------------------------

  /** The balance of the rows as they stood at one moment or another. */
  ghost predicate OnceTrue(rows: Table, user: string, period: nat, balance: Breakdown) {
    exists k :: 0 <= k <= |rows| && balance == Recompute(rows[..k], user, period)
  }

  function NoMomentSteps(begin: ReaderStep, buy: ReaderStep, charge: Event): seq<ReaderStep> {
    [begin, buy] + MixedSteps(1, charge)
  }

  /** A grant of 10, a pack of 50, and a charge of 30 in the middle of a reading: 10 and 30 is cached. */
  lemma OfNoMoment(policy: Policy, begin: ReaderStep, buy: ReaderStep, charge: Event)
    requires policy == Policy(map["free" := Some(10)]) && begin == Begin(1, "u", "free", None)
    requires buy == Do(Buy("u", 50, "cs_1")) && charge == ChargeFor("r1", "u", 30, None)
    ensures var end := ReaderRun(Readers(EMPTY, map[]), policy, NoMomentSteps(begin, buy, charge)).ledger;
            && end.now == 0 && ("u", 0) in end.cache && end.cache[("u", 0)] == Breakdown(10, 30, 10)
            && !OnceTrue(end.rows, "u", 0, end.cache[("u", 0)])
  {
    var grant, bought := MonthlyGrantRow("u", "free", 10, 0), PurchaseRow("u", 50, "cs_1", 0);
    var none: Table := [];
    var r := Readers(State(none + [grant] + [bought], map[], 0), map[1 := Begun("u", 0, 1)]);
    TwoThen(Readers(EMPTY, map[]), policy, begin, buy, MixedSteps(1, charge));
    GrantedAndBought(policy, begin, buy, r, none, grant, bought);
    MixedOfThree(r, policy, charge, none, grant, bought);
  }

  lemma TwoThen(r: Readers, policy: Policy, a: ReaderStep, b: ReaderStep, rest: seq<ReaderStep>)
    ensures ReaderRun(r, policy, [a, b] + rest)
         == ReaderRun(ReaderNext(ReaderNext(r, policy, a), policy, b), policy, rest)
  {
    ReaderRunFirst(r, policy, a, [b] + rest);
    ReaderRunFirst(ReaderNext(r, policy, a), policy, b, rest);
    assert [a, b] + rest == [a] + ([b] + rest);
  }

  lemma GrantedAndBought(policy: Policy, begin: ReaderStep, buy: ReaderStep, r: Readers, none: Table, grant: Entry,
                         bought: Entry)
    requires policy == Policy(map["free" := Some(10)]) && begin == Begin(1, "u", "free", None) && none == []
    requires buy == Do(Buy("u", 50, "cs_1"))
    requires grant == MonthlyGrantRow("u", "free", 10, 0) && bought == PurchaseRow("u", 50, "cs_1", 0)
    requires r == Readers(State(none + [grant] + [bought], map[], 0), map[1 := Begun("u", 0, 1)])
    ensures ReaderNext(ReaderNext(Readers(EMPTY, map[]), policy, begin), policy, buy) == r
  {
    var r1 := Readers(State(none + [grant], map[], 0), map[1 := Begun("u", 0, 1)]);
    GrantedFirst(policy, begin, r1, none, grant);
    ThreeRows(none, grant, bought, ChargeRow("r1", "u", 30, 0));
  }

  lemma MixedOfThree(r: Readers, policy: Policy, charge: Event, none: Table, grant: Entry, bought: Entry)
    requires none == [] && charge == ChargeFor("r1", "u", 30, None)
    requires grant == MonthlyGrantRow("u", "free", 10, 0) && bought == PurchaseRow("u", 50, "cs_1", 0)
    requires r == Readers(State(none + [grant] + [bought], map[], 0), map[1 := Begun("u", 0, 1)])
    ensures var end := ReaderRun(r, policy, MixedSteps(1, charge)).ledger;
            && end.now == 0 && ("u", 0) in end.cache && end.cache[("u", 0)] == Breakdown(10, 30, 10)
            && !OnceTrue(end.rows, "u", 0, end.cache[("u", 0)])
  {
    var late := ChargeRow("r1", "u", 30, 0);
    ThreeRows(none, grant, bought, late);
    MixedRun(r, policy, 1, "r1", "u", 30);
    NotOnce(none, grant, bought, late);
  }

  lemma GrantedFirst(policy: Policy, begin: ReaderStep, r1: Readers, none: Table, grant: Entry)
    requires policy == Policy(map["free" := Some(10)]) && begin == Begin(1, "u", "free", None) && none == []
    requires grant == MonthlyGrantRow("u", "free", 10, 0)
    requires r1 == Readers(State(none + [grant], map[], 0), map[1 := Begun("u", 0, 1)])
    ensures ReaderNext(Readers(EMPTY, map[]), policy, begin) == r1
  {
    assert OwedGrant(none, policy, "u", "free", 0) == Some(grant);
    var cache: Cache := map[];
    assert Dropped(cache, "u", 0, 0) == cache;
  }

  lemma ThreeRows(none: Table, grant: Entry, bought: Entry, late: Entry)
    requires none == [] && grant == MonthlyGrantRow("u", "free", 10, 0)
    requires bought == PurchaseRow("u", 50, "cs_1", 0) && late == ChargeRow("r1", "u", 30, 0)
    ensures var one, two, three := none + [grant], none + [grant] + [bought], none + [grant] + [bought] + [late];
            && PrePurchaseDebt(one, "u", 0) == 0 && PurchasedRemaining(one, "u") == 0
            && Recompute(two, "u", 0) == Breakdown(10, 50, 10) && Recompute(three, "u", 0) == Breakdown(0, 30, 10)
            && !Refused(two, late)
  {
    var one, two := none + [grant], none + [grant] + [bought];
    SumPush(none, grant, PoolOf("u", 0));
    SumPush(none, grant, PoolCreditsOf("u", 0));
    SumPush(none, grant, BoughtBy("u"));
    FirstPurchasePush(none, grant, "u");
    BeforePurchase(one, "u", 0);
    SumPush(one, bought, PoolCreditsOf("u", 0));
    PurchaseRowEffect(one, bought, 0, 0, 0);
    FirstPurchasePush(one, bought, "u");
    PurchasedSplits(two, "u", 0, 0);
    AroundCharge(two, late, "r1", "u", 30, 0);
  }

  lemma NotOnce(none: Table, grant: Entry, bought: Entry, late: Entry)
    requires none == [] && grant == MonthlyGrantRow("u", "free", 10, 0)
    requires bought == PurchaseRow("u", 50, "cs_1", 0) && late == ChargeRow("r1", "u", 30, 0)
    ensures !OnceTrue(none + [grant] + [bought] + [late], "u", 0, Breakdown(10, 30, 10))
  {
    var rows := none + [grant] + [bought] + [late];
    ThreeRows(none, grant, bought, late);
    assert rows[..0] == none && rows[..1] == none + [grant];
    assert rows[..2] == none + [grant] + [bought] && rows[..3] == rows;
    forall k | 0 <= k <= |rows| ensures Breakdown(10, 30, 10) != Recompute(rows[..k], "u", 0) {
      assert k == 0 || k == 1 || k == 2 || k == 3;
    }
  }
}
