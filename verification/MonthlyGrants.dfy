/** What the lazy monthly grants of one user and month add up to, one reader at a time or racing. */
module MonthlyGrants {
  import opened Wrappers
  import opened LedgerEntries
  import opened CreditLedger

  /** A first read of a month: who, on which plan, for which month. */
  datatype Ask = Ask(user: string, plan: string, period: nat)

  /** The table after one `ensure_monthly_grant`. */
  function Ensured(rows: Table, policy: Policy, ask: Ask): Table {
    Granted(State(rows, map[], 0), policy, ask.user, ask.plan, ask.period).rows
  }

  function EnsuredAll(rows: Table, policy: Policy, asks: seq<Ask>): Table {
    if |asks| == 0 then rows
    else Ensured(EnsuredAll(rows, policy, asks[..|asks| - 1]), policy, asks[|asks| - 1])
  }

  /** The largest finite entitlement among the asks for this user and month; nothing below zero. */
  function LargestEntitlement(policy: Policy, asks: seq<Ask>, user: string, period: nat): int {
    if |asks| == 0 then 0
    else
      var before := LargestEntitlement(policy, asks[..|asks| - 1], user, period);
      var ask := asks[|asks| - 1];
      if ask.user != user || ask.period != period then before
      else
        match Entitlement(policy, ask.plan)
        case None => before
        case Some(credits) => Max(before, credits)
  }

  function GrantedThisMonth(rows: Table, user: string, period: nat): int {
    Sum(rows, MonthlyGrantsOf(user, period))
  }

  /** A plan that has its row has had at least its entitlement granted. */
  ghost predicate RowsAreMet(rows: Table, policy: Policy, user: string, period: nat) {
    forall k :: 0 <= k < |rows| && Selects(MonthlyGrantsOf(user, period), rows[k]) ==>
      && Entitlement(policy, rows[k].plan).Some?
      && Entitlement(policy, rows[k].plan).value <= GrantedThisMonth(rows, user, period)
  }

  /** Where the month stands once an ask has been served. */
  function TopUp(before: int, policy: Policy, ask: Ask, user: string, period: nat): int {
    if ask.user != user || ask.period != period then before
    else match Entitlement(policy, ask.plan) case None => before case Some(credits) => Max(before, credits)
  }

  lemma AskEffect(rows: Table, policy: Policy, ask: Ask, user: string, period: nat)
    requires RowsAreMet(rows, policy, user, period) && user != ""
    ensures RowsAreMet(Ensured(rows, policy, ask), policy, user, period)
    ensures GrantedThisMonth(Ensured(rows, policy, ask), user, period)
         == TopUp(GrantedThisMonth(rows, user, period), policy, ask, user, period)
  {
    var owed := OwedGrant(rows, policy, ask.user, ask.plan, ask.period);
    EnsuredRows(rows, policy, ask);
    if owed.Some? {
      SumPush(rows, owed.value, MonthlyGrantsOf(user, period));
      RowKeepsMet(rows, policy, owed.value, user, period);
    }
  }

  lemma EnsuredRows(rows: Table, policy: Policy, ask: Ask)
    ensures Ensured(rows, policy, ask)
         == match OwedGrant(rows, policy, ask.user, ask.plan, ask.period)
            case None => rows
            case Some(row) => rows + [row]
  {
    if OwedGrant(rows, policy, ask.user, ask.plan, ask.period).Some? { NotRefused(rows, policy, ask); }
  }

  lemma RowKeepsMet(rows: Table, policy: Policy, row: Entry, user: string, period: nat)
    requires RowsAreMet(rows, policy, user, period) && row.credits >= 0
    requires Selects(MonthlyGrantsOf(user, period), row) ==>
               && Entitlement(policy, row.plan).Some?
               && Entitlement(policy, row.plan).value <= GrantedThisMonth(rows, user, period) + row.credits
    ensures RowsAreMet(rows + [row], policy, user, period)
  {
    var after := rows + [row];
    SumPush(rows, row, MonthlyGrantsOf(user, period));
    forall k | 0 <= k < |after| && Selects(MonthlyGrantsOf(user, period), after[k])
      ensures Entitlement(policy, after[k].plan).Some?
      ensures Entitlement(policy, after[k].plan).value <= GrantedThisMonth(after, user, period)
    {
      if k < |rows| { assert after[k] == rows[k]; }
    }
  }

  lemma NotRefused(rows: Table, policy: Policy, ask: Ask)
    requires OwedGrant(rows, policy, ask.user, ask.plan, ask.period).Some?
    ensures !Refused(rows, OwedGrant(rows, policy, ask.user, ask.plan, ask.period).value)
  {
  }

  /**
   However plans move during a month, its grants add up to exactly the largest finite entitlement seen:
   upgrades top up by the difference and downgrades take nothing back.
   */
  lemma {:induction false} GrantsReachLargest(start: Table, policy: Policy, asks: seq<Ask>, user: string, period: nat)
    requires user != ""
    requires forall k :: 0 <= k < |start| ==> !Selects(MonthlyGrantsOf(user, period), start[k])
    ensures var rows := EnsuredAll(start, policy, asks);
            && RowsAreMet(rows, policy, user, period)
            && GrantedThisMonth(rows, user, period) == LargestEntitlement(policy, asks, user, period)
  {
    if |asks| == 0 {
      NoRowsNoSum(start, MonthlyGrantsOf(user, period));
    } else {
      var n := |asks| - 1;
      GrantsReachLargest(start, policy, asks[..n], user, period);
      AskEffect(EnsuredAll(start, policy, asks[..n]), policy, asks[n], user, period);
    }
  }

  // ---------------------------------------------------------------------------
  // Readers racing between their query and their insert
  // ---------------------------------------------------------------------------

  /** `planned[t]` is the row reader t worked out from the rows it saw and has yet to insert. */
  datatype Race = Race(rows: Table, planned: map<nat, Entry>)

  datatype RaceStep = Query(reader: nat, ask: Ask) | Post(reader: nat)

  function RaceNext(r: Race, policy: Policy, step: RaceStep): Race {
    match step
    case Query(reader, ask) =>
      (match OwedGrant(r.rows, policy, ask.user, ask.plan, ask.period)
       case None => r.(planned := r.planned - {reader})
       case Some(row) => r.(planned := r.planned[reader := row]))
    case Post(reader) =>
      if reader !in r.planned then r
      else
        match Insert(r.rows, r.planned[reader])
        case Ok(after) => Race(after, r.planned - {reader})
        case Err(_) => r.(planned := r.planned - {reader})
  }

  function RaceRun(r: Race, policy: Policy, steps: seq<RaceStep>): Race {
    if |steps| == 0 then r
    else RaceNext(RaceRun(r, policy, steps[..|steps| - 1]), policy, steps[|steps| - 1])
  }

  ghost predicate OnePlan(steps: seq<RaceStep>, ask: Ask) {
    forall k :: 0 <= k < |steps| && steps[k].Query? ==> steps[k].ask == ask
  }

  /** Every planned row tops the month up from where it stood, or its plan has posted in the meantime. */
  ghost predicate RaceInv(r: Race, policy: Policy, ask: Ask, start: int) {
    var granted := GrantedThisMonth(r.rows, ask.user, ask.period);
    && Entitlement(policy, ask.plan).Some?
    && (if HasMonthlyGrant(r.rows, ask.user, ask.plan, ask.period)
        then granted == Entitlement(policy, ask.plan).value && start < granted
        else granted == start)
    && (forall t :: t in r.planned ==>
          && r.planned[t]
             == MonthlyGrantRow(ask.user, ask.plan, Entitlement(policy, ask.plan).value - start, ask.period)
          && start < Entitlement(policy, ask.plan).value)
  }

  lemma RaceStepKeepsInv(r: Race, policy: Policy, ask: Ask, start: int, step: RaceStep)
    requires RaceInv(r, policy, ask, start) && (step.Query? ==> step.ask == ask)
    ensures RaceInv(RaceNext(r, policy, step), policy, ask, start)
  {
    if step.Post? && step.reader in r.planned {
      var row := r.planned[step.reader];
      SumPush(r.rows, row, MonthlyGrantsOf(ask.user, ask.period));
      if Refused(r.rows, row) {
        assert HasMonthlyGrant(r.rows, ask.user, ask.plan, ask.period);
      } else {
        var after := r.rows + [row];
        assert after[|r.rows|] == row;
      }
    }
  }

  /**
   Any number of readers of one plan, interleaved anyhow between query and insert, together post at
   most one row: the month ends where it stood or at the plan's entitlement, never beyond.
   */
  lemma {:induction false} OnePlanRaceGrantsOnce(rows: Table, policy: Policy, ask: Ask, steps: seq<RaceStep>)
    requires OnePlan(steps, ask) && Entitlement(policy, ask.plan).Some?
    requires !HasMonthlyGrant(rows, ask.user, ask.plan, ask.period)
    ensures RaceInv(RaceRun(Race(rows, map[]), policy, steps), policy, ask,
                    GrantedThisMonth(rows, ask.user, ask.period))
    ensures var after := RaceRun(Race(rows, map[]), policy, steps).rows;
            var start := GrantedThisMonth(rows, ask.user, ask.period);
            && |after| <= |rows| + 1
            && (GrantedThisMonth(after, ask.user, ask.period) == start
                || GrantedThisMonth(after, ask.user, ask.period) == Max(start, Entitlement(policy, ask.plan).value))
  {
    var start := GrantedThisMonth(rows, ask.user, ask.period);
    if |steps| > 0 {
      var n := |steps| - 1;
      OnePlanRaceGrantsOnce(rows, policy, ask, steps[..n]);
      RaceStepKeepsInv(RaceRun(Race(rows, map[]), policy, steps[..n]), policy, ask, start, steps[n]);
      OneRowAtMost(rows, policy, ask, steps);
    }
  }

  lemma {:induction false} OneRowAtMost(rows: Table, policy: Policy, ask: Ask, steps: seq<RaceStep>)
    requires OnePlan(steps, ask) && Entitlement(policy, ask.plan).Some?
    requires !HasMonthlyGrant(rows, ask.user, ask.plan, ask.period)
    ensures var r := RaceRun(Race(rows, map[]), policy, steps);
            && (forall t :: t in r.planned ==>
                  r.planned[t].entryType == Grant && r.planned[t].kind == Monthly && r.planned[t].externalRef.None?
                  && r.planned[t].user == ask.user && r.planned[t].period == ask.period
                  && r.planned[t].plan == ask.plan)
            && (r.rows == rows || (|r.rows| == |rows| + 1 && HasMonthlyGrant(r.rows, ask.user, ask.plan, ask.period)))
  {
    if |steps| > 0 {
      var n := |steps| - 1;
      OneRowAtMost(rows, policy, ask, steps[..n]);
      var r := RaceRun(Race(rows, map[]), policy, steps[..n]);
      if steps[n].Post? && steps[n].reader in r.planned {
        var row := r.planned[steps[n].reader];
        assert (r.rows + [row])[|r.rows|] == row;
        if HasMonthlyGrant(r.rows, ask.user, ask.plan, ask.period) {
          var k :| && 0 <= k < |r.rows|
                   && Selects(MonthlyGrantsOf(ask.user, ask.period), r.rows[k]) && r.rows[k].plan == ask.plan;
          assert Collide(r.rows[k], row);
        }
      }
    }
  }

  /** Both readers query before either inserts; then the first inserts, then the second. */
  function BothQueryThenPost(rows: Table, policy: Policy, first: Ask, second: Ask): Table {
    var queried := RaceNext(RaceNext(Race(rows, map[]), policy, Query(1, first)), policy, Query(2, second));
    RaceNext(RaceNext(queried, policy, Post(1)), policy, Post(2)).rows
  }

  function Topped(rows: Table, owed: Option<Entry>): Table {
    if owed.Some? && !Refused(rows, owed.value) then rows + [owed.value] else rows
  }

  lemma ToppedSum(rows: Table, owed: Option<Entry>, q: Query)
    ensures Sum(Topped(rows, owed), q)
         == Sum(rows, q) + if owed.Some? && !Refused(rows, owed.value) then Share(q, owed.value) else 0
  {
    if owed.Some? { SumPush(rows, owed.value, q); }
  }

  lemma BothPost(rows: Table, policy: Policy, first: Ask, second: Ask)
    ensures BothQueryThenPost(rows, policy, first, second)
         == Topped(Topped(rows, OwedGrant(rows, policy, first.user, first.plan, first.period)),
                   OwedGrant(rows, policy, second.user, second.plan, second.period))
  {
    var r1 := RaceNext(Race(rows, map[]), policy, Query(1, first));
    var r2 := RaceNext(r1, policy, Query(2, second));
    assert 1 in r2.planned <==> OwedGrant(rows, policy, first.user, first.plan, first.period).Some?;
    var r3 := RaceNext(r2, policy, Post(1));
    assert 2 in r3.planned <==> OwedGrant(rows, policy, second.user, second.plan, second.period).Some?;
  }

  /** Two different plans racing escape the key: each tops the month up from where both saw it. */
  lemma RaceOfTwoPlans(rows: Table, policy: Policy, a: Ask, b: Ask)
    requires a.user == b.user != "" && a.period == b.period && a.plan != b.plan
    requires Entitlement(policy, a.plan).Some? && Entitlement(policy, b.plan).Some?
    requires !HasMonthlyGrant(rows, a.user, a.plan, a.period) && !HasMonthlyGrant(rows, b.user, b.plan, b.period)
    ensures var s := GrantedThisMonth(rows, a.user, a.period);
            GrantedThisMonth(BothQueryThenPost(rows, policy, a, b), a.user, a.period)
            == s + Max(0, Entitlement(policy, a.plan).value - s) + Max(0, Entitlement(policy, b.plan).value - s)
  {
    var q := MonthlyGrantsOf(a.user, a.period);
    var owedA := OwedGrant(rows, policy, a.user, a.plan, a.period);
    var owedB := OwedGrant(rows, policy, b.user, b.plan, b.period);
    BothPost(rows, policy, a, b);
    OwedAmount(rows, policy, a);
    OwedAmount(rows, policy, b);
    TwoTopped(rows, owedA, owedB, q);
  }

  function Amount(owed: Option<Entry>, q: Query): int {
    if owed.None? then 0 else Share(q, owed.value)
  }

  lemma OwedAmount(rows: Table, policy: Policy, ask: Ask)
    requires ask.user != "" && Entitlement(policy, ask.plan).Some?
    requires !HasMonthlyGrant(rows, ask.user, ask.plan, ask.period)
    ensures var owed := OwedGrant(rows, policy, ask.user, ask.plan, ask.period);
            && Amount(owed, MonthlyGrantsOf(ask.user, ask.period))
               == Max(0, Entitlement(policy, ask.plan).value - GrantedThisMonth(rows, ask.user, ask.period))
            && (owed.Some? ==> !Refused(rows, owed.value))
  {
    var owed := OwedGrant(rows, policy, ask.user, ask.plan, ask.period);
    if owed.Some? { NotRefused(rows, policy, ask); }
  }

  lemma TwoTopped(rows: Table, first: Option<Entry>, second: Option<Entry>, q: Query)
    requires first.Some? ==> !Refused(rows, first.value)
    requires second.Some? ==> !Refused(rows, second.value)
    requires first.Some? && second.Some? ==> !Collide(first.value, second.value)
    ensures Sum(Topped(Topped(rows, first), second), q) == Sum(rows, q) + Amount(first, q) + Amount(second, q)
  {
    ToppedSum(rows, first, q);
    ToppedSum(Topped(rows, first), second, q);
    if first.Some? && second.Some? { StillNotRefused(rows, first.value, second.value); }
  }

  lemma StillNotRefused(rows: Table, e: Entry, f: Entry)
    requires !Refused(rows, f) && !Collide(e, f)
    ensures !Refused(rows + [e], f)
  {
  }

  /**
   Whichever posts first, the month ends at the larger entitlement, as it would one after the other, if
   and only if one of the two had nothing to add.
   */
  lemma TwoPlansOvergrantExactlyWhen(rows: Table, policy: Policy, a: Ask, b: Ask)
    requires a.user == b.user != "" && a.period == b.period && a.plan != b.plan
    requires Entitlement(policy, a.plan).Some? && Entitlement(policy, b.plan).Some?
    requires !HasMonthlyGrant(rows, a.user, a.plan, a.period) && !HasMonthlyGrant(rows, b.user, b.plan, b.period)
    ensures var s, ta, tb := GrantedThisMonth(rows, a.user, a.period),
                             Entitlement(policy, a.plan).value, Entitlement(policy, b.plan).value;
            && (GrantedThisMonth(BothQueryThenPost(rows, policy, a, b), a.user, a.period) == Max(s, Max(ta, tb))
                <==> ta <= s || tb <= s)
            && (GrantedThisMonth(BothQueryThenPost(rows, policy, b, a), a.user, a.period) == Max(s, Max(ta, tb))
                <==> ta <= s || tb <= s)
  {
    RaceOfTwoPlans(rows, policy, a, b);
    RaceOfTwoPlans(rows, policy, b, a);
  }

  /** Both first reads post in full: 30 and 70 make 100. */
  lemma TwoPlansOvergrant(policy: Policy, core: Ask, pro: Ask, none: Table)
    requires policy == Policy(map["core" := Some(30), "pro" := Some(70)])
    requires core == Ask("u", "core", 0) && pro == Ask("u", "pro", 0) && none == []
    ensures var r1 := RaceNext(RaceNext(Race(none, map[]), policy, Query(1, core)), policy, Query(2, pro));
            var r2 := RaceNext(RaceNext(r1, policy, Post(1)), policy, Post(2));
            GrantedThisMonth(r2.rows, "u", 0) == 100
  {
    var a, b := MonthlyGrantRow("u", "core", 30, 0), MonthlyGrantRow("u", "pro", 70, 0);
    assert OwedGrant(none, policy, "u", "core", 0) == Some(a);
    assert OwedGrant(none, policy, "u", "pro", 0) == Some(b);
    SumPush(none, a, MonthlyGrantsOf("u", 0));
    SumPush(none + [a], b, MonthlyGrantsOf("u", 0));
    assert !Refused(none + [a], b);
  }

  // ---------------------------------------------------------------------------
  // Whose allowance it is
  // ---------------------------------------------------------------------------

  ghost predicate NoRowOfPlan(rows: Table, user: string, plan: string, period: nat) {
    forall k :: 0 <= k < |rows| && rows[k].entryType == Grant && rows[k].kind == Monthly && rows[k].plan == plan ==>
      rows[k].user != user || rows[k].period != period
  }

  lemma GrantTopsUp(s: State, policy: Policy, user: string, plan: string, period: nat, target: Option<int>)
    requires user != "" && NoRowOfPlan(s.rows, user, plan, period) && Entitlement(policy, plan) == target
    ensures target.None? ==> Granted(s, policy, user, plan, period) == s
    ensures var before := GrantedThisMonth(s.rows, user, period);
            var after := Granted(s, policy, user, plan, period);
            target.Some? ==>
              && GrantedThisMonth(after.rows, user, period) == Max(before, target.value)
              && (target.value <= before ==> Granted(s, policy, user, plan, period) == s)
  {
    var owed := OwedGrant(s.rows, policy, user, plan, period);
    if owed.Some? {
      NotRefused(s.rows, policy, Ask(user, plan, period));
      SumPush(s.rows, owed.value, MonthlyGrantsOf(user, period));
    }
  }

  /**
   The first read of a month on a plan, on the policy's own map. A plan listed at n brings the month to n, or
   leaves it where it is beyond; one listed as unlimited posts nothing; one not listed is treated as "free"
   is, and as a plan of nothing where "free" is not listed either.
   */
  lemma GrantFollowsThePlan(s: State, listed: map<string, Option<int>>, user: string, plan: string, period: nat)
    requires user != "" && NoRowOfPlan(s.rows, user, plan, period)
    ensures var before, after := GrantedThisMonth(s.rows, user, period), Granted(s, Policy(listed), user, plan, period);
            var month := GrantedThisMonth(after.rows, user, period);
            && (plan in listed && listed[plan].Some? ==> month == Max(before, listed[plan].value))
            && (plan in listed && listed[plan].None? ==> after == s)
            && (plan !in listed && "free" in listed && listed["free"].Some? ==>
                  month == Max(before, listed["free"].value))
            && (plan !in listed && "free" in listed && listed["free"].None? ==> after == s)
            && (plan !in listed && "free" !in listed ==> month == Max(before, 0) && (before >= 0 ==> after == s))
  {
    GrantTopsUp(s, Policy(listed), user, plan, period, Entitlement(Policy(listed), plan));
  }

  /** Without a policy nothing is granted. */
  lemma NoPolicyNoGrant(s: State, user: string, plan: string, period: nat)
    ensures Granted(s, NoPolicy, user, plan, period) == s
  {
  }
}
