/**
 Exactly when the quote is a ceiling for every cap: from a tenth of a cent per credit. Below that, with
 milli-credits worth less than a micro-USD, some cap rounds up to a cost that rounds back above it. The
 cap is found by walking the multiples of alpha = 1/rate - 1 past the half-integers until one of them
 overshoots by less than alpha/2; where none does, one lands on a tie that rounds the wrong way.
 */
module QuoteCeiling {
  import opened Wrappers
  import opened Credits

  ghost predicate RoundsAbove(n: nat, rate: real)
    requires rate > 0.0
  {
    Worth(n, rate) >= 0 && Converted(Worth(n, rate), rate) > n
  }

  /** How far e multiples of alpha lie past m + 1/2. */
  function Past(e: nat, m: nat, alpha: real): real {
    e as real * alpha - m as real - 0.5
  }

  ghost predicate Alpha(alpha: real, rate: real) {
    0.0 < rate < 1.0 && alpha > 0.0 && rate * (1.0 + alpha) == 1.0
  }

  lemma BackFromMicro(e: nat, alpha: real, rate: real)
    requires Alpha(alpha, rate)
    ensures e as real / rate == e as real + e as real * alpha
  {
    var x := e as real / rate;
    assert x * rate == e as real;
    assert x == x * (rate * (1.0 + alpha)) == (x * rate) * (1.0 + alpha);
  }

  /** The worth of n = e + m, from where e multiples of alpha stand. */
  lemma WorthFromPast(e: nat, m: nat, alpha: real, rate: real)
    requires Alpha(alpha, rate)
    ensures (e + m) as real * rate == e as real - 0.5 + rate * (0.5 * alpha - Past(e, m, alpha))
  {
    var n := (e + m) as real;
    assert n == (e as real - 0.5) * (1.0 + alpha) + 0.5 * alpha - Past(e, m, alpha);
    assert n * rate == (e as real - 0.5) * (rate * (1.0 + alpha)) + rate * (0.5 * alpha - Past(e, m, alpha));
  }

  lemma Positive(x: real, y: real)
    requires x > 0.0 && y > 0.0
    ensures x * y > 0.0
  {
  }

  lemma ScaledBetween(rate: real, alpha: real, gap: real)
    requires Alpha(alpha, rate)
    ensures 0.0 < gap < alpha ==> 0.0 < rate * gap < 1.0
    ensures gap == 0.0 ==> rate * gap == 0.0
    ensures gap == 0.5 * alpha ==> rate * gap < 0.5
  {
    var whole, part, rest := rate * alpha, rate * gap, rate * (alpha - gap);
    assert whole == 1.0 - rate;
    assert part + rest == whole;
    if 0.0 < gap < alpha {
      Positive(rate, gap);
      Positive(rate, alpha - gap);
      assert 0.0 < part < whole;
    }
    if gap == 0.5 * alpha { assert part == rest; }
  }

  /** Overshooting a half-integer by less than alpha/2 makes e + m a cap that rounds above itself. */
  lemma OvershootRoundsAbove(e: nat, m: nat, alpha: real, rate: real)
    requires Alpha(alpha, rate) && 0.0 < Past(e, m, alpha) < 0.5 * alpha
    ensures RoundsAbove(e + m, rate)
  {
    WorthFromPast(e, m, alpha, rate);
    ScaledBetween(rate, alpha, 0.5 * alpha - Past(e, m, alpha));
    RoundUnique((e + m) as real * rate, e);
    BackFromMicro(e, alpha, rate);
  }

  lemma TieAtHalfRoundsAbove(e: nat, m: nat, alpha: real, rate: real)
    requires Alpha(alpha, rate) && Past(e, m, alpha) == 0.0 && (e + m) % 2 == 1
    ensures RoundsAbove(e + m, rate)
  {
    WorthFromPast(e, m, alpha, rate);
    ScaledBetween(rate, alpha, 0.5 * alpha);
    RoundUnique((e + m) as real * rate, e);
    BackFromMicro(e, alpha, rate);
  }

  lemma TieAtWorthRoundsAbove(e: nat, m: nat, alpha: real, rate: real)
    requires Alpha(alpha, rate) && Past(e, m, alpha) == 0.5 * alpha && e % 2 == 0
    ensures RoundsAbove(e + m, rate)
  {
    WorthFromPast(e, m, alpha, rate);
    ScaledBetween(rate, alpha, 0.0);
    assert (e + m) as real * rate == e as real - 0.5;
    assert Worth(e + m, rate) == e;
    BackFromMicro(e, alpha, rate);
  }

  // ---------------------------------------------------------------------------
  // The walk: q multiples of alpha reach 1 but for rest, with 0 <= rest < alpha
  // ---------------------------------------------------------------------------

  ghost predicate Turn(alpha: real, q: nat, rest: real) {
    alpha > 0.0 && 0.0 <= rest < alpha && q as real * alpha + rest == 1.0
  }

  lemma PastNext(e: nat, m: nat, alpha: real, q: nat, rest: real)
    requires Turn(alpha, q, rest)
    ensures Past(e + q, m + 1, alpha) == Past(e, m, alpha) - rest
    ensures Past(e + q + 1, m + 1, alpha) == Past(e, m, alpha) - rest + alpha
  {
  }

  /** Turning back by less than alpha/2 at a time cannot jump over the lower half. */
  lemma {:induction false} Descend(e: nat, m: nat, alpha: real, q: nat, rest: real, fuel: nat)
    returns (e': nat, m': nat)
    requires Turn(alpha, q, rest) && 0.0 < rest < 0.5 * alpha
    requires 0.5 * alpha <= Past(e, m, alpha) < 0.5 * alpha + fuel as real * rest
    ensures 0.0 < Past(e', m', alpha) < 0.5 * alpha
    decreases fuel
  {
    PastNext(e, m, alpha, q, rest);
    if Past(e, m, alpha) - rest < 0.5 * alpha {
      e', m' := e + q, m + 1;
    } else {
      assert fuel > 0;
      assert (fuel - 1) as real * rest == fuel as real * rest - rest;
      e', m' := Descend(e + q, m + 1, alpha, q, rest, fuel - 1);
    }
  }

  /** Nor can turning forward: the step over the end lands in the lower half. */
  lemma {:induction false} Ascend(e: nat, m: nat, alpha: real, q: nat, rest: real, fuel: nat) returns (e': nat, m': nat)
    requires Turn(alpha, q, rest) && 0.5 * alpha < rest
    requires 0.5 * alpha <= Past(e, m, alpha) < alpha <= Past(e, m, alpha) + fuel as real * (alpha - rest)
    ensures 0.0 < Past(e', m', alpha) < 0.5 * alpha
    decreases fuel
  {
    PastNext(e, m, alpha, q, rest);
    if Past(e, m, alpha) + (alpha - rest) < alpha {
      assert fuel > 0;
      assert (fuel - 1) as real * (alpha - rest) == fuel as real * (alpha - rest) - (alpha - rest);
      e', m' := Ascend(e + q + 1, m + 1, alpha, q, rest, fuel - 1);
    } else if Past(e, m, alpha) > rest {
      e', m' := e + q, m + 1;
    } else {
      PastNext(e + q, m + 1, alpha, q, rest);
      e', m' := e + q + q + 1, m + 2;
    }
  }

  lemma EnoughFuel(gap: real, step: real) returns (fuel: nat)
    requires step > 0.0 && gap >= 0.0
    ensures fuel as real * step > gap
  {
    var turns := gap / step;
    assert turns * step == gap;
    assert turns >= 0.0;
    fuel := turns.Floor + 1;
    assert fuel as real > turns;
    assert fuel as real * step > turns * step;
  }

  /** With rest exactly alpha/2 the half-integers lie off both ties, so one turn back is enough. */
  lemma HalfTurn(e: nat, alpha: real, q: nat, rest: real)
    requires Turn(alpha, q, rest) && rest == 0.5 * alpha
    ensures Past(e, 0, alpha) != 0.0 && Past(e, 0, alpha) != 0.5 * alpha
  {
    assert (2 * q + 1) as real * alpha == 2.0;
    assert Past(e, 0, alpha) == 0.0 ==> (4 * e) as real * alpha == (2 * q + 1) as real * alpha;
    assert Past(e, 0, alpha) == 0.5 * alpha ==> (4 * e - 2) as real * alpha == (2 * q + 1) as real * alpha;
  }

  /** One whole number of multiples per turn: only the ties are left, and one of two turns rounds up. */
  lemma WholeTurn(alpha: real, q: nat, rate: real) returns (n: nat)
    requires Alpha(alpha, rate) && Turn(alpha, q, 0.0)
    ensures RoundsAbove(n, rate)
  {
    if q % 2 == 0 {
      n := EvenTurn(alpha, q, q / 2, rate);
    } else {
      n := OddTurn(alpha, q, (q + 1) / 2, rate);
    }
  }

  lemma EvenTie(alpha: real, q: nat, e: nat)
    requires Turn(alpha, q, 0.0) && q == 2 * e
    ensures Past(e, 0, alpha) == 0.0 && Past(e + q, 1, alpha) == 0.0
  {
    assert q as real * alpha == 2.0 * (e as real * alpha);
    PastNext(e, 0, alpha, q, 0.0);
  }

  lemma OddTie(alpha: real, q: nat, e: nat)
    requires Turn(alpha, q, 0.0) && q + 1 == 2 * e
    ensures Past(e, 0, alpha) == 0.5 * alpha && Past(e + q, 1, alpha) == 0.5 * alpha
  {
    assert q as real * alpha == 2.0 * (e as real * alpha) - alpha;
    PastNext(e, 0, alpha, q, 0.0);
  }

  lemma TwiceIsEven(x: nat)
    ensures (2 * x) % 2 == 0 && (2 * x + 1) % 2 == 1
  {
  }

  lemma EvenTurn(alpha: real, q: nat, e: nat, rate: real) returns (n: nat)
    requires Alpha(alpha, rate) && Turn(alpha, q, 0.0) && q == 2 * e
    ensures RoundsAbove(n, rate)
  {
    EvenTie(alpha, q, e);
    if e % 2 == 1 {
      TieAtHalfRoundsAbove(e, 0, alpha, rate);
      n := e;
    } else {
      var j := e / 2;
      TwiceIsEven(3 * j);
      assert e + q + 1 == 2 * (3 * j) + 1;
      TieAtHalfRoundsAbove(e + q, 1, alpha, rate);
      n := e + q + 1;
    }
  }

  lemma OddTurn(alpha: real, q: nat, e: nat, rate: real) returns (n: nat)
    requires Alpha(alpha, rate) && Turn(alpha, q, 0.0) && q + 1 == 2 * e
    ensures RoundsAbove(n, rate)
  {
    OddTie(alpha, q, e);
    if e % 2 == 0 {
      TieAtWorthRoundsAbove(e, 0, alpha, rate);
      n := e;
    } else {
      var j := e / 2;
      TwiceIsEven(3 * j + 1);
      assert e + q == 2 * (3 * j + 1);
      TieAtWorthRoundsAbove(e + q, 1, alpha, rate);
      n := e + q + 1;
    }
  }

  /** The first multiple of alpha at or past 1/2, and how many multiples make a turn. */
  lemma Start(alpha: real) returns (e: nat, q: nat, rest: real)
    requires alpha > 0.0
    ensures Turn(alpha, q, rest) && 0.0 <= Past(e, 0, alpha) < alpha
  {
    q, rest := Quotient(1.0, alpha);
    var low, over := Quotient(0.5, alpha);
    if over == 0.0 {
      e := low;
    } else {
      e := low + 1;
      assert e as real * alpha == low as real * alpha + alpha;
    }
  }

  lemma Quotient(x: real, alpha: real) returns (q: nat, rest: real)
    requires alpha > 0.0 && x > 0.0
    ensures 0.0 <= rest < alpha && q as real * alpha + rest == x
  {
    var turns := x / alpha;
    assert turns * alpha == x;
    assert turns > 0.0;
    q := turns.Floor;
    var part := turns - q as real;
    PartOfStep(part, alpha);
    rest := part * alpha;
    Distribute(part, q as real, alpha);
  }

  lemma Distribute(x: real, y: real, z: real)
    ensures (x + y) * z == x * z + y * z
  {
  }

  lemma PartOfStep(x: real, alpha: real)
    requires 0.0 <= x < 1.0 && alpha > 0.0
    ensures 0.0 <= x * alpha < alpha
  {
    Positive(1.0 - x, alpha);
    assert (1.0 - x) * alpha == alpha - x * alpha;
  }

  lemma Overshoot(alpha: real, e: nat, q: nat, rest: real) returns (e': nat, m': nat)
    requires Turn(alpha, q, rest) && rest > 0.0 && 0.0 <= Past(e, 0, alpha) < alpha
    ensures 0.0 < Past(e', m', alpha) < 0.5 * alpha
  {
    PastNext(e, 0, alpha, q, rest);
    if 0.0 < Past(e, 0, alpha) < 0.5 * alpha {
      e', m' := e, 0;
    } else if rest == 0.5 * alpha {
      HalfTurn(e, alpha, q, rest);
      e', m' := e + q, 1;
    } else if rest < 0.5 * alpha {
      var fuel := EnoughFuel(alpha, rest);
      if Past(e, 0, alpha) == 0.0 {
        e', m' := Descend(e + q + 1, 1, alpha, q, rest, fuel);
      } else {
        e', m' := Descend(e, 0, alpha, q, rest, fuel);
      }
    } else if Past(e, 0, alpha) == 0.0 {
      e', m' := e + q + 1, 1;
    } else {
      var fuel := EnoughFuel(alpha, alpha - rest);
      e', m' := Ascend(e, 0, alpha, q, rest, fuel);
    }
  }

  lemma FindCap(rate: real) returns (n: nat)
    requires 0.0 < rate < 1.0
    ensures RoundsAbove(n, rate)
  {
    var alpha := (1.0 - rate) / rate;
    assert rate * alpha == 1.0 - rate;
    assert rate * (1.0 + alpha) == 1.0;
    assert alpha > 0.0;
    var e, q, rest := Start(alpha);
    if rest == 0.0 {
      n := WholeTurn(alpha, q, rate);
    } else {
      var e', m' := Overshoot(alpha, e, q, rest);
      OvershootRoundsAbove(e', m', alpha, rate);
      n := e' + m';
    }
  }

  /** The quote bounds the charge under every cap if and only if a credit is worth a tenth of a cent. */
  lemma QuoteIsCeilingExactlyWhen(creditUsd: real)
    requires creditUsd > 0.0
    ensures QuoteIsCeiling(creditUsd) <==> creditUsd >= FINE_ENOUGH
  {
    if creditUsd >= FINE_ENOUGH {
      forall cap: nat, computed: int
        ensures var policy := CreditPolicy(creditUsd, cap, {"ask"}, {"success"});
                CreditsMilli(EligibleUsdMicro("success", "ask", computed, policy), policy) <= QuoteMaxCredits(policy)
      {
        NeverAboveQuote("success", "ask", computed, CreditPolicy(creditUsd, cap, {"ask"}, {"success"}));
      }
    } else {
      var n := FindCap(creditUsd * 1000.0);
      var policy := CreditPolicy(creditUsd, n, {"ask"}, {"success"});
      var cost := Worth(n, Rate(policy));
      assert EligibleUsdMicro("success", "ask", cost, policy) == cost;
      assert CreditsMilli(EligibleUsdMicro("success", "ask", cost, policy), policy) > QuoteMaxCredits(policy);
    }
  }

  /** The same threshold decides whether a request that stops within its budget can overdraw. */
  lemma BudgetIsSafeExactlyWhen(creditUsd: real)
    requires creditUsd > 0.0
    ensures BudgetIsSafe(creditUsd) <==> creditUsd >= FINE_ENOUGH
  {
    var policy := CreditPolicy(creditUsd, 0, {}, {});
    if creditUsd >= FINE_ENOUGH {
      forall balance: nat, cost: int | cost <= RequestBudgetUsdMicro(Some(balance), policy)
        ensures CreditsMilli(cost, policy) <= balance
      {
        BudgetNeverOverdraws(balance, cost, policy);
      }
    } else {
      var n := FindCap(creditUsd * 1000.0);
      assert RequestBudgetUsdMicro(Some(n), policy) == Worth(n, Rate(policy));
      assert CreditsMilli(Worth(n, Rate(policy)), policy) > n;
    }
  }
}
