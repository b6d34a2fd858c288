/** The passes one scheduled run makes until its time budget is spent. Times are seconds on the monotonic clock. */
module DrainPasses {
  import opened Wrappers

  const DEFAULT_DRAIN_INTERVAL := 60

  /** The two options; absent and zero both mean "not given". */
  datatype Options = Options(drainSeconds: Option<int>, drainInterval: Option<int>)

  /** A given value other than zero, or the fallback. */
  function Or(option: Option<int>, fallback: int): int {
    if option.Some? && option.value != 0 then option.value else fallback
  }

  function Seconds(options: Options): nat {
    Max(0, Or(options.drainSeconds, 0))
  }

  function Interval(options: Options): (n: nat)
    ensures n >= 1
  {
    Max(1, Or(options.drainInterval, DEFAULT_DRAIN_INTERVAL))
  }

  /**
   How the clock moves around pass k: `delay` before the first pass starts, `busy` from a pass's start to the
   reading that decides whether to go on, `slack` from there to the reading the sleep is computed from, and
   `late` from the requested wake-up to the next start.
   */
  datatype Clock = Clock(zero: real, delay: real, busy: nat -> real, slack: nat -> real, late: nat -> real)
  {
    ghost predicate Monotone() {
      delay >= 0.0 && forall k :: busy(k) >= 0.0 && slack(k) >= 0.0 && late(k) >= 0.0
    }

    /** Nothing but the passes takes time, and sleeps end on time. */
    ghost predicate Exact() {
      delay == 0.0 && forall k :: slack(k) == 0.0 && late(k) == 0.0
    }
  }

  function Deadline(clock: Clock, options: Options): real {
    clock.zero + Seconds(options) as real
  }

  /** Whether pass k, having started at `started`, is followed by another. */
  predicate GoesOn(clock: Clock, options: Options, k: nat, started: real) {
    && started + Interval(options) as real < Deadline(clock, options)
    && started + clock.busy(k) < Deadline(clock, options)
  }

  /** The sleep asked for between pass k and the next. */
  function Sleep(clock: Clock, options: Options, k: nat, started: real): (s: real)
    ensures s >= 0.0
  {
    var left := started + Interval(options) as real - (started + clock.busy(k) + clock.slack(k));
    if left > 0.0 then left else 0.0
  }

  function NextStart(clock: Clock, options: Options, k: nat, started: real): real {
    started + clock.busy(k) + clock.slack(k) + Sleep(clock, options, k, started) + clock.late(k)
  }

  /** The first `n` starts, each but the last of a pass that is followed by another. */
  ghost predicate Underway(clock: Clock, options: Options, starts: seq<real>) {
    && |starts| > 0 && starts[0] == clock.zero + clock.delay
    && forall k :: 0 <= k < |starts| - 1 ==>
         GoesOn(clock, options, k, starts[k]) && starts[k + 1] == NextStart(clock, options, k, starts[k])
  }

  ghost predicate Finished(clock: Clock, options: Options, starts: seq<real>) {
    Underway(clock, options, starts) && !GoesOn(clock, options, |starts| - 1, starts[|starts| - 1])
  }

  /** Ends for all pass durations, with the start of each pass it yielded. */
  method Passes(clock: Clock, options: Options) returns (starts: seq<real>)
    requires clock.Monotone()
    ensures Finished(clock, options, starts)
  {
    var deadline := Deadline(clock, options);
    var started := clock.zero + clock.delay;
    var number := 0;
    starts := [];
    while true
      invariant number == |starts|
      invariant started == if number == 0 then clock.zero + clock.delay
                           else NextStart(clock, options, number - 1, starts[number - 1])
      invariant number > 0 ==>
                  Underway(clock, options, starts) && GoesOn(clock, options, number - 1, starts[number - 1])
      decreases (deadline - started).Floor
    {
      number := number + 1;
      starts := starts + [started];
      var next := started + Interval(options) as real;
      var now := started + clock.busy(number - 1);
      if next >= deadline || now >= deadline { return; }
      now := now + clock.slack(number - 1);
      var sleep := if next - now > 0.0 then next - now else 0.0;
      started := now + sleep + clock.late(number - 1);
    }
  }

  lemma {:induction false} SameSoFar(clock: Clock, options: Options, a: seq<real>, b: seq<real>, k: nat)
    requires Underway(clock, options, a) && Underway(clock, options, b) && k < |a| && k < |b|
    ensures a[k] == b[k]
  {
    if k > 0 {
      SameSoFar(clock, options, a, b, k - 1);
    }
  }

  lemma NoLonger(clock: Clock, options: Options, a: seq<real>, b: seq<real>)
    requires Finished(clock, options, a) && Underway(clock, options, b)
    ensures |b| <= |a|
  {
    if |a| < |b| {
      SameSoFar(clock, options, a, b, |a| - 1);
    }
  }

  /** The clock and the options settle the whole run. */
  lemma RunIsSettled(clock: Clock, options: Options, a: seq<real>, b: seq<real>)
    requires Finished(clock, options, a) && Finished(clock, options, b)
    ensures a == b
  {
    NoLonger(clock, options, a, b);
    NoLonger(clock, options, b, a);
    forall j | 0 <= j < |a| ensures a[j] == b[j] {
      SameSoFar(clock, options, a, b, j);
    }
  }

  // ---------------------------------------------------------------------------
  // Every run
  // ---------------------------------------------------------------------------

  /** Passes start at least the interval apart. */
  lemma StartsAreApart(clock: Clock, options: Options, starts: seq<real>, k: nat)
    requires clock.Monotone() && Underway(clock, options, starts) && k + 1 < |starts|
    ensures starts[k + 1] >= starts[k] + Interval(options) as real
  {
    assert GoesOn(clock, options, k, starts[k]);
  }

  lemma {:induction false} StartsNoEarlier(clock: Clock, options: Options, starts: seq<real>, k: nat)
    requires clock.Monotone() && Underway(clock, options, starts) && k < |starts|
    ensures starts[k] >= clock.zero + (k * Interval(options)) as real
  {
    if k > 0 {
      StartsNoEarlier(clock, options, starts, k - 1);
      StartsAreApart(clock, options, starts, k - 1);
      assert k * Interval(options) == (k - 1) * Interval(options) + Interval(options);
    }
  }

  /** How many intervals begin within the budget; at least one pass is always made. */
  function Slots(options: Options): (n: nat)
  {
    Max(1, (Seconds(options) + Interval(options) - 1) / Interval(options))
  }

  lemma FewerThanSlots(options: Options, n: nat)
    requires n * Interval(options) < Seconds(options)
    ensures n + 1 <= Slots(options)
  {
    DivideAtLeast(Seconds(options) + Interval(options) - 1, Interval(options), n + 1);
  }

  lemma DivideAtLeast(a: nat, b: nat, n: nat)
    requires b > 0
    ensures n * b <= a <==> n <= a / b
  {
    assert a == a / b * b + a % b;
    assert n <= a / b ==> n * b <= a / b * b;
    assert n > a / b ==> n * b >= (a / b + 1) * b;
  }

  /** However long passes and sleeps take, no more passes than slots. */
  lemma NoMorePassesThanSlots(clock: Clock, options: Options, starts: seq<real>)
    requires clock.Monotone() && Underway(clock, options, starts)
    ensures |starts| <= Slots(options)
  {
    if |starts| > 1 {
      var k := |starts| - 2;
      StartsNoEarlier(clock, options, starts, k);
      assert GoesOn(clock, options, k, starts[k]);
      assert (k + 1) * Interval(options) == k * Interval(options) + Interval(options);
      FewerThanSlots(options, k + 1);
    }
  }

  /** A sleep that is asked for is always due to end before the deadline. */
  lemma NeverSleepsIntoDeadline(clock: Clock, options: Options, starts: seq<real>, k: nat)
    requires clock.Monotone() && Underway(clock, options, starts) && k + 1 < |starts|
    requires Sleep(clock, options, k, starts[k]) > 0.0
    ensures starts[k] + clock.busy(k) + clock.slack(k) + Sleep(clock, options, k, starts[k]) < Deadline(clock, options)
  {
    assert GoesOn(clock, options, k, starts[k]);
  }

  // ---------------------------------------------------------------------------
  // When only the passes take time
  // ---------------------------------------------------------------------------

  /** Every pass after the first starts before the deadline. */
  lemma LaterPassesStartInTime(clock: Clock, options: Options, starts: seq<real>, k: nat)
    requires clock.Monotone() && clock.Exact() && Underway(clock, options, starts) && 0 < k < |starts|
    ensures starts[k] < Deadline(clock, options)
  {
    assert GoesOn(clock, options, k - 1, starts[k - 1]);
    assert clock.slack(k - 1) == 0.0 && clock.late(k - 1) == 0.0;
  }

  lemma {:induction false} StartsOnTheDot(clock: Clock, options: Options, starts: seq<real>, k: nat)
    requires clock.Monotone() && clock.Exact() && Underway(clock, options, starts) && k < |starts|
    requires forall j :: clock.busy(j) < Interval(options) as real
    ensures starts[k] == clock.zero + (k * Interval(options)) as real
  {
    if k > 0 {
      StartsOnTheDot(clock, options, starts, k - 1);
      assert GoesOn(clock, options, k - 1, starts[k - 1]);
      assert clock.slack(k - 1) == 0.0 && clock.late(k - 1) == 0.0;
      assert k * Interval(options) == (k - 1) * Interval(options) + Interval(options);
    }
  }

  /** Passes shorter than the interval fill every slot. */
  lemma ShortPassesFillEverySlot(clock: Clock, options: Options, starts: seq<real>)
    requires clock.Monotone() && clock.Exact() && Finished(clock, options, starts)
    requires forall j :: clock.busy(j) < Interval(options) as real
    ensures |starts| == Slots(options)
  {
    NoMorePassesThanSlots(clock, options, starts);
    var k := |starts| - 1;
    StartsOnTheDot(clock, options, starts, k);
    assert clock.busy(k) < Interval(options) as real;
    assert (k + 1) * Interval(options) == k * Interval(options) + Interval(options);
    assert (k + 1) * Interval(options) >= Seconds(options);
    assert (k + 2) * Interval(options) == (k + 1) * Interval(options) + Interval(options);
    DivideAtLeast(Seconds(options) + Interval(options) - 1, Interval(options), k + 2);
  }

  // ---------------------------------------------------------------------------
  // In the options' own values
  // ---------------------------------------------------------------------------

  /**
   Given s seconds every i seconds, exactly ceil(s / i) short passes; without seconds one; without an interval,
   or with none to speak of, one a minute.
   */
  lemma ShortPassesOnOptions(clock: Clock, options: Options, starts: seq<real>, s: nat, i: nat)
    requires clock.Monotone() && clock.Exact() && Finished(clock, options, starts)
    requires s > 0 && i > 0 && options.drainSeconds == Some(s)
    requires options.drainInterval == Some(i) || (i == 60 && options.drainInterval in {None, Some(0)})
    requires forall j :: clock.busy(j) < i as real
    ensures (|starts| - 1) * i < s <= |starts| * i
  {
    ShortPassesFillEverySlot(clock, options, starts);
    var a := s + i - 1;
    assert a == a / i * i + a % i;
    if s <= i { OneSlot(s, i); }
  }

  lemma OneSlot(s: nat, i: nat)
    requires 0 < s <= i
    ensures (s + i - 1) / i == 1
  {
    DivideAtLeast(s + i - 1, i, 1);
    DivideAtLeast(s + i - 1, i, 2);
  }

  /** Without a budget (absent, zero or negative) there is exactly one pass, whatever it and the clock do. */
  lemma OnePassWithoutSeconds(clock: Clock, options: Options, starts: seq<real>)
    requires clock.Monotone() && Finished(clock, options, starts)
    requires options.drainSeconds.None? || options.drainSeconds.value <= 0
    ensures |starts| == 1
  {
    NoMorePassesThanSlots(clock, options, starts);
    DivideAtLeast(Interval(options) - 1, Interval(options), 1);
  }

  /** However long passes take: one is the last exactly when the next is due, or it ends, at the deadline or after. */
  lemma LastExactlyWhenSpent(clock: Clock, options: Options, starts: seq<real>, s: nat, i: nat, k: nat)
    requires Finished(clock, options, starts) && k < |starts|
    requires s > 0 && i > 0 && options == Options(Some(s), Some(i))
    ensures k == |starts| - 1 <==>
            || starts[k] + i as real >= clock.zero + s as real
            || starts[k] + clock.busy(k) >= clock.zero + s as real
  {
    assert k < |starts| - 1 ==> GoesOn(clock, options, k, starts[k]);
  }

  /** A pass starts only once the one before it has ended and its own turn has come, and with exact sleeps just then. */
  lemma PassesFollowOneAnother(clock: Clock, options: Options, starts: seq<real>, s: nat, i: nat, k: nat)
    requires clock.Monotone() && Underway(clock, options, starts) && k + 1 < |starts|
    requires s > 0 && i > 0 && options == Options(Some(s), Some(i))
    ensures var ended, turn := starts[k] + clock.busy(k), starts[k] + i as real;
            && starts[k + 1] >= ended && starts[k + 1] >= turn
            && (clock.Exact() ==> starts[k + 1] == if ended >= turn then ended else turn)
  {
    assert GoesOn(clock, options, k, starts[k]);
    assert clock.Exact() ==> clock.slack(k) == 0.0 && clock.late(k) == 0.0;
  }
}
