/**
 The CPU throttling sampler under threads. One atomic step of a thread's `tick` at a time, in any
 interleaving: the switch, the clock and `next_at` are read without the lock, so a thread may act on a
 time that has gone stale by the time it holds the lock.
 */
module CpuSampler {
  import opened Wrappers

  datatype Counters = Counters(periods: int, throttled: int, throttledUsec: int, usageUsec: int) {
    function Minus(c: Counters): Counters {
      Counters(periods - c.periods, throttled - c.throttled, throttledUsec - c.throttledUsec, usageUsec - c.usageUsec)
    }

    function Plus(c: Counters): Counters {
      Counters(periods + c.periods, throttled + c.throttled, throttledUsec + c.throttledUsec, usageUsec + c.usageUsec)
    }

    predicate AnyNegative() {
      periods < 0 || throttled < 0 || throttledUsec < 0 || usageUsec < 0
    }
  }

  const NOTHING := Counters(0, 0, 0, 0)

  datatype Sample = Sample(at: real, counters: Counters)

  datatype Window = Window(from: real, to: real, delta: Counters)

  /** Where a thread stands inside `tick`. */
  datatype Place =
    | Outside
    | Entered                                                     // found the sampler on
    | Timed(now: real)                                            // read the clock
    | Due(now: real)                                              // unlocked check passed
    | Locked(now: real)
    | Reading(now: real)                                          // locked check passed
    | Read(now: real, current: Counters)
    | Scheduled(now: real, current: Counters)                     // next_at moved
    | Logging(previous: Option<Sample>, now: real, current: Counters)

  predicate InsideLock(p: Place) {
    p.Locked? || p.Reading? || p.Read? || p.Scheduled? || p.Logging?
  }

  /** `samples` and `logged` record what the sampler has done; the code keeps only the last sample. */
  datatype State = State(
    clock: real, disabled: bool, nextAt: Option<real>, prev: Option<Sample>, lock: Option<nat>,
    threads: map<nat, Place>, samples: seq<Sample>, logged: seq<Window>)

  function PlaceOf(st: State, t: nat): Place {
    if t in st.threads then st.threads[t] else Outside
  }

  function Move(st: State, t: nat, p: Place): State {
    st.(threads := st.threads[t := p])
  }

  function Leave(st: State, t: nat): State {
    st.(threads := st.threads[t := Outside], lock := None)
  }

  /** Time passes, or a thread takes its next step; `reading` is what the file gives it if it reads. */
  datatype Action = Wait(seconds: real) | Act(thread: nat, reading: Option<Counters>)

  predicate TooEarly(nextAt: Option<real>, now: real) {
    nextAt.Some? && now < nextAt.value
  }

  function Next(st: State, interval: real, a: Action): State {
    match a
    case Wait(seconds) => if seconds < 0.0 then st else st.(clock := st.clock + seconds)
    case Act(t, reading) =>
      match PlaceOf(st, t)
      case Outside => if st.disabled then st else Move(st, t, Entered)
      case Entered => Move(st, t, Timed(st.clock))
      case Timed(now) => if TooEarly(st.nextAt, now) then Move(st, t, Outside) else Move(st, t, Due(now))
      case Due(now) => if st.lock.Some? then Move(st, t, Outside) else Move(st, t, Locked(now)).(lock := Some(t))
      case Locked(now) => if TooEarly(st.nextAt, now) then Leave(st, t) else Move(st, t, Reading(now))
      case Reading(now) =>
        (match reading
         case None => Leave(st, t).(disabled := true)
         case Some(current) => Move(st, t, Read(now, current)))
      case Read(now, current) => Move(st, t, Scheduled(now, current)).(nextAt := Some(now + interval))
      case Scheduled(now, current) =>
        Move(st, t, Logging(st.prev, now, current)).(prev := Some(Sample(now, current)),
                                                     samples := st.samples + [Sample(now, current)])
      case Logging(previous, now, current) =>
        var line := if previous.None? then [] else WindowOf(previous.value, Sample(now, current));
        Leave(st, t).(logged := st.logged + line)
  }

  /** The line logged for two successive samples; none where a counter went backwards. */
  function WindowOf(a: Sample, b: Sample): seq<Window> {
    var delta := b.counters.Minus(a.counters);
    if delta.AnyNegative() then [] else [Window(a.at, b.at, delta)]
  }

  function Run(st: State, interval: real, actions: seq<Action>): State {
    if |actions| == 0 then st
    else Next(Run(st, interval, actions[..|actions| - 1]), interval, actions[|actions| - 1])
  }

  ghost predicate Initial(st: State) {
    st == State(st.clock, st.disabled, None, None, None, map[], [], [])
  }

  // ---------------------------------------------------------------------------
  // The invariant
  // ---------------------------------------------------------------------------

  /** The lines a sequence of samples gives rise to. */
  function Windows(samples: seq<Sample>): seq<Window> {
    var n := |samples|;
    if n < 2 then [] else Windows(samples[..n - 1]) + WindowOf(samples[n - 2], samples[n - 1])
  }

  ghost predicate Spaced(samples: seq<Sample>, interval: real) {
    forall k :: 0 < k < |samples| ==> samples[k - 1].at + interval <= samples[k].at
  }

  function Last(samples: seq<Sample>): Option<Sample> {
    if |samples| == 0 then None else Some(samples[|samples| - 1])
  }

  predicate After(prev: Option<Sample>, interval: real, now: real) {
    prev.None? || prev.value.at + interval <= now
  }

  predicate Scheduling(nextAt: Option<real>, prev: Option<Sample>, interval: real) {
    if prev.None? then nextAt.None? else nextAt == Some(prev.value.at + interval)
  }

  function AllButLast(samples: seq<Sample>): seq<Sample> {
    if |samples| == 0 then [] else samples[..|samples| - 1]
  }

  /** The fields between two ticks. */
  predicate Settled(st: State, interval: real) {
    Scheduling(st.nextAt, st.prev, interval) && st.logged == Windows(st.samples)
  }

  /** The fields while a thread stands at `p` with the lock. */
  predicate HolderInv(st: State, interval: real, p: Place) {
    match p
    case Locked(_) => Settled(st, interval)
    case Reading(now) => Settled(st, interval) && After(st.prev, interval, now)
    case Read(now, _) => Settled(st, interval) && After(st.prev, interval, now)
    case Scheduled(now, _) =>
      st.nextAt == Some(now + interval) && After(st.prev, interval, now) && st.logged == Windows(st.samples)
    case Logging(previous, now, current) =>
      && Scheduling(st.nextAt, st.prev, interval) && st.prev == Some(Sample(now, current))
      && previous == Last(AllButLast(st.samples)) && st.logged == Windows(AllButLast(st.samples))
    case _ => false
  }

  /** Whoever is inside holds the lock. */
  ghost predicate Exclusive(threads: map<nat, Place>, lock: Option<nat>) {
    forall t :: t in threads && InsideLock(threads[t]) ==> lock == Some(t)
  }

  lemma HolderMoves(threads: map<nat, Place>, t: nat, p: Place)
    requires Exclusive(threads, Some(t))
    ensures Exclusive(threads[t := p], if InsideLock(p) then Some(t) else None)
  {
  }

  ghost predicate Inv(st: State, interval: real) {
    && Exclusive(st.threads, st.lock)
    && st.prev == Last(st.samples) && Spaced(st.samples, interval)
    && if st.lock.None? then Settled(st, interval) else HolderInv(st, interval, PlaceOf(st, st.lock.value))
  }

  lemma WindowsPush(samples: seq<Sample>, s: Sample)
    ensures Windows(samples + [s])
         == Windows(samples) + if |samples| == 0 then [] else WindowOf(samples[|samples| - 1], s)
  {
    assert (samples + [s])[..|samples|] == samples;
  }

  lemma SpacedPush(samples: seq<Sample>, s: Sample, interval: real)
    requires Spaced(samples, interval) && After(Last(samples), interval, s.at)
    ensures Spaced(samples + [s], interval)
  {
    var after := samples + [s];
    forall k | 0 < k < |after| ensures after[k - 1].at + interval <= after[k].at {
      if k < |samples| { assert after[k - 1] == samples[k - 1] && after[k] == samples[k]; }
    }
  }

  /** Checking under the lock, and reading the file. */
  lemma CheckKeepsInv(st: State, interval: real, t: nat, reading: Option<Counters>)
    requires Inv(st, interval) && var p := PlaceOf(st, t); p.Locked? || p.Reading? || p.Read?
    ensures Inv(Next(st, interval, Act(t, reading)), interval)
  {
    assert st.lock == Some(t);
  }

  lemma SampleKeepsInv(st: State, interval: real, t: nat, reading: Option<Counters>)
    requires Inv(st, interval) && PlaceOf(st, t).Scheduled?
    ensures Inv(Next(st, interval, Act(t, reading)), interval)
  {
    assert st.lock == Some(t);
    var Scheduled(now, current) := PlaceOf(st, t);
    var s, after := Sample(now, current), Next(st, interval, Act(t, reading));
    HolderMoves(st.threads, t, Logging(st.prev, now, current));
    SpacedPush(st.samples, s, interval);
    assert AllButLast(st.samples + [s]) == st.samples;
    assert Last(st.samples + [s]) == Some(s);
    assert after.samples == st.samples + [s] && PlaceOf(after, t) == Logging(st.prev, now, current);
  }

  /** Logging the line of the two latest samples completes the log. */
  lemma LineCompletes(samples: seq<Sample>, previous: Option<Sample>, s: Sample)
    requires Last(samples) == Some(s) && previous == Last(AllButLast(samples))
    ensures Windows(AllButLast(samples)) + (if previous.None? then [] else WindowOf(previous.value, s))
         == Windows(samples)
  {
    assert samples == AllButLast(samples) + [s];
    WindowsPush(AllButLast(samples), s);
  }

  lemma LogKeepsInv(st: State, interval: real, t: nat, reading: Option<Counters>)
    requires Inv(st, interval) && PlaceOf(st, t).Logging?
    ensures Inv(Next(st, interval, Act(t, reading)), interval)
  {
    assert st.lock == Some(t);
    var Logging(previous, now, current) := PlaceOf(st, t);
    var s, after := Sample(now, current), Next(st, interval, Act(t, reading));
    HolderMoves(st.threads, t, Outside);
    LineCompletes(st.samples, previous, s);
    assert after.logged == Windows(after.samples);
  }

  lemma WalkKeepsInv(st: State, interval: real, t: nat, p: Place)
    requires Inv(st, interval) && !InsideLock(PlaceOf(st, t)) && !InsideLock(p)
    ensures Inv(Move(st, t, p), interval)
  {
    assert st.lock != Some(t);
  }

  lemma TakeLockKeepsInv(st: State, interval: real, t: nat, now: real)
    requires Inv(st, interval) && !InsideLock(PlaceOf(st, t)) && st.lock.None?
    ensures Inv(Move(st, t, Locked(now)).(lock := Some(t)), interval)
  {
  }

  /** Entering, reading the clock, the unlocked check, taking the lock. */
  lemma ApproachKeepsInv(st: State, interval: real, t: nat, reading: Option<Counters>)
    requires Inv(st, interval) && !InsideLock(PlaceOf(st, t))
    ensures Inv(Next(st, interval, Act(t, reading)), interval)
  {
    match PlaceOf(st, t) {
      case Outside => WalkKeepsInv(st, interval, t, Entered);
      case Entered => WalkKeepsInv(st, interval, t, Timed(st.clock));
      case Timed(now) => WalkKeepsInv(st, interval, t, if TooEarly(st.nextAt, now) then Outside else Due(now));
      case Due(now) =>
        if st.lock.Some? { WalkKeepsInv(st, interval, t, Outside); } else { TakeLockKeepsInv(st, interval, t, now); }
    }
  }

  lemma NextKeepsInv(st: State, interval: real, a: Action)
    requires Inv(st, interval)
    ensures Inv(Next(st, interval, a), interval)
  {
    match a {
      case Wait(_) =>
      case Act(t, reading) =>
        var p := PlaceOf(st, t);
        if p.Scheduled? { SampleKeepsInv(st, interval, t, reading); }
        else if p.Logging? { LogKeepsInv(st, interval, t, reading); }
        else if InsideLock(p) { CheckKeepsInv(st, interval, t, reading); }
        else { ApproachKeepsInv(st, interval, t, reading); }
    }
  }

  lemma {:induction false} RunKeepsInv(st: State, interval: real, actions: seq<Action>)
    requires Initial(st)
    ensures Inv(Run(st, interval, actions), interval)
  {
    if |actions| > 0 {
      RunKeepsInv(st, interval, actions[..|actions| - 1]);
      NextKeepsInv(Run(st, interval, actions[..|actions| - 1]), interval, actions[|actions| - 1]);
    }
  }

  // ---------------------------------------------------------------------------
  // What the log says
  // ---------------------------------------------------------------------------

  /** Each line runs from one sample to the very next one. */
  lemma {:induction false} WindowsJoinSamples(samples: seq<Sample>, w: Window)
    requires w in Windows(samples)
    ensures exists k :: 0 < k < |samples| && [w] == WindowOf(samples[k - 1], samples[k])
  {
    var n := |samples|;
    if w in Windows(samples[..n - 1]) {
      WindowsJoinSamples(samples[..n - 1], w);
      var k :| 0 < k < n - 1 && [w] == WindowOf(samples[..n - 1][k - 1], samples[..n - 1][k]);
      assert [w] == WindowOf(samples[k - 1], samples[k]);
    } else {
      assert [w] == WindowOf(samples[n - 2], samples[n - 1]);
    }
  }

  lemma {:induction false} WindowsEndByLast(samples: seq<Sample>, interval: real, k: nat)
    requires Spaced(samples, interval) && interval >= 0.0 && k < |Windows(samples)|
    ensures |samples| > 0 && Windows(samples)[k].from + interval <= Windows(samples)[k].to <= samples[|samples| - 1].at
  {
    var n := |samples|;
    assert samples[n - 2].at + interval <= samples[n - 1].at;
    if k < |Windows(samples[..n - 1])| { WindowsEndByLast(samples[..n - 1], interval, k); }
  }

  /** Lines are in order and do not overlap: one ends before, or where, any later one starts. */
  lemma {:induction false} WindowsDoNotOverlap(samples: seq<Sample>, interval: real, j: nat, k: nat)
    requires Spaced(samples, interval) && interval >= 0.0 && j < k < |Windows(samples)|
    ensures Windows(samples)[j].to <= Windows(samples)[k].from
  {
    var n := |samples|;
    if k < |Windows(samples[..n - 1])| {
      WindowsDoNotOverlap(samples[..n - 1], interval, j, k);
    } else {
      WindowsEndByLast(samples[..n - 1], interval, j);
      assert samples[..n - 1][n - 2] == samples[n - 2];
    }
  }

  /**
   Whatever the interleaving and however stale the clocks: outside the final logging step, the log is
   one line per pair of successive samples that did not restart; each spans at least the interval and
   none overlaps another.
   */
  lemma LogIsSound(st: State, interval: real, actions: seq<Action>)
    requires Initial(st) && interval >= 0.0
    ensures var end := Run(st, interval, actions);
            && Spaced(end.samples, interval)
            && (end.logged == Windows(end.samples) || end.logged == Windows(AllButLast(end.samples)))
            && (end.lock.None? ==> end.logged == Windows(end.samples))
            && (forall k :: 0 <= k < |end.logged| ==> end.logged[k].from + interval <= end.logged[k].to)
            && (forall j, k :: 0 <= j < k < |end.logged| ==> end.logged[j].to <= end.logged[k].from)
  {
    RunKeepsInv(st, interval, actions);
    var end := Run(st, interval, actions);
    var samples := if end.logged == Windows(end.samples) then end.samples else AllButLast(end.samples);
    forall k | 0 <= k < |end.logged| ensures end.logged[k].from + interval <= end.logged[k].to {
      WindowsEndByLast(samples, interval, k);
    }
    forall j, k | 0 <= j < k < |end.logged| ensures end.logged[j].to <= end.logged[k].from {
      WindowsDoNotOverlap(samples, interval, j, k);
    }
  }

  ghost predicate NoRestart(samples: seq<Sample>) {
    forall k :: 0 < k < |samples| ==> !samples[k].counters.Minus(samples[k - 1].counters).AnyNegative()
  }

  function TotalDelta(windows: seq<Window>): Counters {
    if |windows| == 0 then NOTHING else TotalDelta(windows[..|windows| - 1]).Plus(windows[|windows| - 1].delta)
  }

  lemma StretchGrows(samples: seq<Sample>, s: Sample)
    requires |samples| > 0 && NoRestart(samples + [s])
    ensures var last := samples[|samples| - 1];
            Windows(samples + [s]) == Windows(samples) + [Window(last.at, s.at, s.counters.Minus(last.counters))]
  {
    var all, last := samples + [s], samples[|samples| - 1];
    assert all[|samples| - 1] == last && all[|samples|] == s;
    WindowsPush(samples, s);
  }

  lemma TotalPush(windows: seq<Window>, w: Window)
    ensures TotalDelta(windows + [w]) == TotalDelta(windows).Plus(w.delta)
  {
    assert (windows + [w])[..|windows|] == windows;
  }

  lemma StretchIsPrefix(samples: seq<Sample>) returns (before: seq<Sample>, s: Sample)
    requires |samples| > 1 && NoRestart(samples)
    ensures samples == before + [s] && |before| > 0 && NoRestart(before)
    ensures Windows(samples)
         == Windows(before) + [Window(before[|before| - 1].at, s.at, s.counters.Minus(before[|before| - 1].counters))]
  {
    before, s := samples[..|samples| - 1], samples[|samples| - 1];
    assert samples == before + [s];
    StretchGrows(before, s);
  }

  lemma {:induction false} StretchJoins(samples: seq<Sample>, k: nat)
    requires k < |samples| && NoRestart(samples)
    ensures |Windows(samples)| == |samples| - 1
    ensures k + 1 < |samples| ==>
              Windows(samples)[k].from == samples[k].at && Windows(samples)[k].to == samples[k + 1].at
  {
    if |samples| > 1 {
      var before, s := StretchIsPrefix(samples);
      StretchJoins(before, if k < |before| then k else 0);
    }
  }

  lemma {:induction false} StretchAddsUp(samples: seq<Sample>)
    requires |samples| > 0 && NoRestart(samples)
    ensures TotalDelta(Windows(samples)) == samples[|samples| - 1].counters.Minus(samples[0].counters)
  {
    if |samples| > 1 {
      var before, s := StretchIsPrefix(samples);
      StretchAddsUp(before);
      var last := before[|before| - 1];
      TotalPush(Windows(before), Window(last.at, s.at, s.counters.Minus(last.counters)));
    }
  }

  /** The lines of samples without a restart join end to end and add up to last reading less first. */
  lemma {:induction false} StretchTelescopes(samples: seq<Sample>)
    requires |samples| > 0 && NoRestart(samples)
    ensures JoinUp(Windows(samples), samples)
    ensures TotalDelta(Windows(samples)) == samples[|samples| - 1].counters.Minus(samples[0].counters)
  {
    StretchJoins(samples, 0);
    StretchAddsUp(samples);
    forall k | 0 <= k < |samples| - 1
      ensures Windows(samples)[k].from == samples[k].at && Windows(samples)[k].to == samples[k + 1].at
    {
      StretchJoins(samples, k);
    }
  }

  lemma SplitGrows(a: seq<Sample>, b: seq<Sample>, s: Sample, x: seq<Sample>, y: seq<Sample>)
    requires |a| > 0 && x == a + b && y == [a[|a| - 1]] + b && Windows(x) == Windows(a) + Windows(y)
    ensures Windows(x + [s]) == Windows(a) + Windows(y + [s])
  {
    assert x[|x| - 1] == y[|y| - 1];
    var line := WindowOf(x[|x| - 1], s);
    WindowsPush(x, s);
    WindowsPush(y, s);
    assert Windows(a) + Windows(y) + line == Windows(a) + (Windows(y) + line);
  }

  lemma Regroup<T>(a: seq<T>, b: seq<T>)
    requires |b| > 0
    ensures a + b == (a + b[..|b| - 1]) + [b[|b| - 1]]
  {
  }

  /** The lines of a longer sequence: those up to any sample, then those from it on. */
  lemma {:induction false} WindowsSplitAt(a: seq<Sample>, b: seq<Sample>, x: seq<Sample>, y: seq<Sample>)
    requires |a| > 0 && x == a + b && y == [a[|a| - 1]] + b
    ensures Windows(x) == Windows(a) + Windows(y)
    decreases |b|
  {
    if |b| == 0 {
      assert x == a && |y| == 1;
    } else {
      var front, s := b[..|b| - 1], b[|b| - 1];
      var x', y' := a + front, [a[|a| - 1]] + front;
      WindowsSplitAt(a, front, x', y');
      SplitGrows(a, front, s, x', y');
      Regroup(a, b);
      Regroup([a[|a| - 1]], b);
    }
  }

  /** Line k runs from sample k to the next. */
  ghost predicate JoinUp(lines: seq<Window>, samples: seq<Sample>) {
    && |samples| == |lines| + 1
    && forall k :: 0 <= k < |lines| ==> lines[k].from == samples[k].at && lines[k].to == samples[k + 1].at
  }

  /** A line of the two latest samples that is yet to be written. */
  predicate LineIsDue(st: State) {
    st.lock.Some? && PlaceOf(st, st.lock.value).Logging?
  }

  /** The samples whose lines are written. */
  function Written(st: State): seq<Sample> {
    if LineIsDue(st) then AllButLast(st.samples) else st.samples
  }

  /** From `first` on, `lines` holds those of `stretch`: joined end to end, adding up to last reading less first. */
  ghost predicate StretchStands(lines: seq<Window>, first: nat, stretch: seq<Sample>)
    requires |stretch| > 0
  {
    var n := |stretch| - 1;
    && first + n <= |lines|
    && JoinUp(lines[first..first + n], stretch)
    && TotalDelta(lines[first..first + n]) == stretch[n].counters.Minus(stretch[0].counters)
  }

  lemma SliceStands(lines: seq<Window>, a: seq<Window>, b: seq<Window>, c: seq<Window>, stretch: seq<Sample>)
    requires lines == (a + b) + c && JoinUp(b, stretch)
    requires TotalDelta(b) == stretch[|stretch| - 1].counters.Minus(stretch[0].counters)
    ensures StretchStands(lines, |a|, stretch)
  {
    assert lines[|a|..|a| + |b|] == b;
  }

  /** The lines before a stretch, its own, and those after it. */
  lemma StretchIsSlice(head: seq<Sample>, x: seq<Sample>, y: seq<Sample>, stretch: seq<Sample>, samples: seq<Sample>)
    returns (tail: seq<Sample>)
    requires |head| > 0 && stretch == [head[|head| - 1]] + x && samples == (head + x) + y
    ensures Windows(samples) == (Windows(head) + Windows(stretch)) + Windows(tail)
  {
    var upTo := head + x;
    tail := [upTo[|upTo| - 1]] + y;
    WindowsSplitAt(head, x, upTo, stretch);
    WindowsSplitAt(upTo, y, samples, tail);
  }

  lemma RestartFreeStands(samples: seq<Sample>, i: nat, j: nat, head: seq<Sample>, stretch: seq<Sample>)
    requires i <= j < |samples| && head == samples[..i + 1] && stretch == samples[i..j + 1] && NoRestart(stretch)
    ensures StretchStands(Windows(samples), |Windows(head)|, stretch)
  {
    var x, y := Cut(samples, i, j);
    var tail := StretchIsSlice(head, x, y, stretch, samples);
    StretchTelescopes(stretch);
    SliceStands(Windows(samples), Windows(head), Windows(stretch), Windows(tail), stretch);
  }

  lemma Cut(samples: seq<Sample>, i: nat, j: nat) returns (x: seq<Sample>, y: seq<Sample>)
    requires i <= j < |samples|
    ensures samples == (samples[..i + 1] + x) + y && samples[i..j + 1] == [samples[i]] + x
  {
    x, y := samples[i + 1..j + 1], samples[j + 1..];
  }

  /** In the log of any run, whatever restarts it holds elsewhere, every stretch without one stands. */
  lemma StretchOfLogTelescopes(st: State, interval: real, actions: seq<Action>, i: nat, j: nat)
    requires Initial(st)
    requires var samples := Written(Run(st, interval, actions));
             i <= j < |samples| && NoRestart(samples[i..j + 1])
    ensures var end := Run(st, interval, actions);
            var samples := Written(end);
            StretchStands(end.logged, |Windows(samples[..i + 1])|, samples[i..j + 1])
  {
    var end := Run(st, interval, actions);
    RunKeepsInv(st, interval, actions);
    LogIsWritten(end, interval);
    RestartFreeStands(Written(end), i, j, Written(end)[..i + 1], Written(end)[i..j + 1]);
  }

  lemma LogIsWritten(st: State, interval: real)
    requires Inv(st, interval)
    ensures st.logged == Windows(Written(st))
  {
  }

  ghost predicate NoNegative(c: Counters) {
    c.periods >= 0 && c.throttled >= 0 && c.throttledUsec >= 0 && c.usageUsec >= 0
  }

  /** Whatever the file reads and whoever ticks, no line ever logged holds a negative counter. */
  lemma LinesAreNeverNegative(st: State, interval: real, actions: seq<Action>, w: Window)
    requires Initial(st) && w in Run(st, interval, actions).logged
    ensures NoNegative(w.delta)
  {
    RunKeepsInv(st, interval, actions);
    var end := Run(st, interval, actions);
    LogIsWritten(end, interval);
    WindowsJoinSamples(Written(end), w);
  }

  /** One counter over a stretch of lines. */
  function SumOf(lines: seq<Window>, counter: Counters -> int): int {
    if |lines| == 0 then 0 else SumOf(lines[..|lines| - 1], counter) + counter(lines[|lines| - 1].delta)
  }

  lemma {:induction false} TotalIsPerCounter(lines: seq<Window>)
    ensures TotalDelta(lines).periods == SumOf(lines, (c: Counters) => c.periods)
    ensures TotalDelta(lines).throttled == SumOf(lines, (c: Counters) => c.throttled)
    ensures TotalDelta(lines).throttledUsec == SumOf(lines, (c: Counters) => c.throttledUsec)
    ensures TotalDelta(lines).usageUsec == SumOf(lines, (c: Counters) => c.usageUsec)
  {
    if |lines| > 0 { TotalIsPerCounter(lines[..|lines| - 1]); }
  }

  /** From `from` on, each counter's deltas over a stretch add up to its last reading less its first. */
  ghost predicate EachCounterStands(lines: seq<Window>, from: nat, stretch: seq<Sample>)
    requires |stretch| > 0
  {
    var n := |stretch| - 1;
    && from + n <= |lines|
    && var own, first, last := lines[from..from + n], stretch[0].counters, stretch[n].counters;
       && SumOf(own, (c: Counters) => c.periods) == last.periods - first.periods
       && SumOf(own, (c: Counters) => c.throttled) == last.throttled - first.throttled
       && SumOf(own, (c: Counters) => c.throttledUsec) == last.throttledUsec - first.throttledUsec
       && SumOf(own, (c: Counters) => c.usageUsec) == last.usageUsec - first.usageUsec
  }

  lemma StandsPerCounter(lines: seq<Window>, from: nat, stretch: seq<Sample>)
    requires |stretch| > 0 && StretchStands(lines, from, stretch)
    ensures EachCounterStands(lines, from, stretch)
  {
    TotalIsPerCounter(lines[from..from + |stretch| - 1]);
    assert lines[from..from + |stretch| - 1] == lines[from..from + (|stretch| - 1)];
  }

  /** So it is in the log of every run, for every stretch without a restart. */
  lemma EachCounterTelescopes(st: State, interval: real, actions: seq<Action>, i: nat, j: nat)
    requires Initial(st)
    requires var samples := Written(Run(st, interval, actions));
             i <= j < |samples| && NoRestart(samples[i..j + 1])
    ensures var end := Run(st, interval, actions);
            var samples := Written(end);
            EachCounterStands(end.logged, |Windows(samples[..i + 1])|, samples[i..j + 1])
  {
    StretchOfLogTelescopes(st, interval, actions, i, j);
    var end := Run(st, interval, actions);
    StandsPerCounter(end.logged, |Windows(Written(end)[..i + 1])|, Written(end)[i..j + 1]);
  }

  // ---------------------------------------------------------------------------
  // Switching off
  // ---------------------------------------------------------------------------

  /** A thread that switching off no longer stops: past the switch, and not too early. */
  predicate MayStillSample(st: State, p: Place) {
    match p
    case Entered => true
    case Timed(now) => !TooEarly(st.nextAt, now)
    case Due(now) => !TooEarly(st.nextAt, now)
    case Locked(now) => !TooEarly(st.nextAt, now)
    case Reading(_) => true
    case Read(_, _) => true
    case Scheduled(_, _) => true
    case _ => false
  }

  ghost predicate SomeMayStillSample(st: State) {
    exists t :: t in st.threads && MayStillSample(st, st.threads[t])
  }

  /** Off and nobody such: nothing is sampled ever again. */
  lemma {:induction false} NobodyLeftToSample(st: State, interval: real, actions: seq<Action>)
    requires st.disabled && !SomeMayStillSample(st)
    ensures var end := Run(st, interval, actions);
            end.disabled && !SomeMayStillSample(end) && end.samples == st.samples
  {
    if |actions| > 0 {
      var n := |actions| - 1;
      NobodyLeftToSample(st, interval, actions[..n]);
      StaysQuiet(Run(st, interval, actions[..n]), interval, actions[n]);
    }
  }

  lemma StaysQuiet(st: State, interval: real, a: Action)
    requires st.disabled && !SomeMayStillSample(st)
    ensures var after := Next(st, interval, a);
            after.disabled && !SomeMayStillSample(after) && after.samples == st.samples
  {
    var after := Next(st, interval, a);
    if a.Act? {
      assert a.thread in st.threads ==> !MayStillSample(st, st.threads[a.thread]);
    }
    assert after.nextAt == st.nextAt;
    forall t | t in after.threads ensures !MayStillSample(after, after.threads[t]) {
      assert t in st.threads ==> !MayStillSample(st, st.threads[t]);
    }
  }

  lemma {:induction false} RunFirst(st: State, interval: real, a: Action, rest: seq<Action>)
    ensures Run(st, interval, [a] + rest) == Run(Next(st, interval, a), interval, rest)
    decreases |rest|
  {
    var all := [a] + rest;
    if |rest| == 0 {
      assert all[..0] == [] && Run(st, interval, all[..0]) == st;
    } else {
      var n := |rest| - 1;
      RunFirst(st, interval, a, rest[..n]);
      assert all[..|all| - 1] == [a] + rest[..n];
    }
  }

  /** How many steps such a thread is at most from its sample, counting those that free the lock. */
  function StepsLeft(st: State, p: Place): nat {
    match p
    case Scheduled(_, _) => 1
    case Read(_, _) => 2
    case Reading(_) => 3
    case Locked(_) => 4
    case Due(_) => if st.lock.None? then 5 else 6
    case Timed(_) => 7
    case Entered => if TooEarly(st.nextAt, st.clock) then 9 else 8
    case _ => 0
  }

  /** The next step towards a sample by thread `t`: its own, time passing, or the holder's, who leaves. */
  function StepTowards(st: State, t: nat): Action {
    match PlaceOf(st, t)
    case Entered => if TooEarly(st.nextAt, st.clock) then Wait(st.nextAt.value - st.clock) else Act(t, None)
    case Due(_) => if st.lock.Some? then Act(st.lock.value, None) else Act(t, None)
    case _ => Act(t, Some(NOTHING))
  }

  lemma Approaches(st: State, interval: real, t: nat)
    requires Inv(st, interval) && MayStillSample(st, PlaceOf(st, t)) && !PlaceOf(st, t).Scheduled?
    requires PlaceOf(st, t).Due? && st.lock.Some? ==> !MayStillSample(st, PlaceOf(st, st.lock.value))
    ensures var after := Next(st, interval, StepTowards(st, t));
            && after.samples == st.samples && MayStillSample(after, PlaceOf(after, t))
            && StepsLeft(after, PlaceOf(after, t)) < StepsLeft(st, PlaceOf(st, t))
  {
  }

  /** And such a thread can still take its sample, on or off. */
  lemma {:induction false} CanStillSample(st: State, interval: real, t: nat) returns (more: seq<Action>)
    requires Inv(st, interval) && MayStillSample(st, PlaceOf(st, t))
    ensures Run(st, interval, more).samples != st.samples
    decreases StepsLeft(st, PlaceOf(st, t))
  {
    var p, a := PlaceOf(st, t), StepTowards(st, t);
    if p.Scheduled? {
      more := [a];
      RunFirst(st, interval, a, []);
      assert more == [a] + [];
    } else if p.Due? && st.lock.Some? && MayStillSample(st, PlaceOf(st, st.lock.value)) {
      more := CanStillSample(st, interval, st.lock.value);
    } else {
      Approaches(st, interval, t);
      NextKeepsInv(st, interval, a);
      var rest := CanStillSample(Next(st, interval, a), interval, t);
      more := [a] + rest;
      RunFirst(st, interval, a, rest);
    }
  }

  /**
   "Off for good", exactly: in every reachable state that is off, some continuation samples again if and
   only if some thread may still. With the lock free, such a thread is on its way to it.
   */
  lemma SamplesAgainExactlyWhen(st: State, interval: real, actions: seq<Action>)
    requires Initial(st) && Run(st, interval, actions).disabled
    ensures var off := Run(st, interval, actions);
            && ((exists more :: Run(off, interval, more).samples != off.samples) <==> SomeMayStillSample(off))
            && (off.lock.None? ==> forall t :: t in off.threads ==> !InsideLock(off.threads[t]))
  {
    RunKeepsInv(st, interval, actions);
    var off := Run(st, interval, actions);
    if SomeMayStillSample(off) {
      var t :| t in off.threads && MayStillSample(off, off.threads[t]);
      var more := CanStillSample(off, interval, t);
    } else {
      forall more ensures Run(off, interval, more).samples == off.samples {
        NobodyLeftToSample(off, interval, more);
      }
    }
  }

  /** Off, and nobody on the way in: nothing but the clock ever changes. */
  lemma {:induction false} QuietOnceAllAreOut(st: State, interval: real, actions: seq<Action>)
    requires st.disabled && forall t :: t in st.threads ==> st.threads[t] == Outside
    ensures var end := Run(st, interval, actions);
            end == st.(clock := end.clock)
  {
    if |actions| > 0 { QuietOnceAllAreOut(st, interval, actions[..|actions| - 1]); }
  }

  /** A thread's next `steps` steps with nothing in between. */
  function Alone(st: State, interval: real, a: Action, steps: nat): State
    decreases steps
  {
    if steps == 0 then st else Alone(Next(st, interval, a), interval, a, steps - 1)
  }

  /** What such a thread does when left alone: it samples, and the sampler stays off. */
  lemma LateThreadStillSamples(st: State, interval: real, late: nat, reading: Counters)
    requires st.disabled && st.lock.None? && PlaceOf(st, late) == Entered && !TooEarly(st.nextAt, st.clock)
    ensures var end := Alone(st, interval, Act(late, Some(reading)), 7);
            end.disabled && end.samples == st.samples + [Sample(st.clock, reading)]
  {
    var a := Act(late, Some(reading));
    var s1 := Next(st, interval, a);
    assert PlaceOf(s1, late) == Timed(st.clock);
    var s2 := Next(s1, interval, a);
    assert PlaceOf(s2, late) == Due(st.clock);
    var s3 := Next(s2, interval, a);
    assert PlaceOf(s3, late) == Locked(st.clock);
    var s4 := Next(s3, interval, a);
    assert PlaceOf(s4, late) == Reading(st.clock);
    var s5 := Next(s4, interval, a);
    assert PlaceOf(s5, late) == Read(st.clock, reading);
    LateSample(s5, interval, late, reading, st.clock);
    assert Alone(st, interval, a, 7) == Alone(s1, interval, a, 6) == Alone(s2, interval, a, 5)
        == Alone(s3, interval, a, 4) == Alone(s4, interval, a, 3) == Alone(s5, interval, a, 2);
  }

  /**
   In every reachable state that is on with the lock free: a tick nobody interrupts takes a sample if and
   only if none was taken yet or the last one is at least the interval old.
   */
  lemma TickSamplesExactlyWhenDue(st: State, interval: real, actions: seq<Action>, t: nat, reading: Counters)
    requires Initial(st)
    requires var on := Run(st, interval, actions); !on.disabled && on.lock.None? && PlaceOf(on, t) == Outside
    ensures var on := Run(st, interval, actions);
            var due := |on.samples| == 0 || on.samples[|on.samples| - 1].at + interval <= on.clock;
            Alone(on, interval, Act(t, Some(reading)), 8).samples
            == if due then on.samples + [Sample(on.clock, reading)] else on.samples
  {
    RunKeepsInv(st, interval, actions);
    TickAlone(Run(st, interval, actions), interval, t, reading);
  }

  lemma TickAlone(on: State, interval: real, t: nat, reading: Counters)
    requires Inv(on, interval) && !on.disabled && on.lock.None? && PlaceOf(on, t) == Outside
    ensures var due := |on.samples| == 0 || on.samples[|on.samples| - 1].at + interval <= on.clock;
            Alone(on, interval, Act(t, Some(reading)), 8).samples
            == if due then on.samples + [Sample(on.clock, reading)] else on.samples
  {
    var a := Act(t, Some(reading));
    var s1 := Next(on, interval, a);
    var s2 := Next(s1, interval, a);
    var s3 := Next(s2, interval, a);
    assert PlaceOf(s1, t) == Entered && PlaceOf(s2, t) == Timed(on.clock);
    assert Alone(on, interval, a, 8) == Alone(s1, interval, a, 7) == Alone(s2, interval, a, 6)
        == Alone(s3, interval, a, 5);
    if TooEarly(on.nextAt, on.clock) {
      NotDueStays(s3, interval, t, reading);
    } else {
      DueSamples(s3, interval, t, reading, on.clock);
    }
  }

  lemma NotDueStays(s3: State, interval: real, t: nat, reading: Counters)
    requires !s3.disabled && PlaceOf(s3, t) == Outside && TooEarly(s3.nextAt, s3.clock)
    ensures Alone(s3, interval, Act(t, Some(reading)), 5).samples == s3.samples
  {
    var a := Act(t, Some(reading));
    var s4 := Next(s3, interval, a);
    var s5 := Next(s4, interval, a);
    var s6 := Next(s5, interval, a);
    var s7 := Next(s6, interval, a);
    assert PlaceOf(s4, t) == Entered && PlaceOf(s5, t) == Timed(s3.clock) && PlaceOf(s6, t) == Outside;
    assert PlaceOf(s7, t) == Entered;
    assert Alone(s3, interval, a, 5) == Alone(s4, interval, a, 4) == Alone(s5, interval, a, 3)
        == Alone(s6, interval, a, 2) == Alone(s7, interval, a, 1) == Alone(Next(s7, interval, a), interval, a, 0);
  }

  lemma DueSamples(s3: State, interval: real, t: nat, reading: Counters, now: real)
    requires PlaceOf(s3, t) == Due(now) && s3.lock.None? && !TooEarly(s3.nextAt, now)
    ensures Alone(s3, interval, Act(t, Some(reading)), 5).samples == s3.samples + [Sample(now, reading)]
  {
    var a := Act(t, Some(reading));
    var s4 := Next(s3, interval, a);
    var s5 := Next(s4, interval, a);
    var s6 := Next(s5, interval, a);
    assert PlaceOf(s4, t) == Locked(now) && PlaceOf(s5, t) == Reading(now) && PlaceOf(s6, t) == Read(now, reading);
    LateSample(s6, interval, t, reading, now);
    assert Alone(s3, interval, a, 5) == Alone(s4, interval, a, 4) == Alone(s5, interval, a, 3)
        == Alone(s6, interval, a, 2);
  }

  lemma LateSample(st: State, interval: real, late: nat, reading: Counters, now: real)
    requires PlaceOf(st, late) == Read(now, reading)
    ensures var end := Alone(st, interval, Act(late, Some(reading)), 2);
            end.disabled == st.disabled && end.samples == st.samples + [Sample(now, reading)]
  {
    var a := Act(late, Some(reading));
    var s1 := Next(st, interval, a);
    assert PlaceOf(s1, late) == Scheduled(now, reading);
    var s2 := Next(s1, interval, a);
    assert Alone(st, interval, a, 2) == Alone(s1, interval, a, 1) == Alone(s2, interval, a, 0);
  }

  /**
   Such a state is reached: two threads find the sampler on, the first fails to read the file and
   switches it off, and the second is past the switch.
   */
  lemma OffWithOneInside(st: State, interval: real) returns (actions: seq<Action>)
    requires Initial(st) && !st.disabled
    ensures var off := Run(st, interval, actions);
            off.disabled && off.lock.None? && PlaceOf(off, 2) == Entered && !TooEarly(off.nextAt, off.clock)
    ensures var off := Run(st, interval, actions);
            exists more :: Run(off, interval, more).samples != off.samples
  {
    var one, two := Act(1, None), Act(2, None);
    actions := [two, one, one, one, one, one, one];
    var s1 := Next(st, interval, two);
    var s2 := Next(s1, interval, one);
    var s3 := Next(s2, interval, one);
    var s4 := Next(s3, interval, one);
    var s5 := Next(s4, interval, one);
    var s6 := Next(s5, interval, one);
    var s7 := Next(s6, interval, one);
    assert PlaceOf(s2, 1) == Entered && PlaceOf(s3, 1) == Timed(st.clock) && PlaceOf(s4, 1) == Due(st.clock);
    assert PlaceOf(s5, 1) == Locked(st.clock) && PlaceOf(s6, 1) == Reading(st.clock);
    RunOfSeven(st, interval, two, one);
    SamplesAgainExactlyWhen(st, interval, actions);
  }

  lemma RunOfSeven(st: State, interval: real, a: Action, b: Action)
    ensures Run(st, interval, [a, b, b, b, b, b, b])
         == var s1 := Next(st, interval, a);
            var s3 := Next(Next(s1, interval, b), interval, b);
            var s5 := Next(Next(s3, interval, b), interval, b);
            Next(Next(s5, interval, b), interval, b)
  {
    RunFirst(st, interval, a, [b, b, b, b, b, b]);
    var s1 := Next(st, interval, a);
    assert [a, b, b, b, b, b, b] == [a] + [b, b, b, b, b, b];
    RunFirst(s1, interval, b, [b, b, b, b, b]);
    var s2 := Next(s1, interval, b);
    assert [b, b, b, b, b, b] == [b] + [b, b, b, b, b];
    RunFirst(s2, interval, b, [b, b, b, b]);
    var s3 := Next(s2, interval, b);
    assert [b, b, b, b, b] == [b] + [b, b, b, b];
    RunFirst(s3, interval, b, [b, b, b]);
    var s4 := Next(s3, interval, b);
    assert [b, b, b, b] == [b] + [b, b, b];
    RunFirst(s4, interval, b, [b, b]);
    var s5 := Next(s4, interval, b);
    assert [b, b, b] == [b] + [b, b];
    RunFirst(s5, interval, b, [b]);
    var s6 := Next(s5, interval, b);
    assert [b, b] == [b] + [b];
    RunFirst(s6, interval, b, []);
    assert [b] == [b] + [];
  }
}
