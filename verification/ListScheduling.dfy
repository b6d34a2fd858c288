/**
 Greedy list scheduling over plain weights: job k goes to the lightest machine so far, lowest number
 first. An assignment is a sequence that names the machine of each job, so "any other split" is
 any other sequence. The bounds are Graham's: 2 - 1/m for any order, 4/3 - 1/(3m) for heaviest first.
 */
module ListScheduling {

  /** The weight that `assign` puts on machine `i`. */
  function Load(w: seq<nat>, assign: seq<nat>, i: nat): nat
    requires |assign| == |w|
  {
    if |w| == 0 then 0
    else
      var n := |w| - 1;
      Load(w[..n], assign[..n], i) + if assign[n] == i then w[n] else 0
  }

  function Loads(w: seq<nat>, assign: seq<nat>, m: nat): (loads: seq<nat>)
    requires |assign| == |w|
    ensures |loads| == m
  {
    seq(m, i requires 0 <= i < m => Load(w, assign, i))
  }

  /** The weight on the heaviest of machines 0..m. */
  function Makespan(w: seq<nat>, assign: seq<nat>, m: nat): (heaviest: nat)
    requires |assign| == |w|
    ensures forall i :: 0 <= i < m ==> Load(w, assign, i) <= heaviest
    ensures m > 0 ==> exists i: nat :: i < m && Load(w, assign, i) == heaviest
  {
    if m == 0 then 0
    else
      var rest := Makespan(w, assign, m - 1);
      var last := Load(w, assign, m - 1);
      if last >= rest then last else rest
  }

  ghost predicate IsAssignment(assign: seq<nat>, jobs: nat, m: nat) {
    |assign| == jobs && forall k :: 0 <= k < jobs ==> assign[k] < m
  }

  /** `assign` runs every job and no machine of it exceeds `cap`. */
  ghost predicate Within(w: seq<nat>, assign: seq<nat>, m: nat, cap: nat) {
    IsAssignment(assign, |w|, m) && forall i :: 0 <= i < m ==> Load(w, assign, i) <= cap
  }

  /** The lowest-numbered machine among the lightest. */
  function Lightest(loads: seq<nat>): (i: nat)
    requires |loads| > 0
    ensures i < |loads|
  {
    if |loads| == 1 then 0
    else
      var n := |loads| - 1;
      var best := Lightest(loads[..n]);
      if loads[n] < loads[best] then n else best
  }

  lemma {:induction false} LightestIsLightest(loads: seq<nat>, j: nat)
    requires j < |loads|
    ensures loads[Lightest(loads)] <= loads[j]
    ensures j < Lightest(loads) ==> loads[Lightest(loads)] < loads[j]
  {
    if |loads| > 1 {
      var n := |loads| - 1;
      LightestIsLightest(loads[..n], if j < n then j else 0);
    }
  }

  function Greedy(w: seq<nat>, m: nat): (assign: seq<nat>)
    requires m > 0
    ensures IsAssignment(assign, |w|, m)
  {
    if |w| == 0 then []
    else
      var n := |w| - 1;
      var before := Greedy(w[..n], m);
      before + [Lightest(Loads(w[..n], before, m))]
  }

  function Total(w: seq<nat>): nat {
    if |w| == 0 then 0 else Total(w[..|w| - 1]) + w[|w| - 1]
  }

  function LoadsUpTo(w: seq<nat>, assign: seq<nat>, m: nat): nat
    requires |assign| == |w|
  {
    if m == 0 then 0 else LoadsUpTo(w, assign, m - 1) + Load(w, assign, m - 1)
  }

  lemma {:induction false} LoadsUpToStep(w: seq<nat>, assign: seq<nat>, m: nat)
    requires |assign| == |w| > 0
    ensures LoadsUpTo(w, assign, m)
         == LoadsUpTo(w[..|w| - 1], assign[..|w| - 1], m)
            + if assign[|w| - 1] < m then w[|w| - 1] else 0
  {
    if m > 0 { LoadsUpToStep(w, assign, m - 1); }
  }

  /** No weight is lost: whatever the assignment, the machines carry everything. */
  lemma {:induction false} LoadsAddUp(w: seq<nat>, assign: seq<nat>, m: nat)
    requires IsAssignment(assign, |w|, m)
    ensures LoadsUpTo(w, assign, m) == Total(w)
  {
    if |w| == 0 {
      NothingLoaded(w, assign, m);
    } else {
      LoadsUpToStep(w, assign, m);
      LoadsAddUp(w[..|w| - 1], assign[..|w| - 1], m);
    }
  }

  lemma {:induction false} NothingLoaded(w: seq<nat>, assign: seq<nat>, m: nat)
    requires |w| == |assign| == 0
    ensures LoadsUpTo(w, assign, m) == 0
  {
    if m > 0 { NothingLoaded(w, assign, m - 1); }
  }

  lemma {:induction false} TotalAtLeast(w: seq<nat>, assign: seq<nat>, m: nat, least: nat)
    requires |assign| == |w|
    requires forall i :: 0 <= i < m ==> Load(w, assign, i) >= least
    ensures LoadsUpTo(w, assign, m) >= m * least
  {
    if m > 0 { TotalAtLeast(w, assign, m - 1, least); }
  }

  lemma {:induction false} TotalAtMost(w: seq<nat>, assign: seq<nat>, m: nat, most: nat)
    requires |assign| == |w|
    requires forall i :: 0 <= i < m ==> Load(w, assign, i) <= most
    ensures LoadsUpTo(w, assign, m) <= m * most
  {
    if m > 0 { TotalAtMost(w, assign, m - 1, most); }
  }

  /** Every job is at most the makespan of any assignment that runs it. */
  lemma {:induction false} JobWithinLoad(w: seq<nat>, assign: seq<nat>, k: nat)
    requires |assign| == |w| && k < |w|
    ensures w[k] <= Load(w, assign, assign[k])
  {
    if k < |w| - 1 { JobWithinLoad(w[..|w| - 1], assign[..|w| - 1], k); }
  }

  /** Job n on the lightest machine: its load before the job, times m, fits in what the rival carries. */
  lemma LightestIsBelowAverage(w: seq<nat>, m: nat, rival: seq<nat>, cap: nat)
    requires m > 0 && |w| > 0 && Within(w, rival, m, cap)
    ensures var n := |w| - 1;
            var before := Greedy(w[..n], m);
            m * Load(w[..n], before, Greedy(w, m)[n]) + w[n] <= m * cap && w[n] <= cap
  {
    var n := |w| - 1;
    var before := Greedy(w[..n], m);
    var least := Load(w[..n], before, Greedy(w, m)[n]);
    assert least == Loads(w[..n], before, m)[Greedy(w, m)[n]];
    forall i | 0 <= i < m ensures Load(w[..n], before, i) >= least {
      LightestIsLightest(Loads(w[..n], before, m), i);
    }
    TotalAtLeast(w[..n], before, m, least);
    LoadsAddUp(w[..n], before, m);
    TotalAtMost(w, rival, m, cap);
    LoadsAddUp(w, rival, m);
    JobWithinLoad(w, rival, n);
  }

  lemma PrefixStaysBelow(w: seq<nat>, m: nat, rival: seq<nat>, cap: nat)
    requires |w| > 0 && Within(w, rival, m, cap)
    ensures Within(w[..|w| - 1], rival[..|w| - 1], m, cap)
  {
    var before, there := w[..|w| - 1], rival[..|w| - 1];
    forall i | 0 <= i < m ensures Load(before, there, i) <= cap {
      assert Load(w, rival, i) <= cap;
    }
  }

  lemma AnyJob(m: nat, before: nat, p: nat, cap: nat)
    requires m > 0 && m * before + p <= m * cap && p <= cap
    ensures m * (before + p) <= (2 * m - 1) * cap
  {
    assert m * (before + p) == (m * before + p) + (m - 1) * p;
    assert (m - 1) * p <= (m - 1) * cap;
  }

  /** `load` is at most 4/3 - 1/(3m) times `cap`, in whole numbers. */
  ghost predicate WithinGraham(load: nat, m: nat, cap: nat) {
    3 * m * load <= (4 * m - 1) * cap
  }

  lemma LightJob(m: nat, before: nat, p: nat, cap: nat)
    requires m > 0 && m * before + p <= m * cap && 3 * p <= cap
    ensures WithinGraham(before + p, m, cap)
  {
    var slack := cap - 3 * p;
    assert (m - 1) * slack >= 0;
    assert (m - 1) * slack == m * slack - slack;
    assert m * slack == m * cap - 3 * (m * p);
    assert 3 * m * (before + p) == 3 * (m * before) + 3 * (m * p);
    assert (4 * m - 1) * cap == 4 * (m * cap) - cap;
  }

  lemma HeavyJob(m: nat, load: nat, cap: nat)
    requires m > 0 && load <= cap
    ensures WithinGraham(load, m, cap)
  {
    var slack := cap - load;
    assert (4 * m - 1) * cap == 3 * m * cap + (m - 1) * cap;
    assert 3 * m * cap == 3 * m * load + 3 * m * slack;
    assert m * slack >= 0 && (m - 1) * cap >= 0;
  }

  /** In any order at all, no greedy machine exceeds 2 - 1/m times the rival's heaviest. */
  lemma {:induction false} AnyOrderBound(w: seq<nat>, m: nat, rival: seq<nat>, cap: nat, i: nat)
    requires m > 0 && i < m && Within(w, rival, m, cap)
    ensures m * Load(w, Greedy(w, m), i) <= (2 * m - 1) * cap
  {
    if |w| > 0 {
      var n := |w| - 1;
      PrefixStaysBelow(w, m, rival, cap);
      AnyOrderBound(w[..n], m, rival[..n], cap, i);
      LightestIsBelowAverage(w, m, rival, cap);
      assert Greedy(w, m)[..n] == Greedy(w[..n], m);
      if Greedy(w, m)[n] == i {
        var before := Load(w[..n], Greedy(w[..n], m), i);
        AnyJob(m, before, w[n], cap);
      }
    }
  }

  ghost predicate HeaviestFirst(w: seq<nat>) {
    forall j, k :: 0 <= j <= k < |w| ==> w[j] >= w[k]
  }

  /**
   With a last job `p` heavier than a third of the cap, a job too heavy to share a machine with `p`
   counts double. A machine within the cap then holds at most two points.
   */
  function Points(w: seq<nat>, cap: nat, p: nat): (v: seq<nat>)
    ensures |v| == |w|
    ensures forall k :: 0 <= k < |w| ==> v[k] == if w[k] + p > cap then 2 else 1
  {
    seq(|w|, k requires 0 <= k < |w| => if w[k] + p > cap then 2 else 1)
  }

  lemma {:induction false} PointsWeigh(w: seq<nat>, assign: seq<nat>, cap: nat, p: nat, i: nat)
    requires |assign| == |w| && p <= cap < 3 * p
    requires forall k :: 0 <= k < |w| ==> w[k] >= p
    ensures var points, load := Load(Points(w, cap, p), assign, i), Load(w, assign, i);
            && (points == 0 ==> load == 0)
            && (points == 1 ==> p <= load && load + p <= cap)
            && (points == 2 ==> load >= 2 * p || load + p > cap)
            && (points >= 3 ==> load > cap)
  {
    if |w| > 0 {
      var n := |w| - 1;
      PointsWeigh(w[..n], assign[..n], cap, p, i);
      assert Points(w, cap, p)[..n] == Points(w[..n], cap, p);
    }
  }

  /** A heavy last job never forces the greedy split above the rival's cap. */
  lemma HeavyLastJobFits(w: seq<nat>, m: nat, rival: seq<nat>, cap: nat)
    requires m > 0 && |w| > 0 && HeaviestFirst(w) && Within(w, rival, m, cap)
    requires 3 * w[|w| - 1] > cap
    ensures var n := |w| - 1;
            Load(w[..n], Greedy(w[..n], m), Greedy(w, m)[n]) + w[n] <= cap
  {
    var n := |w| - 1;
    var p, before := w[n], Greedy(w[..n], m);
    var least := Load(w[..n], before, Greedy(w, m)[n]);
    if least + p > cap {
      JobWithinLoad(w, rival, n);
      var v := Points(w, cap, p);
      assert v[..n] == Points(w[..n], cap, p);
      forall i | 0 <= i < m ensures Load(v, rival, i) <= 2 {
        PointsWeigh(w, rival, cap, p, i);
      }
      TotalAtMost(v, rival, m, 2);
      LoadsAddUp(v, rival, m);
      forall i | 0 <= i < m ensures Load(v[..n], before, i) >= 2 {
        PointsWeigh(w[..n], before, cap, p, i);
        LightestIsLightest(Loads(w[..n], before, m), i);
      }
      TotalAtLeast(v[..n], before, m, 2);
      LoadsAddUp(v[..n], before, m);
      assert false;
    }
  }

  lemma LastJobBound(w: seq<nat>, m: nat, rival: seq<nat>, cap: nat)
    requires m > 0 && |w| > 0 && HeaviestFirst(w) && Within(w, rival, m, cap)
    ensures var n := |w| - 1;
            WithinGraham(Load(w[..n], Greedy(w[..n], m), Greedy(w, m)[n]) + w[n], m, cap)
  {
    var n := |w| - 1;
    var before := Load(w[..n], Greedy(w[..n], m), Greedy(w, m)[n]);
    if 3 * w[n] <= cap {
      LightestIsBelowAverage(w, m, rival, cap);
      LightJob(m, before, w[n], cap);
    } else {
      HeavyLastJobFits(w, m, rival, cap);
      HeavyJob(m, before + w[n], cap);
    }
  }

  /** Heaviest first, no greedy machine exceeds 4/3 - 1/(3m) times the rival's heaviest. */
  lemma {:induction false} HeaviestFirstBound(w: seq<nat>, m: nat, rival: seq<nat>, cap: nat, i: nat)
    requires m > 0 && i < m && HeaviestFirst(w) && Within(w, rival, m, cap)
    ensures WithinGraham(Load(w, Greedy(w, m), i), m, cap)
  {
    if |w| > 0 {
      var n := |w| - 1;
      PrefixStaysBelow(w, m, rival, cap);
      HeaviestFirstBound(w[..n], m, rival[..n], cap, i);
      LastJobBound(w, m, rival, cap);
      assert Greedy(w, m)[..n] == Greedy(w[..n], m);
    } else {
      HeavyJob(m, 0, cap);
    }
  }

  /** The headline: greedy heaviest-first against the best of all assignments. */
  lemma GrahamBound(w: seq<nat>, m: nat, rival: seq<nat>)
    requires m > 0 && HeaviestFirst(w) && IsAssignment(rival, |w|, m)
    ensures 3 * m * Makespan(w, Greedy(w, m), m) <= (4 * m - 1) * Makespan(w, rival, m)
  {
    var i: nat :| i < m && Load(w, Greedy(w, m), i) == Makespan(w, Greedy(w, m), m);
    HeaviestFirstBound(w, m, rival, Makespan(w, rival, m), i);
  }

  lemma TwoMachineStep(w: seq<nat>, x: nat, after: seq<nat>, first: nat, second: nat)
    requires after == w + [x] && Load(w, Greedy(w, 2), 0) == first && Load(w, Greedy(w, 2), 1) == second
    ensures Load(after, Greedy(after, 2), 0) == (if second < first then first else first + x)
    ensures Load(after, Greedy(after, 2), 1) == (if second < first then second + x else second)
  {
    var assign, loads := Greedy(w, 2), Loads(w, Greedy(w, 2), 2);
    assert loads == [first, second];
    LightestIsLightest(loads, 0);
    LightestIsLightest(loads, 1);
    assert after[..|w|] == w && Greedy(after, 2)[..|w|] == assign;
  }

  lemma FiveJobs(w: seq<nat>)
    requires w == [3, 3, 2, 2, 2]
    ensures Load(w, Greedy(w, 2), 0) == 7 && Load(w, Greedy(w, 2), 1) == 5
  {
    var w0, w1, w2, w3, w4 := w[..0], w[..1], w[..2], w[..3], w[..4];
    TwoMachineStep(w0, w[0], w1, 0, 0);
    TwoMachineStep(w1, w[1], w2, 3, 0);
    TwoMachineStep(w2, w[2], w3, 3, 3);
    TwoMachineStep(w3, w[3], w4, 5, 3);
    TwoMachineStep(w4, w[4], w, 5, 5);
  }

  /** The factor cannot be lowered: for two machines it is met with equality. */
  lemma GrahamBoundIsTight()
    ensures exists w: seq<nat>, rival: seq<nat> ::
              && HeaviestFirst(w) && IsAssignment(rival, |w|, 2) && Makespan(w, rival, 2) > 0
              && 3 * 2 * Makespan(w, Greedy(w, 2), 2) == (4 * 2 - 1) * Makespan(w, rival, 2)
  {
    var w, rival := HardestCase();
    MakespanOfTwo(w, Greedy(w, 2));
    MakespanOfTwo(w, rival);
  }

  lemma MakespanOfTwo(w: seq<nat>, assign: seq<nat>)
    requires |assign| == |w| && Load(w, assign, 0) >= Load(w, assign, 1)
    ensures Makespan(w, assign, 2) == Load(w, assign, 0)
  {
    var heaviest := Makespan(w, assign, 2);
    var i: nat :| i < 2 && Load(w, assign, i) == heaviest;
  }

  lemma HardestCase() returns (w: seq<nat>, rival: seq<nat>)
    ensures HeaviestFirst(w) && IsAssignment(rival, |w|, 2)
    ensures Load(w, Greedy(w, 2), 0) == 7 && Load(w, Greedy(w, 2), 1) == 5
    ensures Load(w, rival, 0) == Load(w, rival, 1) == 6
  {
    w, rival := [3, 3, 2, 2, 2], [0, 0, 1, 1, 1];
    FiveJobs(w);
    RivalLoads();
  }

  lemma RivalLoads()
    ensures Load([3, 3, 2, 2, 2], [0, 0, 1, 1, 1], 0) == 6
    ensures Load([3, 3, 2, 2, 2], [0, 0, 1, 1, 1], 1) == 6
  {
    var w, rival := [3, 3, 2, 2, 2], [0, 0, 1, 1, 1];
    assert w[..4] == [3, 3, 2, 2] && rival[..4] == [0, 0, 1, 1];
    assert [3, 3, 2, 2][..3] == [3, 3, 2] && [0, 0, 1, 1][..3] == [0, 0, 1];
    assert [3, 3, 2][..2] == [3, 3] && [0, 0, 1][..2] == [0, 0];
    assert [3, 3][..1] == [3] && [0, 0][..1] == [0];
  }
}
