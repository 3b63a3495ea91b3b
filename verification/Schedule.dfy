// Timing of a whole payload job: the limits are recomputed from the time left
// on every flashblock, and the question is whether jitter can bring a
// flashblock forward.
module Schedule {
  import opened Prelude
  import opened Platform
  import opened FlashblockLimits

  // What stays fixed during a job.
  datatype Plan = Plan(block: BlockContext, enclosing: Limits, interval: Duration) {
    predicate Valid() {
      CanCreate(block, enclosing, interval)
    }

    function Deadline(): Duration
      requires Valid()
    {
      enclosing.deadline.value
    }

    // Number of flashblocks after which the job stops.
    function Slots(): nat
      requires Valid()
    {
      StopTarget(Deadline(), interval)
    }

    // Whole milliseconds left, before capping by the block time.
    function RemainingMs(elapsed: Duration): nat
      requires Valid()
    {
      AsMillis(SaturatingSub(Deadline(), elapsed))
    }

    function DeadlineMs(): nat
      requires Valid()
    {
      AsMillis(Deadline())
    }

    function BlockMs(): nat {
      AsMillis(BlockTime(block))
    }

    function IntervalMs(): nat {
      AsMillis(interval)
    }

    function Target(elapsed: Duration): nat
      requires Valid()
    {
      Partition(block, elapsed, enclosing, interval).0
    }

    function NextDeadline(elapsed: Duration): Duration
      requires Valid()
    {
      Partition(block, elapsed, enclosing, interval).1
    }

    // An interval without a sub-millisecond part.
    predicate WholeMillis() {
      interval % MILLISECOND == 0
    }
  }

  // entries[k] is the time at which the k-th flashblock (from 0) starts being
  // built; each inner loop lasts at least the deadline it was given.
  ghost predicate Jittered(p: Plan, entries: seq<Duration>)
    requires p.Valid()
  {
    forall k :: 0 <= k < |entries| - 1 ==> entries[k] + p.NextDeadline(entries[k]) <= entries[k + 1]
  }

  // After k flashblocks at most (n - k) intervals are left.
  ghost predicate NeverEarly(p: Plan, entries: seq<Duration>)
    requires p.Valid()
  {
    forall k :: 0 <= k < |entries| && k <= p.Slots() ==>
                  p.RemainingMs(entries[k]) <= (p.Slots() - k) * p.IntervalMs()
  }

  // --- One step, in whole milliseconds ------------------------------------

  lemma RemainingShrinks(p: Plan, e: Duration, e': Duration)
    requires p.Valid() && e <= e'
    ensures p.RemainingMs(e') <= p.RemainingMs(e) <= p.DeadlineMs()
  {
  }

  lemma CappedMs(p: Plan, e: Duration)
    requires p.Valid()
    ensures AsMillis(Min(SaturatingSub(p.Deadline(), e), BlockTime(p.block))) == Min(p.RemainingMs(e), p.BlockMs())
  {
    var r, b := SaturatingSub(p.Deadline(), e), BlockTime(p.block);
    if r <= b {
      MillisMonotone(r, b);
    } else {
      MillisMonotone(b, r);
    }
  }

  // The target covers the capped time, and the deadline is the leftmost cell:
  // the interval if that cell is a full one, its whole milliseconds if not.
  lemma StepExact(p: Plan, e: Duration)
    requires p.Valid()
    ensures var c, w := Min(p.RemainingMs(e), p.BlockMs()), p.IntervalMs();
            && Covers(p.Target(e), w, c)
            && p.NextDeadline(e) == (if c == p.Target(e) * w then p.interval
                                     else (c - (p.Target(e) - 1) * w) * MILLISECOND)
  {
    var c, w := Min(p.RemainingMs(e), p.BlockMs()), p.IntervalMs();
    CappedMs(p, e);
    PartitionOnGrid(BlockTime(p.block), SaturatingSub(p.Deadline(), e), p.interval);
    DivisionCovers(c, w);
    Distribute(c / w, 1, w);
    if c % w == 0 {
      CoverUnique(p.Target(e), c / w, w, c);
    } else {
      CoverUnique(p.Target(e), c / w + 1, w, c);
    }
  }

  // For any interval the deadline reaches at least the end of the leftmost cell.
  lemma StepReachesGrid(p: Plan, e: Duration)
    requires p.Valid()
    ensures var c := Min(p.RemainingMs(e), p.BlockMs());
            && Covers(p.Target(e), p.IntervalMs(), c)
            && (c == 0 ==> p.NextDeadline(e) >= p.IntervalMs() * MILLISECOND)
            && (0 < c ==> p.NextDeadline(e) >= (c - (p.Target(e) - 1) * p.IntervalMs()) * MILLISECOND)
  {
    StepExact(p, e);
    Distribute(p.Target(e), 1, p.IntervalMs());
  }

  // Letting f whole milliseconds pass takes f milliseconds off what is left,
  // whatever fraction of a millisecond was lost to truncation.
  lemma ElapseMillis(p: Plan, e: Duration, f: nat, e': Duration)
    requires p.Valid() && e + f * MILLISECOND <= e'
    ensures p.RemainingMs(e') <= SaturatingSub(p.RemainingMs(e), f)
    ensures e' == e + f * MILLISECOND ==> p.RemainingMs(e') == SaturatingSub(p.RemainingMs(e), f)
  {
  }

  // --- Never early --------------------------------------------------------

  // Steps taken while more than the block time is left, each as long as the
  // leftover of the block time on the grid.
  function CappedSteps(p: Plan): nat
    requires p.Valid() && p.BlockMs() < p.DeadlineMs() && 0 < p.BlockMs() % p.IntervalMs()
  {
    var g := p.BlockMs() % p.IntervalMs();
    (p.DeadlineMs() - p.BlockMs() + g - 1) / g
  }

  // The condition on a plan under which flashblocks keep to the grid: the
  // deadline is within the block time, or the block time is on the grid, or
  // the short steps taken while the block time is the cap bring the job to
  // its grid in time.
  predicate KeepsToGrid(p: Plan)
    requires p.Valid()
  {
    || p.DeadlineMs() <= p.BlockMs()
    || p.BlockMs() % p.IntervalMs() == 0
    || (var m := CappedSteps(p);
        p.DeadlineMs() - (p.Slots() - m) * p.IntervalMs() <= m * (p.BlockMs() % p.IntervalMs()))
  }

  // While the block time is the cap, every step takes its leftover.
  lemma CappedStep(p: Plan, e: Duration)
    requires p.Valid()
    requires p.BlockMs() <= p.RemainingMs(e) && 0 < p.BlockMs() % p.IntervalMs()
    ensures p.NextDeadline(e) == (p.BlockMs() % p.IntervalMs()) * MILLISECOND
  {
    CappedMs(p, e);
  }

  // What one inner loop takes off the whole milliseconds left.
  lemma StepShortens(p: Plan, e: Duration, e': Duration)
    requires p.Valid() && e + p.NextDeadline(e) <= e'
    ensures var c := Min(p.RemainingMs(e), p.BlockMs());
            && Covers(p.Target(e), p.IntervalMs(), c)
            && (c == 0 ==> p.RemainingMs(e') <= SaturatingSub(p.RemainingMs(e), p.IntervalMs()))
            && (0 < c ==> p.RemainingMs(e') <= p.RemainingMs(e) - (c - (p.Target(e) - 1) * p.IntervalMs()))
  {
    var c := Min(p.RemainingMs(e), p.BlockMs());
    StepReachesGrid(p, e);
    var x := (p.Target(e) - 1) * p.IntervalMs();
    if c == 0 {
      ElapseMillis(p, e, p.IntervalMs(), e');
    } else {
      ProductMonotone(0, p.Target(e) - 1, p.IntervalMs());
      assert p.NextDeadline(e) >= (c - x) * MILLISECOND;
      ElapseMillis(p, e, c - x, e');
    }
  }

  lemma GridStep(p: Plan, e: Duration, e': Duration, left: nat)
    requires p.Valid() && 0 < left
    requires e + p.NextDeadline(e) <= e'
    requires p.RemainingMs(e) <= left * p.IntervalMs()
    requires p.RemainingMs(e) <= p.BlockMs() || p.BlockMs() % p.IntervalMs() == 0
    ensures p.RemainingMs(e') <= (left - 1) * p.IntervalMs()
  {
    RemainingShrinks(p, e, e');
    StepShortens(p, e, e');
    GridArithmetic(p.RemainingMs(e), p.BlockMs(), p.IntervalMs(), p.Target(e), left, p.RemainingMs(e'));
  }

  lemma GridArithmetic(r: nat, b: nat, w: nat, t: nat, left: nat, r': nat)
    requires 0 < w && 0 < left && r <= left * w && Covers(t, w, Min(r, b))
    requires r <= b || b % w == 0
    requires r' <= r
    requires Min(r, b) == 0 ==> r' <= SaturatingSub(r, w)
    requires 0 < Min(r, b) ==> r' <= r - (Min(r, b) - (t - 1) * w)
    ensures r' <= (left - 1) * w
  {
    Distribute(left, 1, w);
    ProductMonotone(0, left - 1, w);
    if (left - 1) * w < r && 0 < b {
      if r <= b {
        CoverUnique(t, left, w, r);
      } else {
        DivisionCovers(b, w);
        CoverUnique(t, b / w, w, b);
        Distribute(t, 1, w);
      }
    }
  }

  // From m steps back to j steps the grid retreats faster than the run.
  lemma GridRetreats(d: int, n: int, m: nat, j: nat, g: nat, w: nat)
    requires j <= m && g <= w && d - (n - m) * w <= m * g
    ensures d - (n - j) * w <= j * g
  {
    Distribute(n - m, m - j, w);
    Distribute(m, m - j, g);
    assert (m - j) * g <= (m - j) * w;
  }

  // The leftover of the block time is no longer than the block time, and there
  // are at least j capped steps as long as more than j - 1 leftovers are in excess.
  lemma CappedStepsBound(p: Plan, j: nat)
    requires p.Valid() && p.BlockMs() < p.DeadlineMs() && 0 < p.BlockMs() % p.IntervalMs()
    ensures var g := p.BlockMs() % p.IntervalMs();
            && g <= p.BlockMs() && 0 < CappedSteps(p)
            && (j * g < p.DeadlineMs() - p.BlockMs() <==> j < CappedSteps(p))
  {
    var x, g, m := p.DeadlineMs() - p.BlockMs(), p.BlockMs() % p.IntervalMs(), CappedSteps(p);
    DivisionCovers(p.BlockMs(), p.IntervalMs());
    ProductMonotone(0, p.BlockMs() / p.IntervalMs(), p.IntervalMs());
    RoundUpCovers(x, g);
    if j < m {
      ProductMonotone(j, m - 1, g);
    } else {
      ProductMonotone(m, j, g);
    }
  }

  // A capped step off the grid: the time used so far is at least k leftovers.
  lemma CappedProgress(p: Plan, e: Duration, e': Duration, k: nat)
    requires p.Valid() && KeepsToGrid(p)
    requires e + p.NextDeadline(e) <= e'
    requires p.BlockMs() < p.RemainingMs(e) && 0 < p.BlockMs() % p.IntervalMs()
    requires p.RemainingMs(e) <= p.DeadlineMs() - k * (p.BlockMs() % p.IntervalMs())
    ensures p.RemainingMs(e') <= p.DeadlineMs() - (k + 1) * (p.BlockMs() % p.IntervalMs())
    ensures p.RemainingMs(e') <= (p.Slots() - (k + 1)) * p.IntervalMs()
  {
    var g := p.BlockMs() % p.IntervalMs();
    CappedStepsBound(p, k);
    CappedStep(p, e);
    ElapseMillis(p, e, g, e');
    Distribute(k, 1, g);
    GridRetreats(p.DeadlineMs(), p.Slots(), CappedSteps(p), k + 1, g, p.IntervalMs());
  }

  ghost predicate OnSchedule(p: Plan, e: Duration, k: nat)
    requires p.Valid()
  {
    && p.RemainingMs(e) <= (p.Slots() - k) * p.IntervalMs()
    && (p.BlockMs() < p.RemainingMs(e) ==>
          p.RemainingMs(e) <= p.DeadlineMs() - k * (p.BlockMs() % p.IntervalMs()))
  }

  lemma {:induction false} StaysOnSchedule(p: Plan, entries: seq<Duration>, k: nat)
    requires p.Valid() && KeepsToGrid(p) && Jittered(p, entries)
    requires k < |entries| && k <= p.Slots()
    ensures OnSchedule(p, entries[k], k)
  {
    if k == 0 {
      StopTargetCovers(p.Deadline(), p.interval);
      RemainingShrinks(p, 0, entries[0]);
    } else {
      StaysOnSchedule(p, entries, k - 1);
      var e, e', g := entries[k - 1], entries[k], p.BlockMs() % p.IntervalMs();
      RemainingShrinks(p, e, e');
      if p.RemainingMs(e) <= p.BlockMs() || g == 0 {
        GridStep(p, e, e', p.Slots() - (k - 1));
        assert g == 0 ==> k * g == 0;
      } else {
        CappedProgress(p, e, e', k - 1);
      }
    }
  }

  // The run with the shortest possible steps.
  function ShortestRun(m: nat, g: nat): seq<Duration> {
    seq(m + 1, j requires 0 <= j <= m => j * g * MILLISECOND)
  }

  lemma ShortestRunRemaining(p: Plan, m: nat, g: nat, j: nat)
    requires p.Valid() && j <= m
    ensures p.RemainingMs(ShortestRun(m, g)[j]) == SaturatingSub(p.DeadlineMs(), j * g)
  {
    ElapseMillis(p, 0, j * g, ShortestRun(m, g)[j]);
  }

  lemma ShortestRunJittered(p: Plan)
    requires p.Valid() && p.BlockMs() < p.DeadlineMs() && 0 < p.BlockMs() % p.IntervalMs()
    ensures Jittered(p, ShortestRun(CappedSteps(p), p.BlockMs() % p.IntervalMs()))
  {
    var g, m := p.BlockMs() % p.IntervalMs(), CappedSteps(p);
    var entries := ShortestRun(m, g);
    forall j | 0 <= j < |entries| - 1
      ensures entries[j] + p.NextDeadline(entries[j]) <= entries[j + 1]
    {
      CappedStepsBound(p, j);
      ShortestRunRemaining(p, m, g, j);
      CappedStep(p, entries[j]);
      Distribute(j, 1, g);
    }
  }

  lemma ShortestRunLeavesGrid(p: Plan) returns (entries: seq<Duration>, k: nat)
    requires p.Valid() && !KeepsToGrid(p)
    ensures Jittered(p, entries) && !NeverEarly(p, entries)
    ensures 0 < k < |entries| && k <= p.Slots() && entries[0] == 0
    ensures p.RemainingMs(entries[k]) > (p.Slots() - k) * p.IntervalMs()
  {
    var g, m := p.BlockMs() % p.IntervalMs(), CappedSteps(p);
    entries := ShortestRun(m, g);
    ShortestRunJittered(p);
    CappedStepsBound(p, 0);
    StopTargetCovers(p.Deadline(), p.interval);
    k := Min(m, p.Slots());
    ShortestRunRemaining(p, m, g, k);
    ShortestRunTooEarly(p, k);
    assert p.RemainingMs(entries[k]) > (p.Slots() - k) * p.IntervalMs();
  }

  lemma ShortestRunTooEarly(p: Plan, k: nat)
    requires p.Valid() && !KeepsToGrid(p) && k == Min(CappedSteps(p), p.Slots())
    ensures SaturatingSub(p.DeadlineMs(), k * (p.BlockMs() % p.IntervalMs())) > (p.Slots() - k) * p.IntervalMs()
  {
    var g, m := p.BlockMs() % p.IntervalMs(), CappedSteps(p);
    if k == m {
      CappedStepsBound(p, m - 1);
      Distribute(m, 1, g);
    } else {
      CappedStepsBound(p, k);
      assert (p.Slots() - k) * p.IntervalMs() == 0;
    }
  }

  // A second of block time, 1.1 seconds to the deadline and an interval of
  // 300 ms: the first of four flashblocks ends after 100 ms, with more than
  // three intervals left.
  lemma FirstFlashblockEarly(p: Plan)
    requires p.Valid() && p.block.timestamp == p.block.parent.timestamp + 1
    requires p.Deadline() == 1_100 * MILLISECOND && p.interval == 300 * MILLISECOND
    ensures Jittered(p, [0, 100 * MILLISECOND]) && !NeverEarly(p, [0, 100 * MILLISECOND])
    ensures !KeepsToGrid(p)
  {
    var entries := [0, 100 * MILLISECOND];
    assert p.Slots() == 4 && p.RemainingMs(entries[1]) == 1_000;
  }

  // Never early: no jitter whatever can bring a flashblock ahead of its slot
  // exactly when the plan keeps to the grid. A deadline within the block time
  // always does.
  lemma NeverEarlyIff(p: Plan)
    requires p.Valid()
    ensures (forall entries :: Jittered(p, entries) ==> NeverEarly(p, entries)) <==> KeepsToGrid(p)
  {
    if KeepsToGrid(p) {
      forall entries | Jittered(p, entries)
        ensures NeverEarly(p, entries)
      {
        forall k | 0 <= k < |entries| && k <= p.Slots()
          ensures p.RemainingMs(entries[k]) <= (p.Slots() - k) * p.IntervalMs()
        {
          StaysOnSchedule(p, entries, k);
        }
      }
    } else {
      var entries, k := ShortestRunLeavesGrid(p);
    }
  }

  // In real time: when at most `left` intervals remain in whole milliseconds,
  // the slot that lies `left` intervals before the deadline is less than one
  // millisecond ahead.
  lemma LessThanOneMillisEarly(p: Plan, e: Duration, left: nat)
    requires p.Valid()
    ensures p.RemainingMs(e) <= left * p.IntervalMs()
            <==> p.Deadline() < e + left * p.IntervalMs() * MILLISECOND + MILLISECOND
    ensures left * p.IntervalMs() * MILLISECOND <= left * p.interval
  {
    assert p.IntervalMs() * MILLISECOND <= p.interval;
    assert left * p.IntervalMs() * MILLISECOND == left * (p.IntervalMs() * MILLISECOND);
  }

  // The recomputed target never grows as time passes.
  lemma TargetShrinks(p: Plan, e: Duration, e': Duration)
    requires p.Valid() && e <= e'
    ensures p.Target(e') <= p.Target(e)
  {
    CappedMs(p, e);
    CappedMs(p, e');
    PartitionOnGrid(BlockTime(p.block), SaturatingSub(p.Deadline(), e), p.interval);
    PartitionOnGrid(BlockTime(p.block), SaturatingSub(p.Deadline(), e'), p.interval);
    RemainingShrinks(p, e, e');
    CoverMonotone(p.Target(e'), Min(p.RemainingMs(e'), p.BlockMs()),
                  p.Target(e), Min(p.RemainingMs(e), p.BlockMs()), p.IntervalMs());
  }
}
