// A job whose inner loops last exactly their deadlines: whether the recomputed
// count (src/limits.rs) and the fixed stopping count (src/stop.rs) stay in
// step, whether every flashblock is given the whole interval, and what becomes
// of the gas limit.
module Counts {
  import opened Prelude
  import opened Platform
  import opened FlashblockLimits
  import opened Schedule

  // --- On-time schedules --------------------------------------------------

  // Every inner loop lasts exactly its deadline and nothing else takes time.
  ghost predicate OnTime(p: Plan, entries: seq<Duration>)
    requires p.Valid()
  {
    && 0 < |entries| && entries[0] == 0
    && forall k :: 0 <= k < |entries| - 1 ==> entries[k] + p.NextDeadline(entries[k]) == entries[k + 1]
  }

  lemma WholeCells(left: nat, w: nat)
    requires 0 < w
    ensures Covers(left, w, left * w)
    ensures 2 <= w && 0 < left ==> Covers(left, w, left * w - 1)
  {
    Distribute(left, 1, w);
    if 0 < left {
      ProductMonotone(1, left, w);
    }
  }

  // On-time schedules are all prefixes of one: when its flashblock k starts.
  function OnTimeEntry(p: Plan, k: nat): Duration
    requires p.Valid()
  {
    if k == 0 then 0
    else
      var e := OnTimeEntry(p, k - 1);
      e + p.NextDeadline(e)
  }

  function OnTimeRun(p: Plan, k: nat): seq<Duration>
    requires p.Valid()
  {
    seq(k + 1, i requires 0 <= i <= k => OnTimeEntry(p, i))
  }

  lemma {:induction false} OnTimeUnique(p: Plan, entries: seq<Duration>, k: nat)
    requires p.Valid() && OnTime(p, entries) && k < |entries|
    ensures entries[k] == OnTimeEntry(p, k)
  {
    if 0 < k {
      OnTimeUnique(p, entries, k - 1);
      assert entries[k - 1] + p.NextDeadline(entries[k - 1]) == entries[k];
    }
  }

  // Time left at `e`, negative once the deadline has passed.
  function TimeLeft(p: Plan, e: Duration): int
    requires p.Valid()
  {
    p.Deadline() - e
  }

  function Cells(p: Plan, left: nat): nat {
    left * p.IntervalMs() * MILLISECOND
  }

  function Fraction(p: Plan): nat {
    p.interval % MILLISECOND
  }

  // The time left is strictly within a millisecond of `left` cells.
  ghost predicate NearGrid(p: Plan, e: Duration, left: nat)
    requires p.Valid()
  {
    Cells(p, left) - MILLISECOND < TimeLeft(p, e) < Cells(p, left) + MILLISECOND
  }

  lemma NextCells(p: Plan, left: nat)
    ensures Cells(p, left + 1) == Cells(p, left) + p.IntervalMs() * MILLISECOND
  {
    Distribute(left, 1, p.IntervalMs());
  }

  lemma MillisLeft(p: Plan, e: Duration, ms: nat)
    requires p.Valid() && ms * MILLISECOND <= TimeLeft(p, e) < ms * MILLISECOND + MILLISECOND
    ensures p.RemainingMs(e) == ms
  {
  }

  // One on-time step near the grid, for intervals of two milliseconds and
  // more: rounding down may shorten a cell by one millisecond, but never skips
  // a cell, and what is lost in one step comes back in the next.
  lemma NearStep(p: Plan, e: Duration, left: nat)
    requires p.Valid() && p.DeadlineMs() <= p.BlockMs() && 2 <= p.IntervalMs()
    requires 0 < left && NearGrid(p, e, left)
    ensures p.Target(e) == left && 0 < p.RemainingMs(e)
    ensures p.NextDeadline(e) == p.interval <==> Cells(p, left) <= TimeLeft(p, e)
    ensures NearGrid(p, e + p.NextDeadline(e), left - 1)
  {
    var w := p.IntervalMs();
    var full := Cells(p, left) <= TimeLeft(p, e);
    var c := if full then left * w else left * w - 1;
    WholeCells(left, w);
    NextCells(p, left - 1);
    MillisLeft(p, e, c);
    RemainingShrinks(p, 0, e);
    StepExact(p, e);
    CoverUnique(p.Target(e), left, w, c);
    Distribute(left, 1, w);
  }

  // The first step leaves n - 1 cells, the fraction of the deadline, and less
  // the fraction of the interval if it was a full one.
  function FirstFull(p: Plan): nat
    requires p.Valid()
  {
    if p.DeadlineMs() == p.Slots() * p.IntervalMs() then 1 else 0
  }

  lemma {:induction false} FirstStep(p: Plan)
    requires p.Valid() && 0 < p.DeadlineMs() <= p.BlockMs()
    ensures p.Target(0) == p.Slots() && 0 < p.Slots()
    ensures TimeLeft(p, OnTimeEntry(p, 1))
            == Cells(p, p.Slots() - 1) + p.Deadline() % MILLISECOND - FirstFull(p) * Fraction(p)
  {
    var n, w := p.Slots(), p.IntervalMs();
    StopTargetCovers(p.Deadline(), p.interval);
    StepExact(p, 0);
    CoverUnique(p.Target(0), n, w, p.DeadlineMs());
    NextCells(p, n - 1);
    Distribute(n, 1, w);
    assert OnTimeEntry(p, 1) == 0 + p.NextDeadline(OnTimeEntry(p, 0));
    assert p.interval == w * MILLISECOND + Fraction(p);
  }

  lemma {:induction false} OnTimeNear(p: Plan, k: nat)
    requires p.Valid() && p.DeadlineMs() <= p.BlockMs() && 2 <= p.IntervalMs()
    requires 1 <= k <= p.Slots()
    ensures NearGrid(p, OnTimeEntry(p, k), p.Slots() - k)
  {
    StopTargetCovers(p.Deadline(), p.interval);
    if k == 1 {
      FirstStep(p);
    } else {
      OnTimeNear(p, k - 1);
      NearStep(p, OnTimeEntry(p, k - 1), p.Slots() - (k - 1));
    }
  }

  // With one-millisecond cells, or no block time at all, every step takes the
  // interval, fraction and all.
  lemma {:induction false} UnitEntry(p: Plan, k: nat)
    requires p.Valid() && (p.IntervalMs() == 1 || p.BlockMs() == 0)
    ensures OnTimeEntry(p, k) == k * p.interval
    ensures p.NextDeadline(OnTimeEntry(p, k)) == p.interval
  {
    StepExact(p, OnTimeEntry(p, k));
    if 0 < k {
      UnitEntry(p, k - 1);
      Distribute(k - 1, 1, p.interval);
    }
  }

  lemma {:induction false} UnitTimeLeft(p: Plan, k: nat)
    requires p.Valid() && p.IntervalMs() == 1
    ensures p.Slots() == p.DeadlineMs()
    ensures TimeLeft(p, OnTimeEntry(p, k))
            == (p.Slots() - k) * MILLISECOND + p.Deadline() % MILLISECOND - k * Fraction(p)
  {
    StopTargetCovers(p.Deadline(), p.interval);
    UnitEntry(p, k);
    UnitProduct(p, k);
  }

  lemma UnitProduct(p: Plan, k: nat)
    requires p.IntervalMs() == 1
    ensures k * p.interval == k * MILLISECOND + k * Fraction(p)
  {
    assert p.interval == MILLISECOND + Fraction(p);
  }

  // --- The two counts -----------------------------------------------------

  // The condition under which the two counts keep pace. One-millisecond cells
  // are the exception: there the fractions of the interval add up.
  predicate KeepsPace(p: Plan)
    requires p.Valid()
  {
    && p.DeadlineMs() <= p.BlockMs()
    && (2 <= p.IntervalMs()
        || SaturatingSub(p.Slots(), 1) * (p.interval % MILLISECOND) <= p.Deadline() % MILLISECOND)
  }

  // At `e` the recomputed target is `left`, and time is up when that is zero.
  ghost predicate OnPace(p: Plan, e: Duration, left: nat)
    requires p.Valid()
  {
    p.Target(e) == left && (p.RemainingMs(e) == 0 <==> left == 0)
  }

  lemma NothingLeft(p: Plan, e: Duration)
    requires p.Valid() && p.RemainingMs(e) == 0
    ensures OnPace(p, e, 0) && p.NextDeadline(e) == p.interval
  {
    StepExact(p, e);
  }

  lemma {:induction false} UnitMillis(p: Plan, k: nat)
    requires p.Valid() && KeepsPace(p) && p.IntervalMs() == 1 && k < p.Slots()
    ensures p.RemainingMs(OnTimeEntry(p, k)) == p.Slots() - k
  {
    LostFraction(p, k);
    UnitTimeLeft(p, k);
    MillisLeft(p, OnTimeEntry(p, k), p.Slots() - k);
  }

  lemma LostFraction(p: Plan, k: nat)
    requires p.Valid() && KeepsPace(p) && p.IntervalMs() == 1 && k < p.Slots()
    ensures 0 <= k * Fraction(p) <= p.Deadline() % MILLISECOND
  {
    ProductMonotone(0, k, Fraction(p));
    ProductMonotone(k, SaturatingSub(p.Slots(), 1), Fraction(p));
  }

  lemma {:induction false} UnitPace(p: Plan, k: nat)
    requires p.Valid() && KeepsPace(p) && p.IntervalMs() == 1 && k < p.Slots()
    ensures OnPace(p, OnTimeEntry(p, k), p.Slots() - k)
  {
    var e := OnTimeEntry(p, k);
    UnitMillis(p, k);
    RemainingShrinks(p, 0, e);
    StepExact(p, e);
  }

  // On an on-time schedule that keeps pace the target is the number of
  // flashblocks still to come, all the way to zero and beyond.
  lemma {:induction false} OnTimePace(p: Plan, k: nat)
    requires p.Valid() && KeepsPace(p)
    ensures OnPace(p, OnTimeEntry(p, k), SaturatingSub(p.Slots(), k))
  {
    var n, e := p.Slots(), OnTimeEntry(p, k);
    StopTargetCovers(p.Deadline(), p.interval);
    if n <= k {
      TimeIsUp(p, k);
      NothingLeft(p, e);
    } else if p.IntervalMs() == 1 {
      UnitPace(p, k);
    } else if k == 0 {
      FirstStep(p);
    } else {
      OnTimeNear(p, k);
      NearStep(p, e, n - k);
    }
  }

  lemma NoCellsLeft(p: Plan, e: Duration)
    requires p.Valid() && NearGrid(p, e, 0)
    ensures p.RemainingMs(e) == 0
  {
    assert Cells(p, 0) == 0;
  }

  lemma {:induction false} NoUnitLeft(p: Plan)
    requires p.Valid() && p.IntervalMs() == 1
    ensures p.RemainingMs(OnTimeEntry(p, p.Slots())) == 0
  {
    UnitTimeLeft(p, p.Slots());
    ProductMonotone(0, p.Slots(), Fraction(p));
  }

  lemma {:induction false} TimeIsUp(p: Plan, k: nat)
    requires p.Valid() && p.DeadlineMs() <= p.BlockMs() && p.Slots() <= k
    ensures p.RemainingMs(OnTimeEntry(p, k)) == 0
  {
    if p.Slots() < k {
      TimeIsUp(p, k - 1);
      RemainingShrinks(p, OnTimeEntry(p, k - 1), OnTimeEntry(p, k));
    } else if p.IntervalMs() == 1 {
      NoUnitLeft(p);
    } else if k == 0 {
      StopTargetCovers(p.Deadline(), p.interval);
    } else {
      OnTimeNear(p, k);
      NoCellsLeft(p, OnTimeEntry(p, k));
    }
  }

  // Where a plan that does not keep pace falls out of step: a flashblock of
  // the job finds the wrong target, or the job stops with time left.
  lemma FallsOutOfStep(p: Plan) returns (k: nat)
    requires p.Valid() && !KeepsPace(p)
    ensures k <= p.Slots() && 0 < p.Slots()
    ensures p.Target(OnTimeEntry(p, k)) != p.Slots() - k
    ensures k == p.Slots() ==> p.BlockMs() < p.DeadlineMs() && 0 < p.RemainingMs(OnTimeEntry(p, k))
    ensures p.DeadlineMs() <= p.BlockMs() ==> 1 <= k < p.Slots() && p.RemainingMs(OnTimeEntry(p, k)) == 0
  {
    StopTargetCovers(p.Deadline(), p.interval);
    if p.DeadlineMs() <= p.BlockMs() {
      k := p.Slots() - 1;
      UnitTimeLeft(p, k);
      StepExact(p, OnTimeEntry(p, k));
    } else if p.Target(0) != p.Slots() {
      k := 0;
    } else {
      k := 1;
      CappedTwice(p);
    }
  }

  // If the capped time needs as many cells as the deadline, the first
  // flashblock does not leave fewer.
  lemma {:induction false} CappedTwice(p: Plan)
    requires p.Valid() && p.BlockMs() < p.DeadlineMs() && p.Target(0) == p.Slots()
    ensures p.Target(OnTimeEntry(p, 1)) == p.Slots() && 0 < p.RemainingMs(OnTimeEntry(p, 1))
  {
    var b, w, n, e := p.BlockMs(), p.IntervalMs(), p.Slots(), OnTimeEntry(p, 1);
    StopTargetCovers(p.Deadline(), p.interval);
    StepExact(p, 0);
    assert e == 0 + p.NextDeadline(OnTimeEntry(p, 0));
    ElapseMillis(p, 0, b - (n - 1) * w, e);
    StepExact(p, e);
    CoverUnique(p.Target(e), n, w, Min(p.RemainingMs(e), b));
  }

  // The recomputed target drops by one per flashblock from the stopping count.
  ghost predicate TargetsCountDown(p: Plan, entries: seq<Duration>)
    requires p.Valid()
  {
    forall k :: 0 <= k < |entries| && k <= p.Slots() ==> p.Target(entries[k]) == p.Slots() - k
  }

  // On every on-time schedule the recomputed target counts down in step with
  // the stopping count exactly when the deadline is within the block time and
  // the interval lasts two milliseconds or its fractions fit into that of the
  // deadline.
  lemma TargetsCountDownIff(p: Plan)
    requires p.Valid()
    ensures (forall entries :: OnTime(p, entries) ==> TargetsCountDown(p, entries))
            <==> (p.DeadlineMs() <= p.BlockMs()
                  && (2 <= p.IntervalMs()
                      || SaturatingSub(p.Slots(), 1) * (p.interval % MILLISECOND) <= p.Deadline() % MILLISECOND))
  {
    if KeepsPace(p) {
      forall entries, k: nat | OnTime(p, entries) && k < |entries| && k <= p.Slots()
        ensures p.Target(entries[k]) == p.Slots() - k
      {
        OnTimeUnique(p, entries, k);
        OnTimePace(p, k);
      }
    } else {
      var k := FallsOutOfStep(p);
      var entries := OnTimeRun(p, k);
      assert entries[k] == OnTimeEntry(p, k);
      assert OnTime(p, entries) && !TargetsCountDown(p, entries);
    }
  }

  // With intervals of 1.9 ms the recomputed target of a 10 ms job falls behind
  // at the second flashblock.
  lemma FractionalIntervalDrifts(p: Plan)
    requires p.Valid() && p.interval == 1_900_000 && p.Deadline() == 10 * MILLISECOND
    requires p.block.timestamp == p.block.parent.timestamp + 1
    ensures OnTime(p, [0, 1_900_000]) && !TargetsCountDown(p, [0, 1_900_000])
    ensures !KeepsPace(p)
  {
    var entries := [0, 1_900_000];
    assert p.Target(entries[1]) == 8 && p.Slots() == 10;
  }

  // With intervals of 2.5 ms the counts agree, but the second flashblock of a
  // 10 ms job is only given one millisecond.
  lemma {:induction false} FractionalIntervalShortens(p: Plan)
    requires p.Valid() && p.interval == 2_500_000 && p.Deadline() == 10 * MILLISECOND
    requires p.block.timestamp == p.block.parent.timestamp + 1
    ensures KeepsPace(p) && p.NextDeadline(OnTimeEntry(p, 1)) == MILLISECOND
  {
    assert OnTimeEntry(p, 1) == 0 + p.NextDeadline(OnTimeEntry(p, 0)) == p.interval;
  }

  // The stop step breaks after k flashblocks exactly when no whole
  // millisecond is left.
  ghost predicate StopsWithTime(p: Plan, entries: seq<Duration>)
    requires p.Valid()
  {
    forall k :: 1 <= k < |entries| ==>
                  (StopsAfter(FlashblockNumber(k + 1), p.Deadline(), p.interval) <==> p.RemainingMs(entries[k]) == 0)
  }

  // --- Full intervals -----------------------------------------------------

  // Within the block time: the fractions of the intervals before the last
  // flashblock fit into that of the deadline; one-millisecond cells are never
  // shortened.
  predicate FractionsFit(p: Plan)
    requires p.Valid()
  {
    || p.IntervalMs() == 1
    || (SaturatingSub(p.Slots(), if p.DeadlineMs() % p.IntervalMs() == 0 then 1 else 2) * (p.interval % MILLISECOND)
        <= p.Deadline() % MILLISECOND)
  }

  lemma FirstFullIff(p: Plan)
    requires p.Valid()
    ensures p.DeadlineMs() % p.IntervalMs() == 0 <==> FirstFull(p) == 1
  {
    var d, w := p.DeadlineMs(), p.IntervalMs();
    DivisionCovers(d, w);
    if d % w != 0 {
      Distribute(d / w, 1, w);
    }
  }

  // After k - 1 full intervals, k of them fractions short of the grid.
  lemma {:induction false} FullSoFar(p: Plan, k: nat)
    requires p.Valid() && p.DeadlineMs() <= p.BlockMs() && 1 <= k <= p.Slots()
    requires forall j :: 1 <= j < k ==> p.NextDeadline(OnTimeEntry(p, j)) == p.interval
    ensures TimeLeft(p, OnTimeEntry(p, k))
            == Cells(p, p.Slots() - k) + p.Deadline() % MILLISECOND - (k - 1 + FirstFull(p)) * Fraction(p)
  {
    StopTargetCovers(p.Deadline(), p.interval);
    if k == 1 {
      FirstStep(p);
    } else {
      FullSoFar(p, k - 1);
      NextCells(p, p.Slots() - k);
      assert p.interval == p.IntervalMs() * MILLISECOND + Fraction(p);
      Distribute(k - 2 + FirstFull(p), 1, Fraction(p));
    }
  }

  lemma {:induction false} FullAt(p: Plan, k: nat)
    requires p.Valid() && p.DeadlineMs() <= p.BlockMs() && FractionsFit(p) && 1 <= k
    ensures p.NextDeadline(OnTimeEntry(p, k)) == p.interval
  {
    var n, e := p.Slots(), OnTimeEntry(p, k);
    if p.IntervalMs() == 1 {
      StepExact(p, e);
    } else if n <= k {
      TimeIsUp(p, k);
      NothingLeft(p, e);
    } else {
      forall j | 1 <= j < k
        ensures p.NextDeadline(OnTimeEntry(p, j)) == p.interval
      {
        FullAt(p, j);
      }
      FullSoFar(p, k);
      FirstFullIff(p);
      ProductMonotone(k - 1 + FirstFull(p), SaturatingSub(n, 2 - FirstFull(p)), Fraction(p));
      OnTimeNear(p, k);
      NearStep(p, e, n - k);
    }
  }

  ghost predicate FullAfterFirst(p: Plan, entries: seq<Duration>)
    requires p.Valid()
  {
    forall k :: 1 <= k < |entries| ==> p.NextDeadline(entries[k]) == p.interval
  }

  // If all flashblocks before the last were given the whole interval, the last
  // one is exactly if the fractions fit.
  lemma {:induction false} LastCellFull(p: Plan)
    requires p.Valid() && p.DeadlineMs() <= p.BlockMs() && 2 <= p.IntervalMs() && 2 <= p.Slots()
    requires forall j :: 1 <= j < p.Slots() - 1 ==> p.NextDeadline(OnTimeEntry(p, j)) == p.interval
    ensures p.NextDeadline(OnTimeEntry(p, p.Slots() - 1)) == p.interval
            <==> (p.Slots() - 2 + FirstFull(p)) * Fraction(p) <= p.Deadline() % MILLISECOND
  {
    var n := p.Slots();
    FullSoFar(p, n - 1);
    OnTimeNear(p, n - 1);
    NearStep(p, OnTimeEntry(p, n - 1), 1);
  }

  lemma FractionsLeft(p: Plan)
    requires p.Valid() && !FractionsFit(p)
    ensures 2 <= p.IntervalMs() && 2 <= p.Slots()
    ensures (p.Slots() - 2 + FirstFull(p)) * Fraction(p) > p.Deadline() % MILLISECOND
  {
    FirstFullIff(p);
    assert SaturatingSub(p.Slots(), 2 - FirstFull(p)) != 0;
  }

  // Otherwise some flashblock after the first is given less.
  lemma ShortenedCell(p: Plan) returns (k: nat)
    requires p.Valid() && p.DeadlineMs() <= p.BlockMs() && !FractionsFit(p)
    ensures 1 <= k && p.NextDeadline(OnTimeEntry(p, k)) != p.interval
  {
    FractionsLeft(p);
    if j :| 1 <= j < p.Slots() - 1 && p.NextDeadline(OnTimeEntry(p, j)) != p.interval {
      k := j;
    } else {
      k := p.Slots() - 1;
      LastCellFull(p);
    }
  }

  // --- Gas over a job -----------------------------------------------------

  // On an on-time job that keeps pace the target shrinks while the number
  // grows, so for any gas limit flashblock k + 1 of n stays within it exactly
  // when it belongs to the first half, or the limit is the largest there is,
  // or the shares it is ahead by fit into the remainder of the division. With
  // at least n * n gas no such remainder is large enough.
  lemma {:induction false} OnTimeGasWithinLimitIff(p: Plan, k: nat)
    requires p.Valid() && KeepsPace(p) && k < p.Slots()
    ensures var g, n, left := p.enclosing.gasLimit, p.Slots(), p.Slots() - k;
            var limits := Create(FlashblockNumber(k + 1), p.block, OnTimeEntry(p, k), p.enclosing, p.interval);
            var within := limits.gasLimit <= g;
            && (within <==> 2 * (k + 1) <= n + 1 || g == U64_MAX || (2 * k + 1 - n) * (g / left) <= g % left)
            && (n * n <= g < U64_MAX ==> (within <==> 2 * (k + 1) <= n + 1))
  {
    var g, n, t := p.enclosing.gasLimit, p.Slots(), p.Slots() - k;
    OnTimePace(p, k);
    GasWithinLimitIff(g, t, FlashblockNumber(k + 1));
    if t < k + 1 && n * n <= g {
      SquareBound(g, t, n, k + 1 - t);
    }
  }

  // The last flashblock of an on-time job of n is allowed n times the limit.
  lemma {:induction false} LastFlashblockAllowance(p: Plan)
    requires p.Valid() && KeepsPace(p) && 0 < p.Slots()
    ensures var n := p.Slots();
            Create(FlashblockNumber(n), p.block, OnTimeEntry(p, n - 1), p.enclosing, p.interval).gasLimit
            == SaturatingMul(p.enclosing.gasLimit, n)
  {
    var n := p.Slots();
    OnTimePace(p, n - 1);
    AllowanceOfOne(p.enclosing.gasLimit, FlashblockNumber(n));
  }

  lemma AllowanceOfOne(gasLimit: u64, number: FlashblockNumber)
    ensures GasAllowance(gasLimit, 1, number) == SaturatingMul(gasLimit, number.current)
  {
    assert gasLimit / 1 == gasLimit;
  }

  lemma SquareBound(g: nat, t: nat, n: nat, ahead: nat)
    requires 1 <= t <= n && n * n <= g && 1 <= ahead
    ensures g % t < ahead * (g / t)
  {
    ProductMonotone(t, n, n);
    ProductMonotone(t, n, t);
    QuotientBound(g, t, t);
    ProductMonotone(1, ahead, g / t);
  }
}
