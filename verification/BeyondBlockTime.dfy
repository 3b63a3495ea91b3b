// On-time jobs with any deadline. Beyond the block time the first steps are
// those of the block time, all of one length; what they leave is an on-time job
// within it.
module BeyondBlockTime {
  import opened Prelude
  import opened Platform
  import opened FlashblockLimits
  import opened Schedule
  import opened Counts

  // Steps of one length until less than a millisecond is left.
  function StepsUntilUp(time: Duration, step: Duration): nat
    requires 0 < step
  {
    if time < MILLISECOND then 0 else (time - MILLISECOND) / step + 1
  }

  lemma StepsUntilUpIff(time: Duration, step: Duration, k: nat)
    requires 0 < step
    ensures time - k * step < MILLISECOND <==> StepsUntilUp(time, step) <= k
  {
    if MILLISECOND <= time {
      QuotientBound(time - MILLISECOND, step, k);
    } else {
      ProductMonotone(0, k, step);
    }
  }

  // While the block time is the cap every step has the same length: the
  // interval, or the leftover of the block time.
  function CapLength(p: Plan): (length: Duration)
    requires p.Valid()
    ensures 0 < length
  {
    var leftover := p.BlockMs() % p.IntervalMs();
    if leftover == 0 then p.interval else leftover * MILLISECOND
  }

  // The number of such steps.
  function CapCount(p: Plan): nat
    requires p.Valid() && p.BlockMs() < p.DeadlineMs()
  {
    SaturatingSub(p.Deadline(), p.BlockMs() * MILLISECOND) / CapLength(p) + 1
  }

  // How long they take together.
  function CapTime(p: Plan): Duration
    requires p.Valid() && p.BlockMs() < p.DeadlineMs()
  {
    CapCount(p) * CapLength(p)
  }

  // The plan of the rest of the job, once the block time is no longer the cap.
  function AfterCap(p: Plan): Plan
    requires p.Valid() && p.BlockMs() < p.DeadlineMs()
  {
    p.(enclosing := p.enclosing.(deadline := Some(SaturatingSub(p.Deadline(), CapTime(p)))))
  }

  lemma AfterCapWithinBlock(p: Plan)
    requires p.Valid() && 0 < p.BlockMs() < p.DeadlineMs()
    ensures AfterCap(p).Valid() && AfterCap(p).DeadlineMs() <= p.BlockMs()
  {
    var over, length := p.Deadline() - p.BlockMs() * MILLISECOND, CapLength(p);
    QuotientBound(over, length, CapCount(p));
    MillisMonotone(AfterCap(p).Deadline(), p.Deadline());
  }

  lemma CapBound(p: Plan, k: nat)
    requires p.Valid() && 0 < p.BlockMs() < p.DeadlineMs() && k < CapCount(p)
    ensures k * CapLength(p) <= p.Deadline() - p.BlockMs() * MILLISECOND
  {
    QuotientBound(p.Deadline() - p.BlockMs() * MILLISECOND, CapLength(p), k);
  }

  lemma CapStep(p: Plan, e: Duration)
    requires p.Valid() && 0 < p.BlockMs() < p.DeadlineMs()
    requires e <= p.Deadline() - p.BlockMs() * MILLISECOND
    ensures p.NextDeadline(e) == CapLength(p) && 0 < p.RemainingMs(e)
  {
    assert p.BlockMs() <= p.RemainingMs(e);
    CappedMs(p, e);
  }

  lemma {:induction false} CapEntry(p: Plan, k: nat)
    requires p.Valid() && 0 < p.BlockMs() < p.DeadlineMs() && k <= CapCount(p)
    ensures OnTimeEntry(p, k) == k * CapLength(p)
    ensures k < CapCount(p) ==> p.NextDeadline(OnTimeEntry(p, k)) == CapLength(p)
    ensures k < CapCount(p) ==> 0 < p.RemainingMs(OnTimeEntry(p, k))
  {
    if 0 < k {
      CapEntry(p, k - 1);
      Distribute(k - 1, 1, CapLength(p));
    }
    if k < CapCount(p) {
      CapBound(p, k);
      CapStep(p, k * CapLength(p));
    }
  }

  // q is what is left of p after some time.
  ghost predicate RestOf(p: Plan, q: Plan, lead: Duration) {
    && p.Valid() && q.Valid() && q == p.(enclosing := q.enclosing)
    && q.Deadline() == SaturatingSub(p.Deadline(), lead)
  }

  // The limits only look at the time left, so the rest of the job is an
  // on-time job of its own.
  lemma SameTimeLeft(p: Plan, q: Plan, lead: Duration, e: Duration)
    requires RestOf(p, q, lead)
    ensures q.NextDeadline(e) == p.NextDeadline(lead + e) && q.RemainingMs(e) == p.RemainingMs(lead + e)
  {
  }

  lemma ShiftStep(p: Plan, q: Plan, lead: Duration, i: nat, k: nat)
    requires p.Valid() && q.Valid() && 0 < i && 0 < k
    requires OnTimeEntry(p, i - 1) == lead + OnTimeEntry(q, k - 1)
    requires p.NextDeadline(OnTimeEntry(p, i - 1)) == q.NextDeadline(OnTimeEntry(q, k - 1))
    ensures OnTimeEntry(p, i) == lead + OnTimeEntry(q, k)
  {
  }

  lemma {:induction false} EntryShift(p: Plan, q: Plan, lead: Duration, m: nat, i: nat, k: nat)
    requires RestOf(p, q, lead) && OnTimeEntry(p, m) == lead && i == m + k
    ensures OnTimeEntry(p, i) == lead + OnTimeEntry(q, k)
  {
    if k == 0 {
      assert i == m && OnTimeEntry(q, 0) == 0;
    } else {
      EntryShift(p, q, lead, m, i - 1, k - 1);
      var e, f := OnTimeEntry(p, i - 1), OnTimeEntry(q, k - 1);
      assert e == lead + f;
      SameTimeLeft(p, q, lead, f);
      ShiftStep(p, q, lead, i, k);
    }
  }

  lemma RestAlike(p: Plan, q: Plan, lead: Duration, m: nat, k: nat)
    requires RestOf(p, q, lead) && OnTimeEntry(p, m) == lead
    ensures p.RemainingMs(OnTimeEntry(p, m + k)) == q.RemainingMs(OnTimeEntry(q, k))
    ensures p.NextDeadline(OnTimeEntry(p, m + k)) == q.NextDeadline(OnTimeEntry(q, k))
  {
    EntryShift(p, q, lead, m, m + k, k);
    SameTimeLeft(p, q, lead, OnTimeEntry(q, k));
  }

  lemma {:induction false} EntryAfterCap(p: Plan, k: nat)
    requires p.Valid() && 0 < p.BlockMs() < p.DeadlineMs() && AfterCap(p).Valid()
    ensures p.RemainingMs(OnTimeEntry(p, CapCount(p) + k)) == AfterCap(p).RemainingMs(OnTimeEntry(AfterCap(p), k))
    ensures p.NextDeadline(OnTimeEntry(p, CapCount(p) + k)) == AfterCap(p).NextDeadline(OnTimeEntry(AfterCap(p), k))
  {
    CapEntry(p, CapCount(p));
    RestAlike(p, AfterCap(p), CapTime(p), CapCount(p), k);
  }

  // --- When time is up ----------------------------------------------------

  // The flashblock of an on-time job before which time is up.
  function TimeUpAt(p: Plan): nat
    requires p.Valid()
  {
    if p.IntervalMs() == 1 || p.BlockMs() == 0 then StepsUntilUp(p.Deadline(), p.interval)
    else if p.DeadlineMs() <= p.BlockMs() then p.Slots()
    else
      AfterCapWithinBlock(p);
      CapCount(p) + AfterCap(p).Slots()
  }

  lemma {:induction false} UnitUpIff(p: Plan, k: nat)
    requires p.Valid() && (p.IntervalMs() == 1 || p.BlockMs() == 0)
    ensures p.RemainingMs(OnTimeEntry(p, k)) == 0 <==> StepsUntilUp(p.Deadline(), p.interval) <= k
  {
    UnitEntry(p, k);
    StepsUntilUpIff(p.Deadline(), p.interval, k);
  }

  lemma {:induction false} RestUpIff(q: Plan, k: nat)
    requires q.Valid() && 2 <= q.IntervalMs() && q.DeadlineMs() <= q.BlockMs()
    ensures q.RemainingMs(OnTimeEntry(q, k)) == 0 <==> q.Slots() <= k
  {
    OnTimePace(q, k);
  }

  lemma {:induction false} CappedUpIff(p: Plan, k: nat)
    requires p.Valid() && 2 <= p.IntervalMs() && 0 < p.BlockMs() < p.DeadlineMs()
    ensures p.RemainingMs(OnTimeEntry(p, k)) == 0 <==> TimeUpAt(p) <= k
  {
    AfterCapWithinBlock(p);
    if k < CapCount(p) {
      CapEntry(p, k);
    } else {
      EntryAfterCap(p, k - CapCount(p));
      RestUpIff(AfterCap(p), k - CapCount(p));
    }
  }

  lemma {:induction false} TimeUpIff(p: Plan, k: nat)
    requires p.Valid()
    ensures p.RemainingMs(OnTimeEntry(p, k)) == 0 <==> TimeUpAt(p) <= k
  {
    if p.IntervalMs() == 1 || p.BlockMs() == 0 {
      UnitUpIff(p, k);
    } else if p.DeadlineMs() <= p.BlockMs() {
      OnTimePace(p, k);
    } else {
      CappedUpIff(p, k);
    }
  }

  lemma TimeUpFirst(p: Plan)
    requires p.Valid()
    ensures TimeUpAt(p) == 0 <==> p.Slots() == 0
  {
    TimeUpIff(p, 0);
    StopTargetCovers(p.Deadline(), p.interval);
  }

  // For every plan: the stop test agrees with the clock on every on-time
  // schedule exactly when the capped steps and what they leave add up to the
  // stopping count. Within the block time that is keeping pace.
  lemma StopsWithTimeIff(p: Plan)
    requires p.Valid()
    ensures (forall entries :: OnTime(p, entries) ==> StopsWithTime(p, entries)) <==> TimeUpAt(p) == p.Slots()
    ensures p.DeadlineMs() <= p.BlockMs() ==> (TimeUpAt(p) == p.Slots() <==> KeepsPace(p))
  {
    if TimeUpAt(p) == p.Slots() {
      forall entries, k: nat | OnTime(p, entries) && 1 <= k < |entries|
        ensures StopsAfter(FlashblockNumber(k + 1), p.Deadline(), p.interval) <==> p.RemainingMs(entries[k]) == 0
      {
        OnTimeUnique(p, entries, k);
        TimeUpIff(p, k);
      }
    } else {
      var k := Min(TimeUpAt(p), p.Slots());
      var entries := OnTimeRun(p, k);
      TimeUpFirst(p);
      TimeUpIff(p, k);
      assert entries[k] == OnTimeEntry(p, k);
      assert OnTime(p, entries) && !StopsWithTime(p, entries);
    }
    if p.DeadlineMs() <= p.BlockMs() {
      PaceIsTimeUp(p);
    }
  }

  lemma PaceIsTimeUp(p: Plan)
    requires p.Valid() && p.DeadlineMs() <= p.BlockMs()
    ensures TimeUpAt(p) == p.Slots() <==> KeepsPace(p)
  {
    if KeepsPace(p) {
      var u, n := TimeUpAt(p), p.Slots();
      TimeUpIff(p, u);
      TimeUpIff(p, n);
      OnTimePace(p, u);
      OnTimePace(p, n);
    } else {
      var k := FallsOutOfStep(p);
      TimeUpIff(p, k);
    }
  }

  // The tenth flashblock of a block of two seconds, with 2.3 seconds to the
  // deadline and intervals of 250 ms, ends in time although the targets never
  // agree before the block time is the cap no longer.
  lemma StopsInTimeBeyondBlock(p: Plan)
    requires p.Valid() && p.block.timestamp == p.block.parent.timestamp + 2
    requires p.Deadline() == 2_300 * MILLISECOND && p.interval == 250 * MILLISECOND
    ensures TimeUpAt(p) == p.Slots() == 10 && p.Target(0) == 8 && !KeepsPace(p)
  {
    assert CapLength(p) == p.interval && CapCount(p) == 2 && AfterCap(p).Deadline() == 1_800 * MILLISECOND;
  }

  // --- Full intervals -----------------------------------------------------

  // For every plan: no flashblock after the first is given less than the
  // interval. Beyond the block time the capped steps, the step after them and
  // all that follow have to be full.
  predicate FullIntervals(p: Plan)
    requires p.Valid()
  {
    if p.IntervalMs() == 1 || p.BlockMs() == 0 then true
    else if p.DeadlineMs() <= p.BlockMs() then FractionsFit(p)
    else
      AfterCapWithinBlock(p);
      && (CapCount(p) == 1 || p.BlockMs() % p.IntervalMs() == 0)
      && AfterCap(p).DeadlineMs() % p.IntervalMs() == 0
      && FractionsFit(AfterCap(p))
  }

  ghost predicate FullFromSecond(p: Plan)
    requires p.Valid()
  {
    forall k :: 1 <= k ==> p.NextDeadline(OnTimeEntry(p, k)) == p.interval
  }

  lemma FullWithinBlock(p: Plan)
    requires p.Valid() && p.DeadlineMs() <= p.BlockMs()
    ensures FullFromSecond(p) <==> FractionsFit(p)
  {
    if FractionsFit(p) {
      forall k | 1 <= k
        ensures p.NextDeadline(OnTimeEntry(p, k)) == p.interval
      {
        FullAt(p, k);
      }
    } else {
      var k := ShortenedCell(p);
    }
  }

  lemma {:induction false} FirstIsFull(p: Plan)
    requires p.Valid() && p.DeadlineMs() <= p.BlockMs()
    ensures p.NextDeadline(OnTimeEntry(p, 0)) == p.interval <==> p.DeadlineMs() % p.IntervalMs() == 0
  {
    CappedMs(p, 0);
    var d, w := p.DeadlineMs(), p.IntervalMs();
    assert p.interval >= w * MILLISECOND;
  }

  lemma FullBeyondBlock(p: Plan)
    requires p.Valid() && 0 < p.BlockMs() < p.DeadlineMs() && AfterCap(p).Valid()
    ensures FullFromSecond(p)
            <==> (&& (CapCount(p) == 1 || CapLength(p) == p.interval)
                  && AfterCap(p).NextDeadline(OnTimeEntry(AfterCap(p), 0)) == p.interval
                  && FullFromSecond(AfterCap(p)))
  {
    var m, q := CapCount(p), AfterCap(p);
    forall k: nat
      ensures p.NextDeadline(OnTimeEntry(p, m + k)) == q.NextDeadline(OnTimeEntry(q, k))
    {
      EntryAfterCap(p, k);
    }
    forall k | 1 <= k < m
      ensures p.NextDeadline(OnTimeEntry(p, k)) == CapLength(p)
    {
      CapEntry(p, k);
    }
    if FullFromSecond(p) {
      assert p.NextDeadline(OnTimeEntry(p, m + 0)) == p.interval;
      assert 1 < m ==> p.NextDeadline(OnTimeEntry(p, 1)) == p.interval;
      forall k | 1 <= k
        ensures q.NextDeadline(OnTimeEntry(q, k)) == p.interval
      {
        assert p.NextDeadline(OnTimeEntry(p, m + k)) == p.interval;
      }
    }
    if (m == 1 || CapLength(p) == p.interval) && q.NextDeadline(OnTimeEntry(q, 0)) == p.interval && FullFromSecond(q) {
      forall k | 1 <= k
        ensures p.NextDeadline(OnTimeEntry(p, k)) == p.interval
      {
        if m <= k {
          assert p.NextDeadline(OnTimeEntry(p, m + (k - m))) == q.NextDeadline(OnTimeEntry(q, k - m));
        }
      }
    }
  }

  lemma FullFromSecondIff(p: Plan)
    requires p.Valid()
    ensures FullFromSecond(p) <==> FullIntervals(p)
  {
    if p.IntervalMs() == 1 || p.BlockMs() == 0 {
      forall k | 1 <= k
        ensures p.NextDeadline(OnTimeEntry(p, k)) == p.interval
      {
        UnitEntry(p, k);
      }
    } else if p.DeadlineMs() <= p.BlockMs() {
      FullWithinBlock(p);
    } else {
      AfterCapWithinBlock(p);
      FullBeyondBlock(p);
      FirstIsFull(AfterCap(p));
      FullWithinBlock(AfterCap(p));
      CapLengthFullIff(p);
    }
  }

  lemma CapLengthFullIff(p: Plan)
    requires p.Valid()
    ensures CapLength(p) == p.interval <==> p.BlockMs() % p.IntervalMs() == 0
  {
    assert p.interval >= p.IntervalMs() * MILLISECOND;
  }

  // For every plan, exactly when every flashblock but the first of an on-time
  // schedule is given the whole interval. Within the block time intervals of
  // whole milliseconds always are.
  lemma FullIntervalsIff(p: Plan)
    requires p.Valid()
    ensures (forall entries :: OnTime(p, entries) ==> FullAfterFirst(p, entries)) <==> FullIntervals(p)
    ensures p.WholeMillis() && p.DeadlineMs() <= p.BlockMs() ==> FullIntervals(p)
  {
    FullFromSecondIff(p);
    FullSchedules(p);
    if p.WholeMillis() && p.DeadlineMs() <= p.BlockMs() {
      WholeMillisFit(p);
    }
  }

  lemma WholeMillisFit(p: Plan)
    requires p.Valid() && p.WholeMillis()
    ensures FractionsFit(p)
  {
    var m := SaturatingSub(p.Slots(), if p.DeadlineMs() % p.IntervalMs() == 0 then 1 else 2);
    assert m * (p.interval % MILLISECOND) == 0;
  }

  lemma FullSchedules(p: Plan)
    requires p.Valid()
    ensures (forall entries :: OnTime(p, entries) ==> FullAfterFirst(p, entries)) <==> FullFromSecond(p)
  {
    if FullFromSecond(p) {
      forall entries, k: nat | OnTime(p, entries) && 1 <= k < |entries|
        ensures p.NextDeadline(entries[k]) == p.interval
      {
        OnTimeUnique(p, entries, k);
      }
    } else {
      var k :| 1 <= k && p.NextDeadline(OnTimeEntry(p, k)) != p.interval;
      var entries := OnTimeRun(p, k);
      assert entries[k] == OnTimeEntry(p, k);
      assert OnTime(p, entries) && !FullAfterFirst(p, entries);
    }
  }
}
