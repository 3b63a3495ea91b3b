// How the remaining time and gas of a payload job are split into flashblocks
// (src/limits.rs), and the stopping rule that counts them (src/stop.rs).
module FlashblockLimits {
  import opened Prelude
  import opened Platform

  // Durations are whole nanoseconds.
  type Duration = nat

  const MILLISECOND: Duration := 1_000_000
  const SECOND: Duration := 1_000_000_000

  function AsMillis(d: Duration): nat {
    d / MILLISECOND
  }

  // The range in which the conversion to 64-bit milliseconds does not panic.
  predicate FitsMillis(d: Duration) {
    AsMillis(d) <= U64_MAX
  }

  // A usable interval: anything shorter makes the source divide by zero.
  predicate UsableInterval(interval: Duration) {
    0 < AsMillis(interval) && FitsMillis(interval)
  }

  datatype Limits = Limits(deadline: Option<Duration>, gasLimit: u64)

  // --- src/limits.rs ------------------------------------------------------

  function PartitionTime(blockTime: Duration, remaining: Duration, interval: Duration): (nat, Duration)
    requires UsableInterval(interval) && FitsMillis(Min(remaining, blockTime))
  {
    var remainingMs := AsMillis(Min(remaining, blockTime));
    var intervalMs := AsMillis(interval);
    var firstOffsetMs := remainingMs % intervalMs;
    if firstOffsetMs == 0 then (remainingMs / intervalMs, interval)
    else (remainingMs / intervalMs + 1, firstOffsetMs * MILLISECOND)
  }

  function BlockTime(block: BlockContext): Duration {
    SaturatingSub(block.timestamp, block.parent.timestamp) * SECOND
  }

  function CheckedDiv(a: u64, b: nat): Option<u64> {
    if b == 0 then None
    else
      assert a / b <= a;
      Some(a / b)
  }

  function SaturatingMul(a: u64, b: nat): u64 {
    Min(a * b, U64_MAX)
  }

  // The conditions under which creating limits does not panic.
  predicate CanCreate(block: BlockContext, enclosing: Limits, interval: Duration) {
    enclosing.deadline.Some? && FitsMillis(enclosing.deadline.value) && UsableInterval(interval)
  }

  // Number of flashblocks that still fit and length of the next one, seen from
  // `elapsed` after the start of the job.
  function Partition(block: BlockContext, elapsed: Duration, enclosing: Limits, interval: Duration): (nat, Duration)
    requires CanCreate(block, enclosing, interval)
  {
    var remaining := SaturatingSub(enclosing.deadline.value, elapsed);
    MillisMonotone(Min(remaining, BlockTime(block)), enclosing.deadline.value);
    PartitionTime(BlockTime(block), remaining, interval)
  }

  function GasAllowance(gasLimit: u64, target: nat, number: FlashblockNumber): u64 {
    var share := CheckedDiv(gasLimit, target);
    SaturatingMul(if share.Some? then share.value else gasLimit, number.current)
  }

  function Create(number: FlashblockNumber, block: BlockContext, elapsed: Duration,
                  enclosing: Limits, interval: Duration): Limits
    requires CanCreate(block, enclosing, interval)
  {
    var (target, deadline) := Partition(block, elapsed, enclosing, interval);
    enclosing.(deadline := Some(deadline), gasLimit := GasAllowance(enclosing.gasLimit, target, number))
  }

  // --- src/stop.rs --------------------------------------------------------

  function StopTarget(deadline: Duration, interval: Duration): nat
    requires UsableInterval(interval) && FitsMillis(deadline)
  {
    var deadlineMs := AsMillis(deadline);
    var intervalMs := AsMillis(interval);
    var offsetMs := deadlineMs % intervalMs;
    if offsetMs == 0 then deadlineMs / intervalMs else deadlineMs / intervalMs + 1
  }

  predicate StopsAfter(number: FlashblockNumber, deadline: Duration, interval: Duration)
    requires UsableInterval(interval) && FitsMillis(deadline)
  {
    !(number.current <= StopTarget(deadline, interval))
  }

  // --- Arithmetic of the partition ----------------------------------------

  lemma MillisMonotone(a: Duration, b: Duration)
    requires a <= b
    ensures AsMillis(a) <= AsMillis(b)
  {
  }

  // n is the number of cells of width w needed to cover r.
  ghost predicate Covers(n: nat, w: nat, r: nat) {
    if r == 0 then n == 0 else 0 < n && (n - 1) * w < r <= n * w
  }

  lemma ProductMonotone(a: int, b: int, w: nat)
    requires a <= b
    ensures a * w <= b * w
  {
  }

  lemma Distribute(a: int, b: int, w: int)
    ensures (a + b) * w == a * w + b * w
    ensures (a - b) * w == a * w - b * w
  {
  }

  lemma CoverUnique(n: nat, m: nat, w: nat, r: nat)
    requires Covers(n, w, r) && Covers(m, w, r)
    ensures n == m
  {
    if n < m {
      ProductMonotone(n, m - 1, w);
    } else if m < n {
      ProductMonotone(m, n - 1, w);
    }
  }

  lemma CoverMonotone(n: nat, r: nat, n': nat, r': nat, w: nat)
    requires Covers(n, w, r) && Covers(n', w, r') && r <= r'
    ensures n <= n'
  {
    if n' < n {
      ProductMonotone(n', n - 1, w);
    }
  }

  lemma DivisionCovers(r: nat, w: nat)
    requires 0 < w
    ensures r == (r / w) * w + r % w && 0 <= r % w < w
    ensures Covers(if r % w == 0 then r / w else r / w + 1, w, r)
    ensures r % w != 0 ==> r % w == r - (r / w + 1 - 1) * w
  {
    var q := r / w;
    assert r == q * w + r % w;
    assert (q + 1) * w == q * w + w;
    assert (q - 1) * w == q * w - w;
    if r % w == 0 && 0 < r {
      assert q != 0;
      assert 0 < q;
    }
  }

  // The partition, described by the grid it lays over the remaining time: the
  // count covers the whole milliseconds left, and the first flashblock is what
  // remains of the leftmost cell.
  lemma PartitionOnGrid(blockTime: Duration, remaining: Duration, interval: Duration)
    requires UsableInterval(interval) && FitsMillis(Min(remaining, blockTime))
    ensures var (count, first) := PartitionTime(blockTime, remaining, interval);
            var ms := AsMillis(Min(remaining, blockTime));
            var w := AsMillis(interval);
            && Covers(count, w, ms)
            && 0 < first <= interval
            && (ms % w == 0 ==> first == interval)
            && (ms % w != 0 ==> first == (ms - (count - 1) * w) * MILLISECOND)
  {
    var ms := AsMillis(Min(remaining, blockTime));
    DivisionCovers(ms, AsMillis(interval));
  }

  // For an interval of whole milliseconds the first flashblock always ends on
  // the grid.
  lemma FirstEndsOnGrid(blockTime: Duration, remaining: Duration, interval: Duration)
    requires UsableInterval(interval) && FitsMillis(Min(remaining, blockTime)) && interval % MILLISECOND == 0
    requires 0 < AsMillis(Min(remaining, blockTime))
    ensures var (count, first) := PartitionTime(blockTime, remaining, interval);
            first == (AsMillis(Min(remaining, blockTime)) - (count - 1) * AsMillis(interval)) * MILLISECOND
  {
    var ms, w := AsMillis(Min(remaining, blockTime)), AsMillis(interval);
    PartitionOnGrid(blockTime, remaining, interval);
    DivisionCovers(ms, w);
    if ms % w == 0 {
      var q := ms / w;
      assert (q - 1) * w == q * w - w;
      assert interval == w * MILLISECOND;
    }
  }

  lemma StopTargetCovers(deadline: Duration, interval: Duration)
    requires UsableInterval(interval) && FitsMillis(deadline)
    ensures Covers(StopTarget(deadline, interval), AsMillis(interval), AsMillis(deadline))
  {
    DivisionCovers(AsMillis(deadline), AsMillis(interval));
  }

  // --- The partition is exact ---------------------------------------------

  // Total length of the flashblocks a partition announces.
  function TotalTime(count: nat, first: Duration, interval: Duration): Duration {
    first + SaturatingSub(count, 1) * interval
  }

  // With a whole-millisecond interval and some time left, the partition is the
  // only one whose lengths add up to the whole milliseconds left and whose
  // first flashblock is no longer than the interval; less than a millisecond
  // of the real time is lost.
  lemma PartitionExactAndUnique(blockTime: Duration, remaining: Duration, interval: Duration,
                                count: nat, first: Duration)
    requires UsableInterval(interval) && FitsMillis(Min(remaining, blockTime)) && interval % MILLISECOND == 0
    requires 0 < AsMillis(Min(remaining, blockTime))
    ensures var capped := Min(remaining, blockTime);
            && (PartitionTime(blockTime, remaining, interval) == (count, first)
                <==> (0 < count && 0 < first <= interval
                      && TotalTime(count, first, interval) == AsMillis(capped) * MILLISECOND))
            && 0 <= capped - AsMillis(capped) * MILLISECOND < MILLISECOND
  {
    var ms, w := AsMillis(Min(remaining, blockTime)), AsMillis(interval);
    var (n, f) := PartitionTime(blockTime, remaining, interval);
    PartitionOnGrid(blockTime, remaining, interval);
    FirstEndsOnGrid(blockTime, remaining, interval);
    assert interval == w * MILLISECOND;
    GridTotal(n, f, ms, w);
    if 0 < count && 0 < first <= interval && TotalTime(count, first, interval) == ms * MILLISECOND {
      TotalIsCover(count, first, ms, w);
      CoverUnique(n, count, w, ms);
    }
  }

  lemma GridTotal(n: nat, first: Duration, ms: nat, w: nat)
    requires 0 < n && first == (ms - (n - 1) * w) * MILLISECOND
    ensures TotalTime(n, first, w * MILLISECOND) == ms * MILLISECOND
  {
    var p := (n - 1) * w;
    assert (n - 1) * (w * MILLISECOND) == p * MILLISECOND;
  }

  lemma TotalIsCover(count: nat, first: Duration, ms: nat, w: nat)
    requires 0 < count && 0 < first <= w * MILLISECOND && 0 < ms
    requires TotalTime(count, first, w * MILLISECOND) == ms * MILLISECOND
    ensures Covers(count, w, ms) && first == (ms - (count - 1) * w) * MILLISECOND
  {
    var p := (count - 1) * w;
    assert (count - 1) * (w * MILLISECOND) == p * MILLISECOND;
    assert count * w == p + w;
  }

  // The block time is the whole seconds between the block and its parent, and
  // nothing if the block is not later.
  lemma BlockTimeSpans(block: BlockContext)
    ensures block.parent.timestamp <= block.timestamp ==>
              block.parent.timestamp * SECOND + BlockTime(block) == block.timestamp * SECOND
    ensures block.timestamp <= block.parent.timestamp ==> BlockTime(block) == 0
  {
  }

  // In full generality (any usable interval, any time): the announced lengths
  // add up to the capped remaining time exactly when some whole millisecond is
  // left and the sub-millisecond part of that time is the accumulated
  // sub-millisecond part of the interval.
  lemma TotalTimeExactIff(blockTime: Duration, remaining: Duration, interval: Duration)
    requires UsableInterval(interval) && FitsMillis(Min(remaining, blockTime))
    ensures var (count, first) := PartitionTime(blockTime, remaining, interval);
            var capped := Min(remaining, blockTime);
            TotalTime(count, first, interval) == capped
            <==> (0 < AsMillis(capped)
                  && capped % MILLISECOND
                     == (AsMillis(capped) / AsMillis(interval)) * (interval % MILLISECOND))
  {
    var capped := Min(remaining, blockTime);
    var ms, w, s := AsMillis(capped), AsMillis(interval), interval % MILLISECOND;
    var q := ms / w;
    DivisionCovers(ms, w);
    if 0 < ms {
      assert interval == w * MILLISECOND + s;
      assert q * interval == q * (w * MILLISECOND) + q * s;
      assert q * (w * MILLISECOND) == (q * w) * MILLISECOND;
      if ms % w == 0 {
        assert 0 < q;
        assert interval + (q - 1) * interval == q * interval;
      }
    }
  }

  // Half a millisecond of 10.5 ms is in no flashblock, and half a millisecond
  // alone is given a whole interval.
  lemma TotalTimeOff()
    ensures var (count, first) := PartitionTime(SECOND, 10_500_000, 2 * MILLISECOND);
            TotalTime(count, first, 2 * MILLISECOND) == 10 * MILLISECOND
    ensures var (count, first) := PartitionTime(SECOND, 500_000, 2 * MILLISECOND);
            TotalTime(count, first, 2 * MILLISECOND) == 2 * MILLISECOND
  {
  }

  function RoundUp(ms: nat, w: nat): nat
    requires 0 < w
  {
    (ms + w - 1) / w * w
  }

  // The two count formulas agree at the start of a job exactly when the
  // deadline lies within the block time rounded up to the grid.
  lemma CountsAgreeIff(block: BlockContext, enclosing: Limits, interval: Duration)
    requires CanCreate(block, enclosing, interval)
    ensures Partition(block, 0, enclosing, interval).0 == StopTarget(enclosing.deadline.value, interval)
            <==> AsMillis(enclosing.deadline.value) <= RoundUp(AsMillis(BlockTime(block)), AsMillis(interval))
  {
    var d, b, w := enclosing.deadline.value, BlockTime(block), AsMillis(interval);
    MillisMonotone(Min(d, b), d);
    var n, count := StopTarget(d, interval), Partition(block, 0, enclosing, interval).0;
    StopTargetCovers(d, interval);
    PartitionOnGrid(b, d, interval);
    RoundUpCovers(AsMillis(b), w);
    var cells := (AsMillis(b) + w - 1) / w;
    if d <= b {
      MillisMonotone(d, b);
    } else {
      CoverUnique(count, cells, w, AsMillis(b));
      if AsMillis(d) <= cells * w && n != cells {
        MillisMonotone(b, d);
        CoverMonotone(cells, AsMillis(b), n, AsMillis(d), w);
        ProductMonotone(cells, n - 1, w);
      }
    }
  }

  lemma RoundUpCovers(r: nat, w: nat)
    requires 0 < w
    ensures Covers((r + w - 1) / w, w, r)
    ensures r <= RoundUp(r, w)
  {
    var q, m := (r + w - 1) / w, (r + w - 1) % w;
    assert r + w - 1 == q * w + m;
    assert (q - 1) * w == q * w - w;
    if q == 0 {
      assert q * w == 0;
    }
  }

  // --- Gas ----------------------------------------------------------------

  // For a fixed target n the allowances of flashblocks 1..n are equal steps of
  // floor(G/n) that stay within the enclosing limit and leave less than n gas
  // unassigned at the end; the multiplication never saturates.
  lemma GasPartition(gasLimit: u64, n: nat, k: FlashblockNumber)
    requires 1 <= n && k.current <= n
    ensures GasAllowance(gasLimit, n, k) == k.current * (gasLimit / n)
    ensures GasAllowance(gasLimit, n, k) <= gasLimit
    ensures k.current < n ==> GasAllowance(gasLimit, n, k.Next()) == GasAllowance(gasLimit, n, k) + gasLimit / n
    ensures k.current == n ==> gasLimit - GasAllowance(gasLimit, n, k) < n
  {
    GasShare(gasLimit, n, k);
    if k.current < n {
      GasShare(gasLimit, n, k.Next());
      Distribute(k.current, 1, gasLimit / n);
    }
  }

  lemma GasShare(gasLimit: u64, n: nat, k: FlashblockNumber)
    requires 1 <= n && k.current <= n
    ensures GasAllowance(gasLimit, n, k) == k.current * (gasLimit / n)
    ensures gasLimit - gasLimit % n == n * (gasLimit / n)
    ensures k.current * (gasLimit / n) <= n * (gasLimit / n)
  {
    ProductMonotone(k.current, n, gasLimit / n);
  }

  // Beyond the target the allowance outgrows the enclosing limit, unless the
  // shares it is ahead by fit into the remainder of the division.
  lemma GasWithinLimitIff(gasLimit: u64, n: nat, k: FlashblockNumber)
    requires 1 <= n
    ensures GasAllowance(gasLimit, n, k) <= gasLimit
            <==> (k.current <= n || gasLimit == U64_MAX || (k.current - n) * (gasLimit / n) <= gasLimit % n)
  {
    var share := gasLimit / n;
    assert gasLimit == n * share + gasLimit % n;
    if k.current <= n {
      GasPartition(gasLimit, n, k);
    } else {
      assert k.current * share == n * share + (k.current - n) * share;
      assert share * k.current == k.current * share;
    }
  }

  // With no flashblock left to divide by, each number counts for the whole
  // limit.
  lemma GasWithoutTarget(gasLimit: u64, k: FlashblockNumber)
    ensures gasLimit * k.current <= U64_MAX ==> GasAllowance(gasLimit, 0, k) == gasLimit * k.current
    ensures U64_MAX < gasLimit * k.current ==> GasAllowance(gasLimit, 0, k) == U64_MAX
  {
  }

  lemma ShareShrinks(gasLimit: nat, n: nat, m: nat)
    requires 1 <= n <= m
    ensures gasLimit / m <= gasLimit / n
  {
    var a, b := gasLimit / m, gasLimit / n;
    ProductMonotone(n, m, a);
    QuotientBound(gasLimit, m, a);
    QuotientBound(gasLimit, n, a);
  }

  // a fits into g at least q times.
  lemma QuotientBound(g: nat, a: nat, q: nat)
    requires 1 <= a
    ensures a * q <= g <==> q <= g / a
  {
    var d := g / a;
    assert g == a * d + g % a;
    if q <= d {
      ProductMonotone(q, d, a);
    } else {
      ProductMonotone(d + 1, q, a);
      Distribute(d, 1, a);
    }
  }

  // A smaller target, the zero-target fallback included, and a larger number
  // never shrink the allowance.
  lemma AllowanceMonotone(gasLimit: u64, n: nat, k: FlashblockNumber, n': nat, k': FlashblockNumber)
    requires n' <= n && k.current <= k'.current
    ensures GasAllowance(gasLimit, n, k) <= GasAllowance(gasLimit, n', k')
  {
    var share := if n == 0 then gasLimit else gasLimit / n;
    var share' := if n' == 0 then gasLimit else gasLimit / n';
    if 0 < n' {
      ShareShrinks(gasLimit, n', n);
    } else if 0 < n {
      ShareShrinks(gasLimit, 1, n);
    }
    assert share <= share';
    ProductMonotone(share, share', k.current);
    ProductMonotone(k.current, k'.current, share');
  }
}
