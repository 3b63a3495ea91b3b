// Flashblock bundles: when they may be included, and what it means for them to
// be ruled out for good (src/bundle.rs).
module Bundles {
  import opened Prelude
  import opened Platform
  import opened Checkpoints
  import opened Pipeline
  import opened JobLemmas

  datatype Bundle = Bundle(
    txs: seq<Transaction>,
    revertingTxHashes: seq<B256>,
    droppingTxHashes: seq<B256>,
    minBlockNumber: Option<u64>,
    maxBlockNumber: Option<u64>,
    minTimestamp: Option<u64>,
    maxTimestamp: Option<u64>,
    minFlashblockNumber: Option<u64>,
    maxFlashblockNumber: Option<u64>)
  {
    predicate IsAllowedToFail(tx: B256) {
      tx in revertingTxHashes
    }

    predicate IsOptional(tx: B256) {
      tx in droppingTxHashes
    }
  }

  datatype Eligibility = Eligible | TemporarilyIneligible | PermanentlyIneligible

  // Number and timestamp of a block, which is all the verdict looks at.
  datatype Slot = Slot(number: u64, timestamp: u64) {
    predicate NotBefore(earlier: Slot) {
      earlier.number <= number && earlier.timestamp <= timestamp
    }
  }

  function SlotOf(block: BlockContext): Slot {
    Slot(block.number, block.timestamp)
  }

  function IsEligible(b: Bundle, block: Slot, number: FlashblockNumber): Eligibility {
    if b.txs == [] then PermanentlyIneligible
    else if b.maxBlockNumber.Some? && b.maxBlockNumber.value < block.number then PermanentlyIneligible
    else if b.minBlockNumber.Some? && b.minBlockNumber.value > block.number then TemporarilyIneligible
    else if b.maxTimestamp.Some? && b.maxTimestamp.value < block.timestamp then PermanentlyIneligible
    else if b.minTimestamp.Some? && b.minTimestamp.value < block.timestamp then TemporarilyIneligible
    else if b.minFlashblockNumber.Some? && b.minFlashblockNumber.value > number.current then TemporarilyIneligible
    else if b.maxFlashblockNumber.Some? && b.maxFlashblockNumber.value < number.current then PermanentlyIneligible
    else Eligible
  }

  predicate IsPermanentlyIneligible(b: Bundle, header: Slot) {
    if b.txs == [] then true
    else if |b.txs| > 1 then true
    else if b.maxBlockNumber.Some? && b.maxBlockNumber.value < header.number then true
    else if b.minBlockNumber.Some? && b.maxBlockNumber.Some? && b.minBlockNumber.value > b.maxBlockNumber.value
    then true
    else if b.maxTimestamp.Some? && b.maxTimestamp.value < header.timestamp then true
    else false
  }

  // --- Feasible slots -----------------------------------------------------

  // Some block at or after the header, and some flashblock of it, could take
  // the bundle.
  ghost predicate EverEligible(b: Bundle, header: Slot) {
    exists block: Slot, number :: block.NotBefore(header) && IsEligible(b, block, number) == Eligible
  }

  function AtLeast(bound: Option<u64>, floor: u64): u64 {
    if bound.Some? then Max(bound.value, floor) else floor
  }

  predicate AtMost(bound: Option<u64>, n: nat) {
    bound.Some? ==> n <= bound.value
  }

  // The windows of the bundle, opened at the header, are all non-empty. The
  // minimum timestamp acts as an upper bound, which is how the source compares
  // it.
  predicate Feasible(b: Bundle, header: Slot) {
    && b.txs != []
    && AtMost(b.maxBlockNumber, AtLeast(b.minBlockNumber, header.number))
    && AtMost(b.maxTimestamp, header.timestamp)
    && AtMost(b.minTimestamp, header.timestamp)
    && AtMost(b.maxFlashblockNumber, AtLeast(b.minFlashblockNumber, 1))
  }

  lemma EverEligibleIff(b: Bundle, header: Slot)
    ensures EverEligible(b, header) <==> Feasible(b, header)
  {
    if Feasible(b, header) {
      var block := Slot(AtLeast(b.minBlockNumber, header.number), header.timestamp);
      var number := FlashblockNumber(AtLeast(b.minFlashblockNumber, 1));
      assert block.NotBefore(header) && IsEligible(b, block, number) == Eligible;
    }
    if EverEligible(b, header) {
      var block: Slot, number :| block.NotBefore(header) && IsEligible(b, block, number) == Eligible;
    }
  }

  // --- Exact verdicts -----------------------------------------------------

  // Which list answers which question, and that neither looks at the other.
  lemma AnswersFromLists(b: Bundle, h: B256, other: seq<B256>)
    ensures b.IsAllowedToFail(h) <==> exists i :: 0 <= i < |b.revertingTxHashes| && b.revertingTxHashes[i] == h
    ensures b.IsOptional(h) <==> exists i :: 0 <= i < |b.droppingTxHashes| && b.droppingTxHashes[i] == h
    ensures b.(droppingTxHashes := other).IsAllowedToFail(h) <==> b.IsAllowedToFail(h)
    ensures b.(revertingTxHashes := other).IsOptional(h) <==> b.IsOptional(h)
  {
  }

  // Exactly when a bundle is ruled out, and exactly when it is put off: the
  // checks decide in their order, so a bundle that is still to come by one
  // check is not ruled out by a later one.
  lemma VerdictIff(b: Bundle, block: Slot, number: FlashblockNumber)
    ensures var early := AtLeast(b.minBlockNumber, block.number) != block.number;
            var stale := !AtMost(b.minTimestamp, block.timestamp);
            var first := b.minFlashblockNumber.Some? && number.current < b.minFlashblockNumber.value;
            && (IsEligible(b, block, number) == PermanentlyIneligible
                <==> (|| b.txs == []
                      || !AtMost(b.maxBlockNumber, block.number)
                      || (!early && !AtMost(b.maxTimestamp, block.timestamp))
                      || (!early && !stale && !first && !AtMost(b.maxFlashblockNumber, number.current))))
            && (IsEligible(b, block, number) == TemporarilyIneligible
                <==> (&& b.txs != []
                      && AtMost(b.maxBlockNumber, block.number)
                      && (early || (AtMost(b.maxTimestamp, block.timestamp) && (stale || first)))))
  {
  }

  // --- The minimum timestamp ----------------------------------------------

  // The verdict with the minimum timestamp as its field describes it
  // (src/bundle.rs:68-70): a time after which the bundle may be included.
  function DocumentedVerdict(b: Bundle, block: Slot, number: FlashblockNumber): Eligibility {
    if b.txs == [] then PermanentlyIneligible
    else if b.maxBlockNumber.Some? && b.maxBlockNumber.value < block.number then PermanentlyIneligible
    else if b.minBlockNumber.Some? && b.minBlockNumber.value > block.number then TemporarilyIneligible
    else if b.maxTimestamp.Some? && b.maxTimestamp.value < block.timestamp then PermanentlyIneligible
    else if b.minTimestamp.Some? && b.minTimestamp.value > block.timestamp then TemporarilyIneligible
    else if b.minFlashblockNumber.Some? && b.minFlashblockNumber.value > number.current then TemporarilyIneligible
    else if b.maxFlashblockNumber.Some? && b.maxFlashblockNumber.value < number.current then PermanentlyIneligible
    else Eligible
  }

  // The verdict is the documented one exactly when the bundle has no minimum
  // timestamp or it is the block's, or when another check decides: one that
  // comes before it, or the minimum flashblock number, which gives the same
  // answer.
  lemma MinTimestampAsDocumentedIff(b: Bundle, block: Slot, number: FlashblockNumber)
    ensures IsEligible(b, block, number) == DocumentedVerdict(b, block, number)
            <==> (|| b.minTimestamp.None?
                  || b.minTimestamp.value == block.timestamp
                  || b.txs == []
                  || !AtMost(b.maxBlockNumber, block.number)
                  || AtLeast(b.minBlockNumber, block.number) != block.number
                  || !AtMost(b.maxTimestamp, block.timestamp)
                  || (b.minFlashblockNumber.Some? && number.current < b.minFlashblockNumber.value))
  {
  }

  function Unbounded(txs: seq<Transaction>): Bundle {
    Bundle(txs, [], [], None, None, None, None, None, None)
  }

  // Otherwise it is wrong both ways round: one second early the bundle is
  // eligible, one second late it is put off, and in no later block is it ever
  // eligible again.
  lemma MinTimestampReversed(tx: Transaction, t: u64, number: u64, flashblock: FlashblockNumber)
    requires 0 < t < U64_MAX
    ensures var b := Unbounded([tx]).(minTimestamp := Some(t));
            && IsEligible(b, Slot(number, t - 1), flashblock) == Eligible
            && DocumentedVerdict(b, Slot(number, t - 1), flashblock) == TemporarilyIneligible
            && IsEligible(b, Slot(number, t + 1), flashblock) == TemporarilyIneligible
            && DocumentedVerdict(b, Slot(number, t + 1), flashblock) == Eligible
            && !EverEligible(b, Slot(number, t + 1))
  {
    EverEligibleIff(Unbounded([tx]).(minTimestamp := Some(t)), Slot(number, t + 1));
  }

  // --- The rejection before the pool --------------------------------------

  // A block at or after the header in the bundle's windows of block numbers and
  // maximum time.
  ghost predicate WindowsOpen(b: Bundle, header: Slot) {
    exists block: Slot :: block.NotBefore(header) && InWindows(b, block)
  }

  ghost predicate InWindows(b: Bundle, block: Slot) {
    && (b.minBlockNumber.Some? ==> b.minBlockNumber.value <= block.number)
    && (b.maxBlockNumber.Some? ==> block.number <= b.maxBlockNumber.value)
    && (b.maxTimestamp.Some? ==> block.timestamp <= b.maxTimestamp.value)
  }

  // A bundle is rejected exactly if it does not have one transaction or no
  // block at or after the header lies in these windows; the minimum timestamp
  // and the flashblock numbers play no part.
  lemma RejectedIff(b: Bundle, header: Slot)
    ensures IsPermanentlyIneligible(b, header) <==> |b.txs| != 1 || !WindowsOpen(b, header)
  {
    if |b.txs| == 1 && !IsPermanentlyIneligible(b, header) {
      var block := Slot(AtLeast(b.minBlockNumber, header.number), header.timestamp);
      assert block.NotBefore(header) && InWindows(b, block);
    }
  }

  // No false positives: a bundle of at most one transaction that is rejected
  // for a header is eligible in no flashblock of no block at or after it, and
  // stays rejected for every such header.
  lemma NoFalsePositives(b: Bundle, header: Slot)
    requires |b.txs| <= 1 && IsPermanentlyIneligible(b, header)
    ensures !EverEligible(b, header)
    ensures forall later: Slot :: later.NotBefore(header) ==> IsPermanentlyIneligible(b, later)
  {
    EverEligibleIff(b, header);
  }

  // For bundles of any size a rejection is wrong exactly when the bundle has
  // several transactions and its windows are open: the size is checked here
  // and nowhere else.
  lemma FalsePositiveIff(b: Bundle, header: Slot)
    ensures IsPermanentlyIneligible(b, header) && EverEligible(b, header)
            <==> 2 <= |b.txs| && Feasible(b, header)
  {
    EverEligibleIff(b, header);
  }

  // The smallest such bundle, rejected for every header and eligible in every
  // block.
  lemma TwoTransactionsRejected(tx: Transaction, header: Slot, number: FlashblockNumber)
    ensures IsPermanentlyIneligible(Unbounded([tx, tx]), header)
    ensures IsEligible(Unbounded([tx, tx]), header, number) == Eligible
  {
  }

  // Where no rejection is made, the bundle is hopeless all the same exactly
  // when its minimum timestamp or its flashblock window is against it.
  lemma FalseNegativeIff(b: Bundle, header: Slot)
    requires !IsPermanentlyIneligible(b, header)
    ensures !EverEligible(b, header)
            <==> (!AtMost(b.minTimestamp, header.timestamp)
                  || !AtMost(b.maxFlashblockNumber, AtLeast(b.minFlashblockNumber, 1)))
  {
    EverEligibleIff(b, header);
  }

  // --- Verdicts within a job ----------------------------------------------

  function Rank(e: Eligibility): nat {
    match e
    case TemporarilyIneligible => 0
    case Eligible => 1
    case PermanentlyIneligible => 2
  }

  lemma {:induction false} NumberGrows(block: BlockContext, prologue: seq<Draft>, lead: nat,
                                       before: seq<Event>, after: seq<Event>)
    ensures var early := Steps(block, StartJob(block, prologue, lead), before);
            var late := Steps(block, StartJob(block, prologue, lead), before + after);
            Context(early.history).current <= Context(late.history).current
  {
    var start := StartJob(block, prologue, lead);
    StartIsSound(block, prologue, lead);
    StepsAreSound(block, start, before);
    StepsAreSound(block, start, before + after);
    StepsAppend(block, start, before, after);
    PublishedGrows(block, Steps(block, start, before), after);
  }

  // As a job goes on, with the block fixed, the verdict on a bundle goes from
  // temporarily ineligible to eligible to permanently ineligible and never
  // back, whatever steps the pipeline takes in between.
  lemma {:induction false} VerdictNeverGoesBack(b: Bundle, block: BlockContext, prologue: seq<Draft>, lead: nat,
                                                before: seq<Event>, after: seq<Event>)
    ensures var early := Steps(block, StartJob(block, prologue, lead), before);
            var late := Steps(block, StartJob(block, prologue, lead), before + after);
            Rank(IsEligible(b, SlotOf(block), Context(early.history)))
            <= Rank(IsEligible(b, SlotOf(block), Context(late.history)))
  {
    NumberGrows(block, prologue, lead, before, after);
  }

  // The checks that look at the block only.
  predicate BlockAdmits(b: Bundle, block: Slot) {
    && b.txs != []
    && AtMost(b.maxBlockNumber, block.number)
    && AtLeast(b.minBlockNumber, block.number) == block.number
    && AtMost(b.maxTimestamp, block.timestamp)
    && AtMost(b.minTimestamp, block.timestamp)
  }

  // While a job is building the flashblock that will get index j, a bundle is
  // eligible exactly when the block admits it and j + 1 is in its window; the
  // flashblocks sent so far are those with indices below j.
  lemma {:induction false} EligibleWhileBuilding(b: Bundle, block: BlockContext, prologue: seq<Draft>, lead: nat,
                                                 events: seq<Event>)
    ensures var job := Steps(block, StartJob(block, prologue, lead), events);
            var j := |job.published|;
            && (IsEligible(b, SlotOf(block), Context(job.history)) == Eligible
                <==> BlockAdmits(b, Slot(block.number, block.timestamp))
                     && (b.minFlashblockNumber.Some? ==> b.minFlashblockNumber.value - 1 <= j)
                     && (b.maxFlashblockNumber.Some? ==> j <= b.maxFlashblockNumber.value - 1))
            && (forall i :: 0 <= i < j ==> job.published[i].index == i)
  {
    StartIsSound(block, prologue, lead);
    StepsAreSound(block, StartJob(block, prologue, lead), events);
  }

  // --- Verdicts across blocks ---------------------------------------------

  // The permanent verdict holds for every later block and every flashblock.
  ghost predicate Absorbed(b: Bundle, block: Slot) {
    forall later: Slot, number ::
      later.NotBefore(block) ==> IsEligible(b, later, number) == PermanentlyIneligible
  }

  // The block alone rules the bundle out.
  predicate RuledOutByBlock(b: Bundle, block: Slot) {
    || b.txs == []
    || !AtMost(b.maxBlockNumber, block.number)
    || (AtLeast(b.minBlockNumber, block.number) == block.number && !AtMost(b.maxTimestamp, block.timestamp))
  }

  // No flashblock number fits, and no later block turns the verdict into a
  // temporary one.
  predicate WindowNeverOpens(b: Bundle) {
    && b.maxFlashblockNumber == Some(0)
    && (b.minFlashblockNumber.Some? ==> b.minFlashblockNumber.value <= 1)
    && (b.minTimestamp.Some? ==>
          (if b.maxTimestamp.Some? then b.maxTimestamp.value else U64_MAX) <= b.minTimestamp.value)
  }

  // A permanent verdict is final exactly when the block gave it, or the
  // flashblock window is empty from the start: otherwise it came from the
  // flashblock number, which starts again at 1 with the next job.
  lemma PermanentIsFinalIff(b: Bundle, block: Slot, number: FlashblockNumber)
    requires IsEligible(b, block, number) == PermanentlyIneligible
    ensures Absorbed(b, block) <==> RuledOutByBlock(b, block) || WindowNeverOpens(b)
  {
    if !RuledOutByBlock(b, block) && !WindowNeverOpens(b) {
      if b.maxFlashblockNumber.value != 0
         || (b.minFlashblockNumber.Some? && 1 < b.minFlashblockNumber.value) {
        assert block.NotBefore(block) && IsEligible(b, block, FIRST_FLASHBLOCK) != PermanentlyIneligible;
      } else {
        var later := Slot(block.number, b.minTimestamp.value + 1);
        assert later.NotBefore(block) && IsEligible(b, later, number) != PermanentlyIneligible;
      }
    }
  }

  // A bundle meant for the first flashblock is ruled out for good by the second
  // one of a job and eligible in the first one of every other.
  lemma PermanentUntilNextJob(tx: Transaction, block: Slot, later: Slot)
    ensures var b := Unbounded([tx]).(maxFlashblockNumber := Some(1));
            && IsEligible(b, block, FIRST_FLASHBLOCK.Next()) == PermanentlyIneligible
            && IsEligible(b, later, FIRST_FLASHBLOCK) == Eligible
  {
  }

  // In particular it is final for bundles without a maximum flashblock number.
  lemma PermanentIsFinalWithoutBound(b: Bundle, block: Slot, number: FlashblockNumber)
    requires b.maxFlashblockNumber == None && IsEligible(b, block, number) == PermanentlyIneligible
    ensures Absorbed(b, block)
  {
    PermanentIsFinalIff(b, block, number);
  }
}
