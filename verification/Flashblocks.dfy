// What the publisher sends: one flashblock per call of the publish step
// (src/publish.rs).
module Flashblocks {
  import opened Prelude
  import opened Platform
  import opened Checkpoints

  // Facts about the block that do not change during a job.
  datatype BlockBase = BlockBase(
    parentBeaconBlockRoot: B256,
    parentHash: B256,
    feeRecipient: seq<byte>,
    prevRandao: B256,
    blockNumber: u64,
    gasLimit: u64,
    timestamp: u64,
    extraData: seq<byte>,
    baseFeePerGas: u64)
  {
    // Field by field, what it says of a block.
    ghost predicate Describes(block: BlockContext) {
      && blockNumber == block.number && timestamp == block.timestamp
      && parentHash == block.parent.hash && feeRecipient == block.coinbase && prevRandao == block.prevRandao
      && extraData == block.extraData && baseFeePerGas == block.baseFee
      && (block.gasLimit.Some? ==> gasLimit == block.gasLimit.value)
      && (block.gasLimit.None? ==> gasLimit == block.parent.gasLimit)
      && (block.parentBeaconBlockRoot.Some? ==> parentBeaconBlockRoot == block.parentBeaconBlockRoot.value)
      && (block.parentBeaconBlockRoot.None? ==> forall i :: 0 <= i < 32 ==> parentBeaconBlockRoot[i] == 0)
    }
  }

  function BaseOf(block: BlockContext): BlockBase {
    BlockBase(
      if block.parentBeaconBlockRoot.Some? then block.parentBeaconBlockRoot.value else ZERO_WORD,
      block.parent.hash,
      block.coinbase,
      block.prevRandao,
      block.number,
      if block.gasLimit.Some? then block.gasLimit.value else block.parent.gasLimit,
      block.timestamp,
      block.extraData,
      block.baseFee)
  }

  lemma BaseDescribes(block: BlockContext)
    ensures BaseOf(block).Describes(block)
  {
  }

  // A sealed block stands for every header field derived from it; it is
  // determined by the transactions it was built from.
  datatype SealedBlock = SealedBlock(transactions: seq<Transaction>)

  datatype Flashblock = Flashblock(
    base: Option<BlockBase>,
    transactions: seq<Transaction>,
    block: SealedBlock,
    payloadId: u64,
    index: nat,
    blockNumber: u64)

  // How one call of the publish step ends: sealing fails, the transport
  // refuses the message, or the flashblock is sent.
  datatype Outcome = SealFailed | SendFailed | Sent

  // A message is accepted when it serialises and somebody is there to receive
  // it; it is only handed over once the block is sealed.
  function OutcomeOf(seals: bool, serialises: bool, receivers: nat): Outcome {
    if !seals then SealFailed
    else if serialises && 0 < receivers then Sent
    else SendFailed
  }

  datatype ControlFlow = Ok(payload: History) | Break(payload: History)

  // The checkpoints of the current flashblock.
  function UnpublishedPayload(payload: History): seq<Checkpoint> {
    var span := HistorySinceFirstContext(payload, Context(payload));
    if span.Some? then span.value else payload
  }

  function FlashblockFrom(payload: History, base: Option<BlockBase>, block: BlockContext): Flashblock {
    Flashblock(base, Transactions(UnpublishedPayload(payload)), SealedBlock(Transactions(payload)),
               block.payloadId, Context(payload).Index(), block.number)
  }

  datatype PublishResult = PublishResult(flow: ControlFlow, base: Option<BlockBase>, sent: Option<Flashblock>)

  // One call of the publish step. The base is taken as soon as the block is
  // sealed, before it is known whether the transport accepts the message.
  function PublishStep(payload: History, base: Option<BlockBase>, block: BlockContext,
                       outcome: Outcome): PublishResult {
    match outcome
    case SealFailed => PublishResult(Break(payload), base, None)
    case SendFailed => PublishResult(Ok(payload), None, None)
    case Sent =>
      PublishResult(Ok(BarrierWithContext(payload, Context(payload).Next())), None,
                    Some(FlashblockFrom(payload, base, block)))
  }
}
