// The platform entities the builder works with: transactions, headers and the
// block under construction, and the 1-indexed flashblock number that every
// checkpoint carries as its context (src/state.rs).
module Platform {
  import opened Prelude

  // A signed transaction, identified by its hash.
  datatype Transaction = Transaction(hash: B256)

  datatype Header = Header(hash: B256, number: u64, timestamp: u64, gasLimit: u64)

  datatype BlockContext = BlockContext(
    payloadId: u64,
    number: u64,
    timestamp: u64,
    parent: Header,
    coinbase: seq<byte>,
    prevRandao: B256,
    parentBeaconBlockRoot: Option<B256>,
    gasLimit: Option<u64>,
    extraData: seq<byte>,
    baseFee: u64)

  datatype FlashblockNumber = FlashblockNumber(current: pos) {
    // The 0-based index under which the flashblock is published.
    function Index(): nat {
      current - 1
    }

    function Next(): FlashblockNumber {
      FlashblockNumber(current + 1)
    }
  }

  const FIRST_FLASHBLOCK := FlashblockNumber(1)

  const ZERO_WORD: B256 :=
    [0, 0, 0, 0, 0, 0, 0, 0, 0, 0, 0, 0, 0, 0, 0, 0,
     0, 0, 0, 0, 0, 0, 0, 0, 0, 0, 0, 0, 0, 0, 0, 0]
}
