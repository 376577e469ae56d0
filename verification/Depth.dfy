/** The confirmation guards of the two monitor loops, in wrapping uint64 arithmetic. */
module Depth {
  import opened Words

  const ETH_USEFUL_BLOCK_NUM: uint64 := 3
  const ONT_USEFUL_BLOCK_NUM: uint64 := 1

  /** The Ethereum tick goes on to its loop. */
  predicate EthTickProceeds(height: uint64, currentHeight: uint64) {
    Sub64(height, currentHeight) > ETH_USEFUL_BLOCK_NUM
  }

  /** The Ethereum loop handles currentHeight + 1. */
  predicate EthLoopRuns(height: uint64, currentHeight: uint64) {
    currentHeight < Sub64(height, ETH_USEFUL_BLOCK_NUM)
  }

  /** While the node is not behind, a tick proceeds and its loop goes on at the same heights, 4 or more below it. */
  lemma EthGuards(height: uint64, c: uint64)
    ensures c <= height ==> (EthTickProceeds(height, c) <==> c + 4 <= height)
    ensures height >= 3 ==> (EthLoopRuns(height, c) <==> c + 4 <= height)
    ensures c > height ==> (EthTickProceeds(height, c) <==> c - height < TWO_64 - 3)
  {
  }

  /**
   A node that fell behind makes the guard's subtraction wrap, so the tick proceeds; the loop then
   handles nothing. Below height 3 its own subtraction wraps as well and the protection is gone.
   */
  lemma EthDepthIff(height: uint64)
    ensures (forall c: uint64 :: EthTickProceeds(height, c) && EthLoopRuns(height, c) ==>
              (c + 1) + 3 <= height)
       <==> height >= 3
    ensures forall c: uint64 :: c > height >= 3 && c - height <= TWO_64 - 4 ==>
              EthTickProceeds(height, c) && !EthLoopRuns(height, c)
  {
    if height < ETH_USEFUL_BLOCK_NUM {
      var c := height + 1;
      assert EthTickProceeds(height, c) && EthLoopRuns(height, c);
    }
  }

  /** The bridge tick goes on to its loop; `status` is LatestBlockHeight. */
  predicate BridgeTickProceeds(status: uint64, currentHeight: uint64) {
    Sub64(Sub64(status, 1), currentHeight) >= ONT_USEFUL_BLOCK_NUM
  }

  /** The bridge loop handles currentHeight. */
  predicate BridgeLoopRuns(status: uint64, currentHeight: uint64) {
    currentHeight <= Sub64(Sub64(status, 1), ONT_USEFUL_BLOCK_NUM)
  }

  /** While the chain is not behind, the same holds of the bridge loop, 2 or more below the status. */
  lemma BridgeGuards(status: uint64, c: uint64)
    ensures 1 <= status && c < status ==> (BridgeTickProceeds(status, c) <==> c + 2 <= status)
    ensures status >= 2 ==> (BridgeLoopRuns(status, c) <==> c + 2 <= status)
    ensures 1 <= status <= c ==> BridgeTickProceeds(status, c)
  {
  }

  /** The bridge loop keeps two blocks of distance exactly when the chain reports height 2 or more. */
  lemma BridgeDepthIff(status: uint64)
    ensures (forall c: uint64 :: BridgeTickProceeds(status, c) && BridgeLoopRuns(status, c) ==> c + 2 <= status)
       <==> status >= 2
  {
    if status < 2 {
      var c := status;
      assert BridgeTickProceeds(status, c) && BridgeLoopRuns(status, c);
    }
  }
}
